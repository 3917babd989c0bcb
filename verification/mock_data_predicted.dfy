/** src/generate_mock_data.py: the four-column generator. Two draws per row,
    in order: row i takes draw 2i for availability and draw 2i + 1 for the
    prediction noise. The script then appends the calendar columns. */
module MockDataPredicted {
  import opened Calendar
  import opened Records
  import opened RandomWalk
  import opened Schedule
  import Features

  /** The raw draws the availability walk consumes: the even-numbered ones. */
  function AvailabilityDraws(c: Config, draws: seq<nat>): (ds: seq<nat>)
    requires |draws| >= 2 * RowCount(c)
    ensures |ds| == RowCount(c)
    ensures forall i :: 0 <= i < RowCount(c) ==> ds[i] == draws[2 * i]
  {
    seq(RowCount(c), i requires 0 <= i < RowCount(c) => draws[2 * i])
  }

  /** `current_available + np.random.randint(-5, 5)`: noise in [-5, 4], unclamped. */
  function Predicted(available: int, draw: nat): (p: int)
    ensures available - 5 <= p <= available + 4
  {
    available + RandInt(-5, 5, draw)
  }

  /** The table the script builds before appending calendar columns. */
  function Rows(c: Config, draws: seq<nat>): (rows: seq<Record>)
    requires ValidBounds(c.bounds) && |draws| >= 2 * RowCount(c)
    ensures |rows| == RowCount(c)
    ensures forall i :: 0 <= i < |rows| ==>
      && InBounds(c.bounds, rows[i].available)
      && rows[i].predicted.Some?
      && rows[i].available - 5 <= rows[i].predicted.value <= rows[i].available + 4
  {
    var vs := Walk(c.bounds, AvailabilityDraws(c, draws));
    var rows := seq(RowCount(c), i requires 0 <= i < RowCount(c) =>
      Record(TimestampAt(c, i), LocationAt(c, i), vs[i], Some(Predicted(vs[i], draws[2 * i + 1]))));
    assert forall i :: 0 <= i < |rows| ==> rows[i].available == vs[i];
    rows
  }

  /** The script's nested loops. Every randint call reads the next draw of the
      stream: first the availability, then the prediction noise of the same row,
      so the table is Rows and exactly two draws are used per row. */
  method Generate(c: Config, draws: seq<nat>) returns (data: seq<Record>, used: nat)
    requires ValidBounds(c.bounds)
    requires |draws| >= 2 * RowCount(c)
    ensures data == Rows(c, draws)
    ensures used == 2 * |data|
  {
    data := [];
    used := 0;
    var k := 0;
    while k < |c.locations|
      invariant 0 <= k <= |c.locations|
      invariant |data| == k * Ticks(c) <= RowCount(c)
      invariant data == Rows(c, draws)[..|data|]
      invariant used == 2 * |data|
    {
      data, used := AppendLocation(c, draws, k, data, used);
      k := k + 1;
    }
  }

  /** The inner loop for location k: one row per minute from start_time to
      end_time, continuing the walk from the last row of `data`. */
  method AppendLocation(c: Config, draws: seq<nat>, k: nat, data: seq<Record>, cursor: nat) returns (out: seq<Record>, next: nat)
    requires ValidBounds(c.bounds) && |draws| >= 2 * RowCount(c)
    requires k < |c.locations|
    requires |data| == k * Ticks(c) <= RowCount(c)
    requires data == Rows(c, draws)[..|data|]
    requires cursor == 2 * |data|
    ensures |out| == (k + 1) * Ticks(c) <= RowCount(c)
    ensures out == Rows(c, draws)[..|out|]
    ensures next == 2 * |out|
  {
    var n := Ticks(c);
    var rows := Rows(c, draws);
    var location := c.locations[k];
    if n > 0 {
      MulMonotone2(k + 1, |c.locations|, n);
    }
    out := data;
    next := cursor;
    var current := c.start;
    while current <= c.end
      invariant c.start <= current <= c.start + n
      invariant |out| == k * n + (current - c.start) <= |rows|
      invariant out == rows[..|out|]
      invariant next == 2 * |out|
    {
      var i := |out|;
      Layout(c, k, current - c.start);
      var row;
      row, next := DrawRow(c, draws, out, next, current, location);
      out := out + [row];
      assert out == rows[..i + 1];
      current := current + 1;
    }
  }

  /** One pass of the inner loop's body: two randint calls reading the stream
      at the cursor, availability first (from the last row, or the full range
      for the very first row) and then the prediction noise. */
  method DrawRow(c: Config, draws: seq<nat>, out: seq<Record>, cursor: nat, current: Timestamp, location: Location)
    returns (row: Record, next: nat)
    requires ValidBounds(c.bounds) && |draws| >= 2 * RowCount(c)
    requires |out| < RowCount(c) && out == Rows(c, draws)[..|out|]
    requires cursor == 2 * |out|
    requires current == TimestampAt(c, |out|) && location == LocationAt(c, |out|)
    ensures row == Rows(c, draws)[|out|]
    ensures next == cursor + 2
  {
    var b := c.bounds;
    next := cursor;
    var available := if |out| > 0 then Step(b, out[|out| - 1].available, draws[next]) else First(b, draws[next]);
    next := next + 1;
    var predicted := available + RandInt(-5, 5, draws[next]);
    next := next + 1;
    RowAvailable(c, draws, |out|, available);
    row := Record(current, location, available, Some(predicted));
  }

  /** The availability the loop computes for index i is the walk's value i. */
  lemma RowAvailable(c: Config, draws: seq<nat>, i: nat, available: int)
    requires ValidBounds(c.bounds) && |draws| >= 2 * RowCount(c) && i < RowCount(c)
    requires i == 0 ==> available == First(c.bounds, draws[0])
    requires i > 0 ==>
      (InBounds(c.bounds, Rows(c, draws)[i - 1].available)
       && available == Step(c.bounds, Rows(c, draws)[i - 1].available, draws[2 * i]))
    ensures Rows(c, draws)[i] == Record(TimestampAt(c, i), LocationAt(c, i), available, Some(Predicted(available, draws[2 * i + 1])))
  {
    var ds := AvailabilityDraws(c, draws);
    var vs := Walk(c.bounds, ds);
    WalkRecurrence(c.bounds, ds, i);
    if i > 0 {
      assert Rows(c, draws)[i - 1].available == vs[i - 1];
      assert ds[i] == draws[2 * i];
    }
  }

  /** Every row: availability in [min_available, max_available - 1], prediction within
      [availability - 5, availability + 4]; consecutive availabilities, also across a
      change of location, move at most max_delta down and max_delta - 1 up. */
  lemma RowBounds(c: Config, draws: seq<nat>, i: nat)
    requires ValidBounds(c.bounds) && |draws| >= 2 * RowCount(c) && i < RowCount(c)
    ensures var r := Rows(c, draws)[i];
      && InBounds(c.bounds, r.available)
      && r.predicted.Some?
      && r.available - 5 <= r.predicted.value <= r.available + 4
    ensures i > 0 ==>
      var rows := Rows(c, draws);
      rows[i - 1].available - c.bounds.maxDelta <= rows[i].available <= rows[i - 1].available + c.bounds.maxDelta - 1
  {
  }

  /** Only row 0 draws from the full range; the first row of every later location
      steps from the previous location's last row, with the even draw 2i. */
  lemma LocationContinuesWalk(c: Config, draws: seq<nat>, k: nat)
    requires ValidBounds(c.bounds) && |draws| >= 2 * RowCount(c)
    requires k < |c.locations| && Ticks(c) > 0
    ensures k == 0 ==> Rows(c, draws)[0].available == First(c.bounds, draws[0])
    ensures k > 0 ==>
      var i := k * Ticks(c);
      i < RowCount(c) && Rows(c, draws)[i].available == Step(c.bounds, Rows(c, draws)[i - 1].available, draws[2 * i])
  {
    Layout(c, k, 0);
    var i := k * Ticks(c);
    var ds := AvailabilityDraws(c, draws);
    WalkRecurrence(c.bounds, ds, i);
    if k > 0 {
      StepFromEvenDraw(c, draws, i);
    }
  }

  /** Row i > 0 steps from row i - 1's availability with the even draw 2i. */
  lemma StepFromEvenDraw(c: Config, draws: seq<nat>, i: nat)
    requires ValidBounds(c.bounds) && |draws| >= 2 * RowCount(c)
    requires 0 < i < RowCount(c)
    ensures Rows(c, draws)[i].available == Step(c.bounds, Rows(c, draws)[i - 1].available, draws[2 * i])
  {
    WalkRecurrence(c.bounds, AvailabilityDraws(c, draws), i);
  }

  /** The prediction is not clamped to the availability range: when the first
      draw picks min_available and the first noise draw is the lowest, row 0
      predicts min_available - 5. */
  lemma PredictionNotClamped(c: Config, draws: seq<nat>)
    requires ValidBounds(c.bounds) && |draws| >= 2 * RowCount(c) && RowCount(c) > 0
    requires draws[0] == 0 && draws[1] == 0
    ensures Rows(c, draws)[0].available == c.bounds.minAvailable
    ensures Rows(c, draws)[0].predicted == Some(c.bounds.minAvailable - 5)
    ensures !InBounds(c.bounds, Rows(c, draws)[0].predicted.value)
  {
    assert |c.locations| > 0 && Ticks(c) > 0;
    LocationContinuesWalk(c, draws, 0);
    RowPredicted(c, draws, 0);
  }

  /** Row i's prediction is its availability plus the noise of draw 2i + 1. */
  lemma RowPredicted(c: Config, draws: seq<nat>, i: nat)
    requires ValidBounds(c.bounds) && |draws| >= 2 * RowCount(c) && i < RowCount(c)
    ensures Rows(c, draws)[i].predicted == Some(Predicted(Rows(c, draws)[i].available, draws[2 * i + 1]))
  {
  }

  /** Determinism: the table depends on the first 2 * RowCount draws only. */
  lemma SameDrawsSameRows(c: Config, d1: seq<nat>, d2: seq<nat>)
    requires ValidBounds(c.bounds) && |d1| >= 2 * RowCount(c) && |d2| >= 2 * RowCount(c)
    requires d1[..2 * RowCount(c)] == d2[..2 * RowCount(c)]
    ensures Rows(c, d1) == Rows(c, d2)
  {
    var n := RowCount(c);
    forall i | 0 <= i < 2 * n
      ensures d1[i] == d2[i]
    {
      assert d1[i] == d1[..2 * n][i];
    }
    assert AvailabilityDraws(c, d1) == AvailabilityDraws(c, d2);
  }

  /** The exported table: the generated rows with the calendar columns appended (lines 47-55). */
  method GenerateEnriched(c: Config, draws: seq<nat>) returns (table: seq<Features.EnrichedRecord>)
    requires ValidBounds(c.bounds)
    requires |draws| >= 2 * RowCount(c)
    ensures |table| == RowCount(c)
    ensures forall i :: 0 <= i < |table| ==> table[i].record == Rows(c, draws)[i]
    ensures forall i :: 0 <= i < |table| ==> table[i].features == Features.Derive(table[i].record.timestamp)
  {
    var data, _ := Generate(c, draws);
    table := Features.Enrich(data);
  }
}
