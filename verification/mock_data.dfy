/** data/generate_mock_data.py: the three-column generator. One draw per row:
    row i takes draw i, so the table is a function of the draw stream. */
module MockData {
  import opened Calendar
  import opened Records
  import opened RandomWalk
  import opened Schedule

  /** Availability column: the walk over the first RowCount draws. */
  function Availability(c: Config, draws: seq<nat>): (vs: seq<int>)
    requires ValidBounds(c.bounds) && |draws| >= RowCount(c)
    ensures |vs| == RowCount(c)
  {
    Walk(c.bounds, draws[..RowCount(c)])
  }

  /** The table the script writes, row by row. */
  function Rows(c: Config, draws: seq<nat>): (rows: seq<Record>)
    requires ValidBounds(c.bounds) && |draws| >= RowCount(c)
    ensures |rows| == RowCount(c)
    ensures forall i :: 0 <= i < |rows| ==> InBounds(c.bounds, rows[i].available) && rows[i].predicted == None
    ensures forall i :: 0 < i < |rows| ==>
      rows[i - 1].available - c.bounds.maxDelta <= rows[i].available <= rows[i - 1].available + c.bounds.maxDelta - 1
  {
    var vs := Availability(c, draws);
    seq(RowCount(c), i requires 0 <= i < RowCount(c) =>
      Record(TimestampAt(c, i), LocationAt(c, i), vs[i], None))
  }

  /** The script's nested loops: for each location, for each minute from
      start_time to end_time, draw the next availability from the window around
      the last row written so far (`data[-1]`, whatever its location), or from
      the full range for the very first row. */
  method Generate(c: Config, draws: seq<nat>) returns (data: seq<Record>, used: nat)
    requires ValidBounds(c.bounds)
    requires |draws| >= RowCount(c)
    ensures data == Rows(c, draws)
    ensures used == |data|
  {
    data := [];
    used := 0;
    var k := 0;
    while k < |c.locations|
      invariant 0 <= k <= |c.locations|
      invariant |data| == k * Ticks(c) <= RowCount(c)
      invariant data == Rows(c, draws)[..|data|]
      invariant used == |data|
    {
      data, used := AppendLocation(c, draws, k, data, used);
      k := k + 1;
    }
  }

  /** The inner loop for location k: one row per minute from start_time to
      end_time, continuing the walk from the last row of `data`. */
  method AppendLocation(c: Config, draws: seq<nat>, k: nat, data: seq<Record>, cursor: nat) returns (out: seq<Record>, next: nat)
    requires ValidBounds(c.bounds) && |draws| >= RowCount(c)
    requires k < |c.locations|
    requires |data| == k * Ticks(c) <= RowCount(c)
    requires data == Rows(c, draws)[..|data|]
    requires cursor == |data|
    ensures |out| == (k + 1) * Ticks(c) <= RowCount(c)
    ensures out == Rows(c, draws)[..|out|]
    ensures next == |out|
  {
    var b := c.bounds;
    var n := Ticks(c);
    var rows := Rows(c, draws);
    var location := c.locations[k];
    if n > 0 {
      MulMonotone2(k + 1, |c.locations|, n);
    }
    out := data;
    next := cursor;
    var current := c.start;
    while current <= c.end
      invariant c.start <= current <= c.start + n
      invariant |out| == k * n + (current - c.start) <= |rows|
      invariant out == rows[..|out|]
      invariant next == |out|
    {
      var i := |out|;
      Layout(c, k, current - c.start);
      assert TimestampAt(c, i) == current && LocationAt(c, i) == location;
      assert i > 0 ==> out[i - 1] == rows[i - 1];
      var available := if |out| > 0 then Step(b, out[|out| - 1].available, draws[next]) else First(b, draws[next]);
      next := next + 1;
      NextRow(c, draws, i, available);
      out := out + [Record(current, location, available, None)];
      assert out == rows[..i + 1];
      current := current + 1;
    }
  }

  /** The row the loop appends at index i is row i of the table. */
  lemma NextRow(c: Config, draws: seq<nat>, i: nat, available: int)
    requires ValidBounds(c.bounds) && |draws| >= RowCount(c) && i < RowCount(c)
    requires i == 0 ==> available == First(c.bounds, draws[0])
    requires i > 0 ==>
      (InBounds(c.bounds, Rows(c, draws)[i - 1].available)
       && available == Step(c.bounds, Rows(c, draws)[i - 1].available, draws[i]))
    ensures Rows(c, draws)[..i + 1] == Rows(c, draws)[..i] + [Record(TimestampAt(c, i), LocationAt(c, i), available, None)]
  {
    WalkRecurrence(c.bounds, draws[..RowCount(c)], i);
  }

  /** Every availability lies in [min_available, max_available - 1]. */
  lemma AvailabilityInBounds(c: Config, draws: seq<nat>, i: nat)
    requires ValidBounds(c.bounds) && |draws| >= RowCount(c) && i < RowCount(c)
    ensures InBounds(c.bounds, Rows(c, draws)[i].available)
  {
  }

  /** Consecutive rows, also across a change of location, move at most max_delta
      down and max_delta - 1 up. */
  lemma ConsecutiveRows(c: Config, draws: seq<nat>, i: nat)
    requires ValidBounds(c.bounds) && |draws| >= RowCount(c) && 0 < i < RowCount(c)
    ensures var rows := Rows(c, draws);
      rows[i - 1].available - c.bounds.maxDelta <= rows[i].available <= rows[i - 1].available + c.bounds.maxDelta - 1
  {
  }

  /** Only row 0 draws from the full range; the first row of every later location
      steps from the previous location's last row. */
  lemma LocationContinuesWalk(c: Config, draws: seq<nat>, k: nat)
    requires ValidBounds(c.bounds) && |draws| >= RowCount(c)
    requires k < |c.locations| && Ticks(c) > 0
    ensures k == 0 ==> Rows(c, draws)[0].available == First(c.bounds, draws[0])
    ensures k > 0 ==>
      var i := k * Ticks(c);
      i < RowCount(c) && Rows(c, draws)[i].available == Step(c.bounds, Rows(c, draws)[i - 1].available, draws[i])
  {
    Layout(c, k, 0);
    WalkRecurrence(c.bounds, draws[..RowCount(c)], k * Ticks(c));
  }

  /** Each location contributes ticks rows, one per minute from start to end
      inclusive, in the block k * ticks .. (k + 1) * ticks - 1. */
  lemma RowsOfLocation(c: Config, draws: seq<nat>, k: nat, j: nat)
    requires ValidBounds(c.bounds) && |draws| >= RowCount(c)
    requires k < |c.locations| && j < Ticks(c)
    ensures k * Ticks(c) + j < |Rows(c, draws)|
    ensures Rows(c, draws)[k * Ticks(c) + j].location == c.locations[k]
    ensures Rows(c, draws)[k * Ticks(c) + j].timestamp == c.start + j
    ensures Rows(c, draws)[k * Ticks(c) + j].predicted == None
  {
    Layout(c, k, j);
  }

  /** Determinism: two draw streams that agree on the first RowCount draws give the same table. */
  lemma SameDrawsSameRows(c: Config, d1: seq<nat>, d2: seq<nat>)
    requires ValidBounds(c.bounds) && |d1| >= RowCount(c) && |d2| >= RowCount(c)
    requires d1[..RowCount(c)] == d2[..RowCount(c)]
    ensures Rows(c, d1) == Rows(c, d2)
  {
  }
}
