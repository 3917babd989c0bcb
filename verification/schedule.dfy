/** The row schedule both generator scripts share: an outer loop over the
    locations and an inner loop from start_time to end_time inclusive, one
    minute per row, so rows are location-major and time-minor. */
module Schedule {
  import opened Calendar
  import opened Records
  import opened RandomWalk

  /** The script's module-level parameters, passed in explicitly. */
  datatype Config = Config(start: Timestamp, end: Timestamp, locations: seq<Location>, bounds: Bounds)

  /** Minutes from start to end inclusive; none when start is after end (the
      inner loop's condition `current_time <= end_time` fails at once). */
  function Ticks(c: Config): (n: nat)
    ensures n > 0 <==> c.start <= c.end
    ensures n > 0 ==> c.start + (n - 1) == c.end
  {
    if c.start <= c.end then c.end - c.start + 1 else 0
  }

  function RowCount(c: Config): nat {
    |c.locations| * Ticks(c)
  }

  /** Row k * ticks + j is tick j of location k, and no other row is. */
  lemma DivModRow(k: int, j: int, n: int)
    requires n > 0 && k >= 0 && 0 <= j < n
    ensures (k * n + j) / n == k
    ensures (k * n + j) % n == j
  {
    var i := k * n + j;
    var q := i / n;
    var r := i % n;
    assert (k - q) * n == r - j;
    if k - q >= 1 {
      MulMonotone(k - q, n);
    } else if q - k >= 1 {
      MulMonotone(q - k, n);
    }
  }

  lemma MulMonotone(a: int, n: int)
    requires a >= 1 && n > 0
    ensures a * n >= n
  {
  }

  /** Index of the location a row belongs to. */
  function LocationIndex(c: Config, i: nat): (k: nat)
    requires i < RowCount(c)
    ensures k < |c.locations|
  {
    QuotientBelow(i, Ticks(c), |c.locations|);
    i / Ticks(c)
  }

  lemma QuotientBelow(i: nat, n: int, m: int)
    requires n > 0 && i < m * n
    ensures 0 <= i / n < m
  {
    if i / n >= m {
      MulMonotone2(m, i / n, n);
      assert false;
    }
  }

  lemma MulMonotone2(a: int, b: int, n: int)
    requires 0 <= a <= b && n > 0
    ensures a * n <= b * n
  {
  }

  /** The location column of row i. */
  function LocationAt(c: Config, i: nat): Location
    requires i < RowCount(c)
  {
    c.locations[LocationIndex(c, i)]
  }

  /** The timestamp column of row i. */
  function TimestampAt(c: Config, i: nat): Timestamp
    requires i < RowCount(c)
  {
    c.start + i % Ticks(c)
  }

  /** Location k's rows are the block k * ticks .. (k + 1) * ticks - 1, holding the
      minutes start, start + 1, ..., end in order. */
  lemma Layout(c: Config, k: nat, j: nat)
    requires k < |c.locations| && j < Ticks(c)
    ensures k * Ticks(c) + j < RowCount(c)
    ensures LocationAt(c, k * Ticks(c) + j) == c.locations[k]
    ensures TimestampAt(c, k * Ticks(c) + j) == c.start + j
    ensures c.start <= TimestampAt(c, k * Ticks(c) + j) <= c.end
  {
    DivModRow(k, j, Ticks(c));
    MulMonotone2(k + 1, |c.locations|, Ticks(c));
  }
}
