/** The bounded random walk both generator scripts draw availability from.
    numpy's generator is abstracted as a stream of raw draws: the k-th call of
    `np.random.randint(lo, hi)` consumes draw k and returns lo + draw mod (hi - lo). */
module RandomWalk {

  /** `np.random.randint(lo, hi)`: the upper bound is exclusive; numpy rejects an empty range. */
  function RandInt(lo: int, hi: int, draw: nat): (r: int)
    requires lo < hi
    ensures lo <= r < hi
  {
    lo + draw % (hi - lo)
  }

  /** Every value of [lo, hi) is produced by some draw: the abstraction loses no outcome. */
  lemma RandIntCovers(lo: int, hi: int, v: int)
    requires lo <= v < hi
    ensures RandInt(lo, hi, v - lo) == v
  {
  }

  /** The generator's parameters: min_available, max_available and max_delta. */
  datatype Bounds = Bounds(minAvailable: int, maxAvailable: int, maxDelta: int)

  /** The script has no validation; these are the conditions under which it never
      calls randint with an empty range. */
  predicate ValidBounds(b: Bounds) {
    b.minAvailable < b.maxAvailable && b.maxDelta >= 1
  }

  /** A value randint(min_available, max_available) can produce: max_available itself is excluded. */
  predicate InBounds(b: Bounds, v: int) {
    b.minAvailable <= v <= b.maxAvailable - 1
  }

  function Max(a: int, b: int): int { if a >= b then a else b }

  function Min(a: int, b: int): int { if a <= b then a else b }

  /** Lower end of the draw window after `prev`. */
  function WindowLo(b: Bounds, prev: int): int {
    Max(b.minAvailable, prev - b.maxDelta)
  }

  /** Exclusive upper end of the draw window after `prev`. */
  function WindowHi(b: Bounds, prev: int): int {
    Min(b.maxAvailable, prev + b.maxDelta)
  }

  /** From an in-bounds value the window is never empty: it always contains `prev`. */
  lemma WindowNonEmpty(b: Bounds, prev: int)
    requires ValidBounds(b) && InBounds(b, prev)
    ensures WindowLo(b, prev) <= prev < WindowHi(b, prev)
  {
  }

  /** The first value of the walk: randint(min_available, max_available). */
  function First(b: Bounds, draw: nat): (v: int)
    requires ValidBounds(b)
    ensures InBounds(b, v)
  {
    RandInt(b.minAvailable, b.maxAvailable, draw)
  }

  /** One step of the walk: randint over the window clamped to the bounds. The step
      is asymmetric: at most max_delta down but at most max_delta - 1 up. */
  function Step(b: Bounds, prev: int, draw: nat): (v: int)
    requires ValidBounds(b) && InBounds(b, prev)
    ensures InBounds(b, v)
    ensures prev - b.maxDelta <= v <= prev + b.maxDelta - 1
  {
    WindowNonEmpty(b, prev);
    RandInt(WindowLo(b, prev), WindowHi(b, prev), draw)
  }

  /** Exactly the window is reachable: every in-bounds value within the step limits is
      the outcome of some draw, so the contract of Step cannot be tightened. */
  lemma StepCovers(b: Bounds, prev: int, v: int)
    requires ValidBounds(b) && InBounds(b, prev) && InBounds(b, v)
    requires prev - b.maxDelta <= v <= prev + b.maxDelta - 1
    ensures Step(b, prev, v - WindowLo(b, prev)) == v
  {
    RandIntCovers(WindowLo(b, prev), WindowHi(b, prev), v);
  }

  /** The walk over a draw stream: one value per draw, the first from the full
      range, each later one a Step from its predecessor. */
  function Walk(b: Bounds, draws: seq<nat>): (vs: seq<int>)
    requires ValidBounds(b)
    ensures |vs| == |draws|
    ensures forall i :: 0 <= i < |vs| ==> InBounds(b, vs[i])
    ensures forall i :: 0 < i < |vs| ==> vs[i - 1] - b.maxDelta <= vs[i] <= vs[i - 1] + b.maxDelta - 1
    decreases |draws|
  {
    if |draws| == 0 then []
    else
      var init := Walk(b, draws[..|draws| - 1]);
      var next := if |init| == 0 then First(b, draws[0]) else Step(b, init[|init| - 1], draws[|draws| - 1]);
      init + [next]
  }

  /** The walk's first k values depend on the first k draws only. */
  lemma {:induction false} WalkPrefix(b: Bounds, draws: seq<nat>, k: nat)
    requires ValidBounds(b) && k <= |draws|
    ensures Walk(b, draws[..k]) == Walk(b, draws)[..k]
    decreases |draws|
  {
    if k < |draws| {
      var init := draws[..|draws| - 1];
      assert init[..k] == draws[..k];
      WalkPrefix(b, init, k);
    } else {
      assert draws[..k] == draws;
    }
  }

  /** The recurrence the generator loop follows: value 0 comes from draw 0 over the
      full range, value i from draw i and value i - 1. */
  lemma WalkRecurrence(b: Bounds, draws: seq<nat>, i: nat)
    requires ValidBounds(b) && i < |draws|
    ensures i == 0 ==> Walk(b, draws)[0] == First(b, draws[0])
    ensures i > 0 ==> Walk(b, draws)[i] == Step(b, Walk(b, draws)[i - 1], draws[i])
  {
    var prefix := draws[..i + 1];
    WalkPrefix(b, draws, i + 1);
    WalkLast(b, prefix);
    assert prefix[..i] == draws[..i];
    if i > 0 {
      WalkPrefix(b, draws, i);
    }
  }

  /** The last value of a walk, from the walk over all draws but the last. */
  lemma WalkLast(b: Bounds, draws: seq<nat>)
    requires ValidBounds(b) && |draws| > 0
    ensures var n := |draws| - 1;
      Walk(b, draws)[n] == if n == 0 then First(b, draws[0]) else Step(b, Walk(b, draws[..n])[n - 1], draws[n])
  {
  }
}
