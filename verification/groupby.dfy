/** `df.groupby(key)[column]` with integer `sum()` and `size()`: one tally per
    distinct key, over the rows carrying that key. */
module GroupBy {
  import opened Seqs

  /** Sum and number of the values of one group; a mean is sum / count. */
  datatype Tally = Tally(sum: int, count: nat)

  /** The predicate selecting the rows of group k. */
  function HasKey<T, K(==)>(key: T -> K, k: K): T -> bool {
    x => key(x) == k
  }

  /** The tally of group k computed directly from its rows. */
  function TallyOf<T, K(==)>(xs: seq<T>, key: T -> K, val: T -> int, k: K): Tally {
    var ys := Filter(xs, HasKey(key, k));
    Tally(Sum(ys, val), |ys|)
  }

  /** What a group-by of xs must produce: a key for every value some row carries
      and no other, and for each key the tally of exactly its rows. */
  ghost predicate IsGrouping<T(!new), K(!new)>(xs: seq<T>, key: T -> K, val: T -> int, m: map<K, Tally>) {
    && m.Keys == (set x | x in xs :: key(x))
    && (forall k :: k in m ==> m[k] == TallyOf(xs, key, val, k) && m[k].count > 0)
  }

  /** Group tallies, accumulated row by row. */
  function Group<T(!new), K(==,!new)>(xs: seq<T>, key: T -> K, val: T -> int): (m: map<K, Tally>)
    ensures IsGrouping(xs, key, val, m)
    decreases |xs|
  {
    if |xs| == 0 then map[]
    else
      var init := xs[..|xs| - 1];
      var last := xs[|xs| - 1];
      assert xs == init + [last];
      GroupStep(init, last, key, val, Group(init, key, val))
  }

  /** Counts one more row of value v under key k. */
  function Bump<K>(m: map<K, Tally>, k: K, v: int): (m': map<K, Tally>)
    ensures m'.Keys == m.Keys + {k}
    ensures m'[k] == if k in m then Tally(m[k].sum + v, m[k].count + 1) else Tally(v, 1)
    ensures forall j :: j in m && j != k ==> m'[j] == m[j]
  {
    var t := if k in m then m[k] else Tally(0, 0);
    m[k := Tally(t.sum + v, t.count + 1)]
  }

  /** Adding one row to a grouping bumps the tally of its key and no other. */
  function GroupStep<T(!new), K(==,!new)>(init: seq<T>, last: T, key: T -> K, val: T -> int, m: map<K, Tally>): (m': map<K, Tally>)
    requires IsGrouping(init, key, val, m)
    ensures IsGrouping(init + [last], key, val, m')
  {
    var m' := Bump(m, key(last), val(last));
    GroupStepKeys(init, last, key, m, m');
    GroupStepTallies(init, last, key, val, m, m');
    m'
  }

  lemma GroupStepKeys<T(!new), K(!new)>(init: seq<T>, last: T, key: T -> K, m: map<K, Tally>, m': map<K, Tally>)
    requires m.Keys == set x | x in init :: key(x)
    requires m'.Keys == m.Keys + {key(last)}
    ensures m'.Keys == set x | x in init + [last] :: key(x)
  {
    assert forall x :: x in init + [last] <==> x in init || x == last;
  }

  lemma GroupStepTallies<T(!new), K(!new)>(init: seq<T>, last: T, key: T -> K, val: T -> int, m: map<K, Tally>, m': map<K, Tally>)
    requires forall k :: k in m ==> m[k] == TallyOf(init, key, val, k) && m[k].count > 0
    requires m.Keys == set x | x in init :: key(x)
    requires m' == Bump(m, key(last), val(last))
    ensures forall k :: k in m' ==> m'[k] == TallyOf(init + [last], key, val, k)
    ensures forall k :: k in m' ==> m'[k].count > 0
  {
    var k0 := key(last);
    forall k | k in m'
      ensures m'[k] == TallyOf(init + [last], key, val, k)
    {
      FilterAppend(init, last, HasKey(key, k));
      if k == k0 {
        BumpedTally(init, last, key, val, m, m');
      }
    }
  }

  /** The tally of the new row's key gains exactly that row. */
  lemma BumpedTally<T(!new), K(!new)>(init: seq<T>, last: T, key: T -> K, val: T -> int, m: map<K, Tally>, m': map<K, Tally>)
    requires forall k :: k in m ==> m[k] == TallyOf(init, key, val, k)
    requires m.Keys == set x | x in init :: key(x)
    requires m' == Bump(m, key(last), val(last))
    ensures m'[key(last)] == TallyOf(init + [last], key, val, key(last))
  {
    var k0 := key(last);
    FilterAppend(init, last, HasKey(key, k0));
    SumAppend(Filter(init, HasKey(key, k0)), last, val);
    if k0 !in m {
      FilterNone(init, HasKey(key, k0));
    }
  }

  /** What a grouped sum of xs must produce: a key for every value some row
      carries and no other, and for each key the sum over exactly its rows. */
  ghost predicate IsSumming<T(!new), K(!new)>(xs: seq<T>, key: T -> K, val: T -> int, m: map<K, int>) {
    && m.Keys == (set x | x in xs :: key(x))
    && (forall k :: k in m ==> m[k] == Sum(Filter(xs, HasKey(key, k)), val))
  }

  /** `groupby(key)[column].sum()`: per key, the sum of the values of its rows. */
  function SumBy<T(!new), K(==,!new)>(xs: seq<T>, key: T -> K, val: T -> int): (m: map<K, int>)
    ensures IsSumming(xs, key, val, m)
  {
    var g := Group(xs, key, val);
    map k | k in g :: g[k].sum
  }

  function Zero<T>(x: T): int { 0 }

  /** `groupby(key).size()`: per key, the number of its rows, never zero. */
  function SizeBy<T(!new), K(==,!new)>(xs: seq<T>, key: T -> K): (m: map<K, nat>)
    ensures m.Keys == (set x | x in xs :: key(x))
    ensures forall k :: k in m ==> m[k] == Count(xs, HasKey(key, k)) && m[k] > 0
  {
    var g := Group(xs, key, Zero);
    map k | k in g :: g[k].count
  }

  /** A group's sum lies between count * lo and count * hi when all its values lie in [lo, hi]. */
  lemma TallyBounds<T(!new), K(!new)>(xs: seq<T>, key: T -> K, val: T -> int, k: K, lo: int, hi: int)
    requires k in Group(xs, key, val)
    requires forall x :: x in xs && key(x) == k ==> lo <= val(x) <= hi
    ensures var t := Group(xs, key, val)[k];
      t.count > 0 && t.count * lo <= t.sum <= t.count * hi
  {
    SumBounds(Filter(xs, HasKey(key, k)), val, lo, hi);
  }
}
