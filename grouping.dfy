/**
 * The semantics of `DataFrame.groupby(keys).agg("sum")` that the cleaners rely on:
 * rows whose key holds a missing value are dropped, there is one group per distinct
 * remaining key, and each group's value is the sum of its rows' values, where a missing
 * value counts as zero (pandas' `sum` skips NaN, and a group of only NaN sums to 0).
 *
 * A table is seen column-wise: `ks` is the key column (None when some key cell is
 * missing) and `vs` the value column being summed.
 */
module Grouping {
  import opened Wrappers

  /** The sum of a column. */
  function Sum(vs: seq<real>): real
  {
    if |vs| == 0 then 0.0 else Sum(vs[..|vs| - 1]) + vs[|vs| - 1]
  }

  /** A nullable cell as `sum` reads it: missing counts as zero. */
  function OrZero(v: Option<real>): real
  {
    if v.Some? then v.value else 0.0
  }

  /** No key occurs twice. */
  ghost predicate Distinct<K>(g: seq<K>)
  {
    forall i, j | 0 <= i < j < |g| :: g[i] != g[j]
  }

  /** The group keys: every non-missing key once, in order of first appearance. */
  function GroupKeys<K(==,!new)>(ks: seq<Option<K>>): (g: seq<K>)
    ensures Distinct(g)
    ensures forall k :: k in g <==> Some(k) in ks
  {
    if |ks| == 0 then []
    else
      var g' := GroupKeys(ks[..|ks| - 1]);
      assert ks == ks[..|ks| - 1] + [ks[|ks| - 1]];
      match ks[|ks| - 1]
      case None => g'
      case Some(k) => if k in g' then g' else g' + [k]
  }

  /** The sum of the values of the rows whose key is `k`. */
  function SumFor<K(==)>(ks: seq<Option<K>>, vs: seq<real>, k: K): real
    requires |ks| == |vs|
  {
    if |ks| == 0 then 0.0
    else SumFor(ks[..|ks| - 1], vs[..|vs| - 1], k) + (if ks[|ks| - 1] == Some(k) then vs[|vs| - 1] else 0.0)
  }

  /** The sum of the values of the rows whose key is not missing. */
  function SumKeyed<K>(ks: seq<Option<K>>, vs: seq<real>): real
    requires |ks| == |vs|
  {
    if |ks| == 0 then 0.0
    else SumKeyed(ks[..|ks| - 1], vs[..|vs| - 1]) + (if ks[|ks| - 1].Some? then vs[|vs| - 1] else 0.0)
  }

  /** The column of group sums, one per key of `g`. */
  function GroupSums<K(==)>(ks: seq<Option<K>>, vs: seq<real>, g: seq<K>): (r: seq<real>)
    requires |ks| == |vs|
    ensures |r| == |g|
    ensures forall i | 0 <= i < |g| :: r[i] == SumFor(ks, vs, g[i])
  {
    seq(|g|, i requires 0 <= i < |g| => SumFor(ks, vs, g[i]))
  }

  /** A key that no row carries has sum zero. */
  lemma {:induction false} SumForAbsent<K>(ks: seq<Option<K>>, vs: seq<real>, k: K)
    requires |ks| == |vs|
    requires Some(k) !in ks
    ensures SumFor(ks, vs, k) == 0.0
  {
    if |ks| > 0 {
      assert ks[..|ks| - 1] <= ks;
      SumForAbsent(ks[..|ks| - 1], vs[..|vs| - 1], k);
    }
  }

  /** Appending one row changes the sum of the group sums by that row's share. */
  lemma {:induction false} GroupSumsSnoc<K>(ks: seq<Option<K>>, vs: seq<real>, key: Option<K>, v: real, g: seq<K>)
    requires |ks| == |vs|
    requires Distinct(g)
    ensures Sum(GroupSums(ks + [key], vs + [v], g))
         == Sum(GroupSums(ks, vs, g)) + (if key.Some? && key.value in g then v else 0.0)
  {
    var ks', vs' := ks + [key], vs + [v];
    assert ks'[..|ks'| - 1] == ks && vs'[..|vs'| - 1] == vs;
    if |g| > 0 {
      var h := g[..|g| - 1];
      var last := g[|g| - 1];
      assert GroupSums(ks', vs', g)[..|g| - 1] == GroupSums(ks', vs', h);
      assert GroupSums(ks, vs, g)[..|g| - 1] == GroupSums(ks, vs, h);
      assert Distinct(h);
      GroupSumsSnoc(ks, vs, key, v, h);
      assert key.Some? && key.value == last ==> key.value !in h;
      assert (key.Some? && key.value in g) <==> (key.Some? && key.value in h) || key == Some(last);
    }
  }

  /**
   * Conservation of group-by: the group sums add up to the sum of all rows with a
   * non-missing key, so grouping neither loses nor double-counts a value.
   */
  lemma {:induction false} GroupConservation<K(!new)>(ks: seq<Option<K>>, vs: seq<real>)
    requires |ks| == |vs|
    ensures Sum(GroupSums(ks, vs, GroupKeys(ks))) == SumKeyed(ks, vs)
  {
    if |ks| > 0 {
      var n := |ks| - 1;
      var ks0, vs0 := ks[..n], vs[..n];
      assert ks == ks0 + [ks[n]] && vs == vs0 + [vs[n]];
      var g0 := GroupKeys(ks0);
      GroupConservation(ks0, vs0);
      GroupSumsSnoc(ks0, vs0, ks[n], vs[n], g0);
      var g := GroupKeys(ks);
      if ks[n].Some? && ks[n].value !in g0 {
        var k := ks[n].value;
        assert g == g0 + [k];
        assert GroupSums(ks, vs, g)[..|g0|] == GroupSums(ks, vs, g0);
        SumForAbsent(ks0, vs0, k);
        assert SumFor(ks, vs, k) == vs[n];
      } else {
        assert g == g0;
      }
    }
  }

  /** When every key is present and no key repeats, the groups are the rows themselves. */
  lemma {:induction false} GroupKeysOfDistinct<K(!new)>(ks: seq<Option<K>>)
    requires forall i | 0 <= i < |ks| :: ks[i].Some?
    requires forall i, j | 0 <= i < j < |ks| :: ks[i] != ks[j]
    ensures GroupKeys(ks) == seq(|ks|, i requires 0 <= i < |ks| => ks[i].value)
  {
    if |ks| > 0 {
      GroupKeysOfDistinct(ks[..|ks| - 1]);
    }
  }
}
