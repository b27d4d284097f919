/** pandas' `groupby(key)[col].sum()` with its default `sort=True`: one
    `(key, total)` pair per distinct key, keys in ascending order. Generic
    over the key type and its ordering so that dates, ISO weeks and
    category names share one definition. */
module Grouping {

  ghost predicate StrictTotalOrder<K(!new)>(less: (K, K) -> bool) {
    && (forall a :: !less(a, a))
    && (forall a, b, c :: less(a, b) && less(b, c) ==> less(a, c))
    && (forall a, b :: a != b ==> less(a, b) || less(b, a))
  }

  ghost predicate Increasing<K>(xs: seq<K>, less: (K, K) -> bool) {
    forall i, j :: 0 <= i < j < |xs| ==> less(xs[i], xs[j])
  }

  /** `x` added to an ascending sequence of keys, unless already there. */
  function Insert<K(==,!new)>(x: K, xs: seq<K>, less: (K, K) -> bool): (r: seq<K>)
    requires StrictTotalOrder(less) && Increasing(xs, less)
    ensures Increasing(r, less)
    ensures forall k :: k in r <==> k in xs || k == x
  {
    if |xs| == 0 then [x]
    else if x == xs[0] then xs
    else if less(x, xs[0]) then [x] + xs
    else
      var rest := Insert(x, xs[1..], less);
      assert less(xs[0], x);
      assert xs == [xs[0]] + xs[1..];
      assert forall k :: k in rest ==> less(xs[0], k) by {
        forall k | k in rest ensures less(xs[0], k) {
          if k != x {
            var j :| 0 <= j < |xs[1..]| && xs[1..][j] == k;
            assert xs[j + 1] == k;
          }
        }
      }
      [xs[0]] + rest
  }

  /** The distinct keys of `xs` in ascending order. */
  function SortedKeys<K(==,!new)>(xs: seq<K>, less: (K, K) -> bool): (r: seq<K>)
    requires StrictTotalOrder(less)
    ensures Increasing(r, less)
    ensures forall k :: k in r <==> k in xs
  {
    if |xs| == 0 then []
    else
      var r := Insert(xs[|xs| - 1], SortedKeys(xs[..|xs| - 1], less), less);
      assert xs == xs[..|xs| - 1] + [xs[|xs| - 1]];
      r
  }

  /** The sum of the values paired with key `k`. */
  function SumAt<K(==)>(pairs: seq<(K, real)>, k: K): real {
    if |pairs| == 0 then 0.0
    else SumAt(pairs[..|pairs| - 1], k) + (if pairs[|pairs| - 1].0 == k then pairs[|pairs| - 1].1 else 0.0)
  }

  /** The sum of all values. */
  function Total<K>(pairs: seq<(K, real)>): real {
    if |pairs| == 0 then 0.0 else Total(pairs[..|pairs| - 1]) + pairs[|pairs| - 1].1
  }

  function Keys<K>(pairs: seq<(K, real)>): (r: seq<K>)
    ensures |r| == |pairs|
    ensures forall i :: 0 <= i < |pairs| ==> r[i] == pairs[i].0
  {
    seq(|pairs|, i requires 0 <= i < |pairs| => pairs[i].0)
  }

  function TotalsFor<K(==)>(keys: seq<K>, pairs: seq<(K, real)>): (r: seq<(K, real)>)
    ensures |r| == |keys|
    ensures forall i :: 0 <= i < |keys| ==> r[i] == (keys[i], SumAt(pairs, keys[i]))
  {
    seq(|keys|, i requires 0 <= i < |keys| => (keys[i], SumAt(pairs, keys[i])))
  }

  /** `groupby(key).sum()`: one pair per distinct key, keys strictly
      ascending, each paired with the total of that key's values. */
  function GroupSum<K(==,!new)>(pairs: seq<(K, real)>, less: (K, K) -> bool): (r: seq<(K, real)>)
    requires StrictTotalOrder(less)
    ensures Increasing(Keys(r), less)
    ensures forall k :: k in Keys(r) <==> k in Keys(pairs)
    ensures forall i :: 0 <= i < |r| ==> r[i].1 == SumAt(pairs, r[i].0)
  {
    var keys := SortedKeys(Keys(pairs), less);
    var r := TotalsFor(keys, pairs);
    assert Keys(r) == keys;
    assert forall k :: k in Keys(r) <==> k in Keys(pairs);
    r
  }

  /** A key occurs at most once in `keys`. */
  ghost predicate Distinct<K>(keys: seq<K>) {
    forall i, j :: 0 <= i < j < |keys| ==> keys[i] != keys[j]
  }

  lemma IncreasingIsDistinct<K(!new)>(keys: seq<K>, less: (K, K) -> bool)
    requires StrictTotalOrder(less) && Increasing(keys, less)
    ensures Distinct(keys)
  {
  }

  /** Summing over a list of distinct keys the value `v` where the key is
      `k` and zero elsewhere gives `v` if `k` is listed and zero if not. */
  lemma {:induction false} IndicatorSum<K>(keys: seq<K>, k: K, v: real)
    requires Distinct(keys)
    ensures Total(seq(|keys|, i requires 0 <= i < |keys| => (keys[i], if keys[i] == k then v else 0.0)))
            == if k in keys then v else 0.0
  {
    var s := seq(|keys|, i requires 0 <= i < |keys| => (keys[i], if keys[i] == k then v else 0.0));
    if |keys| > 0 {
      var init := keys[..|keys| - 1];
      IndicatorSum(init, k, v);
      assert s[..|s| - 1] == seq(|init|, i requires 0 <= i < |init| => (init[i], if init[i] == k then v else 0.0));
      assert keys == init + [keys[|keys| - 1]];
      if keys[|keys| - 1] == k {
        assert k !in init;
      }
    }
  }

  /** Adding one more pair adds its value to exactly the total of its key. */
  lemma {:induction false} TotalsForSnoc<K>(keys: seq<K>, pairs: seq<(K, real)>, p: (K, real))
    requires Distinct(keys)
    ensures Total(TotalsFor(keys, pairs + [p]))
            == Total(TotalsFor(keys, pairs)) + (if p.0 in keys then p.1 else 0.0)
  {
    var ind := seq(|keys|, i requires 0 <= i < |keys| => (keys[i], if keys[i] == p.0 then p.1 else 0.0));
    IndicatorSum(keys, p.0, p.1);
    SumOfPointwise(TotalsFor(keys, pairs + [p]), TotalsFor(keys, pairs), ind);
  }

  /** Totals add up pointwise. */
  lemma {:induction false} SumOfPointwise<K>(r: seq<(K, real)>, a: seq<(K, real)>, b: seq<(K, real)>)
    requires |r| == |a| == |b|
    requires forall i :: 0 <= i < |r| ==> r[i].1 == a[i].1 + b[i].1
    ensures Total(r) == Total(a) + Total(b)
  {
    if |r| > 0 {
      SumOfPointwise(r[..|r| - 1], a[..|a| - 1], b[..|b| - 1]);
    }
  }

  /** Grouping loses nothing: when every key of `pairs` is listed exactly
      once, the per-key totals add up to the overall total. */
  lemma {:induction false} TotalsConserve<K>(keys: seq<K>, pairs: seq<(K, real)>)
    requires Distinct(keys)
    requires forall i :: 0 <= i < |pairs| ==> pairs[i].0 in keys
    ensures Total(TotalsFor(keys, pairs)) == Total(pairs)
  {
    if |pairs| == 0 {
      ZeroTotals(keys);
    } else {
      var init := pairs[..|pairs| - 1];
      var p := pairs[|pairs| - 1];
      TotalsConserve(keys, init);
      assert pairs == init + [p];
      TotalsForSnoc(keys, init, p);
    }
  }

  lemma {:induction false} ZeroTotals<K>(keys: seq<K>)
    ensures Total(TotalsFor(keys, [])) == 0.0
  {
    if |keys| > 0 {
      ZeroTotals(keys[..|keys| - 1]);
      assert TotalsFor(keys, [])[..|keys| - 1] == TotalsFor(keys[..|keys| - 1], []);
    }
  }

  /** `groupby(key).sum()` conserves the total of the grouped values. */
  lemma GroupSumConserves<K(!new)>(pairs: seq<(K, real)>, less: (K, K) -> bool)
    requires StrictTotalOrder(less)
    ensures Total(GroupSum(pairs, less)) == Total(pairs)
  {
    var keys := SortedKeys(Keys(pairs), less);
    IncreasingIsDistinct(keys, less);
    forall i | 0 <= i < |pairs| ensures pairs[i].0 in keys {
      assert pairs[i].0 == Keys(pairs)[i];
    }
    TotalsConserve(keys, pairs);
  }

  /** The usual order on integers, as a key order. */
  predicate IntLess(a: int, b: int) {
    a < b
  }

  lemma IntLessIsStrictTotalOrder()
    ensures StrictTotalOrder(IntLess)
  {
  }
}
