/**
 * Facts about lists built by a fixed sequence of independent checks, each of
 * which appends at most one item: such a list is the checks' items filtered
 * by which checks fired, so it keeps their order and repeats nothing.
 */
module Sequences {

  predicate Distinct<T(==)>(s: seq<T>) {
    forall i, j :: 0 <= i < j < |s| ==> s[i] != s[j]
  }

  /** Position of the first occurrence of `x`. */
  function IndexOf<T(==)>(s: seq<T>, x: T): (i: nat)
    requires x in s
    ensures i < |s| && s[i] == x
    ensures forall j :: 0 <= j < i ==> s[j] != x
  {
    if s[0] == x then 0 else 1 + IndexOf(s[1..], x)
  }

  /** Appending one item moves no first occurrence; an item found only at the end is found there. */
  lemma IndexOfSnoc<T>(s: seq<T>, x: T, y: T)
    requires y in s + [x]
    ensures y in s ==> IndexOf(s + [x], y) == IndexOf(s, y)
    ensures y !in s ==> IndexOf(s + [x], y) == |s|
  {
    var i := IndexOf(s + [x], y);
    if y in s {
      var i1 := IndexOf(s, y);
      assert (s + [x])[i1] == y;
      assert i <= i1;
      assert s[i] == y;
    } else {
      assert forall j :: 0 <= j < |s| ==> (s + [x])[j] == s[j];
    }
  }

  lemma IndexOfDistinct<T>(s: seq<T>, i: int)
    requires Distinct(s) && 0 <= i < |s|
    ensures IndexOf(s, s[i]) == i
  {
  }

  /** One item appended when `b` holds: `$list[] = $x` under an `if`. */
  function Pick<T>(b: bool, x: T): seq<T> {
    if b then [x] else []
  }

  /** The items among the first `k` of `s` whose flag is set, in the order of `s`. */
  function FilterUpTo<T>(flags: seq<bool>, s: seq<T>, k: nat): (r: seq<T>)
    requires |flags| == |s| && k <= |s|
    ensures |r| <= k
  {
    if k == 0 then [] else FilterUpTo(flags, s, k - 1) + Pick(flags[k - 1], s[k - 1])
  }

  /** The items of `s` whose flag is set, in the order of `s`. */
  function Filter<T>(flags: seq<bool>, s: seq<T>): (r: seq<T>)
    requires |flags| == |s|
    ensures |r| <= |s|
  {
    FilterUpTo(flags, s, |s|)
  }

  /**
   * Among distinct items, the first `k` filtered hold only items of
   * `s[..k]`, hold item `i < k` exactly when flag `i` is set, and follow
   * the order of `s`.
   */
  lemma {:induction false} FilterUpToFacts<T>(flags: seq<bool>, s: seq<T>, k: nat)
    requires |flags| == |s| && k <= |s| && Distinct(s)
    ensures forall x :: x in FilterUpTo(flags, s, k) ==> x in s && IndexOf(s, x) < k
    ensures forall i :: 0 <= i < k ==> (s[i] in FilterUpTo(flags, s, k) <==> flags[i])
    ensures forall a, b :: 0 <= a < b < |FilterUpTo(flags, s, k)| ==>
              IndexOf(s, FilterUpTo(flags, s, k)[a]) < IndexOf(s, FilterUpTo(flags, s, k)[b])
  {
    if k > 0 {
      FilterUpToFacts(flags, s, k - 1);
      var r' := FilterUpTo(flags, s, k - 1);
      var r := FilterUpTo(flags, s, k);
      assert r == r' + Pick(flags[k - 1], s[k - 1]);
      IndexOfDistinct(s, k - 1);
      forall x | x in r ensures x in s && IndexOf(s, x) < k {
        if x !in r' {
          assert x == s[k - 1];
        }
      }
      forall i | 0 <= i < k ensures s[i] in r <==> flags[i] {
        if i < k - 1 {
          assert s[i] != s[k - 1];
          IndexOfDistinct(s, i);
        }
      }
      forall a, b | 0 <= a < b < |r| ensures IndexOf(s, r[a]) < IndexOf(s, r[b]) {
        assert r[a] == r'[a];
        assert r[a] in r';
        if b >= |r'| {
          assert r[b] == s[k - 1];
        } else {
          assert r[b] == r'[b];
        }
      }
    }
  }

  /**
   * A filtered list of distinct items holds only items of `s`, holds item `i`
   * exactly when flag `i` is set, and lists them in the order of `s`.
   */
  lemma FilterFacts<T>(flags: seq<bool>, s: seq<T>)
    requires |flags| == |s| && Distinct(s)
    ensures forall x :: x in Filter(flags, s) ==> x in s
    ensures forall i :: 0 <= i < |s| ==> (s[i] in Filter(flags, s) <==> flags[i])
    ensures forall a, b :: 0 <= a < b < |Filter(flags, s)| ==>
              IndexOf(s, Filter(flags, s)[a]) < IndexOf(s, Filter(flags, s)[b])
  {
    FilterUpToFacts(flags, s, |s|);
  }
}
