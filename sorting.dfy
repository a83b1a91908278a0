/** Python's `sorted`, for lists without repeated elements, as an insertion sort. */
module Sorting {
  import PyStr

  ghost predicate StrictTotalOrder<T(!new)>(less: (T, T) -> bool)
  {
    && (forall a :: !less(a, a))
    && (forall a, b, c :: less(a, b) && less(b, c) ==> less(a, c))
    && (forall a, b :: a != b ==> less(a, b) || less(b, a))
  }

  /** Strictly ascending. */
  ghost predicate SortedBy<T>(s: seq<T>, less: (T, T) -> bool)
  {
    forall i, j :: 0 <= i < j < |s| ==> less(s[i], s[j])
  }

  ghost predicate Distinct<T>(s: seq<T>)
  {
    forall i, j :: 0 <= i < j < |s| ==> s[i] != s[j]
  }

  function Insert<T>(x: T, s: seq<T>, less: (T, T) -> bool): (r: seq<T>)
    ensures multiset(r) == multiset(s) + multiset{x}
    decreases |s|
  {
    if s == [] then [x]
    else if less(s[0], x) then
      assert s == [s[0]] + s[1..];
      [s[0]] + Insert(x, s[1..], less)
    else [x] + s
  }

  /** `sorted(s)` */
  function Sort<T>(s: seq<T>, less: (T, T) -> bool): (r: seq<T>)
    ensures multiset(r) == multiset(s)
    decreases |s|
  {
    if s == [] then []
    else
      assert s == [s[0]] + s[1..];
      Insert(s[0], Sort(s[1..], less), less)
  }

  lemma {:induction false} InsertSorted<T(!new)>(x: T, s: seq<T>, less: (T, T) -> bool)
    requires StrictTotalOrder(less) && SortedBy(s, less) && x !in s
    ensures SortedBy(Insert(x, s, less), less)
    decreases |s|
  {
    if s != [] && less(s[0], x) {
      InsertSorted(x, s[1..], less);
      var r := Insert(x, s[1..], less);
      forall y | y in r ensures less(s[0], y) {
        assert y in multiset(r);
        if y != x {
          assert y in s[1..];
        }
      }
    }
  }

  /** The sorted list holds the same elements, strictly ascending. */
  lemma {:induction false} SortSorted<T(!new)>(s: seq<T>, less: (T, T) -> bool)
    requires StrictTotalOrder(less) && Distinct(s)
    ensures SortedBy(Sort(s, less), less) && multiset(Sort(s, less)) == multiset(s)
    decreases |s|
  {
    if s != [] {
      assert Distinct(s[1..]);
      SortSorted(s[1..], less);
      assert s[0] !in s[1..];
      assert s[0] !in multiset(Sort(s[1..], less));
      InsertSorted(s[0], Sort(s[1..], less), less);
    }
  }

  /** Python compares strings by code point, a proper prefix first: a strict total order. */
  lemma StringOrder()
    ensures StrictTotalOrder(PyStr.Less)
  {
    forall a: PyStr.String { PyStr.LessIrreflexive(a); }
    forall a: PyStr.String, b: PyStr.String, c: PyStr.String | PyStr.Less(a, b) && PyStr.Less(b, c) {
      PyStr.LessTransitive(a, b, c);
    }
    forall a: PyStr.String, b: PyStr.String | a != b { PyStr.LessTotal(a, b); }
  }

  /** `s` is `t` with some elements left out, order kept. */
  ghost predicate Subsequence<T>(s: seq<T>, t: seq<T>)
  {
    exists idx: seq<nat> :: |idx| == |s|
      && (forall i :: 0 <= i < |idx| ==> idx[i] < |t| && s[i] == t[idx[i]])
      && (forall i, j :: 0 <= i < j < |idx| ==> idx[i] < idx[j])
  }

  lemma SubsequenceSnoc<T>(s: seq<T>, t: seq<T>, x: T, keep: bool)
    requires Subsequence(s, t)
    ensures Subsequence(s + (if keep then [x] else []), t + [x])
  {
    var idx: seq<nat> :| |idx| == |s|
      && (forall i :: 0 <= i < |idx| ==> idx[i] < |t| && s[i] == t[idx[i]])
      && (forall i, j :: 0 <= i < j < |idx| ==> idx[i] < idx[j]);
    var t', s' := t + [x], s + (if keep then [x] else []);
    var idx' := idx + (if keep then [|t|] else []);
    assert forall i :: 0 <= i < |idx| ==> t'[idx[i]] == t[idx[i]] && s'[i] == s[i] && idx'[i] == idx[i];
    assert keep ==> s'[|s|] == t'[|t|] && idx'[|s|] == |t|;
    assert |idx'| == |s'|
      && (forall i :: 0 <= i < |idx'| ==> idx'[i] < |t'| && s'[i] == t'[idx'[i]])
      && (forall i, j :: 0 <= i < j < |idx'| ==> idx'[i] < idx'[j]);
  }

  /** Leaving elements out of a sorted list keeps it sorted. */
  lemma SubsequenceSorted<T>(s: seq<T>, t: seq<T>, less: (T, T) -> bool)
    requires Subsequence(s, t) && SortedBy(t, less)
    ensures SortedBy(s, less)
  {
    var idx: seq<nat> :| |idx| == |s|
      && (forall i :: 0 <= i < |idx| ==> idx[i] < |t| && s[i] == t[idx[i]])
      && (forall i, j :: 0 <= i < j < |idx| ==> idx[i] < idx[j]);
    forall i, j | 0 <= i < j < |s| ensures less(s[i], s[j]) {
      assert s[i] == t[idx[i]] && s[j] == t[idx[j]];
    }
  }
}
