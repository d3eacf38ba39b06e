/** Python's `sorted`: a stable sort by an arbitrary total preorder. */
module Sorting {

  ghost predicate TotalPreorder<T(!new)>(le: (T, T) -> bool) {
    && (forall a, b :: le(a, b) || le(b, a))
    && (forall a, b, c :: le(a, b) && le(b, c) ==> le(a, c))
  }

  ghost predicate SortedBy<T(!new)>(le: (T, T) -> bool, s: seq<T>) {
    forall i, j :: 0 <= i < j < |s| ==> le(s[i], s[j])
  }

  /** Puts x in front of the first element that may follow it, so x stays ahead of its equals. */
  function Insert<T>(le: (T, T) -> bool, x: T, s: seq<T>): seq<T> {
    if s == [] || le(x, s[0]) then [x] + s else [s[0]] + Insert(le, x, s[1..])
  }

  function Sort<T>(le: (T, T) -> bool, s: seq<T>): seq<T> {
    if s == [] then [] else Insert(le, s[0], Sort(le, s[1..]))
  }

  lemma {:induction false} InsertSorts<T(!new)>(le: (T, T) -> bool, x: T, s: seq<T>)
    requires TotalPreorder(le) && SortedBy(le, s)
    ensures SortedBy(le, Insert(le, x, s))
    ensures multiset(Insert(le, x, s)) == multiset{x} + multiset(s)
  {
    if s == [] {
    } else if le(x, s[0]) {
      assert multiset([x] + s) == multiset{x} + multiset(s);
    } else {
      var t := Insert(le, x, s[1..]);
      InsertSorts(le, x, s[1..]);
      assert s == [s[0]] + s[1..];
      forall y | y in t ensures le(s[0], y) {
        assert y in multiset(t);
        assert y == x || y in s[1..];
      }
    }
  }

  /** The sort orders its input and loses or invents nothing. */
  lemma {:induction false} SortIsSortedPermutation<T(!new)>(le: (T, T) -> bool, s: seq<T>)
    requires TotalPreorder(le)
    ensures SortedBy(le, Sort(le, s))
    ensures multiset(Sort(le, s)) == multiset(s)
    ensures |Sort(le, s)| == |s|
  {
    if s == [] {
    } else {
      SortIsSortedPermutation(le, s[1..]);
      InsertSorts(le, s[0], Sort(le, s[1..]));
      assert s == [s[0]] + s[1..];
    }
    assert |Sort(le, s)| == |multiset(Sort(le, s))| == |multiset(s)| == |s|;
  }

  /** The elements that the sort key does not tell apart from the pivot. */
  function Tied<T>(le: (T, T) -> bool, pivot: T, s: seq<T>): seq<T> {
    if s == [] then []
    else (if le(s[0], pivot) && le(pivot, s[0]) then [s[0]] else []) + Tied(le, pivot, s[1..])
  }

  lemma {:induction false} TiedInsert<T(!new)>(le: (T, T) -> bool, x: T, s: seq<T>, pivot: T)
    requires forall y :: y in s && le(x, pivot) && le(pivot, y) ==> le(x, y)
    ensures Tied(le, pivot, Insert(le, x, s)) == Tied(le, pivot, [x]) + Tied(le, pivot, s)
  {
    if s == [] || le(x, s[0]) {
      assert ([x] + s)[1..] == s;
    } else {
      TiedInsert(le, x, s[1..], pivot);
      var t := Insert(le, x, s[1..]);
      assert ([s[0]] + t)[1..] == t;
    }
  }

  /** Stability: the elements tied with any pivot keep their original relative order. */
  lemma {:induction false} SortIsStable<T(!new)>(le: (T, T) -> bool, s: seq<T>, pivot: T)
    requires TotalPreorder(le)
    ensures Tied(le, pivot, Sort(le, s)) == Tied(le, pivot, s)
  {
    if s == [] {
    } else {
      SortIsStable(le, s[1..], pivot);
      TiedInsert(le, s[0], Sort(le, s[1..]), pivot);
    }
  }

  ghost predicate Distinct<T(!new)>(s: seq<T>) {
    forall i, j :: 0 <= i < j < |s| ==> s[i] != s[j]
  }

  lemma {:induction false} DistinctIffSingle<T(!new)>(s: seq<T>)
    ensures Distinct(s) <==> forall x :: multiset(s)[x] <= 1
  {
    if s == [] {
    } else {
      var rest := s[1..];
      DistinctIffSingle(rest);
      assert s == [s[0]] + rest;
      assert forall x :: multiset(s)[x] == multiset(rest)[x] + (if x == s[0] then 1 else 0);
      assert s[0] in rest <==> multiset(rest)[s[0]] > 0;
      assert Distinct(s) <==> Distinct(rest) && s[0] !in rest;
    }
  }

  lemma PermutationKeepsDistinct<T(!new)>(s: seq<T>, t: seq<T>)
    requires Distinct(s) && multiset(s) == multiset(t)
    ensures Distinct(t)
  {
    DistinctIffSingle(s);
    DistinctIffSingle(t);
  }

  lemma DistinctConcat<T(!new)>(a: seq<T>, b: seq<T>)
    requires Distinct(a) && Distinct(b) && forall x :: x in a ==> x !in b
    ensures Distinct(a + b)
  {
    assert forall i :: 0 <= i < |a| ==> a[i] in a;
    assert forall j :: 0 <= j < |b| ==> b[j] in b;
  }
}
