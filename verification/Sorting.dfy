/** Stable insertion into order, as the standard library's sorts arrange their elements. */
module Sorting {
  ghost predicate IsOrder<T(!new)>(leq: (T, T) -> bool) {
    && (forall a, b :: leq(a, b) || leq(b, a))
    && (forall a, b, c :: leq(a, b) && leq(b, c) ==> leq(a, c))
  }

  predicate Sorted<T>(leq: (T, T) -> bool, s: seq<T>) {
    forall i, j :: 0 <= i < j < |s| ==> leq(s[i], s[j])
  }

  function Insert<T>(leq: (T, T) -> bool, x: T, s: seq<T>): seq<T> {
    if s == [] || leq(x, s[0]) then [x] + s else [s[0]] + Insert(leq, x, s[1..])
  }

  function Sort<T>(leq: (T, T) -> bool, s: seq<T>): seq<T> {
    if s == [] then [] else Insert(leq, s[0], Sort(leq, s[1..]))
  }

  lemma {:induction false} InsertKeeps<T>(leq: (T, T) -> bool, x: T, s: seq<T>)
    ensures multiset(Insert(leq, x, s)) == multiset(s) + multiset{x}
  {
    if s != [] && !leq(x, s[0]) {
      assert s == [s[0]] + s[1..];
      InsertKeeps(leq, x, s[1..]);
    }
  }

  lemma SortedCons<T>(leq: (T, T) -> bool, x: T, s: seq<T>)
    requires Sorted(leq, s) && forall i :: 0 <= i < |s| ==> leq(x, s[i])
    ensures Sorted(leq, [x] + s)
  {}

  lemma {:induction false} InsertSorts<T(!new)>(leq: (T, T) -> bool, x: T, s: seq<T>)
    requires IsOrder(leq) && Sorted(leq, s)
    ensures Sorted(leq, Insert(leq, x, s))
  {
    if s != [] && leq(x, s[0]) {
      SortedCons(leq, x, s);
    } else if s != [] {
      var tail := Insert(leq, x, s[1..]);
      InsertSorts(leq, x, s[1..]);
      InsertKeeps(leq, x, s[1..]);
      forall i | 0 <= i < |tail|
        ensures leq(s[0], tail[i])
      {
        assert tail[i] in multiset(tail);
        assert tail[i] == x || tail[i] in s[1..];
      }
      SortedCons(leq, s[0], tail);
    }
  }

  /** Sorting yields a sorted arrangement of the same elements. */
  lemma {:induction false} SortSorts<T(!new)>(leq: (T, T) -> bool, s: seq<T>)
    requires IsOrder(leq)
    ensures Sorted(leq, Sort(leq, s)) && multiset(Sort(leq, s)) == multiset(s)
    ensures |Sort(leq, s)| == |s| && forall x :: x in Sort(leq, s) <==> x in s
  {
    if s != [] {
      assert s == [s[0]] + s[1..];
      SortSorts(leq, s[1..]);
      InsertSorts(leq, s[0], Sort(leq, s[1..]));
      InsertKeeps(leq, s[0], Sort(leq, s[1..]));
    }
    assert |multiset(Sort(leq, s))| == |multiset(s)|;
    assert forall x :: x in Sort(leq, s) <==> x in multiset(Sort(leq, s));
    assert forall x :: x in s <==> x in multiset(s);
  }

  /** Sorting what is sorted changes nothing. */
  lemma {:induction false} SortOfSorted<T>(leq: (T, T) -> bool, s: seq<T>)
    requires Sorted(leq, s)
    ensures Sort(leq, s) == s
  {
    if s != [] {
      SortOfSorted(leq, s[1..]);
    }
  }

  ghost predicate TellsApart<T(!new)>(leq: (T, T) -> bool, s: set<T>) {
    && (forall x :: x in s ==> leq(x, x))
    && forall x, y :: x in s && y in s && leq(x, y) && leq(y, x) ==> x == y
  }

  /** Elements that the order tells apart have one sorted arrangement. */
  lemma {:induction false} SortedIsUnique<T(!new)>(leq: (T, T) -> bool, a: seq<T>, b: seq<T>, all: set<T>)
    requires TellsApart(leq, all) && forall x :: x in a ==> x in all
    requires Sorted(leq, a) && Sorted(leq, b) && multiset(a) == multiset(b)
    ensures a == b
  {
    hide TellsApart;
    assert |multiset(a)| == |multiset(b)|;
    if a != [] {
      FirstsAgree(leq, a, b, all);
      assert a == [a[0]] + a[1..] && b == [b[0]] + b[1..];
      assert multiset(a[1..]) == multiset(a) - multiset{a[0]} == multiset(b[1..]);
      SortedIsUnique(leq, a[1..], b[1..], all);
      assert a == b;
    }
  }

  lemma FirstsAgree<T(!new)>(leq: (T, T) -> bool, a: seq<T>, b: seq<T>, all: set<T>)
    requires TellsApart(leq, all) && forall x :: x in a ==> x in all
    requires Sorted(leq, a) && Sorted(leq, b) && multiset(a) == multiset(b) && a != [] && b != []
    ensures a[0] == b[0]
    ensures Sorted(leq, a[1..]) && Sorted(leq, b[1..])
  {
    assert a[0] in multiset(b) && b[0] in multiset(a);
    FirstIsLeast(leq, a, b[0], all);
    assert forall x :: x in b ==> x in multiset(a);
    FirstIsLeast(leq, b, a[0], all);
  }

  lemma FirstIsLeast<T(!new)>(leq: (T, T) -> bool, s: seq<T>, x: T, all: set<T>)
    requires TellsApart(leq, all) && forall x :: x in s ==> x in all
    requires Sorted(leq, s) && x in s
    ensures s != [] && leq(s[0], x) && x in all && s[0] in all
  {
    var i :| 0 <= i < |s| && s[i] == x;
    assert s[0] in s;
  }
}
