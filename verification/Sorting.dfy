/** Stable insertion sort for `sorted(..., key=...)`, and the fact every canonical form
    rests on: a sorted listing is determined by its contents. */
module Sorting {

  ghost predicate Total<T(!new)>(le: (T, T) -> bool) {
    && (forall x, y :: le(x, y) || le(y, x))
    && (forall x, y, z :: le(x, y) && le(y, z) ==> le(x, z))
  }

  ghost predicate Sorted<T>(s: seq<T>, le: (T, T) -> bool) {
    forall i, j :: 0 <= i <= j < |s| ==> le(s[i], s[j])
  }

  /** The order never ties two different members of `s`. */
  ghost predicate Separates<T>(s: seq<T>, le: (T, T) -> bool) {
    forall x, y :: x in s && y in s && le(x, y) && le(y, x) ==> x == y
  }

  function Insert<T>(s: seq<T>, x: T, le: (T, T) -> bool): seq<T> {
    if s == [] || le(s[|s| - 1], x) then s + [x]
    else Insert(s[..|s| - 1], x, le) + [s[|s| - 1]]
  }

  lemma {:induction false} InsertPermutes<T>(s: seq<T>, x: T, le: (T, T) -> bool)
    ensures multiset(Insert(s, x, le)) == multiset(s) + multiset{x}
  {
    if s != [] && !le(s[|s| - 1], x) {
      InsertPermutes(s[..|s| - 1], x, le);
      assert s == s[..|s| - 1] + [s[|s| - 1]];
    }
  }

  lemma {:induction false} InsertSorted<T(!new)>(s: seq<T>, x: T, le: (T, T) -> bool)
    requires Total(le) && Sorted(s, le)
    ensures Sorted(Insert(s, x, le), le)
  {
    assert le(x, x);
    if s == [] {
    } else if le(s[|s| - 1], x) {
      forall i | 0 <= i < |s|
        ensures le(s[i], x)
      {
        assert le(s[i], s[|s| - 1]);
      }
    } else {
      var init, last := s[..|s| - 1], s[|s| - 1];
      InsertSorted(init, x, le);
      InsertPermutes(init, x, le);
      assert le(last, last);
      var r := Insert(init, x, le);
      forall i | 0 <= i < |r|
        ensures le(r[i], last)
      {
        assert r[i] in multiset(r);
        assert r[i] in init || r[i] == x;
      }
    }
  }

  function Sort<T(!new)>(s: seq<T>, le: (T, T) -> bool): (r: seq<T>)
    requires Total(le)
    ensures Sorted(r, le) && multiset(r) == multiset(s)
    ensures |r| == |s| && forall x :: x in r <==> x in s
  {
    if s == [] then []
    else
      assert s == s[..|s| - 1] + [s[|s| - 1]];
      var rest := Sort(s[..|s| - 1], le);
      InsertSorted(rest, s[|s| - 1], le);
      InsertPermutes(rest, s[|s| - 1], le);
      var r := Insert(rest, s[|s| - 1], le);
      assert |multiset(r)| == |multiset(s)|;
      assert forall x :: x in r <==> x in multiset(r);
      assert forall x :: x in s <==> x in multiset(s);
      r
  }

  lemma TailMultiset<T>(s: seq<T>)
    requires s != []
    ensures multiset(s[1..]) == multiset(s) - multiset{s[0]}
  {
    assert s == [s[0]] + s[1..];
  }

  lemma {:induction false} SortedUnique<T>(a: seq<T>, b: seq<T>, le: (T, T) -> bool)
    requires Sorted(a, le) && Sorted(b, le) && Separates(a, le)
    requires multiset(a) == multiset(b)
    ensures a == b
  {
    assert |multiset(a)| == |a| && |multiset(b)| == |b|;
    if a != [] {
      assert a[0] in multiset(a) && b[0] in multiset(b);
      assert a[0] in b && b[0] in a;
      assert le(a[0], b[0]) && le(b[0], a[0]);
      TailMultiset(a);
      TailMultiset(b);
      SortedUnique(a[1..], b[1..], le);
      assert a == [a[0]] + a[1..] && b == [b[0]] + b[1..];
    }
  }
}
