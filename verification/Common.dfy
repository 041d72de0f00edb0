/** Failure-carrying results and the sequence vocabulary shared by every component. */
module Common {

  datatype Option<+T> = None | Some(value: T)

  datatype Result<+T, +E> = Ok(value: T) | Err(error: E) {
    predicate IsFailure() { Err? }
    function PropagateFailure<U>(): Result<U, E>
      requires Err?
    {
      Err(error)
    }
    function Extract(): T
      requires Ok?
    {
      value
    }
  }

  /** Timestamps are integers counting microseconds. */
  const SECOND := 1_000_000

  ghost predicate Distinct<T>(s: seq<T>) {
    forall i, j :: 0 <= i < j < |s| ==> s[i] != s[j]
  }

  function Elements<T>(s: seq<T>): set<T> {
    set x | x in s
  }

  function Min(a: int, b: int): int { if a <= b then a else b }

  function Max(a: int, b: int): int { if a <= b then b else a }

  lemma DistinctAppend<T>(s: seq<T>, t: seq<T>)
    requires Distinct(s) && Distinct(t)
    requires forall x :: x in s ==> x !in t
    ensures Distinct(s + t)
  {
    var u := s + t;
    forall i, j | 0 <= i < j < |u|
      ensures u[i] != u[j]
    {
      if i < |s| <= j {
        assert u[i] in s && u[j] in t;
      }
    }
  }

  /** A duplicate-free sequence has as many entries as elements. */
  lemma {:induction false} DistinctCardinality<T>(s: seq<T>)
    requires Distinct(s)
    ensures |Elements(s)| == |s|
  {
    if s != [] {
      var init := s[..|s| - 1];
      var last := s[|s| - 1];
      DistinctCardinality(init);
      assert s == init + [last];
      assert Elements(s) == Elements(init) + {last};
      assert last !in Elements(init);
    }
  }

  /** Two duplicate-free listings of one set are permutations of each other. */
  lemma {:induction false} DistinctSameMultiset<T>(s: seq<T>, t: seq<T>)
    requires Distinct(s) && Distinct(t)
    requires forall x :: x in s <==> x in t
    ensures multiset(s) == multiset(t)
  {
    forall x
      ensures multiset(s)[x] == multiset(t)[x]
    {
      DistinctCount(s, x);
      DistinctCount(t, x);
    }
  }

  lemma {:induction false} DistinctCount<T>(s: seq<T>, x: T)
    requires Distinct(s)
    ensures multiset(s)[x] == if x in s then 1 else 0
  {
    if s != [] {
      var init := s[..|s| - 1];
      assert s == init + [s[|s| - 1]];
      DistinctCount(init, x);
    }
  }

  lemma DistinctPermutation<T>(s: seq<T>, t: seq<T>)
    requires Distinct(s) && multiset(s) == multiset(t)
    ensures Distinct(t)
  {
    forall i, j | 0 <= i < j < |t|
      ensures t[i] != t[j]
    {
      DistinctCount(s, t[i]);
      var u := t[..i] + t[i + 1..];
      assert t == t[..i] + [t[i]] + t[i + 1..];
      assert multiset(t) == multiset(u) + multiset{t[i]};
      assert u[j - 1] == t[j];
    }
  }

  /** Keeps the first occurrence of every element, in order. */
  function Dedup<T(==,!new)>(s: seq<T>): (r: seq<T>)
    ensures Distinct(r)
    ensures forall x :: x in r <==> x in s
  {
    if s == [] then []
    else
      var r := Dedup(s[..|s| - 1]);
      var last := s[|s| - 1];
      assert s == s[..|s| - 1] + [last];
      if last in r then r else r + [last]
  }

  function Filter<T>(s: seq<T>, keep: T -> bool): (r: seq<T>)
    ensures forall x :: x in r ==> x in s && keep(x)
  {
    if s == [] then []
    else
      var r := Filter(s[..|s| - 1], keep);
      assert s == s[..|s| - 1] + [s[|s| - 1]];
      if keep(s[|s| - 1]) then r + [s[|s| - 1]] else r
  }

  lemma {:induction false} FilterMultiset<T>(s: seq<T>, keep: T -> bool, x: T)
    ensures multiset(Filter(s, keep))[x] == if keep(x) then multiset(s)[x] else 0
  {
    if s != [] {
      FilterMultiset(s[..|s| - 1], keep, x);
      assert s == s[..|s| - 1] + [s[|s| - 1]];
    }
  }

  lemma FilterPermutation<T(!new)>(s: seq<T>, t: seq<T>, keep: T -> bool)
    requires multiset(s) == multiset(t)
    ensures multiset(Filter(s, keep)) == multiset(Filter(t, keep))
    ensures |Filter(s, keep)| == |Filter(t, keep)|
    ensures |Filter(s, keep)| == 1 ==> Filter(s, keep) == Filter(t, keep)
  {
    var a, b := Filter(s, keep), Filter(t, keep);
    forall x
      ensures multiset(a)[x] == multiset(b)[x]
    {
      FilterMultiset(s, keep, x);
      FilterMultiset(t, keep, x);
    }
    assert multiset(a) == multiset(b);
    assert |multiset(a)| == |a| && |multiset(b)| == |b|;
    if |a| == 1 {
      assert a[0] in multiset(b);
    }
  }

  ghost function Positions<T>(s: seq<T>, keep: T -> bool): set<int> {
    set i | 0 <= i < |s| && keep(s[i])
  }

  /** What is kept, counted by position. */
  lemma {:induction false} FilterCount<T>(s: seq<T>, keep: T -> bool)
    ensures |Filter(s, keep)| == |Positions(s, keep)|
  {
    if s != [] {
      var init, n := s[..|s| - 1], |s| - 1;
      FilterCount(init, keep);
      assert Positions(s, keep) == Positions(init, keep) + if keep(s[n]) then {n} else {};
    }
  }

  lemma {:induction false} FilterKeeps<T>(s: seq<T>, keep: T -> bool)
    ensures forall x :: x in Filter(s, keep) <==> x in s && keep(x)
  {
    if s != [] {
      FilterKeeps(s[..|s| - 1], keep);
      assert s == s[..|s| - 1] + [s[|s| - 1]];
    }
  }
}
