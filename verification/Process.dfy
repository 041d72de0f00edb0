/** Persistence, representative values and baseline statistics over a window of samples. */
module Process {
  import opened Common
  import opened Telemetry

  datatype Change = Increased | Decreased | Unchanged | Unavailable

  function Abs(x: real): real { if x >= 0.0 then x else -x }

  function ClassifyDelta(delta: real, deadband: real): Change {
    if Abs(delta) <= deadband then Unchanged
    else if delta > 0.0 then Increased
    else Decreased
  }

  // ---------------------------------------------------------------- persistence

  /** Length of the block that meets the predicate and ends with the last sample. */
  function Trailing(s: seq<Sample>, p: Sample -> bool): nat {
    if s == [] || !p(s[|s| - 1]) then 0 else 1 + Trailing(s[..|s| - 1], p)
  }

  function Persistence(s: seq<Sample>, p: Sample -> bool): nat {
    if s == [] then 0 else Max(Persistence(s[..|s| - 1], p), Trailing(s, p))
  }

  method MaximumPersistence(telemetry: seq<Sample>, predicate_: Sample -> bool) returns (longest: nat)
    ensures longest == Persistence(telemetry, predicate_)
  {
    longest := 0;
    var current := 0;
    for i := 0 to |telemetry|
      invariant current == Trailing(telemetry[..i], predicate_)
      invariant longest == Persistence(telemetry[..i], predicate_)
    {
      assert telemetry[..i + 1][..i] == telemetry[..i];
      if predicate_(telemetry[i]) {
        current := current + 1;
        longest := Max(longest, current);
      } else {
        current := 0;
      }
    }
    assert telemetry[..|telemetry|] == telemetry;
  }

  ghost predicate Block(s: seq<Sample>, p: Sample -> bool, lo: int, hi: int) {
    0 <= lo <= hi <= |s| && forall k :: lo <= k < hi ==> p(s[k])
  }

  lemma {:induction false} TrailingIsBlock(s: seq<Sample>, p: Sample -> bool)
    ensures Trailing(s, p) <= |s| && Block(s, p, |s| - Trailing(s, p), |s|)
    ensures forall lo :: Block(s, p, lo, |s|) ==> |s| - lo <= Trailing(s, p)
  {
    if s != [] {
      var init := s[..|s| - 1];
      TrailingIsBlock(init, p);
      forall lo | Block(s, p, lo, |s|)
        ensures |s| - lo <= Trailing(s, p)
      {
        if lo < |s| {
          assert p(s[|s| - 1]);
          assert Block(init, p, lo, |init|);
        }
      }
    }
  }

  /** Persistence is the length of the longest consecutive block that meets the predicate. */
  lemma {:induction false} PersistenceIsLongestBlock(s: seq<Sample>, p: Sample -> bool)
    ensures exists lo, hi :: Block(s, p, lo, hi) && hi - lo == Persistence(s, p)
    ensures forall lo, hi :: Block(s, p, lo, hi) ==> hi - lo <= Persistence(s, p)
  {
    if s == [] {
      assert Block(s, p, 0, 0);
    } else {
      var init := s[..|s| - 1];
      PersistenceIsLongestBlock(init, p);
      TrailingIsBlock(s, p);
      var lo, hi :| Block(init, p, lo, hi) && hi - lo == Persistence(init, p);
      assert Block(s, p, lo, hi);
      assert Block(s, p, |s| - Trailing(s, p), |s|);
      forall lo, hi | Block(s, p, lo, hi)
        ensures hi - lo <= Persistence(s, p)
      {
        if hi < |s| {
          assert Block(init, p, lo, hi);
        }
      }
    }
  }

  lemma PersistenceWithin(s: seq<Sample>, p: Sample -> bool)
    ensures Persistence(s, p) <= |s|
  {
    PersistenceIsLongestBlock(s, p);
  }

  // ---------------------------------------------------------------- representative value

  datatype Runs = Runs(last: Option<seq<Sample>>, current: seq<Sample>)

  /** The last finished run of at least `required` samples, and the run still open at the end. */
  function RunsOf(s: seq<Sample>, p: Sample -> bool, required: nat): Runs {
    if s == [] then Runs(None, [])
    else
      var r := RunsOf(s[..|s| - 1], p, required);
      var sample := s[|s| - 1];
      if p(sample) then Runs(r.last, r.current + [sample])
      else Runs(if |r.current| >= required then Some(r.current) else r.last, [])
  }

  /** Python's `s[-n:]` for positive n. */
  function LastN<T>(s: seq<T>, n: nat): seq<T> {
    if n <= |s| then s[|s| - n..] else s
  }

  /** The samples averaged: the tail of the last long-enough run, else the tail of the window. */
  function Selected(s: seq<Sample>, p: Sample -> bool, required: nat): seq<Sample> {
    var r := RunsOf(s, p, required);
    if |r.current| >= required then LastN(r.current, required)
    else if r.last.Some? then LastN(r.last.value, required)
    else LastN(s, required)
  }

  lemma {:induction false} RunsMeetPredicate(s: seq<Sample>, p: Sample -> bool, required: nat)
    requires required > 0
    ensures
      var r := RunsOf(s, p, required);
      && |r.current| == Trailing(s, p)
      && (forall x :: x in r.current ==> p(x))
      && (r.last.Some? ==> |r.last.value| >= required && forall x :: x in r.last.value ==> p(x))
      && (Persistence(s, p) >= required <==> |r.current| >= required || r.last.Some?)
  {
    if s != [] {
      RunsMeetPredicate(s[..|s| - 1], p, required);
    }
  }

  /** When the persistence reaches the required count, exactly that many samples are averaged
      and every one of them meets the predicate. */
  lemma SelectedMeetsPredicate(s: seq<Sample>, p: Sample -> bool, required: nat)
    requires required > 0 && Persistence(s, p) >= required
    ensures |Selected(s, p, required)| == required
    ensures forall x :: x in Selected(s, p, required) ==> p(x)
  {
    RunsMeetPredicate(s, p, required);
  }

  function Sum(s: seq<Sample>, value: Sample -> real): real {
    if s == [] then 0.0 else Sum(s[..|s| - 1], value) + value(s[|s| - 1])
  }

  function Mean(s: seq<Sample>, value: Sample -> real): real
    requires s != []
  {
    Sum(s, value) / (|s| as real)
  }

  function Representative(s: seq<Sample>, value: Sample -> real, p: Sample -> bool, required: nat): real
    requires s != [] && required > 0
  {
    RunsMeetPredicate(s, p, required);
    Mean(Selected(s, p, required), value)
  }

  method RepresentativeValue(telemetry: seq<Sample>, value: Sample -> real, predicate_: Sample -> bool, required: nat)
    returns (r: real)
    requires telemetry != [] && required > 0
    ensures r == Representative(telemetry, value, predicate_, required)
  {
    var runs: seq<seq<Sample>> := [];
    var current: seq<Sample> := [];
    for i := 0 to |telemetry|
      invariant Runs(if runs == [] then None else Some(runs[|runs| - 1]), current)
             == RunsOf(telemetry[..i], predicate_, required)
    {
      assert telemetry[..i + 1][..i] == telemetry[..i];
      if predicate_(telemetry[i]) {
        current := current + [telemetry[i]];
      } else {
        if |current| >= required {
          runs := runs + [current];
        }
        current := [];
      }
    }
    assert telemetry[..|telemetry|] == telemetry;
    RunsMeetPredicate(telemetry, predicate_, required);
    if |current| >= required {
      runs := runs + [current];
    }
    var selected := if runs != [] then LastN(runs[|runs| - 1], required) else LastN(telemetry, required);
    r := Mean(selected, value);
  }

  /** The mean times the count is the sum of the values, in whatever order they are added. */
  lemma MeanIsAverage(s: seq<Sample>, t: seq<Sample>, value: Sample -> real)
    requires s != [] && multiset(s) == multiset(t)
    ensures Mean(s, value) * (|s| as real) == Sum(s, value) == Sum(t, value)
  {
    hide Sum;
    SumOfPermutation(s, t, value);
    DivideMultiply(Sum(s, value), |s| as real);
  }

  lemma SumOfOne(x: Sample, value: Sample -> real)
    ensures Sum([], value) == 0.0 && Sum([x], value) == value(x)
  {
    assert [x][..0] == [];
  }

  lemma DivideMultiply(x: real, n: real)
    requires n != 0.0
    ensures x / n * n == x
  {
  }

  lemma RemoveAt(t: seq<Sample>, k: nat)
    requires k < |t|
    ensures multiset(t[..k] + t[k + 1..]) == multiset(t) - multiset{t[k]}
  {
    assert t == t[..k] + [t[k]] + t[k + 1..];
  }

  lemma {:induction false} SumOfPermutation(s: seq<Sample>, t: seq<Sample>, value: Sample -> real)
    requires multiset(s) == multiset(t)
    ensures Sum(s, value) == Sum(t, value)
    decreases |s|
  {
    hide Sum;
    assert |multiset(s)| == |s| && |multiset(t)| == |t|;
    if s == [] {
      assert t == [];
    } else {
      var n := |s| - 1;
      assert s[n] in multiset(t);
      var k :| 0 <= k < |t| && t[k] == s[n];
      RemoveAt(s, n);
      RemoveAt(t, k);
      SumWithout(s, n, value);
      SumWithout(t, k, value);
      SumOfPermutation(s[..n] + s[n + 1..], t[..k] + t[k + 1..], value);
    }
  }

  lemma SumWithout(t: seq<Sample>, k: nat, value: Sample -> real)
    requires k < |t|
    ensures Sum(t, value) == Sum(t[..k] + t[k + 1..], value) + value(t[k])
  {
    hide Sum;
    SumConcat(t[..k], [t[k]] + t[k + 1..], value);
    SumConcat([t[k]], t[k + 1..], value);
    SumConcat(t[..k], t[k + 1..], value);
    SumOfOne(t[k], value);
    assert t == t[..k] + ([t[k]] + t[k + 1..]);
  }

  lemma {:induction false} SumConcat(a: seq<Sample>, b: seq<Sample>, value: Sample -> real)
    ensures Sum(a + b, value) == Sum(a, value) + Sum(b, value)
  {
    if b == [] {
      assert a + b == a;
    } else {
      assert (a + b)[..|a + b| - 1] == a + b[..|b| - 1];
      SumConcat(a, b[..|b| - 1], value);
    }
  }

  lemma Distribute(n: real, bound: real)
    ensures (n + 1.0) * bound == n * bound + bound
  {
  }

  lemma {:induction false} SumAtMost(s: seq<Sample>, value: Sample -> real, bound: real)
    requires forall x :: x in s ==> value(x) <= bound
    ensures Sum(s, value) <= (|s| as real) * bound
  {
    if s != [] {
      SumAtMost(s[..|s| - 1], value, bound);
      Distribute((|s| - 1) as real, bound);
      assert (|s| - 1) as real + 1.0 == |s| as real;
    }
  }

  lemma {:induction false} SumAtLeast(s: seq<Sample>, value: Sample -> real, bound: real)
    requires forall x :: x in s ==> value(x) >= bound
    ensures Sum(s, value) >= (|s| as real) * bound
  {
    if s != [] {
      SumAtLeast(s[..|s| - 1], value, bound);
      Distribute((|s| - 1) as real, bound);
      assert (|s| - 1) as real + 1.0 == |s| as real;
    }
  }

  lemma MeanAtMost(s: seq<Sample>, value: Sample -> real, bound: real)
    requires s != [] && forall x :: x in s ==> value(x) <= bound
    ensures Mean(s, value) <= bound
  {
    SumAtMost(s, value, bound);
    Quotient(Sum(s, value), |s| as real, bound);
  }

  lemma MeanAtLeast(s: seq<Sample>, value: Sample -> real, bound: real)
    requires s != [] && forall x :: x in s ==> value(x) >= bound
    ensures Mean(s, value) >= bound
  {
    SumAtLeast(s, value, bound);
    Quotient(Sum(s, value), |s| as real, bound);
  }

  lemma Quotient(x: real, n: real, bound: real)
    requires n > 0.0
    ensures x <= n * bound ==> x / n <= bound
    ensures x >= n * bound ==> x / n >= bound
  {
    assert x == (x / n) * n;
  }

  // ---------------------------------------------------------------- baseline statistics

  function Highest(s: seq<Sample>, value: Sample -> real): real
    requires s != []
  {
    if |s| == 1 then value(s[0])
    else
      var rest := Highest(s[1..], value);
      if value(s[0]) >= rest then value(s[0]) else rest
  }

  function Lowest(s: seq<Sample>, value: Sample -> real): real
    requires s != []
  {
    if |s| == 1 then value(s[0])
    else
      var rest := Lowest(s[1..], value);
      if value(s[0]) <= rest then value(s[0]) else rest
  }

  function ValueRange(s: seq<Sample>, value: Sample -> real): real
    requires s != []
  {
    Highest(s, value) - Lowest(s, value)
  }

  function Span(s: seq<Sample>): int {
    if |s| < 2 then 0 else s[|s| - 1].observedAt - s[0].observedAt
  }

  function EndpointSlope(s: seq<Sample>, value: Sample -> real): real
    requires Span(s) > 0
  {
    (value(s[|s| - 1]) - value(s[0])) / (Span(s) as real / SECOND as real)
  }
}
