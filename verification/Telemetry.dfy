/** Canonical telemetry, run consistency and window selection. */
module Telemetry {
  import opened Common
  import opened Sorting
  import opened Text

  datatype Sample = Sample(
    evidenceId: string,
    digest: string,
    observedAt: int,
    sequence: nat,
    simulationId: string,
    configurationHash: string,
    simulatorVersion: string,
    simulationSeconds: nat,
    pumpRunning: bool,
    valve: real,
    flow: real,
    pressure: real,
    sourceLevel: real,
    receivingLevel: real)

  datatype CanonicalError = ConflictingContent

  // ---------------------------------------------------------------- one record per evidence ID

  /** Two different records claim one identity. */
  predicate Conflicts<T(==)>(items: seq<T>, id: T -> string) {
    exists i, j :: 0 <= i < |items| && 0 <= j < |items| && id(items[i]) == id(items[j]) && items[i] != items[j]
  }

  /** The sort key ends in the identity, so only records of one identity tie. */
  ghost predicate TiesById<T(!new)>(id: T -> string, le: (T, T) -> bool) {
    forall x, y :: le(x, y) && le(y, x) ==> id(x) == id(y)
  }

  function Canonical<T(==,!new)>(items: seq<T>, id: T -> string, le: (T, T) -> bool): Result<seq<T>, CanonicalError>
    requires Total(le)
  {
    if Conflicts(items, id) then Err(ConflictingContent) else Ok(Sort(Dedup(items), le))
  }

  /** The dictionary holds exactly the records seen, each under its own identity. */
  ghost predicate Indexed<T(!new)>(seen: seq<T>, unique: map<string, T>, id: T -> string) {
    && (forall x :: x in seen <==> id(x) in unique && unique[id(x)] == x)
    && (forall k :: k in unique ==> id(unique[k]) == k)
  }

  lemma IndexedMore<T(!new)>(seen: seq<T>, unique: map<string, T>, id: T -> string, item: T)
    requires Indexed(seen, unique, id) && (id(item) in unique ==> unique[id(item)] == item)
    ensures Indexed(seen + [item], unique[id(item) := item], id)
  {
  }

  lemma IndexedHasNoConflict<T(!new)>(seen: seq<T>, unique: map<string, T>, id: T -> string)
    requires Indexed(seen, unique, id)
    ensures !Conflicts(seen, id)
  {
    assert forall i :: 0 <= i < |seen| ==> seen[i] in seen;
  }

  lemma ConflictWithEarlier<T(!new)>(items: seq<T>, unique: map<string, T>, id: T -> string, i: nat)
    requires i < |items| && Indexed(items[..i], unique, id)
    requires id(items[i]) in unique && unique[id(items[i])] != items[i]
    ensures Conflicts(items, id)
  {
    var other := unique[id(items[i])];
    assert id(other) == id(items[i]) && other in items[..i];
    assert other in items && items[i] in items;
  }

  /** The dictionary-filling loop shared by telemetry and parent references. */
  method CanonicalUnique<T(==,!new)>(items: seq<T>, id: T -> string, le: (T, T) -> bool)
    returns (r: Result<seq<T>, CanonicalError>)
    requires Total(le)
    ensures r == Canonical(items, id, le)
  {
    var unique: map<string, T> := map[];
    var values: seq<T> := [];
    assert Indexed(items[..0], unique, id);
    hide Total, Indexed, Conflicts;
    for i := 0 to |items|
      invariant values == Dedup(items[..i])
      invariant Indexed(items[..i], unique, id)
    {
      var item := items[i];
      if id(item) in unique && unique[id(item)] != item {
        ConflictWithEarlier(items, unique, id, i);
        return Err(ConflictingContent);
      }
      NewIffUnseen(items[..i], unique, id, item);
      IndexedMore(items[..i], unique, id, item);
      assert items[..i + 1] == items[..i] + [item] && items[..i + 1][..i] == items[..i];
      if id(item) !in unique {
        values := values + [item];
      }
      unique := unique[id(item) := item];
    }
    assert items[..|items|] == items;
    IndexedHasNoConflict(items, unique, id);
    r := Ok(Sort(values, le));
  }

  lemma NewIffUnseen<T(!new)>(seen: seq<T>, unique: map<string, T>, id: T -> string, item: T)
    requires Indexed(seen, unique, id) && (id(item) in unique ==> unique[id(item)] == item)
    ensures item in seen <==> id(item) in unique
  {
  }

  lemma CanonicalContent<T(!new)>(items: seq<T>, id: T -> string, le: (T, T) -> bool)
    requires Total(le) && !Conflicts(items, id)
    ensures
      var c := Canonical(items, id, le).value;
      && Sorted(c, le) && Distinct(c) && !Conflicts(c, id)
      && forall x :: x in c <==> x in items
  {
    hide Total;
    var d := Dedup(items);
    var c := Sort(d, le);
    DistinctPermutation(d, c);
    assert forall x, y :: x in c && y in c && id(x) == id(y) ==> x == y;
  }

  /** The canonical listing, and whether there is one, depend only on which records were
      supplied: not on their order, not on repetitions. */
  lemma CanonicalIgnoresOrder<T(!new)>(a: seq<T>, b: seq<T>, id: T -> string, le: (T, T) -> bool)
    requires Total(le) && TiesById(id, le)
    requires forall x :: x in a <==> x in b
    ensures Canonical(a, id, le) == Canonical(b, id, le)
  {
    hide Total;
    ConflictsByElements(a, b, id);
    ConflictsByElements(b, a, id);
    if !Conflicts(a, id) {
      CanonicalContent(a, id, le);
      CanonicalContent(b, id, le);
      var c, d := Canonical(a, id, le).value, Canonical(b, id, le).value;
      DistinctSameMultiset(c, d);
      SortedUnique(c, d, le);
    }
  }

  lemma ConflictsByElements<T(!new)>(a: seq<T>, b: seq<T>, id: T -> string)
    requires forall x :: x in a ==> x in b
    ensures Conflicts(a, id) ==> Conflicts(b, id)
  {
    if Conflicts(a, id) {
      var i, j :| 0 <= i < |a| && 0 <= j < |a| && id(a[i]) == id(a[j]) && a[i] != a[j];
      assert a[i] in b && a[j] in b;
    }
  }

  /** Records later than all others are canonically appended. */
  lemma CanonicalAppend<T(!new)>(a: seq<T>, b: seq<T>, id: T -> string, le: (T, T) -> bool)
    requires Total(le) && TiesById(id, le) && !Conflicts(a + b, id)
    requires forall x, y :: x in a && y in b ==> le(x, y) && x != y
    ensures !Conflicts(a, id) && !Conflicts(b, id)
    ensures Canonical(a + b, id, le).value == Canonical(a, id, le).value + Canonical(b, id, le).value
  {
    hide Total, TiesById, Sort, Dedup;
    ConflictsByElements(a, a + b, id);
    ConflictsByElements(b, a + b, id);
    CanonicalContent(a, id, le);
    CanonicalContent(b, id, le);
    CanonicalContent(a + b, id, le);
    var c, d, e := Canonical(a, id, le).value, Canonical(b, id, le).value, Canonical(a + b, id, le).value;
    AppendIsCanonical(c, d, e, id, le);
  }

  lemma AppendIsCanonical<T(!new)>(c: seq<T>, d: seq<T>, e: seq<T>, id: T -> string, le: (T, T) -> bool)
    requires TiesById(id, le) && !Conflicts(e, id)
    requires Sorted(c, le) && Sorted(d, le) && Sorted(e, le)
    requires Distinct(c) && Distinct(d) && Distinct(e)
    requires forall x, y :: x in c && y in d ==> le(x, y) && x != y
    requires forall x :: x in e <==> x in c || x in d
    ensures e == c + d
  {
    DistinctAppend(c, d);
    DistinctSameMultiset(c + d, e);
    SortedConcat(c, d, le);
    assert Separates(e, le) by {
      forall x, y | x in e && y in e && le(x, y) && le(y, x)
        ensures x == y
      {
        assert id(x) == id(y);
      }
    }
    SortedUnique(e, c + d, le);
  }

  lemma SortedConcat<T>(c: seq<T>, d: seq<T>, le: (T, T) -> bool)
    requires Sorted(c, le) && Sorted(d, le)
    requires forall x, y :: x in c && y in d ==> le(x, y)
    ensures Sorted(c + d, le)
  {
    var s := c + d;
    forall i, j | 0 <= i <= j < |s|
      ensures le(s[i], s[j])
    {
      if i < |c| <= j {
        assert s[i] in c && s[j] in d;
      }
    }
  }

  // ---------------------------------------------------------------- telemetry order

  const SAMPLE_ID: Sample -> string := (s: Sample) => s.evidenceId

  predicate SampleLe(a: Sample, b: Sample) {
    a.observedAt < b.observedAt ||
    (a.observedAt == b.observedAt &&
     (a.sequence < b.sequence || (a.sequence == b.sequence && StringLe(a.evidenceId, b.evidenceId))))
  }

  lemma SampleOrder()
    ensures Total(SampleLe) && TiesById(SAMPLE_ID, SampleLe)
  {
    StringOrder();
    forall x: Sample, y: Sample
      ensures SampleLe(x, y) || SampleLe(y, x)
      ensures SampleLe(x, y) && SampleLe(y, x) ==> x.evidenceId == y.evidenceId
    {
      StringLeTotal(x.evidenceId, y.evidenceId);
    }
    forall x: Sample, y: Sample, z: Sample | SampleLe(x, y) && SampleLe(y, z)
      ensures SampleLe(x, z)
    {
    }
  }

  function CanonicalTelemetry(samples: seq<Sample>): Result<seq<Sample>, CanonicalError> {
    SampleOrder();
    Canonical(samples, SAMPLE_ID, SampleLe)
  }

  // ---------------------------------------------------------------- run consistency

  datatype Mismatch = RunIdMismatch | ConfigurationMismatch | SimulatorVersionMismatch | ClockSequenceMismatch

  datatype RunConsistency = RunConsistency(
    mismatch: Option<Mismatch>,
    simulationId: Option<string>,
    configurationHash: Option<string>,
    simulatorVersion: Option<string>,
    origin: Option<int>)

  const SIMULATOR_VERSION := "3.0.0"

  function Origin(s: Sample): int {
    s.observedAt - s.simulationSeconds * SECOND
  }

  predicate UniqueClock(s: seq<Sample>) {
    forall i, j :: 0 <= i < j < |s| ==> s[i].observedAt != s[j].observedAt && s[i].sequence != s[j].sequence
  }

  /** Over canonical telemetry: one run, one configuration, the supported simulator, unique
      timestamps and sequence numbers, one common run origin. */
  function ValidateRunConsistency(ordered: seq<Sample>): RunConsistency {
    if ordered == [] then RunConsistency(None, None, None, None, None)
    else
      var first := ordered[0];
      if exists s :: s in ordered && s.simulationId != first.simulationId then
        RunConsistency(Some(RunIdMismatch), None, None, None, None)
      else if exists s :: s in ordered && s.configurationHash != first.configurationHash then
        RunConsistency(Some(ConfigurationMismatch), Some(first.simulationId), None, None, None)
      else if exists s :: s in ordered && s.simulatorVersion != SIMULATOR_VERSION then
        RunConsistency(Some(SimulatorVersionMismatch), Some(first.simulationId), Some(first.configurationHash), None,
          None)
      else if !UniqueClock(ordered) || (exists s :: s in ordered && Origin(s) != Origin(first)) then
        RunConsistency(Some(ClockSequenceMismatch), Some(first.simulationId), Some(first.configurationHash),
                       Some(first.simulatorVersion), None)
      else
        RunConsistency(None, Some(first.simulationId), Some(first.configurationHash),
                       Some(first.simulatorVersion), Some(Origin(first)))
  }

  /** Strictly increasing in time. */
  ghost predicate Chronological(s: seq<Sample>) {
    forall i, j :: 0 <= i < j < |s| ==> s[i].observedAt < s[j].observedAt
  }

  lemma ConsistentIsChronological(ordered: seq<Sample>)
    requires Sorted(ordered, SampleLe) && ValidateRunConsistency(ordered).mismatch.None?
    ensures Chronological(ordered)
  {
  }

  /** Cutting a consistent run short leaves it consistent, with the same identity. */
  lemma ConsistentPrefix(a: seq<Sample>, b: seq<Sample>)
    requires a != [] && ValidateRunConsistency(a + b).mismatch.None?
    ensures ValidateRunConsistency(a) == ValidateRunConsistency(a + b)
  {
    assert (a + b)[0] == a[0];
    assert forall s :: s in a ==> s in a + b;
    assert forall i :: 0 <= i < |a| ==> (a + b)[i] == a[i];
  }

  // ---------------------------------------------------------------- windows

  datatype Gap = Gap(micros: int, invalid: bool)

  datatype Window = Window(
    baseline: seq<Sample>,
    effect: seq<Sample>,
    after: seq<Sample>,
    start: int,
    end: int,
    finalized: bool,
    maximumGap: Option<int>,
    gapExceeded: bool)

  /** Half-open before the anchor. */
  function BaselineCut(start: int, anchor: int): Sample -> bool {
    (s: Sample) => start <= s.observedAt < anchor
  }

  /** Closed at both ends. */
  function EffectCut(anchor: int, end: int): Sample -> bool {
    (s: Sample) => anchor <= s.observedAt <= end
  }

  function AfterCut(end: int): Sample -> bool {
    (s: Sample) => s.observedAt > end
  }

  function GapBetween(previous: Sample, current: Sample): Gap {
    var time := current.observedAt - previous.observedAt;
    var step := current.sequence - previous.sequence;
    Gap(time, time <= 0 || step <= 0 || step * SECOND != time)
  }

  function AdjacentGaps(s: seq<Sample>): seq<Gap> {
    if |s| < 2 then [] else AdjacentGaps(s[..|s| - 1]) + [GapBetween(s[|s| - 2], s[|s| - 1])]
  }

  method CollectAdjacentGaps(telemetry: seq<Sample>) returns (result: seq<Gap>)
    ensures result == AdjacentGaps(telemetry)
  {
    result := [];
    if telemetry == [] {
      return;
    }
    for i := 1 to |telemetry|
      invariant result == AdjacentGaps(telemetry[..i])
    {
      assert telemetry[..i + 1][..i] == telemetry[..i];
      result := result + [GapBetween(telemetry[i - 1], telemetry[i])];
    }
    assert telemetry[..|telemetry|] == telemetry;
  }

  lemma {:induction false} AdjacentGapsAt(s: seq<Sample>, i: nat)
    requires i + 1 < |s|
    ensures GapBetween(s[i], s[i + 1]) in AdjacentGaps(s)
  {
    if i + 2 < |s| {
      AdjacentGapsAt(s[..|s| - 1], i);
    }
  }

  function MaximumGap(gaps: seq<Gap>): Option<int> {
    if gaps == [] then None
    else
      var rest := MaximumGap(gaps[1..]);
      if rest.None? then Some(gaps[0].micros) else Some(Max(gaps[0].micros, rest.value))
  }

  lemma {:induction false} MaximumGapBounds(gaps: seq<Gap>)
    ensures MaximumGap(gaps).None? <==> gaps == []
    ensures forall g :: g in gaps ==> g.micros <= MaximumGap(gaps).value
  {
    if gaps != [] {
      MaximumGapBounds(gaps[1..]);
      assert gaps == [gaps[0]] + gaps[1..];
    }
  }

  function SelectWindow(ordered: seq<Sample>, anchor: int, baselineSeconds: nat, effectSeconds: nat,
                        maximumGapSeconds: nat)
    : Window
  {
    var start := anchor - baselineSeconds * SECOND;
    var end := anchor + effectSeconds * SECOND;
    var baseline := Filter(ordered, BaselineCut(start, anchor));
    var effect := Filter(ordered, EffectCut(anchor, end));
    var gaps := AdjacentGaps(baseline) + AdjacentGaps(effect);
    Window(baseline, effect, Filter(ordered, AfterCut(end)), start, end,
           ordered != [] && ordered[|ordered| - 1].observedAt >= end,
           MaximumGap(gaps), GapExceeded(gaps, maximumGapSeconds))
  }

  predicate GapExceeded(gaps: seq<Gap>, maximumGapSeconds: nat) {
    var maxGap := MaximumGap(gaps);
    (exists g :: g in gaps && g.invalid) || (maxGap.Some? && maxGap.value > maximumGapSeconds * SECOND)
  }

  lemma {:induction false} FilterChronological(s: seq<Sample>, keep: Sample -> bool)
    requires Chronological(s)
    ensures Chronological(Filter(s, keep))
  {
    if s != [] {
      var init, last := s[..|s| - 1], s[|s| - 1];
      assert s == init + [last];
      FilterChronological(init, keep);
      assert forall x :: x in Filter(init, keep) ==> x in init;
      assert forall x :: x in init ==> x.observedAt < last.observedAt;
    }
  }

  /** Neighbours are one or two whole seconds apart. */
  ghost predicate Cadenced(s: seq<Sample>, maximumGapSeconds: nat) {
    forall i :: 0 <= i < |s| - 1 ==>
      && 0 < s[i + 1].sequence - s[i].sequence <= maximumGapSeconds
      && s[i + 1].observedAt - s[i].observedAt == (s[i + 1].sequence - s[i].sequence) * SECOND
  }

  lemma GapFreeIsCadenced(ordered: seq<Sample>, anchor: int, baselineSeconds: nat, effectSeconds: nat,
                          maximumGapSeconds: nat)
    requires !SelectWindow(ordered, anchor, baselineSeconds, effectSeconds, maximumGapSeconds).gapExceeded
    ensures
      var w := SelectWindow(ordered, anchor, baselineSeconds, effectSeconds, maximumGapSeconds);
      Cadenced(w.baseline, maximumGapSeconds) && Cadenced(w.effect, maximumGapSeconds)
  {
    var w := SelectWindow(ordered, anchor, baselineSeconds, effectSeconds, maximumGapSeconds);
    var gaps := AdjacentGaps(w.baseline) + AdjacentGaps(w.effect);
    MaximumGapBounds(gaps);
    GapsCadenced(w.baseline, gaps, maximumGapSeconds);
    GapsCadenced(w.effect, gaps, maximumGapSeconds);
  }

  lemma GapsCadenced(s: seq<Sample>, gaps: seq<Gap>, maximumGapSeconds: nat)
    requires forall g :: g in AdjacentGaps(s) ==> g in gaps
    requires forall g :: g in gaps ==> !g.invalid && g.micros <= maximumGapSeconds * SECOND
    ensures Cadenced(s, maximumGapSeconds)
  {
    forall i | 0 <= i < |s| - 1
      ensures 0 < s[i + 1].sequence - s[i].sequence <= maximumGapSeconds
      ensures s[i + 1].observedAt - s[i].observedAt == (s[i + 1].sequence - s[i].sequence) * SECOND
    {
      AdjacentGapsAt(s, i);
    }
  }

  lemma {:induction false} CadenceSpan(s: seq<Sample>, maximumGapSeconds: nat)
    requires s != [] && Cadenced(s, maximumGapSeconds)
    ensures s[|s| - 1].observedAt - s[0].observedAt >= (|s| - 1) * SECOND
  {
    if |s| > 1 {
      var init := s[..|s| - 1];
      assert forall i :: 0 <= i < |init| ==> init[i] == s[i];
      CadenceSpan(init, maximumGapSeconds);
      assert s[|s| - 2 + 1].observedAt - s[|s| - 2].observedAt >= SECOND;
    }
  }

  /** Without a gap the half-open baseline holds at most `baselineSeconds` samples and the
      closed effect window at most one more than its length. */
  lemma WindowSizes(ordered: seq<Sample>, anchor: int, baselineSeconds: nat, effectSeconds: nat, maximumGapSeconds: nat)
    requires !SelectWindow(ordered, anchor, baselineSeconds, effectSeconds, maximumGapSeconds).gapExceeded
    ensures
      var w := SelectWindow(ordered, anchor, baselineSeconds, effectSeconds, maximumGapSeconds);
      |w.baseline| <= baselineSeconds && |w.effect| <= effectSeconds + 1
  {
    var w := SelectWindow(ordered, anchor, baselineSeconds, effectSeconds, maximumGapSeconds);
    GapFreeIsCadenced(ordered, anchor, baselineSeconds, effectSeconds, maximumGapSeconds);
    if w.baseline != [] {
      CadenceSpan(w.baseline, maximumGapSeconds);
      assert w.baseline[0] in w.baseline && w.baseline[|w.baseline| - 1] in w.baseline;
    }
    if w.effect != [] {
      CadenceSpan(w.effect, maximumGapSeconds);
      assert w.effect[0] in w.effect && w.effect[|w.effect| - 1] in w.effect;
    }
  }

  lemma {:induction false} FilterAppend(a: seq<Sample>, b: seq<Sample>, keep: Sample -> bool)
    ensures Filter(a + b, keep) == Filter(a, keep) + Filter(b, keep)
  {
    if b == [] {
      assert a + b == a;
    } else {
      FilterAppend(a, b[..|b| - 1], keep);
      assert (a + b)[..|a + b| - 1] == a + b[..|b| - 1];
    }
  }

  lemma {:induction false} FilterNone(b: seq<Sample>, keep: Sample -> bool)
    requires forall s :: s in b ==> !keep(s)
    ensures Filter(b, keep) == []
  {
    if b != [] {
      FilterNone(b[..|b| - 1], keep);
    }
  }

  /** A final window never changes: samples later than a run that already reaches the window's
      end only join the after-window part. */
  lemma FinalWindowStable(a: seq<Sample>, b: seq<Sample>, anchor: int, baselineSeconds: nat, effectSeconds: nat,
                          maximumGapSeconds: nat)
    requires a != [] && a[|a| - 1].observedAt >= anchor + effectSeconds * SECOND
    requires forall s :: s in b ==> s.observedAt > a[|a| - 1].observedAt
    ensures
      var before := SelectWindow(a, anchor, baselineSeconds, effectSeconds, maximumGapSeconds);
      var later := SelectWindow(a + b, anchor, baselineSeconds, effectSeconds, maximumGapSeconds);
      before.finalized && later == before.(after := before.after + b)
  {
    hide Filter, AdjacentGaps, MaximumGap, GapExceeded;
    CutsOfLaterSamples(a, b, anchor - baselineSeconds * SECOND, anchor, anchor + effectSeconds * SECOND);
    assert (a + b)[|a + b| - 1] == if b == [] then a[|a| - 1] else b[|b| - 1];
  }

  lemma CutsOfLaterSamples(a: seq<Sample>, b: seq<Sample>, start: int, anchor: int, end: int)
    requires anchor <= end && forall s :: s in b ==> s.observedAt > end
    ensures Filter(a + b, BaselineCut(start, anchor)) == Filter(a, BaselineCut(start, anchor))
    ensures Filter(a + b, EffectCut(anchor, end)) == Filter(a, EffectCut(anchor, end))
    ensures Filter(a + b, AfterCut(end)) == Filter(a, AfterCut(end)) + b
  {
    FilterAppend(a, b, BaselineCut(start, anchor));
    FilterAppend(a, b, EffectCut(anchor, end));
    FilterAppend(a, b, AfterCut(end));
    FilterNone(b, BaselineCut(start, anchor));
    FilterNone(b, EffectCut(anchor, end));
    FilterAll(b, AfterCut(end));
  }

  lemma {:induction false} FilterAll(b: seq<Sample>, keep: Sample -> bool)
    requires forall s :: s in b ==> keep(s)
    ensures Filter(b, keep) == b
  {
    if b != [] {
      FilterAll(b[..|b| - 1], keep);
      assert b == b[..|b| - 1] + [b[|b| - 1]];
    }
  }
}
