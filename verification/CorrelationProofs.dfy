/** What the correlation evaluator guarantees of every request. */
module CorrelationProofs {
  import opened Common
  import opened Sorting
  import opened Telemetry
  import opened Process
  import opened Correlation

  // ---------------------------------------------------------------- a function of the sample set

  /** Any reordering or repetition of the telemetry gives the same decision, the same parents
      and the same finding identity, or the same rejection. */
  lemma EvaluationIgnoresOrder(q: Question, a: seq<Sample>, b: seq<Sample>, sha256: string)
    requires forall s :: s in a <==> s in b
    ensures EvaluateCorrelation(q, a, sha256) == EvaluateCorrelation(q, b, sha256)
  {
    SampleOrder();
    CanonicalIgnoresOrder(a, b, SAMPLE_ID, SampleLe);
  }

  /** The two ways in which one evidence ID can carry conflicting content. */
  predicate IdentityClash(q: Question, telemetry: seq<Sample>) {
    Conflicts(telemetry, SAMPLE_ID) || Conflicts(References(q, telemetry), PARENT_ID)
  }

  /** A request is rejected exactly when two unequal samples share an ID, or a sample, a cyber
      parent and the re-evaluated finding refer to one ID with different content. */
  lemma RejectedExactlyOnClash(q: Question, telemetry: seq<Sample>, sha256: string)
    ensures EvaluateCorrelation(q, telemetry, sha256).Err? <==> IdentityClash(q, telemetry)
  {
    SampleOrder();
    ParentOrder();
    if !Conflicts(telemetry, SAMPLE_ID) {
      CanonicalContent(telemetry, SAMPLE_ID, SampleLe);
      var ordered := CanonicalTelemetry(telemetry).value;
      SameReferences(q, telemetry, ordered);
      SameReferences(q, ordered, telemetry);
      ConflictsByElements(References(q, telemetry), References(q, ordered), PARENT_ID);
      ConflictsByElements(References(q, ordered), References(q, telemetry), PARENT_ID);
      forall p | p in TelemetryParents(ordered)
        ensures p in References(q, ordered)
      {
      }
      ConflictsByElements(TelemetryParents(ordered), References(q, ordered), PARENT_ID);
    }
  }

  lemma SameReferences(q: Question, a: seq<Sample>, b: seq<Sample>)
    requires forall s :: s in a ==> s in b
    ensures forall p :: p in References(q, a) ==> p in References(q, b)
  {
    forall p | p in TelemetryParents(a)
      ensures p in TelemetryParents(b)
    {
      var i :| 0 <= i < |a| && TelemetryParents(a)[i] == p;
      assert a[i] in b;
      var j :| 0 <= j < |b| && b[j] == a[i];
      assert TelemetryParents(b)[j] == p;
    }
  }

  /** Distinct sample IDs alone do not prevent rejection: every request whose command shares its ID
      with a sample of other content is rejected. */
  lemma CyberParentCanClash(q: Question, s: Sample, sha256: string)
    requires q.cyber.Some? && q.cyber.value.raw.evidenceId == s.evidenceId && q.cyber.value.raw != ParentOf(s)
    ensures !Conflicts([s], SAMPLE_ID) && EvaluateCorrelation(q, [s], sha256).Err?
  {
    RejectedExactlyOnClash(q, [s], sha256);
    hide EvaluateCorrelation;
    var refs := References(q, [s]);
    var k := if q.cyber.value.policy.None? then 3 else 4;
    assert TelemetryParents([s])[0] == ParentOf(s);
    assert refs[0] == q.cyber.value.raw && refs[k] == ParentOf(s);
    assert PARENT_ID(refs[0]) == PARENT_ID(refs[k]);
  }

  // ---------------------------------------------------------------- final verdicts are stable

  /** Samples after the window decide only between the two shades of "not correlated". */
  lemma AfterWindowKeepsStatus(w: Window, after: seq<Sample>, available: set<Point>)
    requires Chronological(w.baseline) && Chronological(w.effect)
    ensures
      var v, v' := S3Verdict(w, available), S3Verdict(w.(after := after), available);
      StatusOf(v.reason) == StatusOf(v'.reason) && v.observations == v'.observations
  {
    hide S3Observations;
  }

  /** Later samples may turn "no change" into "change outside the window", never the status. */
  lemma S3FinalStatusStable(a: seq<Sample>, b: seq<Sample>, anchor: int, available: set<Point>, run: RunConsistency)
    requires Chronological(a + b) && a != []
    requires a[|a| - 1].observedAt >= anchor + S3_EFFECT_SECONDS * SECOND
    ensures Chronological(a)
    ensures
      var before, later := EvaluateS3(a, anchor, available, run), EvaluateS3(a + b, anchor, available, run);
      before.status == later.status && before.observations == later.observations
  {
    LaterThanLast(a, b);
    FinalWindowStable(a, b, anchor, BASELINE_SECONDS, S3_EFFECT_SECONDS, MAX_GAP_SECONDS);
    WindowChronological(a, anchor, BASELINE_SECONDS, S3_EFFECT_SECONDS, MAX_GAP_SECONDS);
    var w := S3Window(a, anchor);
    AfterWindowKeepsStatus(w, w.after + b, available);
  }

  lemma LaterThanLast(a: seq<Sample>, b: seq<Sample>)
    requires Chronological(a + b) && a != []
    ensures Chronological(a)
    ensures forall s, t :: s in a && t in b ==> s.observedAt < t.observedAt
    ensures forall t :: t in b ==> t.observedAt > a[|a| - 1].observedAt
  {
    var c := a + b;
    assert forall i :: 0 <= i < |a| ==> c[i] == a[i];
    assert forall j :: 0 <= j < |b| ==> c[|a| + j] == b[j];
    forall s, t | s in a && t in b
      ensures s.observedAt < t.observedAt
    {
      var i :| 0 <= i < |a| && a[i] == s;
      var j :| 0 <= j < |b| && b[j] == t;
      assert c[i].observedAt < c[|a| + j].observedAt;
    }
  }

  lemma QualifiesUnaffected(a: seq<Sample>, b: seq<Sample>, current: Sample)
    requires forall t :: t in b ==> t.observedAt > current.observedAt
    ensures Qualifies(a + b, current) == Qualifies(a, current)
  {
    var cut := BaselineCut(current.observedAt - BASELINE_SECONDS * SECOND, current.observedAt);
    FilterAppend(a, b, cut);
    FilterNone(b, cut);
    assert PrecedingBaseline(a + b, current.observedAt) == PrecedingBaseline(a, current.observedAt);
  }

  lemma {:induction false} AnchorUnmoved(a: seq<Sample>, b: seq<Sample>, from: nat)
    requires Chronological(a + b) && from <= |a| && FindAnchor(a, from).Some?
    ensures FindAnchor(a + b, from) == FindAnchor(a, from)
    decreases |a| - from
  {
    var current := a[from];
    assert (a + b)[from] == current;
    LaterThanLast(a, b);
    assert current in a;
    QualifiesUnaffected(a, b, current);
    if !Qualifies(a, current) {
      AnchorUnmoved(a, b, from + 1);
    }
  }

  lemma S4FinalVerdictStable(a: seq<Sample>, b: seq<Sample>, available: set<Point>, run: RunConsistency)
    requires Chronological(a + b) && a != [] && FindAnchor(a, 0).Some?
    requires a[|a| - 1].observedAt >= FindAnchor(a, 0).value + S4_EFFECT_SECONDS * SECOND
    ensures
      var before, later := EvaluateS4(a, available, run), EvaluateS4(a + b, available, run);
      later == before.(observedAt := later.observedAt)
  {
    AnchorUnmoved(a, b, 0);
    LaterThanLast(a, b);
    var anchor := FindAnchor(a, 0).value;
    FinalWindowStable(a, b, anchor, BASELINE_SECONDS, S4_EFFECT_SECONDS, MAX_GAP_SECONDS);
    var w := S4Window(a, anchor);
    S4IgnoresAfter(w, w.after + b, available);
  }

  lemma S4IgnoresAfter(w: Window, after: seq<Sample>, available: set<Point>)
    ensures S4Verdict(w.(after := after), available) == S4Verdict(w, available)
  {
    if w.baseline != [] && w.effect != [] {
      var w' := w.(after := after);
      assert Terminal(w') == Terminal(w);
      assert S4Observations(w') == S4Observations(w);
    }
  }

  /** The window that decides a request has a sample at or after its end. */
  ghost predicate Final(q: Question, ordered: seq<Sample>) {
    && ordered != []
    && var last := ordered[|ordered| - 1].observedAt;
       if q.ruleId == S3_RULE then q.cyber.Some? && last >= q.cyber.value.commandAt + S3_EFFECT_SECONDS * SECOND
       else FindAnchor(ordered, 0).Some? && last >= FindAnchor(ordered, 0).value + S4_EFFECT_SECONDS * SECOND
  }

  /** The status always; under S4 also the reason. */
  ghost predicate SameVerdict(q: Question, before: Decision, later: Decision) {
    && before.status == later.status && before.anchor == later.anchor
    && before.observations == later.observations
    && (q.ruleId != S3_RULE ==> before.reason == later.reason)
  }

  /** The earlier samples finish the window, and all samples belong to one run. */
  ghost predicate FinalAndConsistent(q: Question, telemetry: seq<Sample>, more: seq<Sample>) {
    && CanonicalTelemetry(telemetry).Ok? && CanonicalTelemetry(telemetry + more).Ok?
    && ValidateRunConsistency(CanonicalTelemetry(telemetry + more).value).mismatch.None?
    && Final(q, CanonicalTelemetry(telemetry).value)
  }

  lemma FinalDecisionStable(q: Question, a: seq<Sample>, b: seq<Sample>, sha256: string)
    requires Sorted(a, SampleLe) && Sorted(a + b, SampleLe)
    requires ValidateRunConsistency(a + b).mismatch.None?
    requires Final(q, a)
    ensures SameVerdict(q, Decide(q, sha256, a), Decide(q, sha256, a + b))
  {
    ConsistentPrefix(a, b);
    ConsistentIsChronological(a + b);
    var run := ValidateRunConsistency(a);
    assert GuardReason(q, sha256, a + b) == GuardReason(q, sha256, a);
    if GuardReason(q, sha256, a).None? {
      if q.ruleId == S3_RULE {
        S3FinalStatusStable(a, b, q.cyber.value.commandAt, q.available, run);
      } else {
        S4FinalVerdictStable(a, b, q.available, run);
      }
    }
  }

  /** Once a request's window is final, appending run-consistent samples that are later than all
      earlier ones never changes the status; under S4 the anchor, the reason and every observation
      stay as they were too. */
  lemma FinalVerdictStable(q: Question, telemetry: seq<Sample>, more: seq<Sample>, sha256: string)
    requires forall s, t :: s in telemetry && t in more ==> s.observedAt < t.observedAt
    ensures
      var before, later := EvaluateCorrelation(q, telemetry, sha256), EvaluateCorrelation(q, telemetry + more, sha256);
      before.Ok? && later.Ok? && FinalAndConsistent(q, telemetry, more) ==>
        SameVerdict(q, before.value.decision, later.value.decision)
  {
    hide Decide, SameVerdict, Final, ValidateRunConsistency, Sort, Dedup;
    if EvaluateCorrelation(q, telemetry, sha256).Ok? && EvaluateCorrelation(q, telemetry + more, sha256).Ok? &&
       FinalAndConsistent(q, telemetry, more) {
      SampleOrder();
      assert forall s, t :: s in telemetry && t in more ==> SampleLe(s, t) && s != t;
      hide Total, TiesById, SampleLe;
      CanonicalAppend(telemetry, more, SAMPLE_ID, SampleLe);
      CanonicalContent(telemetry + more, SAMPLE_ID, SampleLe);
      CanonicalContent(telemetry, SAMPLE_ID, SampleLe);
      FinalDecisionStable(q, CanonicalTelemetry(telemetry).value, CanonicalTelemetry(more).value, sha256);
    }
  }

  // ---------------------------------------------------------------- the S4 anchor

  /** The anchor is the time of the earliest qualifying sample. */
  lemma {:induction false} AnchorIsEarliest(ordered: seq<Sample>, from: nat)
    requires from <= |ordered|
    ensures
      match FindAnchor(ordered, from)
      case None => forall i :: from <= i < |ordered| ==> !Qualifies(ordered, ordered[i])
      case Some(t) => exists k ::
        && from <= k < |ordered| && ordered[k].observedAt == t && Qualifies(ordered, ordered[k])
        && forall i :: from <= i < k ==> !Qualifies(ordered, ordered[i])
    decreases |ordered| - from
  {
    if from < |ordered| && !Qualifies(ordered, ordered[from]) {
      AnchorIsEarliest(ordered, from + 1);
    }
  }

  /** The window cut later judges the very baseline the anchor search judged. So once an anchor is
      found, an unstable baseline is the pressure's doing and missing samples are on the effect side. */
  lemma AnchorSettlesBaseline(ordered: seq<Sample>, available: set<Point>, run: RunConsistency)
    requires ordered != [] && FindAnchor(ordered, 0).Some?
    ensures
      var anchor := FindAnchor(ordered, 0).value;
      var w := S4Window(ordered, anchor);
      var d := EvaluateS4(ordered, available, run);
      && w.baseline == PrecedingBaseline(ordered, anchor)
      && |w.baseline| >= MIN_BASELINE && AllRunning(w.baseline)
      && ValueRange(w.baseline, FLOW) <= FLOW_STABILITY
      && (d.reason == BaselineNotStable ==> ValueRange(w.baseline, PRESSURE) > PRESSURE_STABILITY)
      && (d.reason == InsufficientSamples ==> |w.effect| < S4_MIN_EFFECT)
  {
    AnchorIsEarliest(ordered, 0);
  }

  // ---------------------------------------------------------------- directions of matched points

  ghost predicate Directed(o: Observation) {
    && (o.met && o.point == FlowRate ==> o.direction == Decreased)
    && (o.met && o.point == LinePressure ==> o.direction == Increased)
  }

  lemma FlowFalls(effect: seq<Sample>, p: Sample -> bool, required: nat, ceiling: real, baseline: real)
    requires effect != [] && required > 0 && Persistence(effect, p) >= required
    requires forall s :: p(s) ==> s.flow <= ceiling
    requires ceiling < baseline - FLOW_DEADBAND
    ensures ClassifyDelta(Representative(effect, FLOW, p, required) - baseline, FLOW_DEADBAND) == Decreased
  {
    SelectedMeetsPredicate(effect, p, required);
    MeanAtMost(Selected(effect, p, required), FLOW, ceiling);
  }

  lemma PressureRises(effect: seq<Sample>, required: nat, baseline: real, increase: real)
    requires effect != [] && required > 0 && increase > PRESSURE_DEADBAND
    requires Persistence(effect, PressureRose(baseline, increase)) >= required
    ensures ClassifyDelta(Representative(effect, PRESSURE, PressureRose(baseline, increase), required) - baseline,
                          PRESSURE_DEADBAND) == Increased
  {
    var p := PressureRose(baseline, increase);
    SelectedMeetsPredicate(effect, p, required);
    MeanAtLeast(Selected(effect, p, required), PRESSURE, baseline + increase);
  }

  lemma S3FlowDirected(effect: seq<Sample>, b: S3Baseline)
    requires effect != [] && b.flow.Some?
    ensures Directed(S3FlowObservation(effect, b))
  {
    if FlowMatch(effect, b) {
      FlowFalls(effect, FlowDropped(b.flow.value), S3_PERSISTENCE, b.flow.value - FLOW_DECREASE, b.flow.value);
    }
  }

  lemma S3PressureDirected(effect: seq<Sample>, b: S3Baseline)
    requires effect != [] && b.pressure.Some?
    ensures Directed(S3PressureObservation(effect, b))
  {
    if PressureMatch(effect, b) {
      PressureRises(effect, S3_PERSISTENCE, b.pressure.value, S3_PRESSURE_INCREASE);
    }
  }

  lemma InventoryDirected(baseline: seq<Sample>, effect: seq<Sample>)
    requires Chronological(baseline) && Chronological(effect)
    ensures forall o :: o in S3InventoryObservations(baseline, effect) ==> Directed(o)
  {
    hide EndpointSlope, ClassifyDelta;
  }

  lemma S3ObservationsDirected(baseline: seq<Sample>, effect: seq<Sample>, b: S3Baseline)
    requires effect != [] && Chronological(baseline) && Chronological(effect)
    ensures forall o :: o in S3Observations(baseline, effect, b) ==> Directed(o)
  {
    hide S3FlowObservation, S3PressureObservation, S3InventoryObservations, Representative;
    if b.flow.Some? { S3FlowDirected(effect, b); }
    if b.pressure.Some? { S3PressureDirected(effect, b); }
    InventoryDirected(baseline, effect);
  }

  /** Under S4 the anchor's own drop, with flow never negative, puts the baseline above the low-flow line. */
  lemma AnchorLiftsBaseline(ordered: seq<Sample>)
    requires FindAnchor(ordered, 0).Some?
    requires forall s :: s in ordered ==> s.flow >= 0.0
    ensures
      var w := S4Window(ordered, FindAnchor(ordered, 0).value);
      w.baseline != [] && Mean(w.baseline, FLOW) >= FLOW_DECREASE
  {
    AnchorIsEarliest(ordered, 0);
    hide FindAnchor, ValueRange, Mean;
    var anchor := FindAnchor(ordered, 0).value;
    assert S4Window(ordered, anchor).baseline == PrecedingBaseline(ordered, anchor);
  }

  lemma S4ObservationsDirected(w: Window)
    requires w.baseline != [] && w.effect != [] && Mean(w.baseline, FLOW) >= FLOW_DECREASE
    ensures forall o :: o in S4Observations(w) ==> Directed(o)
  {
    S4FlowDirected(w);
    S4PressureDirected(w);
    hide S4FlowObservation, S4PressureObservation, Terminal, TerminalSlope, InventoryStagnant, Mean;
  }

  lemma S4FlowDirected(w: Window)
    requires w.baseline != [] && w.effect != [] && Mean(w.baseline, FLOW) >= FLOW_DECREASE
    ensures Directed(S4FlowObservation(w))
  {
    if Persistence(w.effect, LOW) >= S4_PERSISTENCE {
      FlowFalls(w.effect, LOW, S4_PERSISTENCE, LOW_FLOW, Mean(w.baseline, FLOW));
    }
  }

  lemma S4PressureDirected(w: Window)
    requires w.baseline != [] && w.effect != []
    ensures Directed(S4PressureObservation(w))
  {
    var baseline := Mean(w.baseline, PRESSURE);
    if Persistence(w.effect, PressureRose(baseline, S4_PRESSURE_INCREASE)) >= S4_PERSISTENCE {
      PressureRises(w.effect, S4_PERSISTENCE, baseline, S4_PRESSURE_INCREASE);
    }
  }

  // ---------------------------------------------------------------- where observations come from

  ghost predicate FromS3(q: Question, ordered: seq<Sample>, observations: seq<Observation>) {
    && q.cyber.Some?
    && var w := S3Window(ordered, q.cyber.value.commandAt);
       && w.baseline != [] && w.effect != [] && !w.gapExceeded
       && Chronological(w.baseline) && Chronological(w.effect)
       && observations == S3Observations(w.baseline, w.effect, S3BaselineOf(w.baseline, q.available))
  }

  ghost predicate FromS4(ordered: seq<Sample>, observations: seq<Observation>) {
    && FindAnchor(ordered, 0).Some?
    && var w := S4Window(ordered, FindAnchor(ordered, 0).value);
       && w.baseline != [] && w.effect != [] && !w.gapExceeded
       && observations == S4Observations(w)
  }

  /** Observations are only ever reported for a sampled, gap-free window of the canonical telemetry. */
  lemma ObservationsComeFromWindow(q: Question, ordered: seq<Sample>, sha256: string)
    requires Sorted(ordered, SampleLe)
    ensures
      var observations := Decide(q, sha256, ordered).observations;
      observations == [] || FromS3(q, ordered, observations) || FromS4(ordered, observations)
  {
    hide S3Observations, S4Observations, S3BaselineOf, SelectWindow, FindAnchor, ValidateRunConsistency;
    if GuardReason(q, sha256, ordered).None? {
      ConsistentIsChronological(ordered);
      if q.ruleId == S3_RULE {
        WindowChronological(ordered, q.cyber.value.commandAt, BASELINE_SECONDS, S3_EFFECT_SECONDS, MAX_GAP_SECONDS);
      }
    }
  }

  /** In every finding a matched flow point is reported as decreased, a matched pressure point as increased. */
  lemma MatchedPointsDirected(q: Question, telemetry: seq<Sample>, sha256: string)
    requires forall s :: s in telemetry ==> s.flow >= 0.0
    ensures
      var f := EvaluateCorrelation(q, telemetry, sha256);
      f.Ok? ==> forall o :: o in f.value.decision.observations ==> Directed(o)
  {
    hide Decide, Directed, S3Observations, S4Observations, SelectWindow, FindAnchor;
    if EvaluateCorrelation(q, telemetry, sha256).Err? { return; }
    SampleOrder();
    CanonicalContent(telemetry, SAMPLE_ID, SampleLe);
    var ordered := CanonicalTelemetry(telemetry).value;
    ObservationsComeFromWindow(q, ordered, sha256);
    var observations := Decide(q, sha256, ordered).observations;
    if FromS3(q, ordered, observations) {
      var w := S3Window(ordered, q.cyber.value.commandAt);
      S3ObservationsDirected(w.baseline, w.effect, S3BaselineOf(w.baseline, q.available));
    } else if FromS4(ordered, observations) {
      AnchorLiftsBaseline(ordered);
      S4ObservationsDirected(S4Window(ordered, FindAnchor(ordered, 0).value));
    }
  }

  // ---------------------------------------------------------------- schema bounds

  /** The bound the observation schema puts on both persistence fields. */
  const PERSISTENCE_LIMIT := 100

  ghost predicate WithinLimit(o: Observation) {
    o.required <= PERSISTENCE_LIMIT && o.persistence <= PERSISTENCE_LIMIT
  }

  lemma FilterShortens(s: seq<Sample>, keep: Sample -> bool)
    ensures |Filter(s, keep)| <= |s|
  {
  }

  lemma S4WithinLimit(w: Window)
    requires w.baseline != [] && 0 < |w.effect| <= PERSISTENCE_LIMIT
    ensures forall o :: o in S4Observations(w) ==> WithinLimit(o)
  {
    hide TerminalSlope, InventoryStagnant, Representative, Mean;
    PersistenceWithin(w.effect, RUNNING);
    PersistenceWithin(w.effect, LOW);
    PersistenceWithin(w.effect, PressureRose(Mean(w.baseline, PRESSURE), S4_PRESSURE_INCREASE));
    assert |Terminal(w)| <= |w.effect| by {
      FilterShortens(w.effect, FromTime(w.end - TERMINAL_SECONDS * SECOND));
    }
  }

  lemma S3WithinLimit(baseline: seq<Sample>, effect: seq<Sample>, b: S3Baseline)
    requires 0 < |effect| <= PERSISTENCE_LIMIT && Chronological(baseline) && Chronological(effect)
    ensures forall o :: o in S3Observations(baseline, effect, b) ==> WithinLimit(o)
  {
    hide EndpointSlope, Representative, ClassifyDelta;
    PersistenceWithin(effect, AT_VALVE_TARGET);
    if b.flow.Some? { PersistenceWithin(effect, FlowDropped(b.flow.value)); }
    if b.pressure.Some? { PersistenceWithin(effect, PressureRose(b.pressure.value, S3_PRESSURE_INCREASE)); }
  }

  /** No finding can fail its own schema: every persistence value is within 0..100, because a
      gap-free window of 30 or 60 seconds holds at most 31 or 61 samples. */
  lemma PersistenceFitsSchema(q: Question, telemetry: seq<Sample>, sha256: string)
    ensures
      var f := EvaluateCorrelation(q, telemetry, sha256);
      f.Ok? ==> forall o :: o in f.value.decision.observations ==> WithinLimit(o)
  {
    hide Decide, WithinLimit, S3Observations, S4Observations, FindAnchor, SelectWindow;
    if EvaluateCorrelation(q, telemetry, sha256).Err? { return; }
    SampleOrder();
    CanonicalContent(telemetry, SAMPLE_ID, SampleLe);
    var ordered := CanonicalTelemetry(telemetry).value;
    ObservationsComeFromWindow(q, ordered, sha256);
    var observations := Decide(q, sha256, ordered).observations;
    if FromS3(q, ordered, observations) {
      var anchor := q.cyber.value.commandAt;
      var w := S3Window(ordered, anchor);
      WindowSizes(ordered, anchor, BASELINE_SECONDS, S3_EFFECT_SECONDS, MAX_GAP_SECONDS);
      S3WithinLimit(w.baseline, w.effect, S3BaselineOf(w.baseline, q.available));
    } else if FromS4(ordered, observations) {
      var anchor := FindAnchor(ordered, 0).value;
      WindowSizes(ordered, anchor, BASELINE_SECONDS, S4_EFFECT_SECONDS, MAX_GAP_SECONDS);
      S4WithinLimit(S4Window(ordered, anchor));
    }
  }
}
