/** The S3 and S4 correlation evaluators and the guard cascade in front of them, under the
    frozen windows and thresholds of profile 1.0.0. */
module Correlation {
  import opened Common
  import opened Sorting
  import opened Text
  import opened Telemetry
  import opened Process

  datatype Status = Correlated | NotCorrelated | InsufficientEvidence | Indeterminate

  datatype Reason =
    | ParentEvidenceNotVerified
    | ProfileVersionUnsupported
    | ProfileDigestMismatch
    | UnsupportedCorrelationRule
    | RunMismatch(mismatch: Mismatch)
    | AssetRelationMismatch
    | PointRelationNotDefined
    | WindowNotFinalized
    | MissingTelemetry
    | InsufficientSamples
    | TelemetryGapExceeded
    | BaselineNotStable
    | ProcessChangeOutsideWindow
    | ProcessEffectDirectionMismatch
    | NoProcessChange
    | CorrelationMatch

  function StatusOf(reason: Reason): Status {
    match reason
    case WindowNotFinalized => InsufficientEvidence
    case MissingTelemetry => InsufficientEvidence
    case InsufficientSamples => InsufficientEvidence
    case TelemetryGapExceeded => InsufficientEvidence
    case BaselineNotStable => InsufficientEvidence
    case ProcessChangeOutsideWindow => NotCorrelated
    case ProcessEffectDirectionMismatch => NotCorrelated
    case NoProcessChange => NotCorrelated
    case CorrelationMatch => Correlated
    case _ => Indeterminate
  }

  datatype Point =
    | PumpRunning | ValvePosition | FlowRate | LinePressure | SourceLevel | ReceivingLevel | OtherPoint(id: string)
  datatype Role = Required | Supporting | Contradicting
  datatype Reading = Number(value: real) | Flag(on: bool) | Missing

  datatype Observation = Observation(
    point: Point, baseline: Reading, observed: Reading, delta: Option<real>,
    expected: Change, direction: Change, threshold: Option<real>,
    required: nat, persistence: nat, role: Role, met: bool)

  datatype Decision = Decision(
    status: Status, reason: Reason, anchor: Option<int>, start: Option<int>, end: Option<int>,
    observedAt: int, run: RunConsistency, baselineCount: nat, effectCount: nat,
    maximumGap: Option<int>, minimumSet: Option<string>, observations: seq<Observation>)

  // ---------------------------------------------------------------- shared pieces

  const FLOW: Sample -> real := (s: Sample) => s.flow
  const PRESSURE: Sample -> real := (s: Sample) => s.pressure
  const VALVE: Sample -> real := (s: Sample) => s.valve
  const SOURCE: Sample -> real := (s: Sample) => s.sourceLevel
  const RECEIVING: Sample -> real := (s: Sample) => s.receivingLevel
  const RUNNING: Sample -> bool := (s: Sample) => s.pumpRunning

  const MAX_GAP_SECONDS := 2
  const BASELINE_SECONDS := 10
  const MIN_BASELINE := 8
  const FLOW_DECREASE := 0.5
  const FLOW_DEADBAND := 0.1
  const FLOW_STABILITY := 0.1
  const PRESSURE_DEADBAND := 0.05
  const PRESSURE_STABILITY := 0.05
  const CONSERVATION_TOLERANCE := 0.000000001

  const NO_RUN := RunConsistency(None, None, None, None, None)

  function Latest(s: seq<Sample>): Option<int> {
    if s == [] then None
    else
      var rest := Latest(s[..|s| - 1]);
      if rest.None? then Some(s[|s| - 1].observedAt) else Some(Max(rest.value, s[|s| - 1].observedAt))
  }

  /** The latest sample, else the anchor, else 1970. */
  function EvidenceTime(s: seq<Sample>, anchor: Option<int>): int {
    if Latest(s).Some? then Latest(s).value else if anchor.Some? then anchor.value else 0
  }

  function ReasonDecision(reason: Reason, s: seq<Sample>, anchor: Option<int>, run: RunConsistency): Decision {
    Decision(StatusOf(reason), reason, anchor, None, None, EvidenceTime(s, anchor), run, 0, 0, None, None, [])
  }

  function NumericObservation(point: Point, baseline: real, observed: real, expected: Change, deadband: real,
                              threshold: real, required: nat, persistence: nat, role: Role, met: bool): Observation {
    Observation(point, Number(baseline), Number(observed), Some(observed - baseline), expected,
                ClassifyDelta(observed - baseline, deadband), Some(threshold), required, persistence, role, met)
  }

  function FlowDropped(baseline: real): Sample -> bool {
    (s: Sample) => s.flow <= baseline - FLOW_DECREASE
  }

  function PressureRose(baseline: real, increase: real): Sample -> bool {
    (s: Sample) => s.pressure >= baseline + increase
  }

  // ---------------------------------------------------------------- S3

  const S3_EFFECT_SECONDS := 30
  const S3_MIN_EFFECT := 24
  const S3_PERSISTENCE := 5
  const S3_PRESSURE_INCREASE := 0.1
  const VALVE_TARGET := 25.0
  const VALVE_TOLERANCE := 0.5
  const VALVE_PERSISTENCE := 3
  const VALVE_STABILITY := 0.5
  const INVENTORY_REDUCTION := 0.00002

  const AT_VALVE_TARGET: Sample -> bool := (s: Sample) => Abs(s.valve - VALVE_TARGET) <= VALVE_TOLERANCE

  /** Baseline means of the points that are available. */
  datatype S3Baseline = S3Baseline(valve: Option<real>, flow: Option<real>, pressure: Option<real>)

  function S3BaselineOf(baseline: seq<Sample>, available: set<Point>): S3Baseline
    requires baseline != []
  {
    S3Baseline(
      if ValvePosition in available then Some(Mean(baseline, VALVE)) else None,
      if FlowRate in available then Some(Mean(baseline, FLOW)) else None,
      if LinePressure in available then Some(Mean(baseline, PRESSURE)) else None)
  }

  predicate ValveMatch(s: seq<Sample>, b: S3Baseline) {
    b.valve.Some? && Persistence(s, AT_VALVE_TARGET) >= VALVE_PERSISTENCE
  }

  predicate FlowMatch(s: seq<Sample>, b: S3Baseline) {
    b.flow.Some? && Persistence(s, FlowDropped(b.flow.value)) >= S3_PERSISTENCE
  }

  predicate PressureMatch(s: seq<Sample>, b: S3Baseline) {
    b.pressure.Some? && Persistence(s, PressureRose(b.pressure.value, S3_PRESSURE_INCREASE)) >= S3_PERSISTENCE
  }

  /** The minimum set, asked of the effect window and of the samples after it alike. */
  predicate S3Matched(s: seq<Sample>, b: S3Baseline) {
    || (ValveMatch(s, b) && (FlowMatch(s, b) || PressureMatch(s, b)))
    || (b.valve.None? && FlowMatch(s, b) && PressureMatch(s, b))
  }

  predicate S3Unstable(baseline: seq<Sample>, available: set<Point>)
    requires baseline != []
  {
    || (ValvePosition in available && ValueRange(baseline, VALVE) > VALVE_STABILITY)
    || (FlowRate in available && ValueRange(baseline, FLOW) > FLOW_STABILITY)
    || (LinePressure in available && ValueRange(baseline, PRESSURE) > PRESSURE_STABILITY)
  }

  predicate S3PointsMissing(available: set<Point>) {
    var valve, flow, pressure := ValvePosition in available, FlowRate in available, LinePressure in available;
    (valve && !(flow || pressure)) || (!valve && !(flow && pressure))
  }

  function ValveObservation(effect: seq<Sample>, b: S3Baseline): Observation
    requires effect != [] && b.valve.Some?
  {
    NumericObservation(ValvePosition, b.valve.value,
      Representative(effect, VALVE, AT_VALVE_TARGET, VALVE_PERSISTENCE), Decreased, VALVE_TOLERANCE,
      Abs(b.valve.value - VALVE_TARGET), VALVE_PERSISTENCE, Persistence(effect, AT_VALVE_TARGET),
      Required, ValveMatch(effect, b))
  }

  function S3FlowObservation(effect: seq<Sample>, b: S3Baseline): Observation
    requires effect != [] && b.flow.Some?
  {
    NumericObservation(FlowRate, b.flow.value,
      Representative(effect, FLOW, FlowDropped(b.flow.value), S3_PERSISTENCE), Decreased, FLOW_DEADBAND,
      FLOW_DECREASE, S3_PERSISTENCE, Persistence(effect, FlowDropped(b.flow.value)),
      Required, FlowMatch(effect, b))
  }

  function S3PressureObservation(effect: seq<Sample>, b: S3Baseline): Observation
    requires effect != [] && b.pressure.Some?
  {
    var rose := PressureRose(b.pressure.value, S3_PRESSURE_INCREASE);
    NumericObservation(LinePressure, b.pressure.value,
      Representative(effect, PRESSURE, rose, S3_PERSISTENCE), Increased, PRESSURE_DEADBAND,
      S3_PRESSURE_INCREASE, S3_PERSISTENCE, Persistence(effect, rose), Required, PressureMatch(effect, b))
  }

  function S3Observations(baseline: seq<Sample>, effect: seq<Sample>, b: S3Baseline): seq<Observation>
    requires effect != [] && Chronological(baseline) && Chronological(effect)
  {
    (if b.valve.Some? then [ValveObservation(effect, b)] else [])
    + (if b.flow.Some? then [S3FlowObservation(effect, b)] else [])
    + (if b.pressure.Some? then [S3PressureObservation(effect, b)] else [])
    + S3InventoryObservations(baseline, effect)
  }

  function S3InventoryObservations(baseline: seq<Sample>, effect: seq<Sample>): seq<Observation>
    requires Chronological(baseline) && Chronological(effect)
  {
    if |baseline| < 2 || |effect| < 2 then []
    else
      var baselineSource := Abs(EndpointSlope(baseline, SOURCE));
      var baselineReceiving := Abs(EndpointSlope(baseline, RECEIVING));
      var effectSource := Abs(EndpointSlope(effect, SOURCE));
      var effectReceiving := Abs(EndpointSlope(effect, RECEIVING));
      var conserved := Abs(effectSource - effectReceiving) <= CONSERVATION_TOLERANCE;
      var sourceMet := baselineSource - effectSource >= INVENTORY_REDUCTION && conserved;
      var receivingMet := baselineReceiving - effectReceiving >= INVENTORY_REDUCTION && conserved;
      [ NumericObservation(SourceLevel, baselineSource, effectSource, Decreased, 0.0, INVENTORY_REDUCTION,
          |effect|, |effect|, if sourceMet then Supporting else Contradicting, sourceMet),
        NumericObservation(ReceivingLevel, baselineReceiving, effectReceiving, Decreased, 0.0, INVENTORY_REDUCTION,
          |effect|, |effect|, if receivingMet then Supporting else Contradicting, receivingMet) ]
  }

  predicate NoChange(observations: seq<Observation>) {
    forall o :: o in observations && o.role == Required ==> o.direction == Unchanged
  }

  function S3Window(ordered: seq<Sample>, anchor: int): Window {
    SelectWindow(ordered, anchor, BASELINE_SECONDS, S3_EFFECT_SECONDS, MAX_GAP_SECONDS)
  }

  /** The part of a decision that a window alone determines. */
  datatype Verdict = Verdict(reason: Reason, minimumSet: Option<string>, observations: seq<Observation>)

  function S3Verdict(w: Window, available: set<Point>): Verdict
    requires Chronological(w.baseline) && Chronological(w.effect)
  {
    if !w.finalized then Verdict(WindowNotFinalized, None, [])
    else if S3PointsMissing(available) then Verdict(MissingTelemetry, None, [])
    else if |w.baseline| < MIN_BASELINE || |w.effect| < S3_MIN_EFFECT then Verdict(InsufficientSamples, None, [])
    else if w.gapExceeded then Verdict(TelemetryGapExceeded, None, [])
    else if S3Unstable(w.baseline, available) then Verdict(BaselineNotStable, None, [])
    else
      var b := S3BaselineOf(w.baseline, available);
      var observations := S3Observations(w.baseline, w.effect, b);
      if S3Matched(w.effect, b) then
        Verdict(CorrelationMatch,
                Some(if b.valve.Some? then "VALVE_AND_DOWNSTREAM" else "DUAL_DOWNSTREAM_WITHOUT_VALVE"),
                observations)
      else if S3Matched(w.after, b) then Verdict(ProcessChangeOutsideWindow, None, observations)
      else if NoChange(observations) then Verdict(NoProcessChange, None, observations)
      else Verdict(ProcessEffectDirectionMismatch, None, observations)
  }

  function VerdictDecision(v: Verdict, s: seq<Sample>, anchor: int, w: Window, run: RunConsistency): Decision {
    Decision(StatusOf(v.reason), v.reason, Some(anchor), Some(w.start), Some(w.end), EvidenceTime(s, Some(anchor)),
             run, |w.baseline|, |w.effect|, w.maximumGap, v.minimumSet, v.observations)
  }

  lemma WindowChronological(ordered: seq<Sample>, anchor: int, baselineSeconds: nat, effectSeconds: nat,
                            maximumGapSeconds: nat)
    requires Chronological(ordered)
    ensures
      var w := SelectWindow(ordered, anchor, baselineSeconds, effectSeconds, maximumGapSeconds);
      Chronological(w.baseline) && Chronological(w.effect)
  {
    FilterChronological(ordered, BaselineCut(anchor - baselineSeconds * SECOND, anchor));
    FilterChronological(ordered, EffectCut(anchor, anchor + effectSeconds * SECOND));
  }

  function EvaluateS3(ordered: seq<Sample>, anchor: int, available: set<Point>, run: RunConsistency): Decision
    requires Chronological(ordered)
  {
    WindowChronological(ordered, anchor, BASELINE_SECONDS, S3_EFFECT_SECONDS, MAX_GAP_SECONDS);
    var w := S3Window(ordered, anchor);
    VerdictDecision(S3Verdict(w, available), ordered, anchor, w, run)
  }

  // ---------------------------------------------------------------- S4

  const S4_EFFECT_SECONDS := 60
  const S4_MIN_EFFECT := 50
  const S4_PERSISTENCE := 10
  const S4_PRESSURE_INCREASE := 0.5
  const LOW_FLOW := 0.1
  const TERMINAL_SECONDS := 20
  const STAGNATION := 0.00001

  const LOW: Sample -> bool := (s: Sample) => s.flow <= LOW_FLOW

  const S4_POINTS: set<Point> := {PumpRunning, FlowRate, LinePressure, SourceLevel, ReceivingLevel}
  const S3_POINTS: set<Point> := {ValvePosition, FlowRate, LinePressure, SourceLevel, ReceivingLevel}

  function PrecedingBaseline(ordered: seq<Sample>, at: int): seq<Sample> {
    Filter(ordered, BaselineCut(at - BASELINE_SECONDS * SECOND, at))
  }

  predicate AllRunning(s: seq<Sample>) {
    forall x :: x in s ==> x.pumpRunning
  }

  /** A running pump whose flow has dropped from a stable, running baseline. */
  predicate Qualifies(ordered: seq<Sample>, current: Sample) {
    var baseline := PrecedingBaseline(ordered, current.observedAt);
    && |baseline| >= MIN_BASELINE
    && current.pumpRunning && AllRunning(baseline)
    && ValueRange(baseline, FLOW) <= FLOW_STABILITY
    && current.flow <= Mean(baseline, FLOW) - FLOW_DECREASE
  }

  function FindAnchor(ordered: seq<Sample>, from: nat): Option<int>
    requires from <= |ordered|
    decreases |ordered| - from
  {
    if from == |ordered| then None
    else if Qualifies(ordered, ordered[from]) then Some(ordered[from].observedAt)
    else FindAnchor(ordered, from + 1)
  }

  method FindAnchorLoop(telemetry: seq<Sample>) returns (anchor: Option<int>)
    ensures anchor == FindAnchor(telemetry, 0)
  {
    for i := 0 to |telemetry|
      invariant FindAnchor(telemetry, 0) == FindAnchor(telemetry, i)
    {
      var current := telemetry[i];
      var baseline := PrecedingBaseline(telemetry, current.observedAt);
      if |baseline| < MIN_BASELINE { continue; }
      if !current.pumpRunning || !AllRunning(baseline) { continue; }
      if ValueRange(baseline, FLOW) > FLOW_STABILITY { continue; }
      if current.flow <= Mean(baseline, FLOW) - FLOW_DECREASE {
        return Some(current.observedAt);
      }
    }
    return None;
  }

  function S4Window(ordered: seq<Sample>, anchor: int): Window {
    SelectWindow(ordered, anchor, BASELINE_SECONDS, S4_EFFECT_SECONDS, MAX_GAP_SECONDS)
  }

  function FromTime(time: int): Sample -> bool {
    (s: Sample) => s.observedAt >= time
  }

  function Terminal(w: Window): seq<Sample> {
    Filter(w.effect, FromTime(w.end - TERMINAL_SECONDS * SECOND))
  }

  function TerminalSlope(terminal: seq<Sample>, value: Sample -> real): Option<real> {
    if Span(terminal) >= TERMINAL_SECONDS * SECOND then Some(Abs(EndpointSlope(terminal, value))) else None
  }

  predicate InventoryStagnant(source: Option<real>, receiving: Option<real>) {
    source.Some? && receiving.Some? && source.value <= STAGNATION && receiving.value <= STAGNATION &&
    Abs(source.value - receiving.value) <= CONSERVATION_TOLERANCE
  }

  function InventoryObservation(point: Point, slope: Option<real>, met: bool, persistence: nat): Observation {
    Observation(point, Missing, if slope.Some? then Number(slope.value) else Missing, None, Unchanged,
                if slope.Some? && slope.value <= STAGNATION then Unchanged else Increased,
                Some(STAGNATION), 20, persistence, Required, met)
  }

  function PumpObservation(w: Window): Observation {
    var pump := Persistence(w.effect, RUNNING);
    Observation(PumpRunning, Flag(true), Flag(pump >= S4_PERSISTENCE), None, Unchanged,
      if pump >= S4_PERSISTENCE then Unchanged else Unavailable, None, S4_PERSISTENCE, pump,
      Required, pump >= S4_PERSISTENCE)
  }

  function S4FlowObservation(w: Window): Observation
    requires w.baseline != [] && w.effect != []
  {
    var baseline := Mean(w.baseline, FLOW);
    NumericObservation(FlowRate, baseline, Representative(w.effect, FLOW, LOW, S4_PERSISTENCE), Decreased,
      FLOW_DEADBAND, baseline - LOW_FLOW, S4_PERSISTENCE, Persistence(w.effect, LOW), Required,
      Persistence(w.effect, LOW) >= S4_PERSISTENCE)
  }

  function S4PressureObservation(w: Window): Observation
    requires w.baseline != [] && w.effect != []
  {
    var baseline := Mean(w.baseline, PRESSURE);
    var rose := PressureRose(baseline, S4_PRESSURE_INCREASE);
    NumericObservation(LinePressure, baseline, Representative(w.effect, PRESSURE, rose, S4_PERSISTENCE), Increased,
      PRESSURE_DEADBAND, S4_PRESSURE_INCREASE, S4_PERSISTENCE, Persistence(w.effect, rose), Required,
      Persistence(w.effect, rose) >= S4_PERSISTENCE)
  }

  function S4Observations(w: Window): seq<Observation>
    requires w.baseline != [] && w.effect != []
  {
    var terminal := Terminal(w);
    var source, receiving := TerminalSlope(terminal, SOURCE), TerminalSlope(terminal, RECEIVING);
    var stagnant := InventoryStagnant(source, receiving);
    [ PumpObservation(w), S4FlowObservation(w), S4PressureObservation(w),
      InventoryObservation(SourceLevel, source, stagnant, |terminal|),
      InventoryObservation(ReceivingLevel, receiving, stagnant, |terminal|) ]
  }

  predicate S4Unstable(baseline: seq<Sample>)
    requires baseline != []
  {
    || ValueRange(baseline, FLOW) > FLOW_STABILITY
    || ValueRange(baseline, PRESSURE) > PRESSURE_STABILITY
    || !AllRunning(baseline)
  }

  function S4Verdict(w: Window, available: set<Point>): Verdict {
    if !w.finalized then Verdict(WindowNotFinalized, None, [])
    else if !(S4_POINTS <= available) then Verdict(MissingTelemetry, None, [])
    else if |w.baseline| < MIN_BASELINE || |w.effect| < S4_MIN_EFFECT then Verdict(InsufficientSamples, None, [])
    else if w.gapExceeded then Verdict(TelemetryGapExceeded, None, [])
    else if S4Unstable(w.baseline) then Verdict(BaselineNotStable, None, [])
    else
      var observations := S4Observations(w);
      if forall o :: o in observations ==> o.met then
        Verdict(CorrelationMatch, Some("S4_PROCESS_INCONSISTENCY"), observations)
      else
        Verdict(ProcessEffectDirectionMismatch, None, observations)
  }

  function EvaluateS4(ordered: seq<Sample>, available: set<Point>, run: RunConsistency): Decision
    requires ordered != []
  {
    match FindAnchor(ordered, 0)
    case None =>
      var scope := ordered[|ordered| - 1].observedAt - ordered[0].observedAt;
      var short := |ordered| < MIN_BASELINE + S4_MIN_EFFECT || scope < (BASELINE_SECONDS + S4_EFFECT_SECONDS) * SECOND;
      ReasonDecision(if short then InsufficientSamples else NoProcessChange, ordered, None, run)
    case Some(anchor) =>
      var w := S4Window(ordered, anchor);
      VerdictDecision(S4Verdict(w, available), ordered, anchor, w, run)
  }

  // ---------------------------------------------------------------- requests and findings

  datatype Parent = Parent(
    evidenceId: string, evidenceType: string, digest: string, observedAt: int, sequence: Option<nat>)

  /** The literal-typed command fields are fixed by the schema and do not appear. */
  datatype CyberContext = CyberContext(
    raw: Parent, semantic: Parent, assetContext: Parent, policy: Option<Parent>,
    commandValue: real, commandAt: int)

  /** Everything a request says apart from its telemetry. */
  datatype Question = Question(
    profileId: string, profileVersion: string, profileSha256: string, ruleId: string, ruleVersion: string,
    cyber: Option<CyberContext>, available: set<Point>, reevaluates: Option<Parent>)

  /** The identity is the tuple of name parts whose digest becomes the finding ID. */
  datatype FindingIdentity = FindingIdentity(
    ruleId: string, ruleVersion: string, simulationId: Option<string>, configurationHash: Option<string>,
    anchor: Option<int>, parents: seq<Parent>)

  datatype Finding = Finding(decision: Decision, telemetryParents: seq<Parent>, parents: seq<Parent>,
    identity: FindingIdentity)

  const PROFILE_ID := "otsoc.correlation.oil_gas_transfer"
  const PROFILE_VERSION := "1.0.0"
  const S3_RULE := "CPR-S3-CV-TRANSFER-001"
  const S4_RULE := "CPR-S4-PUMP-FLOW-001"
  const TELEMETRY_TYPE := "simulator_telemetry"

  const PARENT_ID: Parent -> string := (p: Parent) => p.evidenceId

  predicate ParentLe(a: Parent, b: Parent) {
    if a.evidenceType != b.evidenceType then StringLe(a.evidenceType, b.evidenceType)
    else a.observedAt < b.observedAt || (a.observedAt == b.observedAt && StringLe(a.evidenceId, b.evidenceId))
  }

  lemma ParentOrder()
    ensures Total(ParentLe) && TiesById(PARENT_ID, ParentLe)
  {
    StringOrder();
    forall x: Parent, y: Parent
      ensures ParentLe(x, y) || ParentLe(y, x)
      ensures ParentLe(x, y) && ParentLe(y, x) ==> x.evidenceId == y.evidenceId
    {
      StringLeTotal(x.evidenceId, y.evidenceId);
      StringLeTotal(x.evidenceType, y.evidenceType);
    }
    forall x: Parent, y: Parent, z: Parent | ParentLe(x, y) && ParentLe(y, z)
      ensures ParentLe(x, z)
    {
      if x.evidenceType != y.evidenceType && y.evidenceType != z.evidenceType {
        StringLeTransitive(x.evidenceType, y.evidenceType, z.evidenceType);
        StringLeTotal(x.evidenceType, y.evidenceType);
      } else if x.evidenceType == y.evidenceType == z.evidenceType && x.observedAt == y.observedAt == z.observedAt {
        StringLeTransitive(x.evidenceId, y.evidenceId, z.evidenceId);
      }
    }
  }

  function ParentOf(s: Sample): Parent {
    Parent(s.evidenceId, TELEMETRY_TYPE, s.digest, s.observedAt, Some(s.sequence))
  }

  function TelemetryParents(s: seq<Sample>): seq<Parent> {
    seq(|s|, i requires 0 <= i < |s| => ParentOf(s[i]))
  }

  /** Every parent reference of a finding over the given telemetry. */
  function References(q: Question, telemetry: seq<Sample>): seq<Parent> {
    (if q.cyber.None? then [] else
       [q.cyber.value.raw, q.cyber.value.semantic, q.cyber.value.assetContext]
       + (if q.cyber.value.policy.None? then [] else [q.cyber.value.policy.value]))
    + TelemetryParents(telemetry)
    + (if q.reevaluates.None? then [] else [q.reevaluates.value])
  }

  function CanonicalParents(parents: seq<Parent>): Result<seq<Parent>, CanonicalError> {
    ParentOrder();
    Canonical(parents, PARENT_ID, ParentLe)
  }

  function BuildFinding(q: Question, ordered: seq<Sample>, decision: Decision): Result<Finding, CanonicalError> {
    var parents :- CanonicalParents(References(q, ordered));
    var telemetryParents :- CanonicalParents(TelemetryParents(ordered));
    Ok(Finding(decision, telemetryParents, parents,
               FindingIdentity(q.ruleId, q.ruleVersion, decision.run.simulationId, decision.run.configurationHash,
                               decision.anchor, parents)))
  }

  function RequestAnchor(q: Question): Option<int> {
    if q.cyber.Some? then Some(q.cyber.value.commandAt) else None
  }

  predicate S3ParentShape(q: Question) {
    && q.cyber.Some?
    && q.cyber.value.raw.evidenceType == "synthetic_protocol_event"
    && q.cyber.value.semantic.evidenceType == "protocol_semantic_event"
    && q.cyber.value.assetContext.evidenceType == "asset_context_event"
    && (q.cyber.value.policy.None? || q.cyber.value.policy.value.evidenceType == "communication_policy_finding")
  }

  /** The first guard that stops the request before an evaluator runs. */
  function GuardReason(q: Question, sha256: string, ordered: seq<Sample>): Option<Reason> {
    var run := ValidateRunConsistency(ordered);
    if q.profileId != PROFILE_ID || q.profileVersion != PROFILE_VERSION then Some(ProfileVersionUnsupported)
    else if q.profileSha256 != sha256 then Some(ProfileDigestMismatch)
    else if (q.ruleId != S3_RULE && q.ruleId != S4_RULE) || q.ruleVersion != "1.0.0" then
      Some(UnsupportedCorrelationRule)
    else if q.ruleId == S3_RULE && !S3ParentShape(q) then Some(ParentEvidenceNotVerified)
    else if run.mismatch.Some? then Some(RunMismatch(run.mismatch.value))
    else if q.ruleId == S3_RULE && Abs(q.cyber.value.commandValue - VALVE_TARGET) > 0.000000000001 then
      Some(AssetRelationMismatch)
    else if q.ruleId == S4_RULE && q.cyber.Some? then Some(AssetRelationMismatch)
    else if !(q.available <= if q.ruleId == S3_RULE then S3_POINTS else S4_POINTS) then Some(PointRelationNotDefined)
    else if ordered == [] then Some(MissingTelemetry)
    else None
  }

  /** What a stopped request reports: run identity only once the run was examined. */
  function GuardDecision(q: Question, reason: Reason, ordered: seq<Sample>): Decision {
    var run := ValidateRunConsistency(ordered);
    var examined := reason.RunMismatch? || reason.AssetRelationMismatch? || reason.PointRelationNotDefined?;
    ReasonDecision(reason, ordered,
                   if q.ruleId == S4_RULE && reason.AssetRelationMismatch? then None else RequestAnchor(q),
                   if examined then run else NO_RUN)
  }

  function Decide(q: Question, sha256: string, ordered: seq<Sample>): Decision
    requires Sorted(ordered, SampleLe)
  {
    var run := ValidateRunConsistency(ordered);
    match GuardReason(q, sha256, ordered)
    case Some(reason) => GuardDecision(q, reason, ordered)
    case None =>
      ConsistentIsChronological(ordered);
      if q.ruleId == S3_RULE then EvaluateS3(ordered, q.cyber.value.commandAt, q.available, run)
      else EvaluateS4(ordered, q.available, run)
  }

  function EvaluateCorrelation(q: Question, telemetry: seq<Sample>, sha256: string): Result<Finding, CanonicalError> {
    var ordered :- CanonicalTelemetry(telemetry);
    assert Sorted(ordered, SampleLe) by { SampleOrder(); CanonicalContent(telemetry, SAMPLE_ID, SampleLe); }
    BuildFinding(q, ordered, Decide(q, sha256, ordered))
  }
}
