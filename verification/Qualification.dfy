/** Verified evidence bundles and the incident candidates that the frozen rules S1 to S4
    build from them. */
module Qualification {
  import opened Common
  import opened Text
  import opened Sorting
  import opened Identity
  import opened EvidenceTypes
  import Policy
  import Correlation

  // ---------------------------------------------------------------- stored evidence

  /** The payload fields that qualification reads. A boolean stands for a fixed conjunction of
      literal comparisons over the payload. */
  datatype Body =
    | RawBody(sourceDigest: string)
    | SemanticBody(eventId: string, valveCommand: bool, raw: Ref)
    | ContextBody(contextId: string, unresolvedSource: bool, controlsValve: bool, targetKey: Option<string>,
                  targetId: Option<string>, semanticId: string, rawId: string)
    | PolicyBody(findingId: string, policyStatus: Policy.PolicyStatus, unknownSource: bool, itReadsPlc: bool,
                 sourceAsset: Option<string>, destinationAsset: Option<string>, targetPoint: Option<string>,
                 semantic: Ref, assetContext: Ref, raw: Ref)
    | CorrelationBody(correlationId: string, parentSet: string, derivedParentSet: string, telemetryParents: seq<Ref>,
                      ruleId: string, ruleVersion: string, outcome: Correlation.Status, reason: Correlation.Reason,
                      simulationId: Option<string>, configurationHash: Option<string>,
                      policyParent: Option<Ref>, semanticParent: Option<Ref>, contextParent: Option<Ref>,
                      processAssets: seq<(string, string)>, points: seq<string>, anchorTime: Option<int>)
    | TelemetryBody(schemaVersion: string, runId: string, runConfiguration: string)

  datatype Evidence = Evidence(digest: string, observedAt: int, intact: bool, body: Body)

  type EvidenceStore = map<string, Evidence>

  function KindOf(b: Body): Kind {
    match b
    case RawBody(_) => RawKind
    case SemanticBody(_, _, _) => SemanticKind
    case ContextBody(_, _, _, _, _, _, _) => ContextKind
    case PolicyBody(_, _, _, _, _, _, _, _, _, _) => PolicyKind
    case CorrelationBody(_, _, _, _, _, _, _, _, _, _, _, _, _, _, _, _) => CorrelationKind
    case TelemetryBody(_, _, _) => TelemetryKind
  }

  /** The run and configuration a correlation finding is scoped to, if both are recorded. */
  function ScopeOf(e: Evidence): Option<(string, string)> {
    if e.body.CorrelationBody? && e.body.simulationId.Some? && e.body.configurationHash.Some?
    then Some((e.body.simulationId.value, e.body.configurationHash.value))
    else None
  }

  // ---------------------------------------------------------------- field alphabets

  predicate Hex(c: char) { '0' <= c <= '9' || 'a' <= c <= 'f' }

  predicate DigestText(s: string) { s != "" && forall c :: c in s ==> Hex(c) }

  predicate UuidText(s: string) { s != "" && forall c :: c in s ==> Hex(c) || c == '-' }

  predicate RunText(s: string) { s != "" && Free(s, '|') && Free(s, ',') }

  predicate PointText(s: string) { s != "" && 'a' <= s[0] <= 'z' && Free(s, '|') && Free(s, ',') }

  predicate Optionally(o: Option<string>, p: string -> bool) { o.None? || p(o.value) }

  /** What the evidence schemas guarantee of a stored record. */
  predicate WellFormed(id: string, e: Evidence) {
    && UuidText(id)
    && match e.body
       case RawBody(sourceDigest) => DigestText(sourceDigest)
       case PolicyBody(_, _, _, _, source, destination, point, _, _, _) =>
         Optionally(source, UuidText) && Optionally(destination, UuidText) && Optionally(point, PointText)
       case CorrelationBody(_, _, _, _, _, _, _, _, simulation, configuration, _, _, _, _, points, _) =>
         && Optionally(simulation, RunText) && Optionally(configuration, DigestText)
         && forall p :: p in points ==> PointText(p)
       case _ => true
  }

  ghost predicate StoreWellFormed(store: EvidenceStore) {
    forall id :: id in store ==> WellFormed(id, store[id])
  }

  // ---------------------------------------------------------------- verification

  datatype Error =
    | EvidenceNotFound | EvidenceTypeNotAllowed | DigestDiffers | IntegrityFailed
    | IdentityInconsistent | ParentSetInconsistent | TelemetryScopeDiffers
    | LineageInconsistent | LineageMissing | UnexpectedPolicyEvidence | UnrelatedCorrelation
    | FieldRequired(field: string)

  datatype Item = Item(id: string, evidence: Evidence)

  datatype Request = Request(policy: Option<Ref>, correlation: Option<Ref>)

  datatype Bundle = Bundle(
    policy: Option<Item>, correlation: Option<Item>,
    semantic: Option<Item>, assetContext: Option<Item>, raw: Option<Item>)

  function Verified(store: EvidenceStore, r: Ref, kind: Kind): (result: Result<Item, Error>)
    ensures result.Ok? ==>
      result.value.id == r.evidenceId && r.evidenceId in store && store[r.evidenceId] == result.value.evidence &&
      KindOf(result.value.evidence.body) == kind
  {
    if r.evidenceId !in store then Err(EvidenceNotFound)
    else
      var e := store[r.evidenceId];
      if KindOf(e.body) != kind then Err(EvidenceTypeNotAllowed)
      else if e.digest != r.digest then Err(DigestDiffers)
      else if !e.intact then Err(IntegrityFailed)
      else Ok(Item(r.evidenceId, e))
  }

  function VerifiedOption(store: EvidenceStore, r: Option<Ref>, kind: Kind): (result: Result<Option<Item>, Error>)
    ensures result.Ok? && result.value.Some? ==>
      && result.value.value.id in store && store[result.value.value.id] == result.value.value.evidence
      && KindOf(result.value.value.evidence.body) == kind
  {
    if r.None? then Ok(None)
    else
      var item :- Verified(store, r.value, kind);
      Ok(Some(item))
  }

  const TELEMETRY_SCHEMA_VERSION := "2.0.0"

  /** Telemetry parents must be of the current telemetry schema. */
  function VerifiedTelemetry(store: EvidenceStore, r: Ref): (result: Result<Item, Error>)
    ensures result.Ok? ==> result.value.evidence.body.TelemetryBody?
  {
    if r.evidenceId in store && store[r.evidenceId].body.TelemetryBody? &&
       store[r.evidenceId].body.schemaVersion != TELEMETRY_SCHEMA_VERSION
    then Err(EvidenceTypeNotAllowed)
    else Verified(store, r, TelemetryKind)
  }

  predicate AllOfRun(items: seq<Item>, finding: Body)
    requires finding.CorrelationBody?
  {
    forall t :: t in items ==>
      && t.evidence.body.TelemetryBody?
      && finding.simulationId == Some(t.evidence.body.runId)
      && finding.configurationHash == Some(t.evidence.body.runConfiguration)
  }

  /** Every telemetry parent in turn; the first that fails decides. */
  function TelemetryLineage(store: EvidenceStore, refs: seq<Ref>): Result<seq<Item>, Error> {
    if refs == [] then Ok([])
    else
      var rest :- TelemetryLineage(store, refs[..|refs| - 1]);
      var last :- VerifiedTelemetry(store, refs[|refs| - 1]);
      Ok(rest + [last])
  }

  /** A finding names itself, agrees with its provenance on its parents, and rests on verified
      telemetry of its own run and configuration. */
  function FindingChecked(store: EvidenceStore, finding: Item): Result<Item, Error>
    requires finding.evidence.body.CorrelationBody?
  {
    var body := finding.evidence.body;
    if body.correlationId != finding.id then Err(IdentityInconsistent)
    else if body.parentSet != body.derivedParentSet then Err(ParentSetInconsistent)
    else
      var telemetry :- TelemetryLineage(store, body.telemetryParents);
      if AllOfRun(telemetry, body) then Ok(finding) else Err(TelemetryScopeDiffers)
  }

  /** A stored, intact, current telemetry record of the finding's run, named by its digest. */
  predicate SupportsFinding(store: EvidenceStore, r: Ref, finding: Body)
    requires finding.CorrelationBody?
  {
    && r.evidenceId in store && store[r.evidenceId].digest == r.digest && store[r.evidenceId].intact
    && store[r.evidenceId].body.TelemetryBody?
    && store[r.evidenceId].body.schemaVersion == TELEMETRY_SCHEMA_VERSION
    && finding.simulationId == Some(store[r.evidenceId].body.runId)
    && finding.configurationHash == Some(store[r.evidenceId].body.runConfiguration)
  }

  /** The telemetry loop and the scope check pass exactly when every parent supports the finding. */
  lemma {:induction false} TelemetryLineageExactly(store: EvidenceStore, refs: seq<Ref>, finding: Body)
    requires finding.CorrelationBody?
    ensures
      var items := TelemetryLineage(store, refs);
      items.Ok? && AllOfRun(items.value, finding) <==> forall r :: r in refs ==> SupportsFinding(store, r, finding)
  {
    if refs != [] {
      var init, last := refs[..|refs| - 1], refs[|refs| - 1];
      TelemetryLineageExactly(store, init, finding);
      assert refs == init + [last];
      assert forall r :: r in refs <==> r in init || r == last;
      var rest, item := TelemetryLineage(store, init), VerifiedTelemetry(store, last);
      SupportExactly(store, last, finding);
      if rest.Ok? && item.Ok? {
        AllOfRunSplits(rest.value, item.value, finding);
      }
      hide SupportsFinding, AllOfRun, VerifiedTelemetry;
    }
  }

  lemma SupportExactly(store: EvidenceStore, r: Ref, finding: Body)
    requires finding.CorrelationBody?
    ensures
      var item := VerifiedTelemetry(store, r);
      item.Ok? && AllOfRun([item.value], finding) <==> SupportsFinding(store, r, finding)
  {
    var item := VerifiedTelemetry(store, r);
    assert item.Ok? ==> item.value in [item.value];
  }

  lemma AllOfRunSplits(items: seq<Item>, last: Item, finding: Body)
    requires finding.CorrelationBody?
    ensures AllOfRun(items + [last], finding) <==> AllOfRun(items, finding) && AllOfRun([last], finding)
  {
    assert last in items + [last] && last in [last];
  }

  function VerifiedCorrelation(store: EvidenceStore, r: Option<Ref>): (result: Result<Option<Item>, Error>)
    ensures result.Ok? && result.value.Some? ==>
      && result.value.value.id in store && store[result.value.value.id] == result.value.value.evidence
      && KindOf(result.value.value.evidence.body) == CorrelationKind
  {
    var item :- VerifiedOption(store, r, CorrelationKind);
    if item.None? then Ok(None)
    else
      var finding :- FindingChecked(store, item.value);
      Ok(Some(finding))
  }

  /** The semantic event, asset context and raw event behind a policy finding. */
  function PolicyLineage(store: EvidenceStore, policy: Item): Result<(Item, Item, Item), Error>
    requires KindOf(policy.evidence.body) == PolicyKind
  {
    var body := policy.evidence.body;
    var semantic :- Verified(store, body.semantic, SemanticKind);
    var context :- Verified(store, body.assetContext, ContextKind);
    var raw :- Verified(store, body.raw, RawKind);
    if semantic.evidence.body.eventId != semantic.id || semantic.evidence.body.raw.evidenceId != raw.id
       || context.evidence.body.contextId != context.id
       || context.evidence.body.semanticId != semantic.id || context.evidence.body.rawId != raw.id
       || body.findingId != policy.id
    then Err(LineageInconsistent)
    else Ok((semantic, context, raw))
  }

  function VerifyBundle(store: EvidenceStore, request: Request): Result<Bundle, Error> {
    var selected :- VerifiedOption(store, request.policy, PolicyKind);
    var correlation :- VerifiedCorrelation(store, request.correlation);
    var correlated :- VerifiedOption(
                        store, if correlation.Some? then correlation.value.evidence.body.policyParent else None,
                          PolicyKind);
    if selected.Some? && correlated.Some? && selected.value.id != correlated.value.id then Err(LineageInconsistent)
    else
      var policy := if correlated.Some? then correlated else selected;
      if policy.None? then CorrelatedLineage(store, Bundle(None, correlation, None, None, None))
      else
        var lineage :- PolicyLineage(store, policy.value);
        CorrelatedLineage(store, Bundle(policy, correlation, Some(lineage.0), Some(lineage.1), Some(lineage.2)))
  }

  /** An S3 correlation must carry the same semantic event and asset context as the policy finding. */
  function CorrelatedLineage(store: EvidenceStore, b: Bundle): Result<Bundle, Error>
    requires b.correlation.Some? ==> KindOf(b.correlation.value.evidence.body) == CorrelationKind
  {
    if b.correlation.None? || b.correlation.value.evidence.body.ruleId != Correlation.S3_RULE then Ok(b)
    else
      var body := b.correlation.value.evidence.body;
      if body.semanticParent.None? || body.contextParent.None? then Err(LineageMissing)
      else
        var semantic :- Verified(store, body.semanticParent.value, SemanticKind);
        var context :- Verified(store, body.contextParent.value, ContextKind);
        if (b.semantic.Some? && b.semantic.value.id != semantic.id)
           || (b.assetContext.Some? && b.assetContext.value.id != context.id)
        then Err(LineageInconsistent)
        else
          var raw :- Verified(store, semantic.evidence.body.raw, RawKind);
          Ok(b.(semantic := Some(semantic), assetContext := Some(context), raw := Some(raw)))
  }

  // ---------------------------------------------------------------- candidates

  datatype EvidenceRole = Primary | Supporting | Contradicting | ContextRole
  datatype Severity = Low | Medium | High

  function Rank(s: Severity): nat {
    match s
    case Low => 1
    case Medium => 2
    case High => 3
  }

  datatype Membership = Membership(evidenceId: string, correlation: bool, role: EvidenceRole, observedAt: int)

  datatype Candidate = Candidate(
    ruleId: string, category: string, severity: Severity,
    primary: Membership, additional: seq<Membership>,
    identityScope: seq<string>, processScope: seq<string>, pointScope: seq<string>,
    processKeys: seq<string>, processIds: seq<string>,
    runScope: string, configurationScope: string,
    boundSimulation: Option<string>, boundConfiguration: Option<string>,
    semanticId: Option<string>, anchor: int, firstObserved: int, lastObserved: int)
  {
    function Members(): seq<Membership> { [primary] + additional }

    function Key(): GroupingKey {
      GroupingKey(ruleId, "1.0.0", category, identityScope, processScope, pointScope,
                  runScope, configurationScope, semanticId, GroupingEpochStart(anchor))
    }

    function Bound(): bool { boundSimulation.Some? && boundConfiguration.Some? }

    /** The candidate regrouped under its own run and configuration. */
    function Rescoped(): Candidate
      requires Bound()
    {
      this.(runScope := boundSimulation.value, configurationScope := boundConfiguration.value)
    }

    function Binding(): Option<(string, string)> {
      if Bound() then Some((boundSimulation.value, boundConfiguration.value)) else None
    }

    /** The binding is complete or absent, is the scope of every scoped member and of at least one,
        and equals the grouping scope whenever that names a configuration. */
    ghost predicate BindingValid(store: EvidenceStore) {
      && boundSimulation.Some? == boundConfiguration.Some?
      && OneScope(store, Members(), Binding())
      && (Bound() ==>
            && DigestText(boundConfiguration.value) && RunText(boundSimulation.value)
            && HasScope(store, Members(), Binding()))
      && (DigestText(configurationScope) ==> Binding() == Some((runScope, configurationScope)))
    }

    ghost predicate Valid(store: EvidenceStore) {
      && Key().Valid()
      && Roster(store, Members(), primary.evidenceId, firstObserved, lastObserved)
      && BindingValid(store)
      && |processKeys| == |processIds| && Sorted(processKeys, StringLe)
    }
  }

  predicate HasMember(rows: seq<Membership>, evidenceId: string) {
    exists m :: m in rows && m.evidenceId == evidenceId
  }

  ghost predicate HasTime(rows: seq<Membership>, t: int) {
    exists m :: m in rows && m.observedAt == t
  }

  ghost predicate DistinctEvidence(rows: seq<Membership>) {
    forall a, b :: 0 <= a < b < |rows| ==> rows[a].evidenceId != rows[b].evidenceId
  }

  /** A membership repeats what the immutable record says. */
  ghost predicate Backed(store: EvidenceStore, m: Membership) {
    m.evidenceId in store && m.observedAt == store[m.evidenceId].observedAt
  }

  /** No evidence twice, exactly one PRIMARY row, and a time span that is exactly the members' own. */
  ghost predicate Roster(store: EvidenceStore, rows: seq<Membership>, primary: string, first: int, last: int) {
    && DistinctEvidence(rows)
    && (forall m :: m in rows ==> Backed(store, m) && first <= m.observedAt <= last)
    && (forall m :: m in rows ==> (m.role == Primary <==> m.evidenceId == primary))
    && HasMember(rows, primary) && HasTime(rows, first) && HasTime(rows, last)
  }

  /** Every scoped member belongs to the one scope. */
  ghost predicate OneScope(store: EvidenceStore, rows: seq<Membership>, scope: Option<(string, string)>) {
    forall m :: m in rows ==> m.evidenceId in store && (ScopeOf(store[m.evidenceId]).Some? ==>
      ScopeOf(store[m.evidenceId]) == scope)
  }

  ghost predicate HasScope(store: EvidenceStore, rows: seq<Membership>, scope: Option<(string, string)>) {
    exists m :: m in rows && m.evidenceId in store && ScopeOf(store[m.evidenceId]) == scope
  }

  datatype Rule = S1 | S2 | S3 | S4

  function RuleText(r: Rule): string {
    match r
    case S1 => "IQR-S1-UNKNOWN-SOURCE-001"
    case S2 => "IQR-S2-IT-PLC-POLICY-001"
    case S3 => "IQR-S3-CV-COMMAND-001"
    case S4 => "IQR-S4-PUMP-FLOW-001"
  }

  function CategoryText(r: Rule): string {
    match r
    case S1 => "ASSET_IDENTITY_ANOMALY"
    case S2 => "COMMUNICATION_POLICY_VIOLATION"
    case S3 => "CONTROL_COMMAND_INVESTIGATION"
    case S4 => "PROCESS_INCONSISTENCY"
  }

  /** The points that rules S2 and S3 name themselves. */
  function RulePoint(r: Rule): string {
    if r == S2 then "pipeline_flow_rate_m3h" else "control_valve_command_percent"
  }

  function ValveScope(): seq<string> { ["CV-101"] }

  function NoSimulation(): string { "NO_SIMULATION_SCOPE" }

  function Unbound(): string { "UNBOUND_PROCESS_SCOPE" }

  function UnresolvedSource(digest: string): string { "UNRESOLVED:" + digest }

  function S4Assets(): set<string> { {"P-101", "PL-101", "TK-101", "TK-102"} }

  function MembershipOf(item: Item, role: EvidenceRole): Membership {
    Membership(item.id, item.evidence.body.CorrelationBody?, role, item.evidence.observedAt)
  }

  function AssetText(asset: Option<string>): string {
    if asset.Some? then asset.value else "None"
  }

  function OptionSeq(o: Option<string>): seq<string> {
    if o.Some? then [o.value] else []
  }

  predicate PairLe(a: (string, string), b: (string, string)) { StringLe(a.0, b.0) }

  lemma PairOrder()
    ensures Total(PairLe)
  {
    StringOrder();
    forall x: (string, string), y: (string, string), z: (string, string) | PairLe(x, y) && PairLe(y, z)
      ensures PairLe(x, z)
    {
      StringLeTransitive(x.0, y.0, z.0);
    }
  }

  function SortedAssets(assets: seq<(string, string)>): (r: seq<(string, string)>)
    ensures Sorted(r, PairLe) && forall x :: x in r <==> x in assets
  {
    PairOrder();
    Sort(assets, PairLe)
  }

  function Firsts(s: seq<(string, string)>): (r: seq<string>)
    ensures |r| == |s| && forall i :: 0 <= i < |s| ==> r[i] == s[i].0
  {
    seq(|s|, i requires 0 <= i < |s| => s[i].0)
  }

  function Seconds(s: seq<(string, string)>): (r: seq<string>)
    ensures |r| == |s| && forall i :: 0 <= i < |s| ==> r[i] == s[i].1
  {
    seq(|s|, i requires 0 <= i < |s| => s[i].1)
  }

  predicate CorrelationMatched(b: Body, ruleId: string)
    requires b.CorrelationBody?
  {
    b.ruleId == ruleId && b.ruleVersion == "1.0.0" && b.outcome == Correlation.Correlated &&
    b.reason == Correlation.CorrelationMatch
  }

  predicate BundleTyped(b: Bundle) {
    && (b.policy.Some? ==>
          b.policy.value.evidence.body.PolicyBody? && b.semantic.Some? && b.assetContext.Some? && b.raw.Some?)
    && (b.correlation.Some? ==> b.correlation.value.evidence.body.CorrelationBody?)
    && (b.semantic.Some? ==> b.semantic.value.evidence.body.SemanticBody?)
    && (b.assetContext.Some? ==> b.assetContext.value.evidence.body.ContextBody?)
    && (b.raw.Some? ==> b.raw.value.evidence.body.RawBody?)
  }

  function QualifyIncident(b: Bundle): Result<Option<Candidate>, Error>
    requires BundleTyped(b)
  {
    if b.correlation.Some? && b.correlation.value.evidence.body.ruleId == Correlation.S4_RULE then
      if b.policy.Some? then Err(UnexpectedPolicyEvidence) else QualifyS4(b.correlation.value)
    else if b.policy.None? then Ok(None)
    else
      var policy := b.policy.value.evidence.body;
      if policy.unknownSource && b.assetContext.value.evidence.body.unresolvedSource then Ok(Some(CandidateS1(b)))
      else if policy.itReadsPlc then Ok(Some(CandidateS2(b)))
      else if b.semantic.value.evidence.body.valveCommand && b.assetContext.value.evidence.body.controlsValve then
        QualifyS3(b)
      else Ok(None)
  }

  function CandidateS1(b: Bundle): Candidate
    requires BundleTyped(b) && b.policy.Some?
  {
    var policy := b.policy.value.evidence.body;
    var primary := MembershipOf(b.policy.value, Primary);
    Candidate(RuleText(S1), CategoryText(S1), Low, primary, [],
              [UnresolvedSource(b.raw.value.evidence.body.sourceDigest), AssetText(policy.destinationAsset)],
              [], OptionSeq(policy.targetPoint), [], [], NoSimulation(), NoSimulation(), None, None, None,
              b.assetContext.value.evidence.observedAt, primary.observedAt, primary.observedAt)
  }

  function CandidateS2(b: Bundle): Candidate
    requires BundleTyped(b) && b.policy.Some?
  {
    var policy := b.policy.value.evidence.body;
    var primary := MembershipOf(b.policy.value, Primary);
    Candidate(RuleText(S2), CategoryText(S2), Medium, primary, [],
              [AssetText(policy.sourceAsset), AssetText(policy.destinationAsset)],
              [], [RulePoint(S2)], [], [], NoSimulation(), NoSimulation(), None, None, None,
              b.semantic.value.evidence.observedAt, primary.observedAt, primary.observedAt)
  }

  function QualifyS3(b: Bundle): Result<Option<Candidate>, Error>
    requires BundleTyped(b) && b.policy.Some?
  {
    var policy := b.policy.value.evidence.body;
    var correlated := b.correlation.Some? && CorrelationMatched(b.correlation.value.evidence.body, Correlation.S3_RULE);
    if policy.policyStatus.Approved? && !correlated then Ok(None)
    else if policy.policyStatus.Unknown? then Ok(None)
    else if b.correlation.Some? && b.correlation.value.evidence.body.ruleId != Correlation.S3_RULE then
      Err(UnrelatedCorrelation)
    else
      var assets :- S3Assets(b);
      if policy.policyStatus.Denied? then
        var additional := if b.correlation.None? then [] else
                            [MembershipOf(b.correlation.value, if correlated then Supporting else ContextRole)];
        Ok(Some(CandidateS3(b, MembershipOf(b.policy.value, Primary), additional, if correlated then High else Medium,
                            Unbound() + ":" + b.semantic.value.id, Unbound(), assets)))
      else
        var finding := b.correlation.value.evidence.body;
        if finding.simulationId.None? then Err(FieldRequired("S3 simulation ID"))
        else if finding.configurationHash.None? then Err(FieldRequired("S3 configuration hash"))
        else
          Ok(Some(CandidateS3(b, MembershipOf(b.correlation.value, Primary),
            [MembershipOf(b.policy.value, ContextRole)],
                              Medium, finding.simulationId.value, finding.configurationHash.value, assets)))
  }

  /** Process assets: the correlation's, sorted by key, else the commanded target. */
  function S3Assets(b: Bundle): Result<seq<(string, string)>, Error>
    requires BundleTyped(b) && b.policy.Some?
  {
    if b.correlation.Some? then Ok(SortedAssets(b.correlation.value.evidence.body.processAssets))
    else
      var context := b.assetContext.value.evidence.body;
      if context.targetKey.None? || context.targetId.None? then Err(FieldRequired("S3 target process asset"))
      else Ok([(context.targetKey.value, context.targetId.value)])
  }

  function CandidateS3(b: Bundle, primary: Membership, additional: seq<Membership>, severity: Severity,
                       runScope: string, configurationScope: string, assets: seq<(string, string)>): Candidate
    requires BundleTyped(b) && b.policy.Some? && |additional| <= 1
  {
    var policy := b.policy.value.evidence.body;
    var scope := if b.correlation.Some? then ScopeOf(b.correlation.value.evidence) else None;
    var other := if additional == [] then primary else additional[0];
    Candidate(RuleText(S3), CategoryText(S3), severity, primary, additional,
              OptionSeq(policy.sourceAsset) + OptionSeq(policy.destinationAsset),
              ValveScope(), [RulePoint(S3)], Firsts(assets), Seconds(assets),
              runScope, configurationScope,
              if scope.Some? then Some(scope.value.0) else None, if scope.Some? then Some(scope.value.1) else None,
              Some(b.semantic.value.id), b.semantic.value.evidence.observedAt,
              Min(primary.observedAt, other.observedAt), Max(primary.observedAt, other.observedAt))
  }

  function QualifyS4(item: Item): Result<Option<Candidate>, Error>
    requires item.evidence.body.CorrelationBody?
  {
    var body := item.evidence.body;
    if !CorrelationMatched(body, Correlation.S4_RULE)
       || body.policyParent.Some? || body.semanticParent.Some? || body.contextParent.Some? then Ok(None)
    else if (set a | a in body.processAssets :: a.0) != S4Assets() then Ok(None)
    else if body.simulationId.None? then Err(FieldRequired("S4 simulation ID"))
    else if body.configurationHash.None? then Err(FieldRequired("S4 configuration hash"))
    else if body.anchorTime.None? then Err(FieldRequired("S4 anchor time"))
    else
      var assets := SortedAssets(body.processAssets);
      var primary := MembershipOf(item, Primary);
      Ok(Some(Candidate(RuleText(S4), CategoryText(S4), High, primary, [], [],
                        Firsts(assets), SortStrings(body.points), Firsts(assets), Seconds(assets),
                        body.simulationId.value, body.configurationHash.value, body.simulationId,
                          body.configurationHash,
                        None, body.anchorTime.value, primary.observedAt, primary.observedAt)))
  }

  /** Evidence in, candidate or "evidence only" out. */
  function Qualify(store: EvidenceStore, request: Request): Result<Option<Candidate>, Error> {
    var bundle :- VerifyBundle(store, request);
    BundleIsTyped(store, request);
    QualifyIncident(bundle)
  }

  lemma BundleIsTyped(store: EvidenceStore, request: Request)
    ensures VerifyBundle(store, request).Ok? ==> BundleTyped(VerifyBundle(store, request).value)
  {
    hide Verified, VerifiedOption, VerifiedCorrelation;
  }

  // ---------------------------------------------------------------- evidence is immutable

  /** What was ingested stays, unchanged. */
  ghost predicate Grows(before: EvidenceStore, after: EvidenceStore) {
    forall id :: id in before ==> id in after && after[id] == before[id]
  }

  lemma VerifiedStable(before: EvidenceStore, after: EvidenceStore, r: Ref, kind: Kind)
    requires Grows(before, after)
    ensures Verified(before, r, kind).Ok? ==> Verified(after, r, kind) == Verified(before, r, kind)
  {
  }

  lemma VerifiedOptionStable(before: EvidenceStore, after: EvidenceStore, r: Option<Ref>, kind: Kind)
    requires Grows(before, after)
    ensures VerifiedOption(before, r, kind).Ok? ==> VerifiedOption(after, r, kind) == VerifiedOption(before, r, kind)
  {
    if r.Some? {
      VerifiedStable(before, after, r.value, kind);
    }
  }

  lemma {:induction false} TelemetryLineageStable(before: EvidenceStore, after: EvidenceStore, refs: seq<Ref>)
    requires Grows(before, after)
    ensures TelemetryLineage(before, refs).Ok? ==> TelemetryLineage(after, refs) == TelemetryLineage(before, refs)
  {
    if refs != [] {
      TelemetryLineageStable(before, after, refs[..|refs| - 1]);
      VerifiedStable(before, after, refs[|refs| - 1], TelemetryKind);
    }
  }

  lemma VerifiedCorrelationStable(before: EvidenceStore, after: EvidenceStore, r: Option<Ref>)
    requires Grows(before, after)
    ensures VerifiedCorrelation(before, r).Ok? ==> VerifiedCorrelation(after, r) == VerifiedCorrelation(before, r)
  {
    VerifiedOptionStable(before, after, r, CorrelationKind);
    hide Verified, VerifiedOption, Grows, TelemetryLineage;
    if VerifiedCorrelation(before, r).Ok? && r.Some? {
      var finding := VerifiedOption(before, r, CorrelationKind).value.value;
      TelemetryLineageStable(before, after, finding.evidence.body.telemetryParents);
    }
  }

  lemma PolicyLineageStable(before: EvidenceStore, after: EvidenceStore, policy: Item)
    requires Grows(before, after) && KindOf(policy.evidence.body) == PolicyKind
    ensures PolicyLineage(before, policy).Ok? ==> PolicyLineage(after, policy) == PolicyLineage(before, policy)
  {
    VerifiedStable(before, after, policy.evidence.body.semantic, SemanticKind);
    VerifiedStable(before, after, policy.evidence.body.assetContext, ContextKind);
    VerifiedStable(before, after, policy.evidence.body.raw, RawKind);
    hide Verified;
  }

  lemma CorrelatedLineageStable(before: EvidenceStore, after: EvidenceStore, b: Bundle)
    requires Grows(before, after)
    requires b.correlation.Some? ==> KindOf(b.correlation.value.evidence.body) == CorrelationKind
    ensures CorrelatedLineage(before, b).Ok? ==> CorrelatedLineage(after, b) == CorrelatedLineage(before, b)
  {
    forall r, kind
      ensures Verified(before, r, kind).Ok? ==> Verified(after, r, kind) == Verified(before, r, kind)
    {
      VerifiedStable(before, after, r, kind);
    }
    hide Verified;
  }

  /** A request that once produced a candidate always produces the same candidate. */
  lemma QualifyStable(before: EvidenceStore, after: EvidenceStore, request: Request)
    requires Grows(before, after)
    ensures Qualify(before, request).Ok? ==> Qualify(after, request) == Qualify(before, request)
  {
    hide Verified, VerifiedOption, VerifiedCorrelation, PolicyLineage, CorrelatedLineage, QualifyIncident, Grows;
    if Qualify(before, request).Ok? {
      VerifiedOptionStable(before, after, request.policy, PolicyKind);
      VerifiedCorrelationStable(before, after, request.correlation);
      var selected := VerifiedOption(before, request.policy, PolicyKind).value;
      var correlation := VerifiedCorrelation(before, request.correlation).value;
      var parent := if correlation.Some? then correlation.value.evidence.body.policyParent else None;
      VerifiedOptionStable(before, after, parent, PolicyKind);
      var correlated := VerifiedOption(before, parent, PolicyKind).value;
      var policy := if correlated.Some? then correlated else selected;
      if policy.None? {
        CorrelatedLineageStable(before, after, Bundle(None, correlation, None, None, None));
      } else {
        PolicyLineageStable(before, after, policy.value);
        var lineage := PolicyLineage(before, policy.value).value;
        CorrelatedLineageStable(before, after,
          Bundle(policy, correlation, Some(lineage.0), Some(lineage.1), Some(lineage.2)));
      }
    }
  }

  // ---------------------------------------------------------------- every candidate is valid

  /** Every item of the bundle is what the store holds under its identity. */
  ghost predicate Stored(store: EvidenceStore, item: Option<Item>) {
    item.Some? ==> item.value.id in store && store[item.value.id] == item.value.evidence
  }

  ghost predicate BundleStored(store: EvidenceStore, b: Bundle) {
    && Stored(store, b.policy) && Stored(store, b.correlation) && Stored(store, b.semantic)
    && Stored(store, b.assetContext) && Stored(store, b.raw)
  }

  lemma BundleIsStored(store: EvidenceStore, request: Request)
    ensures VerifyBundle(store, request).Ok? ==> BundleStored(store, VerifyBundle(store, request).value)
  {
    hide KindOf, VerifiedCorrelation;
  }

  lemma UuidTokens(s: string)
    requires UuidText(s)
    ensures Free(s, '|') && Free(s, ',')
    ensures s != NO_IDENTITY_SCOPE && s != NO_SEMANTIC_SCOPE
  {
    assert s[0] in s;
    assert NO_IDENTITY_SCOPE[0] == 'N' && NO_SEMANTIC_SCOPE[0] == 'N';
  }

  lemma LiteralTokens()
    ensures Free(NoSimulation(), '|') && Free(Unbound(), '|')
    ensures !DigestText(NoSimulation()) && !DigestText(Unbound())
  {
    assert NoSimulation()[0] in NoSimulation() && !Hex(NoSimulation()[0]);
    assert Unbound()[0] in Unbound() && !Hex(Unbound()[0]);
  }

  lemma RuleTokens(r: Rule)
    ensures Free(RuleText(r), '|') && Free(CategoryText(r), '|')
  {
    RuleTextFree(r);
    CategoryTextFree(r);
    hide *;
  }

  lemma RuleTextFree(r: Rule)
    ensures Free(RuleText(r), '|')
  {
    match r
    case S1 =>
    case S2 =>
    case S3 =>
    case S4 =>
  }

  lemma CategoryTextFree(r: Rule)
    ensures Free(CategoryText(r), '|')
  {
    hide *;
    if r == S1 || r == S2 { PolicyCategoryFree(r); } else { ProcessCategoryFree(r); }
  }

  lemma PolicyCategoryFree(r: Rule)
    requires r == S1 || r == S2
    ensures Free(CategoryText(r), '|')
  {
  }

  lemma ProcessCategoryFree(r: Rule)
    requires r == S3 || r == S4
    ensures Free(CategoryText(r), '|')
  {
  }

  lemma PointTokens(points: seq<string>)
    requires forall p :: p in points ==> PointText(p)
    ensures ScopeTokens(points, NO_POINT_SCOPE)
  {
    assert NO_POINT_SCOPE[0] == 'N';
  }

  lemma AssetToken(asset: Option<string>)
    requires Optionally(asset, UuidText)
    ensures ScopeTokens([AssetText(asset)], NO_IDENTITY_SCOPE) && ScopeTokens(OptionSeq(asset), NO_IDENTITY_SCOPE)
  {
    if asset.Some? {
      UuidTokens(asset.value);
    } else {
      assert Free("None", '|') && Free("None", ',') && |NO_IDENTITY_SCOPE| > 4;
    }
  }

  lemma UnresolvedToken(digest: string)
    requires DigestText(digest)
    ensures ScopeTokens([UnresolvedSource(digest)], NO_IDENTITY_SCOPE)
  {
    var s := UnresolvedSource(digest);
    assert s[0] == 'U' && NO_IDENTITY_SCOPE[0] == 'N';
    assert forall c :: c in s ==> c in "UNRESOLVED:" || c in digest;
  }

  lemma FixedTokens()
    ensures ScopeTokens([RulePoint(S2)], NO_POINT_SCOPE) && ScopeTokens([RulePoint(S3)], NO_POINT_SCOPE)
    ensures ScopeTokens(ValveScope(), NO_PROCESS_SCOPE)
  {
    ValveTokens();
    hide ValveScope;
    PointTokens([RulePoint(S2)]);
    PointTokens([RulePoint(S3)]);
  }

  lemma ValveTokens()
    ensures ScopeTokens(ValveScope(), NO_PROCESS_SCOPE)
  {
    assert |NO_PROCESS_SCOPE| > 6;
  }

  lemma TokensConcat(a: seq<string>, b: seq<string>, placeholder: string)
    requires ScopeTokens(a, placeholder) && ScopeTokens(b, placeholder)
    ensures ScopeTokens(a + b, placeholder)
  {
  }

  lemma S4AssetTokens(keys: seq<string>)
    requires forall k :: k in keys ==> k in S4Assets()
    ensures ScopeTokens(keys, NO_PROCESS_SCOPE)
  {
    assert |NO_PROCESS_SCOPE| > 6;
  }

  ghost predicate ValidRoster(store: EvidenceStore, c: Candidate) {
    Roster(store, c.Members(), c.primary.evidenceId, c.firstObserved, c.lastObserved)
  }

  lemma SingleMember(store: EvidenceStore, c: Candidate, item: Item)
    requires item.id in store && store[item.id] == item.evidence
    requires c.primary == MembershipOf(item, Primary) && c.additional == []
    requires c.firstObserved == c.lastObserved == c.primary.observedAt
    ensures c.Members() == [c.primary] && ValidRoster(store, c)
  {
    assert c.Members() == [c.primary];
    assert c.primary in c.Members();
  }

  lemma TwoMembers(store: EvidenceStore, c: Candidate, first: Item, second: Item, role: EvidenceRole)
    requires first.id in store && store[first.id] == first.evidence
    requires second.id in store && store[second.id] == second.evidence && first.id != second.id
    requires c.primary == MembershipOf(first, Primary) && c.additional == [MembershipOf(second, role)]
    requires role != Primary
    requires c.firstObserved == Min(first.evidence.observedAt, second.evidence.observedAt)
    requires c.lastObserved == Max(first.evidence.observedAt, second.evidence.observedAt)
    ensures c.Members() == [c.primary, c.additional[0]] && ValidRoster(store, c)
  {
    assert c.Members() == [c.primary, c.additional[0]];
    assert c.Members()[0] in c.Members() && c.Members()[1] in c.Members();
  }

  lemma S1KeyValid(b: Bundle)
    requires BundleTyped(b) && b.policy.Some? && DigestText(b.raw.value.evidence.body.sourceDigest)
    requires Optionally(b.policy.value.evidence.body.destinationAsset, UuidText)
    requires Optionally(b.policy.value.evidence.body.targetPoint, PointText)
    ensures CandidateS1(b).Key().Valid()
  {
    hide RuleText, CategoryText, NoSimulation, UnresolvedSource, AssetText, Free, DigestText, UuidText;
    var c := CandidateS1(b);
    var destination := b.policy.value.evidence.body.destinationAsset;
    var digest := b.raw.value.evidence.body.sourceDigest;
    LiteralTokens();
    AssetToken(destination);
    UnresolvedToken(digest);
    TokensConcat([UnresolvedSource(digest)], [AssetText(destination)], NO_IDENTITY_SCOPE);
    assert c.identityScope == [UnresolvedSource(digest)] + [AssetText(destination)];
    PointTokens(c.pointScope);
    RuleTokens(S1);
    EmptyScopeTokens(NO_PROCESS_SCOPE);
    VersionFree();
    hide ScopeTokens;
  }

  lemma S2KeyValid(b: Bundle)
    requires BundleTyped(b) && b.policy.Some?
    requires Optionally(b.policy.value.evidence.body.sourceAsset, UuidText)
    requires Optionally(b.policy.value.evidence.body.destinationAsset, UuidText)
    ensures CandidateS2(b).Key().Valid()
  {
    hide RuleText, CategoryText, NoSimulation, RulePoint, AssetText, Free, UuidText;
    var c := CandidateS2(b);
    var policy := b.policy.value.evidence.body;
    LiteralTokens();
    AssetToken(policy.sourceAsset);
    AssetToken(policy.destinationAsset);
    TokensConcat([AssetText(policy.sourceAsset)], [AssetText(policy.destinationAsset)], NO_IDENTITY_SCOPE);
    assert c.identityScope == [AssetText(policy.sourceAsset)] + [AssetText(policy.destinationAsset)];
    FixedTokens();
    RuleTokens(S2);
    EmptyScopeTokens(NO_PROCESS_SCOPE);
    VersionFree();
    hide ScopeTokens;
  }

  lemma EmptyScopeTokens(placeholder: string)
    ensures ScopeTokens([], placeholder)
  {
  }

  lemma VersionFree()
    ensures Free("1.0.0", '|')
  {
  }

  lemma S1Valid(store: EvidenceStore, b: Bundle)
    requires StoreWellFormed(store) && BundleTyped(b) && BundleStored(store, b) && b.policy.Some?
    ensures CandidateS1(b).Valid(store)
  {
    hide RuleText, CategoryText, NoSimulation, UnresolvedSource, AssetText, GroupingKey.Valid, DigestText, UuidText,
      PointText;
    var c := CandidateS1(b);
    SingleMember(store, c, b.policy.value);
    hide Roster;
    LiteralTokens();
    S1KeyValid(b);
  }

  lemma S2Valid(store: EvidenceStore, b: Bundle)
    requires StoreWellFormed(store) && BundleTyped(b) && BundleStored(store, b) && b.policy.Some?
    ensures CandidateS2(b).Valid(store)
  {
    hide RuleText, CategoryText, NoSimulation, RulePoint, AssetText, GroupingKey.Valid, DigestText, UuidText;
    var c := CandidateS2(b);
    SingleMember(store, c, b.policy.value);
    hide Roster;
    LiteralTokens();
    S2KeyValid(b);
  }

  lemma SortedFirsts(s: seq<(string, string)>)
    requires Sorted(s, PairLe)
    ensures Sorted(Firsts(s), StringLe)
  {
  }

  lemma S3KeyValid(store: EvidenceStore, b: Bundle, c: Candidate)
    requires StoreWellFormed(store) && BundleTyped(b) && BundleStored(store, b) && b.policy.Some?
    requires
      var policy := b.policy.value.evidence.body;
      && c.ruleId == RuleText(S3) && c.category == CategoryText(S3)
      && c.identityScope == OptionSeq(policy.sourceAsset) + OptionSeq(policy.destinationAsset)
      && c.processScope == ValveScope() && c.pointScope == [RulePoint(S3)]
      && c.semanticId == Some(b.semantic.value.id)
    requires Free(c.runScope, '|') && Free(c.configurationScope, '|')
    ensures c.Key().Valid()
  {
    hide RuleText, CategoryText, RulePoint, ValveScope;
    var policy := b.policy.value.evidence.body;
    RuleTokens(S3);
    FixedTokens();
    VersionFree();
    AssetToken(policy.sourceAsset);
    AssetToken(policy.destinationAsset);
    TokensConcat(OptionSeq(policy.sourceAsset), OptionSeq(policy.destinationAsset), NO_IDENTITY_SCOPE);
    UuidTokens(b.semantic.value.id);
    hide Free, ScopeTokens;
  }

  lemma DigestFree(s: string)
    requires DigestText(s)
    ensures Free(s, '|')
  {
  }

  lemma S3Valid(store: EvidenceStore, b: Bundle)
    requires StoreWellFormed(store) && BundleTyped(b) && BundleStored(store, b) && b.policy.Some?
    ensures
      var r := QualifyS3(b);
      r.Ok? && r.value.Some? ==> r.value.value.Valid(store)
  {
    var r := QualifyS3(b);
    if r.Ok? && r.value.Some? {
      var c := r.value.value;
      assert Sorted(S3Assets(b).value, PairLe) by { PairOrder(); }
      SortedFirsts(S3Assets(b).value);
      S3ScopesFree(store, b);
      S3KeyValid(store, b, c);
      S3MembersValid(store, b);
      S3BindingValid(store, b);
      hide GroupingKey.Valid, Roster, Candidate.BindingValid;
    }
  }

  lemma S3ScopesFree(store: EvidenceStore, b: Bundle)
    requires StoreWellFormed(store) && BundleTyped(b) && BundleStored(store, b) && b.policy.Some?
    requires QualifyS3(b).Ok? && QualifyS3(b).value.Some?
    ensures
      var c := QualifyS3(b).value.value;
      Free(c.runScope, '|') && Free(c.configurationScope, '|')
  {
    LiteralTokens();
    UuidTokens(b.semantic.value.id);
    assert Free(Unbound() + ":" + b.semantic.value.id, '|');
    if b.correlation.Some? && b.correlation.value.evidence.body.configurationHash.Some? {
      DigestFree(b.correlation.value.evidence.body.configurationHash.value);
    }
  }

  lemma S3MembersValid(store: EvidenceStore, b: Bundle)
    requires BundleTyped(b) && BundleStored(store, b) && b.policy.Some?
    requires QualifyS3(b).Ok? && QualifyS3(b).value.Some?
    ensures ValidRoster(store, QualifyS3(b).value.value)
  {
    var c := QualifyS3(b).value.value;
    if b.correlation.None? {
      SingleMember(store, c, b.policy.value);
    } else if b.policy.value.evidence.body.policyStatus.Denied? {
      TwoMembers(store, c, b.policy.value, b.correlation.value, c.additional[0].role);
    } else {
      TwoMembers(store, c, b.correlation.value, b.policy.value, ContextRole);
    }
  }

  /** A candidate whose only correlation member is `finding` is bound to that finding's scope. */
  lemma BoundToFinding(store: EvidenceStore, c: Candidate, finding: Item)
    requires finding.id in store && store[finding.id] == finding.evidence && WellFormed(finding.id, finding.evidence)
    requires exists m :: m in c.Members() && m.evidenceId == finding.id
    requires forall m :: m in c.Members() ==>
               m.evidenceId in store && (m.evidenceId == finding.id || !store[m.evidenceId].body.CorrelationBody?)
    requires c.boundSimulation.Some? == c.boundConfiguration.Some? && c.Binding() == ScopeOf(finding.evidence)
    requires DigestText(c.configurationScope) ==> c.Binding() == Some((c.runScope, c.configurationScope))
    ensures c.BindingValid(store)
  {
    hide DigestText, RunText, UuidText;
  }

  lemma S3BindingValid(store: EvidenceStore, b: Bundle)
    requires StoreWellFormed(store) && BundleTyped(b) && BundleStored(store, b) && b.policy.Some?
    requires QualifyS3(b).Ok? && QualifyS3(b).value.Some?
    ensures QualifyS3(b).value.value.BindingValid(store)
  {
    hide RuleText, CategoryText, RulePoint, ValveScope, NoSimulation, Unbound, S3Assets, Firsts, Seconds;
    hide DigestText, RunText, UuidText;
    var c := QualifyS3(b).value.value;
    LiteralTokens();
    if b.correlation.None? {
      SingleMember(store, c, b.policy.value);
    } else {
      var finding := b.correlation.value;
      assert WellFormed(finding.id, finding.evidence);
      assert c.Members() == [c.primary, c.additional[0]];
      assert c.Members()[0] in c.Members() && c.Members()[1] in c.Members();
      BoundToFinding(store, c, finding);
    }
  }

  lemma S4KeyValid(body: Body, c: Candidate)
    requires body.CorrelationBody? && (set a | a in body.processAssets :: a.0) == S4Assets()
    requires c.ruleId == RuleText(S4) && c.category == CategoryText(S4)
    requires c.identityScope == [] && c.processScope == Firsts(SortedAssets(body.processAssets))
    requires forall p :: p in c.pointScope ==> PointText(p)
    requires Free(c.runScope, '|') && DigestText(c.configurationScope) && c.semanticId.None?
    ensures c.Key().Valid()
  {
    hide RuleText, CategoryText, S4Assets, SortedAssets;
    forall k | k in c.processScope
      ensures k in S4Assets()
    {
      var i :| 0 <= i < |c.processScope| && c.processScope[i] == k;
      var a := SortedAssets(body.processAssets)[i];
      assert a in body.processAssets && a.0 == k;
    }
    S4AssetTokens(c.processScope);
    PointTokens(c.pointScope);
    RuleTokens(S4);
    VersionFree();
    EmptyScopeTokens(NO_IDENTITY_SCOPE);
    DigestFree(c.configurationScope);
    hide ScopeTokens, DigestText, Free;
  }

  lemma S4Valid(store: EvidenceStore, item: Item)
    requires StoreWellFormed(store) && item.id in store && store[item.id] == item.evidence
    requires item.evidence.body.CorrelationBody?
    ensures
      var r := QualifyS4(item);
      r.Ok? && r.value.Some? ==> r.value.value.Valid(store)
  {
    hide RuleText, CategoryText, SortedAssets, SortStrings, Firsts, Seconds, S4Assets;
    var r := QualifyS4(item);
    if r.Ok? && r.value.Some? {
      var c := r.value.value;
      SingleMember(store, c, item);
      SortedFirsts(SortedAssets(item.evidence.body.processAssets));
      assert WellFormed(item.id, item.evidence);
      S4KeyValid(item.evidence.body, c);
      hide GroupingKey.Valid, Roster, DigestText, UuidText;
      assert c.primary in c.Members();
      BoundToFinding(store, c, item);
    }
  }

  /** Every candidate the frozen rules build satisfies the schema's own checks, and its binding
      is exactly the scope of the correlation evidence it brings. */
  lemma QualifiedIsValid(store: EvidenceStore, request: Request)
    requires StoreWellFormed(store)
    ensures
      var r := Qualify(store, request);
      r.Ok? && r.value.Some? ==> r.value.value.Valid(store)
  {
    hide Verified, VerifiedOption, PolicyLineage, CorrelatedLineage, Candidate.Valid;
    hide CandidateS1, CandidateS2, QualifyS3, QualifyS4, WellFormed;
    var bundle := VerifyBundle(store, request);
    if bundle.Ok? {
      var b := bundle.value;
      BundleIsTyped(store, request);
      BundleIsStored(store, request);
      if b.correlation.Some? { S4Valid(store, b.correlation.value); }
      if b.policy.Some? {
        S1Valid(store, b);
        S2Valid(store, b);
        S3Valid(store, b);
      }
    }
  }
}
