/** Which requests open or enrich an incident, said on the stored records, and what is then filed. */
module RuleOutcomes {
  import opened Common
  import opened Text
  import opened EvidenceTypes
  import opened Identity
  import opened Qualification
  import opened Incidents
  import opened IncidentInvariants
  import opened IncidentSystem
  import Policy
  import Correlation

  // ---------------------------------------------------------------- verified evidence

  predicate Present(store: EvidenceStore, r: Ref, kind: Kind) {
    && r.evidenceId in store && store[r.evidenceId].digest == r.digest && store[r.evidenceId].intact
    && KindOf(store[r.evidenceId].body) == kind
  }

  lemma VerifiedExactly(store: EvidenceStore, r: Ref, kind: Kind)
    ensures Verified(store, r, kind).Ok? <==> Present(store, r, kind)
    ensures Present(store, r, kind) ==> Verified(store, r, kind) == Ok(Item(r.evidenceId, store[r.evidenceId]))
    ensures Verified(store, r, kind) == Err(EvidenceNotFound) <==> r.evidenceId !in store
    ensures Verified(store, r, kind) == Err(EvidenceTypeNotAllowed) <==>
      r.evidenceId in store && KindOf(store[r.evidenceId].body) != kind
    ensures Verified(store, r, kind) == Err(DigestDiffers) <==>
      r.evidenceId in store && KindOf(store[r.evidenceId].body) == kind && store[r.evidenceId].digest != r.digest
  {
  }

  /** The finding is stored, names itself, agrees with its provenance and rests on its telemetry. */
  ghost predicate Vouched(store: EvidenceStore, r: Ref) {
    && Present(store, r, CorrelationKind)
    && var body := store[r.evidenceId].body;
       && body.correlationId == r.evidenceId && body.parentSet == body.derivedParentSet
       && forall t :: t in body.telemetryParents ==> SupportsFinding(store, t, body)
  }

  lemma VouchedExactly(store: EvidenceStore, r: Ref)
    ensures VerifiedCorrelation(store, Some(r)).Ok? <==> Vouched(store, r)
    ensures Vouched(store, r) ==>
      VerifiedCorrelation(store, Some(r)) == Ok(Some(Item(r.evidenceId, store[r.evidenceId])))
  {
    VerifiedExactly(store, r, CorrelationKind);
    if Present(store, r, CorrelationKind) {
      TelemetryLineageExactly(store, store[r.evidenceId].body.telemetryParents, store[r.evidenceId].body);
    }
    hide Verified, TelemetryLineage, AllOfRun, SupportsFinding;
  }

  /** A policy finding and the semantic event, asset context and raw event it names: all present,
      each naming itself, and naming each other consistently. */
  ghost predicate ChainHolds(store: EvidenceStore, p: Ref) {
    && Present(store, p, PolicyKind)
    && var b := store[p.evidenceId].body;
       && Present(store, b.semantic, SemanticKind) && Present(store, b.assetContext, ContextKind)
       && Present(store, b.raw, RawKind)
       && var semantic, context := store[b.semantic.evidenceId].body, store[b.assetContext.evidenceId].body;
          && b.findingId == p.evidenceId && semantic.eventId == b.semantic.evidenceId
          && context.contextId == b.assetContext.evidenceId
          && semantic.raw.evidenceId == b.raw.evidenceId && context.rawId == b.raw.evidenceId
          && context.semanticId == b.semantic.evidenceId
  }

  lemma ChainExactly(store: EvidenceStore, p: Ref)
    requires Present(store, p, PolicyKind)
    ensures
      var l := PolicyLineage(store, Item(p.evidenceId, store[p.evidenceId]));
      var b := store[p.evidenceId].body;
      && (l.Ok? <==> ChainHolds(store, p))
      && (l.Ok? ==>
            && l.value.0 == Item(b.semantic.evidenceId, store[b.semantic.evidenceId])
            && l.value.1 == Item(b.assetContext.evidenceId, store[b.assetContext.evidenceId])
            && l.value.2 == Item(b.raw.evidenceId, store[b.raw.evidenceId]))
  {
    var b := store[p.evidenceId].body;
    VerifiedExactly(store, b.semantic, SemanticKind);
    VerifiedExactly(store, b.assetContext, ContextKind);
    VerifiedExactly(store, b.raw, RawKind);
    hide Verified;
  }

  // ---------------------------------------------------------------- requests

  predicate NamesFinding(store: EvidenceStore, q: Request) {
    q.correlation.Some? && q.correlation.value.evidenceId in store &&
    store[q.correlation.value.evidenceId].body.CorrelationBody?
  }

  function FindingOf(store: EvidenceStore, q: Request): Body
    requires NamesFinding(store, q)
  {
    store[q.correlation.value.evidenceId].body
  }

  /** The policy finding at issue: the one the correlation names, else the selected one. */
  function PolicyRef(store: EvidenceStore, q: Request): Option<Ref> {
    if NamesFinding(store, q) && FindingOf(store, q).policyParent.Some? then
      FindingOf(store, q).policyParent else q.policy
  }

  predicate About(store: EvidenceStore, q: Request, ruleId: string) {
    NamesFinding(store, q) && FindingOf(store, q).ruleId == ruleId
  }

  /** An S3 finding brings its own semantic event and asset context, which must be the policy's. */
  ghost predicate S3Lineage(store: EvidenceStore, c: Body, policy: Option<Ref>)
    requires c.CorrelationBody? && (policy.Some? ==> Present(store, policy.value, PolicyKind))
  {
    && c.semanticParent.Some? && c.contextParent.Some?
    && Present(store, c.semanticParent.value, SemanticKind) && Present(store, c.contextParent.value, ContextKind)
    && (policy.Some? ==>
          && c.semanticParent.value.evidenceId == store[policy.value.evidenceId].body.semantic.evidenceId
          && c.contextParent.value.evidenceId == store[policy.value.evidenceId].body.assetContext.evidenceId)
    && Present(store, store[c.semanticParent.value.evidenceId].body.raw, RawKind)
  }

  /** Everything the request names, directly or through its findings, is present and consistent. */
  ghost predicate Usable(store: EvidenceStore, q: Request) {
    && (q.policy.Some? ==> Present(store, q.policy.value, PolicyKind))
    && (q.correlation.Some? ==> Vouched(store, q.correlation.value))
    && (PolicyRef(store, q).Some? ==>
          && ChainHolds(store, PolicyRef(store, q).value)
          && (q.policy.Some? ==> PolicyRef(store, q).value.evidenceId == q.policy.value.evidenceId))
    && (About(store, q, "CPR-S3-CV-TRANSFER-001") ==> S3Lineage(store, FindingOf(store, q), PolicyRef(store, q)))
  }

  function ItemAt(store: EvidenceStore, r: Option<Ref>): Option<Item>
    requires r.Some? ==> r.value.evidenceId in store
  {
    if r.None? then None else Some(Item(r.value.evidenceId, store[r.value.evidenceId]))
  }

  /** The bundle holds the named records. */
  ghost predicate BundleHolds(store: EvidenceStore, q: Request, b: Bundle) {
    && (PolicyRef(store, q).Some? ==> ChainHolds(store, PolicyRef(store, q).value))
    && (q.correlation.Some? ==> q.correlation.value.evidenceId in store)
    && b.policy == ItemAt(store, PolicyRef(store, q)) && b.correlation == ItemAt(store, q.correlation)
    && (PolicyRef(store, q).Some? ==>
          var p := store[PolicyRef(store, q).value.evidenceId].body;
          && b.semantic == ItemAt(store, Some(p.semantic)) && b.assetContext == ItemAt(store, Some(p.assetContext))
          && b.raw == ItemAt(store, Some(p.raw)))
  }

  lemma S3RuleText()
    ensures Correlation.S3_RULE == "CPR-S3-CV-TRANSFER-001" && Correlation.S4_RULE == "CPR-S4-PUMP-FLOW-001"
    ensures Correlation.S3_RULE != Correlation.S4_RULE
  {
    assert Correlation.S3_RULE[5] == '3' && Correlation.S4_RULE[5] == '4';
  }

  lemma CorrelatedLineageExactly(store: EvidenceStore, b: Bundle, policy: Option<Ref>)
    requires policy.Some? ==> ChainHolds(store, policy.value)
    requires b.policy == (if policy.Some? then ItemAt(store, policy) else None)
    requires b.correlation.Some? ==> b.correlation.value.evidence.body.CorrelationBody?
    requires
      if policy.None? then b.semantic.None? && b.assetContext.None?
      else
        var p := store[policy.value.evidenceId].body;
        b.semantic == ItemAt(store, Some(p.semantic)) && b.assetContext == ItemAt(store, Some(p.assetContext)) &&
        b.raw == ItemAt(store, Some(p.raw))
    ensures
      var r := CorrelatedLineage(store, b);
      var s3 := b.correlation.Some? && b.correlation.value.evidence.body.ruleId == Correlation.S3_RULE;
      && (r.Ok? <==> s3 ==> S3Lineage(store, b.correlation.value.evidence.body, policy))
      && (r.Ok? ==> r.value.policy == b.policy && r.value.correlation == b.correlation)
      && (r.Ok? && policy.Some? ==> r.value == b)
  {
    if b.correlation.Some? && b.correlation.value.evidence.body.ruleId == Correlation.S3_RULE {
      var body := b.correlation.value.evidence.body;
      if body.semanticParent.Some? && body.contextParent.Some? {
        VerifiedExactly(store, body.semanticParent.value, SemanticKind);
        VerifiedExactly(store, body.contextParent.value, ContextKind);
        if Present(store, body.semanticParent.value, SemanticKind) {
          VerifiedExactly(store, store[body.semanticParent.value.evidenceId].body.raw, RawKind);
        }
      }
    }
    hide Verified;
  }

  lemma NoFinding(store: EvidenceStore)
    ensures VerifiedCorrelation(store, None) == Ok(None)
  {
  }

  /** Verification succeeds exactly on usable requests, and hands on the named records. */
  lemma UsableExactly(store: EvidenceStore, q: Request)
    ensures VerifyBundle(store, q).Ok? <==> Usable(store, q)
    ensures VerifyBundle(store, q).Ok? ==> BundleHolds(store, q, VerifyBundle(store, q).value)
  {
    hide Verified, PolicyLineage, CorrelatedLineage, VerifiedCorrelation, SupportsFinding, S3Lineage;
    S3RuleText();
    if q.policy.Some? { VerifiedExactly(store, q.policy.value, PolicyKind); }
    NoFinding(store);
    if q.correlation.Some? { VouchedExactly(store, q.correlation.value); }
    var selected, finding := VerifiedOption(store, q.policy, PolicyKind), VerifiedCorrelation(store, q.correlation);
    if selected.Ok? && finding.Ok? {
      assert q.correlation.Some? ==> NamesFinding(store, q);
      var parent := if finding.value.Some? then finding.value.value.evidence.body.policyParent else None;
      if parent.Some? { VerifiedExactly(store, parent.value, PolicyKind); }
      var policy := PolicyRef(store, q);
      if policy.Some? && Present(store, policy.value, PolicyKind) {
        ChainExactly(store, policy.value);
        if ChainHolds(store, policy.value) {
          var p := store[policy.value.evidenceId].body;
          CorrelatedLineageExactly(store, Bundle(ItemAt(store, policy), finding.value, ItemAt(store, Some(p.semantic)),
                                                 ItemAt(store, Some(p.assetContext)), ItemAt(store, Some(p.raw))),
                                                   policy);
        }
      } else if policy.None? {
        CorrelatedLineageExactly(store, Bundle(None, finding.value, None, None, None), None);
      }
    }
  }

  // ---------------------------------------------------------------- the rules

  /** The records behind a request about a policy finding. */
  datatype Case = Case(policyId: string, policy: Body, semanticId: string, semantic: Body, context: Body, raw: Body,
                       policyTime: int, semanticTime: int, contextTime: int)

  function CaseOf(store: EvidenceStore, p: Ref): Case
    requires ChainHolds(store, p)
  {
    var b := store[p.evidenceId].body;
    var s, c, r := store[b.semantic.evidenceId], store[b.assetContext.evidenceId], store[b.raw.evidenceId];
    Case(p.evidenceId, b, b.semantic.evidenceId, s.body, c.body, r.body, store[p.evidenceId].observedAt, s.observedAt,
      c.observedAt)
  }

  predicate WellTyped(k: Case) {
    k.policy.PolicyBody? && k.semantic.SemanticBody? && k.context.ContextBody? && k.raw.RawBody?
  }

  predicate UnknownSource(k: Case)
    requires WellTyped(k)
  {
    k.policy.unknownSource && k.context.unresolvedSource
  }

  predicate PlcRead(k: Case)
    requires WellTyped(k)
  {
    !UnknownSource(k) && k.policy.itReadsPlc
  }

  predicate ValveCommand(k: Case)
    requires WellTyped(k)
  {
    !UnknownSource(k) && !k.policy.itReadsPlc && k.semantic.valveCommand && k.context.controlsValve
  }

  predicate S3Match(store: EvidenceStore, q: Request) {
    NamesFinding(store, q) &&
    var c := FindingOf(store, q);
    c.ruleId == "CPR-S3-CV-TRANSFER-001" && c.ruleVersion == "1.0.0" &&
    c.outcome == Correlation.Correlated && c.reason == Correlation.CorrelationMatch
  }

  /** Denied, or approved with a matched S3 finding of a known run; nothing but an S3 finding
      beside it; and a process asset to name. */
  predicate CommandFiles(store: EvidenceStore, q: Request, k: Case)
    requires WellTyped(k)
  {
    && ValveCommand(k)
    && (q.correlation.Some? ==> About(store, q, "CPR-S3-CV-TRANSFER-001"))
    && (q.correlation.None? ==> k.context.targetKey.Some? && k.context.targetId.Some?)
    && (|| k.policy.policyStatus == Policy.Denied
        || (k.policy.policyStatus == Policy.Approved && S3Match(store, q) &&
            FindingOf(store, q).simulationId.Some? && FindingOf(store, q).configurationHash.Some?))
  }

  /** The verified request meets a rule. S1 comes before S2 and S2 before S3. */
  ghost predicate PolicyRuleMet(store: EvidenceStore, q: Request) {
    && Usable(store, q) && PolicyRef(store, q).Some?
    && var k := CaseOf(store, PolicyRef(store, q).value);
       WellTyped(k) && (UnknownSource(k) || PlcRead(k) || CommandFiles(store, q, k))
  }

  ghost predicate RuleMet(store: EvidenceStore, q: Request) {
    if About(store, q, "CPR-S4-PUMP-FLOW-001")
    then q.policy.None? && store[q.correlation.value.evidenceId].digest == q.correlation.value.digest &&
         CompleteS4Match(store, q.correlation.value.evidenceId)
    else PolicyRuleMet(store, q)
  }

  lemma ChainIsTyped(store: EvidenceStore, p: Ref)
    requires ChainHolds(store, p)
    ensures WellTyped(CaseOf(store, p))
  {
  }

  /** A request yields a candidate exactly when it meets a rule. */
  lemma RuleMetExactly(store: EvidenceStore, q: Request)
    ensures Qualify(store, q).Ok? && Qualify(store, q).value.Some? <==> RuleMet(store, q)
  {
    S3RuleText();
    UsableExactly(store, q);
    if About(store, q, "CPR-S4-PUMP-FLOW-001") {
      S4RuleExactly(store, q);
    } else {
      PolicyRulesExactly(store, q);
    }
  }

  lemma S4RuleExactly(store: EvidenceStore, q: Request)
    requires About(store, q, "CPR-S4-PUMP-FLOW-001")
    ensures Qualify(store, q).Ok? && Qualify(store, q).value.Some? <==> RuleMet(store, q)
  {
    hide VerifyBundle, QualifyS4, Usable, RuleMet, BundleTyped, CompleteS4Match;
    S3RuleText();
    UsableExactly(store, q);
    BundleIsTyped(store, q);
    S4Usable(store, q);
    var id := q.correlation.value.evidenceId;
    S4CandidateExactly(Item(id, store[id]));
    hide ChainHolds;
  }

  /** A request about an S4 finding has a rule to meet only without any policy finding. */
  lemma S4Usable(store: EvidenceStore, q: Request)
    requires About(store, q, "CPR-S4-PUMP-FLOW-001")
    ensures
      var body := FindingOf(store, q);
      RuleMet(store, q) <==>
      && Usable(store, q) && PolicyRef(store, q).None?
      && CorrelationMatched(body, Correlation.S4_RULE)
      && body.policyParent.None? && body.semanticParent.None? && body.contextParent.None?
      && (set a | a in body.processAssets :: a.0) == S4Assets()
      && body.simulationId.Some? && body.configurationHash.Some? && body.anchorTime.Some?
  {
    S3RuleText();
    hide SupportsFinding, ChainHolds, S3Lineage;
  }

  /** The S4 candidate groups by its assets, points, run and configuration, in the epoch of its anchor. */
  lemma S4CandidateFields(item: Item)
    requires item.evidence.body.CorrelationBody?
    ensures
      var q, body := QualifyS4(item), item.evidence.body;
      q.Ok? && q.value.Some? ==>
        var c := q.value.value;
        && c.ruleId == "IQR-S4-PUMP-FLOW-001" && c.category == "PROCESS_INCONSISTENCY"
        && c.identityScope == [] && multiset(c.pointScope) == multiset(body.points)
        && (forall x :: x in c.processScope <==> x in S4Assets())
        && Some(c.runScope) == body.simulationId && Some(c.configurationScope) == body.configurationHash
        && c.semanticId == None && Some(c.anchor) == body.anchorTime
        && NamesAssets(c.processKeys, c.processIds, body.processAssets)
        && c.firstObserved == c.lastObserved == item.evidence.observedAt
  {
    hide SortedAssets, SortStrings, S4Assets, CorrelationMatched, NamesAssets, Firsts, Seconds;
    var q, body := QualifyS4(item), item.evidence.body;
    if q.Ok? && q.value.Some? {
      var assets := SortedAssets(body.processAssets);
      SplitAssets(assets);
      NamesSame(Firsts(assets), Seconds(assets), assets, body.processAssets);
      AssetKeys(body.processAssets, assets);
    }
  }

  lemma NamesSame(keys: seq<string>, ids: seq<string>, a: seq<(string, string)>, b: seq<(string, string)>)
    requires NamesAssets(keys, ids, a) && forall x :: x in a <==> x in b
    ensures NamesAssets(keys, ids, b)
  {
    hide Paired;
  }

  lemma AssetKeys(assets: seq<(string, string)>, sorted: seq<(string, string)>)
    requires forall x :: x in sorted <==> x in assets
    ensures forall k :: k in Firsts(sorted) <==> k in set a | a in assets :: a.0
  {
    forall k | k in set a | a in assets :: a.0
      ensures k in Firsts(sorted)
    {
      var a :| a in assets && a.0 == k;
      var i :| 0 <= i < |sorted| && sorted[i] == a;
      assert Firsts(sorted)[i] == k;
    }
    forall k | k in Firsts(sorted)
      ensures k in set a | a in assets :: a.0
    {
      var i :| 0 <= i < |sorted| && Firsts(sorted)[i] == k;
      assert sorted[i] in sorted;
    }
  }

  lemma PolicyRulesExactly(store: EvidenceStore, q: Request)
    requires !About(store, q, "CPR-S4-PUMP-FLOW-001")
    ensures Qualify(store, q).Ok? && Qualify(store, q).value.Some? <==> PolicyRuleMet(store, q)
  {
    S3RuleText();
    UsableExactly(store, q);
    BundleIsTyped(store, q);
    hide VerifyBundle, Usable, QualifyS4, CandidateS1, CandidateS2, CandidateS3, SortedAssets;
    if Usable(store, q) && PolicyRef(store, q).Some? {
      ChainIsTyped(store, PolicyRef(store, q).value);
    }
  }

  // ---------------------------------------------------------------- what is filed

  function OrNone(asset: Option<string>): string { if asset.Some? then asset.value else "None" }

  function Listed(o: Option<string>): seq<string> { if o.Some? then [o.value] else [] }

  /** LOW for an unknown source, HIGH exactly for a denied command with a matched finding. */
  function ExpectedSeverity(store: EvidenceStore, q: Request, k: Case): Severity
    requires WellTyped(k)
  {
    if UnknownSource(k) then Low
    else if ValveCommand(k) && k.policy.policyStatus == Policy.Denied && S3Match(store, q) then High
    else Medium
  }

  /** The policy finding is primary, except that an approved command leads with its correlation. */
  function ExpectedMembers(store: EvidenceStore, q: Request, k: Case): seq<Membership>
    requires WellTyped(k) && (q.correlation.Some? ==> NamesFinding(store, q))
  {
    var policy := Membership(k.policyId, false, Primary, k.policyTime);
    if !ValveCommand(k) || q.correlation.None? then [policy]
    else
      var id := q.correlation.value.evidenceId;
      var finding := Membership(id, true, Primary, store[id].observedAt);
      if k.policy.policyStatus == Policy.Approved then [finding, policy.(role := ContextRole)]
      else [policy, finding.(role := if S3Match(store, q) then Supporting else ContextRole)]
  }

  /** The grouping key before any rerouting. */
  function ExpectedKey(store: EvidenceStore, q: Request, k: Case): GroupingKey
    requires WellTyped(k) && (q.correlation.Some? ==> NamesFinding(store, q))
    requires ValveCommand(k) && k.policy.policyStatus == Policy.Approved ==>
      q.correlation.Some? && FindingOf(store, q).simulationId.Some? && FindingOf(store, q).configurationHash.Some?
  {
    if UnknownSource(k) then
      GroupingKey("IQR-S1-UNKNOWN-SOURCE-001", "1.0.0", "ASSET_IDENTITY_ANOMALY",
                  ["UNRESOLVED:" + k.raw.sourceDigest, OrNone(k.policy.destinationAsset)], [],
                    Listed(k.policy.targetPoint),
                  "NO_SIMULATION_SCOPE", "NO_SIMULATION_SCOPE", None, GroupingEpochStart(k.contextTime))
    else if PlcRead(k) then
      GroupingKey("IQR-S2-IT-PLC-POLICY-001", "1.0.0", "COMMUNICATION_POLICY_VIOLATION",
                  [OrNone(k.policy.sourceAsset), OrNone(k.policy.destinationAsset)], [], ["pipeline_flow_rate_m3h"],
                  "NO_SIMULATION_SCOPE", "NO_SIMULATION_SCOPE", None, GroupingEpochStart(k.semanticTime))
    else
      var approved := ValveCommand(k) && k.policy.policyStatus == Policy.Approved;
      GroupingKey("IQR-S3-CV-COMMAND-001", "1.0.0", "CONTROL_COMMAND_INVESTIGATION",
                  Listed(k.policy.sourceAsset) + Listed(k.policy.destinationAsset), ["CV-101"],
                  ["control_valve_command_percent"],
                  if approved then FindingOf(store, q).simulationId.value else "UNBOUND_PROCESS_SCOPE:" + k.semanticId,
                  if approved then FindingOf(store, q).configurationHash.value else "UNBOUND_PROCESS_SCOPE",
                  Some(k.semanticId), GroupingEpochStart(k.semanticTime))
  }

  /** The run of the finding beside a command, if it is recorded in full. */
  function ExpectedBinding(store: EvidenceStore, q: Request, k: Case): Option<(string, string)>
    requires WellTyped(k)
  {
    if ValveCommand(k) && NamesFinding(store, q) && FindingOf(store, q).simulationId.Some? &&
       FindingOf(store, q).configurationHash.Some?
    then Some((FindingOf(store, q).simulationId.value, FindingOf(store, q).configurationHash.value)) else None
  }

  /** A command names the assets of its finding, else the commanded one; the others name none. */
  function ExpectedAssets(store: EvidenceStore, q: Request, k: Case): seq<(string, string)>
    requires WellTyped(k) && (q.correlation.Some? ==> NamesFinding(store, q))
  {
    if !ValveCommand(k) then []
    else if q.correlation.Some? then FindingOf(store, q).processAssets
    else if k.context.targetKey.Some? && k.context.targetId.Some? then
      [(k.context.targetKey.value, k.context.targetId.value)]
    else []
  }

  ghost predicate NamesAssets(keys: seq<string>, ids: seq<string>, assets: seq<(string, string)>) {
    |keys| == |ids| && forall key, id :: Paired(keys, ids, key, id) <==> (key, id) in assets
  }

  ghost predicate Builds(store: EvidenceStore, q: Request, k: Case, c: Candidate)
    requires WellTyped(k) && (q.correlation.Some? ==> NamesFinding(store, q))
    requires ValveCommand(k) && k.policy.policyStatus == Policy.Approved ==>
      q.correlation.Some? && FindingOf(store, q).simulationId.Some? && FindingOf(store, q).configurationHash.Some?
  {
    BuildsKeyed(store, q, k, c) && NamesAssets(c.processKeys, c.processIds, ExpectedAssets(store, q, k))
  }

  predicate BuildsKeyed(store: EvidenceStore, q: Request, k: Case, c: Candidate)
    requires WellTyped(k) && (q.correlation.Some? ==> NamesFinding(store, q))
    requires ValveCommand(k) && k.policy.policyStatus == Policy.Approved ==>
      q.correlation.Some? && FindingOf(store, q).simulationId.Some? && FindingOf(store, q).configurationHash.Some?
  {
    && c.Members() == ExpectedMembers(store, q, k) && c.severity == ExpectedSeverity(store, q, k)
    && c.Binding() == ExpectedBinding(store, q, k)
    && c.Key() == ExpectedKey(store, q, k) && c.ruleId == c.Key().ruleId
  }

  ghost predicate MetBy(store: EvidenceStore, q: Request, k: Case) {
    && !About(store, q, "CPR-S4-PUMP-FLOW-001") && PolicyRuleMet(store, q)
    && k == CaseOf(store, PolicyRef(store, q).value)
  }

  lemma MetIsTyped(store: EvidenceStore, q: Request, k: Case)
    requires MetBy(store, q, k)
    ensures WellTyped(k) && (q.correlation.Some? ==> NamesFinding(store, q))
    ensures ValveCommand(k) && k.policy.policyStatus == Policy.Approved ==>
      q.correlation.Some? && FindingOf(store, q).simulationId.Some? && FindingOf(store, q).configurationHash.Some?
  {
    hide SupportsFinding, S3Lineage;
  }

  /** The candidate of a request that meets a rule: its members and roles, severity, key and binding. */
  lemma CandidateExactly(store: EvidenceStore, q: Request, k: Case)
    requires MetBy(store, q, k)
    ensures WellTyped(k) && (q.correlation.Some? ==> NamesFinding(store, q))
    ensures ValveCommand(k) && k.policy.policyStatus == Policy.Approved ==>
      q.correlation.Some? && FindingOf(store, q).simulationId.Some? && FindingOf(store, q).configurationHash.Some?
    ensures Qualify(store, q).Ok? && Qualify(store, q).value.Some? && Builds(store, q, k, Qualify(store, q).value.value)
  {
    MetIsTyped(store, q, k);
    PolicyRulesExactly(store, q);
    UsableExactly(store, q);
    BundleIsTyped(store, q);
    S3RuleText();
    var b := VerifyBundle(store, q).value;
    hide VerifyBundle, Usable, QualifyS4;
    BundleBuilds(store, q, k, b);
  }

  lemma BundleBuilds(store: EvidenceStore, q: Request, k: Case, b: Bundle)
    requires WellTyped(k) && (q.correlation.Some? ==> NamesFinding(store, q))
    requires ValveCommand(k) && k.policy.policyStatus == Policy.Approved ==>
      q.correlation.Some? && FindingOf(store, q).simulationId.Some? && FindingOf(store, q).configurationHash.Some?
    requires !About(store, q, "CPR-S4-PUMP-FLOW-001") && PolicyRef(store, q).Some?
    requires BundleTyped(b) && BundleHolds(store, q, b) && k == CaseOf(store, PolicyRef(store, q).value)
    ensures
      var r := QualifyIncident(b);
      r.Ok? && r.value.Some? ==> Builds(store, q, k, r.value.value)
  {
    S3RuleText();
    hide ChainHolds, GroupingEpochStart, QualifyS3, CandidateS1, CandidateS2, Builds;
    if UnknownSource(k) {
      S1Builds(store, q, k, b);
    } else if PlcRead(k) {
      S2Builds(store, q, k, b);
    } else if ValveCommand(k) {
      S3Builds(store, q, k, b);
    }
  }

  lemma S1Builds(store: EvidenceStore, q: Request, k: Case, b: Bundle)
    requires WellTyped(k) && (q.correlation.Some? ==> NamesFinding(store, q)) && PolicyRef(store, q).Some?
    requires BundleTyped(b) && BundleHolds(store, q, b) && k == CaseOf(store, PolicyRef(store, q).value)
    requires UnknownSource(k)
    ensures Builds(store, q, k, CandidateS1(b))
  {
    NoAssets();
    hide ChainHolds, GroupingEpochStart, NamesAssets;
  }

  lemma S2Builds(store: EvidenceStore, q: Request, k: Case, b: Bundle)
    requires WellTyped(k) && (q.correlation.Some? ==> NamesFinding(store, q)) && PolicyRef(store, q).Some?
    requires BundleTyped(b) && BundleHolds(store, q, b) && k == CaseOf(store, PolicyRef(store, q).value)
    requires PlcRead(k)
    ensures Builds(store, q, k, CandidateS2(b))
  {
    NoAssets();
    hide ChainHolds, GroupingEpochStart, NamesAssets;
  }

  lemma S3Builds(store: EvidenceStore, q: Request, k: Case, b: Bundle)
    requires WellTyped(k) && (q.correlation.Some? ==> NamesFinding(store, q)) && PolicyRef(store, q).Some?
    requires k.policy.policyStatus == Policy.Approved ==>
      q.correlation.Some? && FindingOf(store, q).simulationId.Some? && FindingOf(store, q).configurationHash.Some?
    requires BundleTyped(b) && BundleHolds(store, q, b) && k == CaseOf(store, PolicyRef(store, q).value)
    requires ValveCommand(k)
    ensures QualifyS3(b).Ok? && QualifyS3(b).value.Some? ==> Builds(store, q, k, QualifyS3(b).value.value)
  {
    S3NamesAssets(store, q, k, b);
    S3BuildsKeyed(store, q, k, b);
    S3TakesAssets(b);
    hide QualifyS3, BuildsKeyed, NamesAssets, S3Assets, ExpectedAssets, BundleHolds, BundleTyped;
  }

  lemma S3TakesAssets(b: Bundle)
    requires BundleTyped(b) && b.policy.Some?
    ensures
      var r := QualifyS3(b);
      r.Ok? && r.value.Some? ==>
        && S3Assets(b).Ok?
        && r.value.value.processKeys == Firsts(S3Assets(b).value) &&
          r.value.value.processIds == Seconds(S3Assets(b).value)
  {
    hide S3Assets;
  }

  lemma S3BuildsKeyed(store: EvidenceStore, q: Request, k: Case, b: Bundle)
    requires WellTyped(k) && (q.correlation.Some? ==> NamesFinding(store, q)) && PolicyRef(store, q).Some?
    requires k.policy.policyStatus == Policy.Approved ==>
      q.correlation.Some? && FindingOf(store, q).simulationId.Some? && FindingOf(store, q).configurationHash.Some?
    requires BundleTyped(b) && BundleHolds(store, q, b) && k == CaseOf(store, PolicyRef(store, q).value)
    requires ValveCommand(k)
    ensures QualifyS3(b).Ok? && QualifyS3(b).value.Some? ==> BuildsKeyed(store, q, k, QualifyS3(b).value.value)
  {
    S3BuildsMembers(store, q, k, b);
    S3BuildsKey(store, q, k, b);
    hide QualifyS3, ExpectedKey, ExpectedMembers, ExpectedBinding, ExpectedSeverity, BundleHolds, ChainHolds;
  }

  lemma S3BuildsMembers(store: EvidenceStore, q: Request, k: Case, b: Bundle)
    requires WellTyped(k) && (q.correlation.Some? ==> NamesFinding(store, q)) && PolicyRef(store, q).Some?
    requires k.policy.policyStatus == Policy.Approved ==>
      q.correlation.Some? && FindingOf(store, q).simulationId.Some? && FindingOf(store, q).configurationHash.Some?
    requires BundleTyped(b) && BundleHolds(store, q, b) && k == CaseOf(store, PolicyRef(store, q).value)
    requires ValveCommand(k)
    ensures
      var r := QualifyS3(b);
      r.Ok? && r.value.Some? ==>
        && r.value.value.Members() == ExpectedMembers(store, q, k)
        && r.value.value.severity == ExpectedSeverity(store, q, k)
        && r.value.value.Binding() == ExpectedBinding(store, q, k)
  {
    S3RuleText();
    hide ChainHolds, SortedAssets, Firsts, Seconds, S3Assets, RuleText, CategoryText, RulePoint, ValveScope, Unbound;
  }

  lemma S3BuildsKey(store: EvidenceStore, q: Request, k: Case, b: Bundle)
    requires WellTyped(k) && (q.correlation.Some? ==> NamesFinding(store, q)) && PolicyRef(store, q).Some?
    requires k.policy.policyStatus == Policy.Approved ==>
      q.correlation.Some? && FindingOf(store, q).simulationId.Some? && FindingOf(store, q).configurationHash.Some?
    requires BundleTyped(b) && BundleHolds(store, q, b) && k == CaseOf(store, PolicyRef(store, q).value)
    requires ValveCommand(k)
    ensures
      var r := QualifyS3(b);
      r.Ok? && r.value.Some? ==>
        r.value.value.Key() == ExpectedKey(store, q, k) && r.value.value.ruleId == r.value.value.Key().ruleId
  {
    hide ChainHolds, GroupingEpochStart, SortedAssets, Firsts, Seconds, S3Assets, CorrelationMatched;
  }

  lemma NoAssets()
    ensures NamesAssets([], [], [])
  {
  }

  lemma SplitAssets(assets: seq<(string, string)>)
    ensures NamesAssets(Firsts(assets), Seconds(assets), assets)
  {
    forall key, id | (key, id) in assets
      ensures Paired(Firsts(assets), Seconds(assets), key, id)
    {
      var n :| 0 <= n < |assets| && assets[n] == (key, id);
      assert Firsts(assets)[n] == key && Seconds(assets)[n] == id;
    }
  }

  lemma S3NamesAssets(store: EvidenceStore, q: Request, k: Case, b: Bundle)
    requires WellTyped(k) && (q.correlation.Some? ==> NamesFinding(store, q)) && PolicyRef(store, q).Some?
    requires BundleTyped(b) && BundleHolds(store, q, b) && k == CaseOf(store, PolicyRef(store, q).value)
    requires ValveCommand(k)
    ensures S3Assets(b).Ok? ==>
      NamesAssets(Firsts(S3Assets(b).value), Seconds(S3Assets(b).value), ExpectedAssets(store, q, k))
  {
    hide ChainHolds, SortedAssets;
    if S3Assets(b).Ok? {
      SplitAssets(S3Assets(b).value);
    }
  }

  // ---------------------------------------------------------------- in every reachable state

  ghost predicate Grouped(key: GroupingKey, expected: GroupingKey, binding: Option<(string, string)>) {
    || key.Groups(expected)
    || (binding.Some? && key.Groups(expected.(runScope := binding.value.0, configurationScope := binding.value.1)))
  }

  /** The incident a request was filed under: its rule, category, scopes and epoch, under the
      expected key or the key of its own run; all named evidence; at least the expected severity;
      the finding's binding; and, when it was opened by the request, exactly that and nothing else. */
  ghost predicate FiledFor(store: EvidenceStore, q: Request, k: Case, i: Incident, outcome: Outcome) {
    && WellTyped(k) && (q.correlation.Some? ==> NamesFinding(store, q))
    && (ValveCommand(k) && k.policy.policyStatus == Policy.Approved ==>
          q.correlation.Some? && FindingOf(store, q).simulationId.Some? && FindingOf(store, q).configurationHash.Some?)
    && Grouped(i.key, ExpectedKey(store, q, k), ExpectedBinding(store, q, k))
    && (forall m :: m in ExpectedMembers(store, q, k) ==> HasMember(i.memberships, m.evidenceId))
    && Rank(ExpectedSeverity(store, q, k)) <= Rank(i.severity)
    && (ExpectedBinding(store, q, k).Some? ==> BoundTo(i) == ExpectedBinding(store, q, k))
    && (outcome.Created? ==>
          && i.severity == ExpectedSeverity(store, q, k) && i.memberships == ExpectedMembers(store, q, k)
          && i.status == Open && i.primaryEvidence == ExpectedMembers(store, q, k)[0].evidenceId
          && NamesAssets(i.processKeys, i.processIds, ExpectedAssets(store, q, k)))
  }

  /** In every reachable state a request is accepted exactly when it meets a rule on the stored
      records, and it is filed as that rule demands. */
  lemma RequestsAreFiledExactly(ops: seq<Op>, q: Request, requestId: string)
    ensures
      var s := Run(ops);
      var r := Submit(s.evidence, s.incidents, q, requestId);
      && (IsAccepted(r.outcome) <==> RuleMet(s.evidence, q))
      && forall k :: MetBy(s.evidence, q, k) ==>
           IsAccepted(r.outcome) && r.outcome.name in r.incidents &&
           FiledFor(s.evidence, q, k, r.incidents[r.outcome.name], r.outcome)
  {
    hide Run, Invariant, Qualify, Routed, File, RuleMet, Filed, Healthy, GrownBy, Candidate.Valid, HasMember, FiledFor,
      FiledAt,
      GroupingKey.CanonicalName, MetBy;
    var s := Run(ops);
    ReachableInvariant(ops);
    RuleMetExactly(s.evidence, q);
    QualifiedIsValid(s.evidence, q);
    if RuleMet(s.evidence, q) {
      var c := Qualify(s.evidence, q).value.value;
      FilingSucceeds(s, c, requestId);
      forall k | MetBy(s.evidence, q, k)
        ensures
          var r := Submit(s.evidence, s.incidents, q, requestId);
          r.outcome.name in r.incidents && FiledFor(s.evidence, q, k, r.incidents[r.outcome.name], r.outcome)
      {
        CandidateExactly(s.evidence, q, k);
        FiledAsExpected(s, q, k, c, requestId);
      }
    } else {
      MetMeansRuleMet(s.evidence, q);
    }
  }

  lemma MetMeansRuleMet(store: EvidenceStore, q: Request)
    ensures forall k :: MetBy(store, q, k) ==> RuleMet(store, q)
  {
    hide PolicyRuleMet, CaseOf;
  }

  lemma FiledAsExpected(s: System, q: Request, k: Case, c: Candidate, requestId: string)
    requires Invariant(s) && c.Valid(s.evidence) && MetBy(s.evidence, q, k)
    requires Qualify(s.evidence, q) == Ok(Some(c))
    ensures
      var r := File(s.incidents, Routed(s.incidents, c), requestId);
      IsAccepted(r.outcome) && r.outcome.name in r.incidents &&
      FiledFor(s.evidence, q, k, r.incidents[r.outcome.name], r.outcome)
  {
    hide Qualify, Routed, File, Filed, Healthy, GrownBy, Candidate.Valid, HasMember, GroupingKey.CanonicalName, MetBy,
      ExpectedKey, ExpectedMembers, ExpectedSeverity, ExpectedBinding, ExpectedAssets, NamesAssets, Invariant;
    CandidateExactly(s.evidence, q, k);
    FilingSucceeds(s, c, requestId);
    RoutedKeepsContent(s.incidents, c);
    var filed := Routed(s.incidents, c);
    var r := File(s.incidents, filed, requestId);
    var i := r.incidents[r.outcome.name];
    HealthyKey(s.evidence, i);
    FiledGroups(s, c, i, r.outcome.name);
    FiledContent(i, filed);
    CreatedContent(s.incidents, filed, requestId);
  }

  lemma FiledContent(i: Incident, c: Candidate)
    requires Filed(i, c)
    ensures forall m :: m in c.Members() ==> HasMember(i.memberships, m.evidenceId)
    ensures Rank(c.severity) <= Rank(i.severity)
    ensures c.Binding().Some? ==> BoundTo(i) == c.Binding()
  {
    hide HasMember;
  }

  lemma CreatedContent(incidents: IncidentTable, c: Candidate, requestId: string)
    ensures
      var r := File(incidents, c, requestId);
      r.outcome.Created? ==>
        && r.outcome.name in r.incidents
        && var i := r.incidents[r.outcome.name];
           && i.severity == c.severity && i.memberships == c.Members() && i.status == Open
           && i.primaryEvidence == c.Members()[0].evidenceId
           && i.processKeys == c.processKeys && i.processIds == c.processIds
  {
    hide GroupingKey.CanonicalName, Enrich;
  }

  lemma FiledGroups(s: System, c: Candidate, i: Incident, name: string)
    requires Invariant(s) && c.Valid(s.evidence)
    requires name == Routed(s.incidents, c).Key().CanonicalName() && i.key.CanonicalName() == name && i.key.Valid()
    ensures Grouped(i.key, c.Key(), c.Binding())
  {
    var filed := Routed(s.incidents, c);
    RoutedIsCompatible(s, c);
    KeyIsValid(s.evidence, filed);
    CanonicalNameInjective(i.key, filed.Key());
    RoutedKey(s.incidents, c);
    hide Routed, GroupingKey.CanonicalName, GroupingKey.Valid, GroupingKey.Groups, Invariant, Candidate.Valid,
      Candidate.Key;
  }

  lemma HealthyKey(store: EvidenceStore, i: Incident)
    requires Healthy(store, i)
    ensures i.key.Valid()
  {
    hide GroupingKey.Valid;
  }

  lemma KeyIsValid(store: EvidenceStore, c: Candidate)
    requires c.Valid(store)
    ensures c.Key().Valid()
  {
    hide GroupingKey.Valid;
  }

  lemma RoutedKey(incidents: IncidentTable, c: Candidate)
    ensures
      var d := Routed(incidents, c);
      d == c || (c.Binding().Some? &&
                 d.Key() == c.Key().(runScope := c.Binding().value.0, configurationScope := c.Binding().value.1))
  {
    hide GroupingKey.CanonicalName;
  }
}
