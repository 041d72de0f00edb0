/** The incident engine as a state machine over whole histories of requests and analyst
    operations, and what holds in every state it can reach. */
module IncidentSystem {
  import opened Common
  import opened EvidenceTypes
  import opened Identity
  import opened Qualification
  import opened Incidents
  import opened IncidentInvariants

  /** A qualification that was accepted: what was asked, the candidate it stood for, and the
      candidate and incident under which its evidence was filed. */
  datatype Accepted = Accepted(request: Request, original: Candidate, filed: Candidate, name: string)

  datatype System = System(evidence: EvidenceStore, incidents: IncidentTable, accepted: seq<Accepted>)

  datatype Op =
    | Ingest(id: string, record: Evidence)
    | SubmitRequest(request: Request, requestId: string)
    | EditIncident(name: string, change: Change)

  const EMPTY := System(map[], map[], [])

  // ---------------------------------------------------------------- steps

  predicate IsAccepted(outcome: Outcome) {
    outcome.Created? || outcome.Enriched? || outcome.Existing?
  }

  function SubmitStep(s: System, request: Request, requestId: string): System {
    var r := Submit(s.evidence, s.incidents, request, requestId);
    if IsAccepted(r.outcome) && Qualify(s.evidence, request).Ok? && Qualify(s.evidence, request).value.Some? then
      var c := Qualify(s.evidence, request).value.value;
      System(s.evidence, r.incidents, s.accepted + [Accepted(request, c, Routed(s.incidents, c), r.outcome.name)])
    else s.(incidents := r.incidents)
  }

  /** One atomic step. Evidence is append-only, malformed evidence never enters, and an operation
      that fails changes nothing. */
  function Step(s: System, op: Op): System {
    match op
    case Ingest(id, record) =>
      if id in s.evidence || !WellFormed(id, record) then s else s.(evidence := s.evidence[id := record])
    case SubmitRequest(request, requestId) => SubmitStep(s, request, requestId)
    case EditIncident(name, change) => s.(incidents := EditTable(s.incidents, name, change).incidents)
  }

  function Run(ops: seq<Op>): System {
    if ops == [] then EMPTY else Step(Run(ops[..|ops| - 1]), ops[|ops| - 1])
  }

  // ---------------------------------------------------------------- the invariant

  ghost predicate IncidentsOk(s: System) {
    forall name :: name in s.incidents ==>
      s.incidents[name].key.CanonicalName() == name && Healthy(s.evidence, s.incidents[name])
  }

  /** The evidence, the severity and the binding of an accepted candidate are in its incident. */
  ghost predicate Filed(i: Incident, c: Candidate) {
    && (forall m :: m in c.Members() ==> HasMember(i.memberships, m.evidenceId))
    && Rank(c.severity) <= Rank(i.severity)
    && (c.Bound() ==> BoundTo(i) == c.Binding())
    && i.key.ruleId == c.ruleId
  }

  /** An accepted request still leads to the incident it was filed under. */
  ghost predicate Remembered(s: System, a: Accepted) {
    && Qualify(s.evidence, a.request) == Ok(Some(a.original)) && a.original.Valid(s.evidence)
    && a.name == a.filed.Key().CanonicalName() && a.name in s.incidents
    && Filed(s.incidents[a.name], a.filed)
    && (a.filed == a.original || Rerouted(s, a))
  }

  /** The incident under the original key is bound to another run. */
  ghost predicate Rerouted(s: System, a: Accepted) {
    && a.original.Bound() && a.filed == a.original.Rescoped()
    && a.original.Key().CanonicalName() in s.incidents
    && RequiresSeparateScope(s.incidents[a.original.Key().CanonicalName()], a.original)
  }

  /** Nothing is in an incident that no accepted candidate brought. */
  ghost predicate Explained(s: System, name: string)
    requires name in s.incidents
  {
    && (forall m :: m in s.incidents[name].memberships ==> BroughtBy(s.accepted, name, m.evidenceId))
    && RaisedBy(s.accepted, name, s.incidents[name].severity)
    && AssetsBrought(s.accepted, name, s.incidents[name])
  }

  /** Every process asset ID stands at the position of the key it was brought with. */
  ghost predicate AssetsBrought(accepted: seq<Accepted>, name: string, i: Incident) {
    forall key, id :: Paired(i.processKeys, i.processIds, key, id) ==> AssetBroughtBy(accepted, name, key, id)
  }

  ghost predicate AssetBroughtBy(accepted: seq<Accepted>, name: string, key: string, id: string) {
    exists a :: a in accepted && a.name == name && Paired(a.filed.processKeys, a.filed.processIds, key, id)
  }

  ghost predicate BroughtBy(accepted: seq<Accepted>, name: string, evidenceId: string) {
    exists a :: a in accepted && a.name == name && HasMember(a.filed.Members(), evidenceId)
  }

  ghost predicate RaisedBy(accepted: seq<Accepted>, name: string, severity: Severity) {
    exists a :: a in accepted && a.name == name && a.filed.severity == severity
  }

  ghost predicate Invariant(s: System) {
    && StoreWellFormed(s.evidence)
    && IncidentsOk(s)
    && (forall a :: a in s.accepted ==> Remembered(s, a))
    && (forall name :: name in s.incidents ==> Explained(s, name))
  }

  /** What one step may do to the whole system. */
  ghost predicate Evolves(s: System, t: System) {
    && Grows(s.evidence, t.evidence)
    && (forall name :: name in s.incidents ==> name in t.incidents && Extends(s.incidents[name], t.incidents[name]))
    && s.accepted <= t.accepted
  }

  // ---------------------------------------------------------------- evidence growth

  lemma HealthyGrows(before: EvidenceStore, after: EvidenceStore, i: Incident)
    requires Grows(before, after) && Healthy(before, i)
    ensures Healthy(after, i)
  {
    hide GroupingKey.Valid, TablesOk, DigestText;
  }

  lemma ValidGrows(before: EvidenceStore, after: EvidenceStore, c: Candidate)
    requires Grows(before, after) && c.Valid(before)
    ensures c.Valid(after)
  {
    hide GroupingKey.Valid, DigestText, RunText;
    if c.Bound() {
      var m :| m in c.Members() && m.evidenceId in before && ScopeOf(before[m.evidenceId]) == c.Binding();
      assert m in c.Members() && m.evidenceId in after && ScopeOf(after[m.evidenceId]) == c.Binding();
    }
  }

  // ---------------------------------------------------------------- memory

  lemma FiledExtends(i: Incident, j: Incident, c: Candidate)
    requires Filed(i, c) && Extends(i, j)
    ensures Filed(j, c)
  {
    forall m | m in c.Members()
      ensures HasMember(j.memberships, m.evidenceId)
    {
      var r :| r in i.memberships && r.evidenceId == m.evidenceId;
      assert r in j.memberships;
    }
  }

  /** Whatever happens in between, an accepted request stays remembered. */
  lemma RememberedExtends(s: System, t: System, a: Accepted)
    requires Remembered(s, a) && Evolves(s, t)
    ensures Remembered(t, a)
  {
    QualifyStable(s.evidence, t.evidence, a.request);
    ValidGrows(s.evidence, t.evidence, a.original);
    hide Qualify, Candidate.Valid, Grows, GroupingKey.CanonicalName;
    FiledExtends(s.incidents[a.name], t.incidents[a.name], a.filed);
    hide Filed;
  }

  // ---------------------------------------------------------------- filing

  /** The regrouped candidate is still valid: its new key names its own binding. */
  lemma RescopedValid(store: EvidenceStore, c: Candidate)
    requires c.Valid(store) && c.Bound()
    ensures c.Rescoped().Valid(store)
    ensures DigestText(c.Rescoped().configurationScope)
  {
    DigestFree(c.boundConfiguration.value);
    hide ScopeTokens, DigestText;
    assert c.Rescoped().Members() == c.Members();
    hide Roster, OneScope, HasScope;
  }

  /** Whoever shares a canonical name shares the rule and the grouping scope. */
  lemma SameNameSameScope(i: Incident, c: Candidate)
    requires i.key.Valid() && c.Key().Valid() && i.key.CanonicalName() == c.Key().CanonicalName()
    ensures i.key.ruleId == c.ruleId && i.key.runScope == c.runScope && i.key.configurationScope == c.configurationScope
  {
    CanonicalNameInjective(i.key, c.Key());
    hide GroupingKey.CanonicalName, GroupingKey.Valid;
  }

  /** Routing always finds an incident whose binding the candidate can share. */
  lemma RoutedIsCompatible(s: System, c: Candidate)
    requires Invariant(s) && c.Valid(s.evidence)
    ensures
      var filed := Routed(s.incidents, c);
      var name := filed.Key().CanonicalName();
      && filed.Valid(s.evidence)
      && (name in s.incidents ==>
            Compatible(s.incidents[name], filed) && s.incidents[name].key.ruleId == filed.ruleId)
  {
    hide GroupingKey.CanonicalName, Explained, Remembered, TablesOk, Roster, OneScope;
    var filed := Routed(s.incidents, c);
    if filed != c { RescopedValid(s.evidence, c); }
    var name := filed.Key().CanonicalName();
    if name in s.incidents {
      SameNameSameScope(s.incidents[name], filed);
      hide GroupingKey.Valid, DigestText;
    }
  }

  /** Every row and the severity of `j` come from the earlier incident or from the candidate. */
  ghost predicate GrownBy(before: Option<Incident>, j: Incident, c: Candidate) {
    && (forall m :: m in j.memberships ==>
          HasMember(c.Members(), m.evidenceId) || (before.Some? && m in before.value.memberships))
    && (j.severity == c.severity || (before.Some? && j.severity == before.value.severity))
    && (forall key, id :: Paired(j.processKeys, j.processIds, key, id) ==>
          || Paired(c.processKeys, c.processIds, key, id)
          || (before.Some? && Paired(before.value.processKeys, before.value.processIds, key, id)))
    && (before.Some? ==> Extends(before.value, j))
  }

  function At(incidents: IncidentTable, name: string): Option<Incident> {
    if name in incidents then Some(incidents[name]) else None
  }

  /** The table differs from `before` at most in `name`, where the candidate is now filed. */
  ghost predicate FiledAt(store: EvidenceStore, before: IncidentTable, after: IncidentTable, c: Candidate,
                          name: string) {
    && name == c.Key().CanonicalName() && name in after
    && after == before[name := after[name]]
    && after[name].key.CanonicalName() == name
    && Healthy(store, after[name]) && Filed(after[name], c)
    && GrownBy(At(before, name), after[name], c)
  }

  lemma CreatedIsFiled(c: Candidate, requestId: string)
    ensures Filed(Create(c, requestId), c) && GrownBy(None, Create(c, requestId), c)
  {
  }

  lemma ChangedIsFiled(store: EvidenceStore, i: Incident, c: Candidate, requestId: string, j: Incident)
    requires Healthy(store, i) && c.Valid(store) && Compatible(i, c) && i.key.ruleId == c.ruleId
    requires EnrichedTo(i, c, requestId, j)
    ensures Filed(j, c) && GrownBy(Some(i), j, c)
  {
    assert DistinctEvidence(i.memberships) && DistinctEvidence(c.Members());
    hide Paired, NewMembers, Healthy, Candidate.Valid, Trigger, EnrichmentEntries, EnrichmentAudits, Compatible;
    hide MergedKeys, MergedIds, HasMember, DistinctEvidence, Effective, Extends;
    EnrichedHealthy(store, i, c, requestId, j);
    NewMembersShape(i.memberships, c.Members(), i.primaryEvidence);
    AddedFromCandidate(i.memberships, c.Members(), i.primaryEvidence);
    ChangedAssets(i, c, j);
    hide BindScope;
  }

  lemma ChangedAssets(i: Incident, c: Candidate, j: Incident)
    requires |i.processKeys| == |i.processIds| && |c.processKeys| == |c.processIds|
    requires j.processKeys == MergedKeys(i, c) && j.processIds == MergedIds(i, c)
    ensures forall key, id :: Paired(j.processKeys, j.processIds, key, id) ==>
      Paired(c.processKeys, c.processIds, key, id) || Paired(i.processKeys, i.processIds, key, id)
  {
    hide MergedKeys, MergedIds;
    forall key, id | Paired(j.processKeys, j.processIds, key, id)
      ensures Paired(c.processKeys, c.processIds, key, id) || Paired(i.processKeys, i.processIds, key, id)
    {
      var k: nat :| k < |j.processKeys| && k < |j.processIds| && j.processKeys[k] == key && j.processIds[k] == id;
      MergedPairs(i, c, k);
    }
  }

  lemma UnchangedIsFiled(store: EvidenceStore, i: Incident, c: Candidate)
    requires DistinctEvidence(i.memberships) && BindingOk(store, i) && c.BindingValid(store)
    requires Compatible(i, c) && i.key.ruleId == c.ruleId
    requires NewMembers(i.memberships, c.Members(), i.primaryEvidence) == []
    requires
      var b := BindScope(i.boundSimulation, i.boundConfiguration, c);
      b.Ok? && !b.value.changed && Rank(c.severity) <= Rank(i.severity)
    ensures Filed(i, c) && GrownBy(Some(i), i, c)
  {
    CompatibleBinds(store, i, c);
    NewMembersShape(i.memberships, c.Members(), i.primaryEvidence);
    assert i.memberships + [] == i.memberships;
    hide BindingOk, Candidate.BindingValid, NewMembers, BindScope;
  }

  lemma EnrichedIsFiled(store: EvidenceStore, i: Incident, c: Candidate, requestId: string)
    requires Healthy(store, i) && c.Valid(store) && Compatible(i, c) && i.key.ruleId == c.ruleId
    ensures
      var r := Enrich(i, c, requestId);
      && r.Ok? && (!r.value.changed ==> r.value.incident == i)
      && Filed(r.value.incident, c) && GrownBy(Some(i), r.value.incident, c)
  {
    hide GroupingKey.Valid, Filed, GrownBy, NewMembers, BindingOk, Candidate.BindingValid, EnrichedTo, Compatible,
      Absorb, Escalate;
    CompatibleBinds(store, i, c);
    hide BindScope;
    var r := Enrich(i, c, requestId);
    EnrichFields(i, c, requestId);
    if r.value.changed {
      ChangedIsFiled(store, i, c, requestId, r.value.incident);
    } else {
      UnchangedIsFiled(store, i, c);
    }
  }

  lemma AddedFromCandidate(rows: seq<Membership>, proposed: seq<Membership>, primary: string)
    requires DistinctEvidence(rows)
    ensures forall m :: m in NewMembers(rows, proposed, primary) ==> HasMember(proposed, m.evidenceId)
  {
    NewMembersShape(rows, proposed, primary);
  }

  lemma NewFiling(store: EvidenceStore, incidents: IncidentTable, c: Candidate, requestId: string)
    requires c.Valid(store) && c.Key().CanonicalName() !in incidents
    ensures
      var r := File(incidents, c, requestId);
      r.outcome.Created? && FiledAt(store, incidents, r.incidents, c, r.outcome.name)
  {
    hide GroupingKey.CanonicalName, Healthy, Filed, GrownBy, Candidate.Valid;
    CreateHealthy(store, c, requestId);
    CreatedIsFiled(c, requestId);
  }

  lemma RepeatedFiling(store: EvidenceStore, incidents: IncidentTable, c: Candidate, requestId: string)
    requires c.Valid(store) && c.Key().CanonicalName() in incidents
    requires
      var i := incidents[c.Key().CanonicalName()];
      Healthy(store, i) && i.key.CanonicalName() == c.Key().CanonicalName() && Compatible(i, c) &&
        i.key.ruleId == c.ruleId
    ensures
      var r := File(incidents, c, requestId);
      (r.outcome.Enriched? || r.outcome.Existing?) && FiledAt(store, incidents, r.incidents, c, r.outcome.name)
  {
    hide GroupingKey.CanonicalName, Healthy, Filed, Candidate.Valid, Compatible;
    var name := c.Key().CanonicalName();
    var i := incidents[name];
    EnrichHealthy(store, i, c, requestId);
    EnrichedIsFiled(store, i, c, requestId);
    hide Enrich;
    var r := File(incidents, c, requestId);
    assert r.incidents[name].key == i.key;
    if r.outcome.Existing? {
      assert incidents == incidents[name := i];
    }
  }

  /** Filing a routed candidate always succeeds: neither a rule mismatch, nor an incomplete or
      mixed binding, nor misaligned assets can occur. */
  lemma FilingSucceeds(s: System, c: Candidate, requestId: string)
    requires Invariant(s) && c.Valid(s.evidence)
    ensures
      var filed := Routed(s.incidents, c);
      var r := File(s.incidents, filed, requestId);
      IsAccepted(r.outcome) && FiledAt(s.evidence, s.incidents, r.incidents, filed, r.outcome.name)
  {
    RoutedIsCompatible(s, c);
    var filed := Routed(s.incidents, c);
    hide Routed, Candidate.Valid, Explained, Remembered, GroupingKey.CanonicalName, Healthy, FiledAt, File, Compatible;
    if filed.Key().CanonicalName() in s.incidents {
      RepeatedFiling(s.evidence, s.incidents, filed, requestId);
    } else {
      NewFiling(s.evidence, s.incidents, filed, requestId);
    }
  }

  // ---------------------------------------------------------------- every step keeps the invariant

  lemma BroughtByGrows(accepted: seq<Accepted>, a: Accepted, name: string, evidenceId: string)
    ensures BroughtBy(accepted, name, evidenceId) ==> BroughtBy(accepted + [a], name, evidenceId)
    ensures a.name == name && HasMember(a.filed.Members(), evidenceId) ==> BroughtBy(accepted + [a], name, evidenceId)
  {
    if BroughtBy(accepted, name, evidenceId) {
      var b :| b in accepted && b.name == name && HasMember(b.filed.Members(), evidenceId);
      assert b in accepted + [a];
    }
    assert a in accepted + [a];
  }

  lemma RaisedByGrows(accepted: seq<Accepted>, a: Accepted, name: string, severity: Severity)
    ensures RaisedBy(accepted, name, severity) ==> RaisedBy(accepted + [a], name, severity)
    ensures a.name == name && a.filed.severity == severity ==> RaisedBy(accepted + [a], name, severity)
  {
    if RaisedBy(accepted, name, severity) {
      var b :| b in accepted && b.name == name && b.filed.severity == severity;
      assert b in accepted + [a];
    }
    assert a in accepted + [a];
  }

  lemma AssetsBroughtGrows(s: System, t: System, a: Accepted, name: string)
    requires name in t.incidents && t.accepted == s.accepted + [a]
    requires name in s.incidents ==> AssetsBrought(s.accepted, name, s.incidents[name])
    requires name != a.name ==> name in s.incidents && t.incidents[name] == s.incidents[name]
    requires name == a.name ==> GrownBy(At(s.incidents, name), t.incidents[name], a.filed)
    ensures AssetsBrought(t.accepted, name, t.incidents[name])
  {
    hide Paired, Extends, HasMember;
    assert a in t.accepted;
    forall key, id | Paired(t.incidents[name].processKeys, t.incidents[name].processIds, key, id)
      ensures AssetBroughtBy(t.accepted, name, key, id)
    {
      if name in s.incidents && Paired(s.incidents[name].processKeys, s.incidents[name].processIds, key, id) {
        assert AssetBroughtBy(s.accepted, name, key, id);
        var b :| b in s.accepted && b.name == name && Paired(b.filed.processKeys, b.filed.processIds, key, id);
        assert b in t.accepted;
      }
    }
  }

  lemma ExplainedAfterFiling(s: System, t: System, a: Accepted)
    requires forall name :: name in s.incidents ==> Explained(s, name)
    requires FiledAt(s.evidence, s.incidents, t.incidents, a.filed, a.name) && t.accepted == s.accepted + [a]
    ensures forall name :: name in t.incidents ==> Explained(t, name)
  {
    hide Healthy, Filed, GroupingKey.CanonicalName, Extends, AssetsBrought;
    forall name | name in t.incidents
      ensures Explained(t, name)
    {
      assert name in s.incidents ==> Explained(s, name);
      AssetsBroughtGrows(s, t, a, name);
      forall m | m in t.incidents[name].memberships
        ensures BroughtBy(t.accepted, name, m.evidenceId)
      {
        assert name != a.name ==> Explained(s, name);
        assert name in s.incidents ==> Explained(s, name);
        BroughtByGrows(s.accepted, a, name, m.evidenceId);
      }
      assert name in s.incidents ==> Explained(s, name);
      RaisedByGrows(s.accepted, a, name, t.incidents[name].severity);
    }
  }

  lemma FilingEvolves(s: System, t: System, a: Accepted)
    requires FiledAt(s.evidence, s.incidents, t.incidents, a.filed, a.name)
    requires t.evidence == s.evidence && t.accepted == s.accepted + [a]
    ensures Evolves(s, t)
  {
    hide Healthy, Filed, GroupingKey.CanonicalName;
  }

  lemma NewlyRemembered(s: System, t: System, a: Accepted)
    requires Evolves(s, t) && t.evidence == s.evidence
    requires Qualify(s.evidence, a.request) == Ok(Some(a.original)) && a.original.Valid(s.evidence)
    requires a.filed == Routed(s.incidents, a.original)
    requires FiledAt(s.evidence, s.incidents, t.incidents, a.filed, a.name)
    ensures Remembered(t, a)
  {
    hide Healthy, Filed, GroupingKey.CanonicalName, Qualify, Candidate.Valid;
  }

  lemma FilingKeepsInvariant(s: System, t: System, a: Accepted)
    requires Invariant(s)
    requires Qualify(s.evidence, a.request) == Ok(Some(a.original)) && a.original.Valid(s.evidence)
    requires a.filed == Routed(s.incidents, a.original)
    requires FiledAt(s.evidence, s.incidents, t.incidents, a.filed, a.name)
    requires t.evidence == s.evidence && t.accepted == s.accepted + [a]
    ensures Invariant(t) && Evolves(s, t)
  {
    hide Qualify, Routed, Candidate.Valid, FiledAt, Remembered, WellFormed, Explained, Evolves, IncidentsOk;
    FilingEvolves(s, t, a);
    NewlyRemembered(s, t, a);
    forall b | b in s.accepted
      ensures Remembered(t, b)
    {
      RememberedExtends(s, t, b);
    }
    ExplainedAfterFiling(s, t, a);
    IncidentsAfterFiling(s, t, a);
  }

  lemma SubmitKeepsInvariant(s: System, request: Request, requestId: string)
    requires Invariant(s)
    ensures Invariant(SubmitStep(s, request, requestId)) && Evolves(s, SubmitStep(s, request, requestId))
  {
    QualifiedIsValid(s.evidence, request);
    hide Qualify, Candidate.Valid, Invariant, File, Routed, FiledAt;
    StandsStill(s);
    hide Evolves;
    var t := SubmitStep(s, request, requestId);
    if Qualify(s.evidence, request).Ok? && Qualify(s.evidence, request).value.Some? {
      var c := Qualify(s.evidence, request).value.value;
      FilingSucceeds(s, c, requestId);
      FilingKeepsInvariant(s, t, t.accepted[|s.accepted|]);
    } else {
      assert t == s;
    }
  }

  lemma IncidentsAfterFiling(s: System, t: System, a: Accepted)
    requires IncidentsOk(s) && t.evidence == s.evidence
    requires FiledAt(s.evidence, s.incidents, t.incidents, a.filed, a.name)
    ensures IncidentsOk(t)
  {
    hide Healthy, Filed, GroupingKey.CanonicalName;
  }

  lemma StandsStill(s: System)
    ensures Evolves(s, s)
  {
  }

  lemma IngestKeepsInvariant(s: System, id: string, record: Evidence)
    requires Invariant(s) && id !in s.evidence && WellFormed(id, record)
    ensures
      var t := s.(evidence := s.evidence[id := record]);
      Invariant(t) && Evolves(s, t)
  {
    hide Remembered, Healthy, GroupingKey.CanonicalName, WellFormed;
    var t := s.(evidence := s.evidence[id := record]);
    forall name | name in s.incidents
      ensures Healthy(t.evidence, t.incidents[name])
    {
      HealthyGrows(s.evidence, t.evidence, s.incidents[name]);
    }
    forall a | a in s.accepted
      ensures Remembered(t, a)
    {
      RememberedExtends(s, t, a);
    }
    assert forall name :: name in s.incidents ==> Explained(s, name) == Explained(t, name);
  }

  lemma EditHealthy(store: EvidenceStore, change: Change, i: Incident)
    requires Healthy(store, i)
    ensures
      var r := Edit(change, i);
      r.Ok? ==> Healthy(store, r.value) && Extends(i, r.value) && SameEvidence(i, r.value)
  {
    hide Healthy, Extends, SameEvidence, Transition, AddNote, Assign, SetDisposition, SaveReport;
    match change
    case ChangeStatus(next, expected, actor, reason, requestId) =>
      TransitionHealthy(store, i, next, expected, actor, reason, requestId);
    case WriteNote(content, expected, actor, requestId) =>
      AddNoteHealthy(store, i, content, expected, actor, requestId);
    case AssignTo(assignee, eligible, expected, requestId) =>
      WorkflowHealthy(store, i, assignee, eligible, Unreviewed, "", expected, requestId);
    case Dispose(disposition, rationale, expected, requestId) =>
      WorkflowHealthy(store, i, None, true, disposition, rationale, expected, requestId);
    case WriteReport(fields, expected, requestId) => SaveReportHealthy(store, i, fields, expected, requestId);
  }

  lemma ReplacementKeepsInvariant(s: System, name: string, j: Incident)
    requires Invariant(s) && name in s.incidents
    requires Healthy(s.evidence, j) && Extends(s.incidents[name], j) && SameEvidence(s.incidents[name], j)
    ensures
      var t := s.(incidents := s.incidents[name := j]);
      Invariant(t) && Evolves(s, t)
  {
    hide Remembered, Healthy, GroupingKey.CanonicalName, WellFormed, BroughtBy, RaisedBy, Paired, AssetBroughtBy;
    var t := s.(incidents := s.incidents[name := j]);
    StandsStill(s);
    assert Evolves(s, t);
    hide Extends;
    forall a | a in s.accepted
      ensures Remembered(t, a)
    {
      RememberedExtends(s, t, a);
    }
    forall n | n in t.incidents
      ensures Explained(t, n)
    {
      assert Explained(s, n);
    }
  }

  lemma EditKeepsInvariant(s: System, name: string, change: Change)
    requires Invariant(s)
    ensures
      var t := s.(incidents := EditTable(s.incidents, name, change).incidents);
      Invariant(t) && Evolves(s, t)
  {
    StandsStill(s);
    hide Edit, Healthy, Remembered, Explained, Extends, SameEvidence, GroupingKey.CanonicalName, Evolves;
    if name in s.incidents && Edit(change, s.incidents[name]).Ok? {
      EditHealthy(s.evidence, change, s.incidents[name]);
      ReplacementKeepsInvariant(s, name, Edit(change, s.incidents[name]).value);
    }
  }

  lemma StepKeepsInvariant(s: System, op: Op)
    requires Invariant(s)
    ensures Invariant(Step(s, op)) && Evolves(s, Step(s, op))
  {
    hide Invariant, EditTable, SubmitStep, WellFormed;
    StandsStill(s);
    hide Evolves;
    match op
    case Ingest(id, record) =>
      if id !in s.evidence && WellFormed(id, record) { IngestKeepsInvariant(s, id, record); }
    case SubmitRequest(request, requestId) => SubmitKeepsInvariant(s, request, requestId);
    case EditIncident(name, change) => EditKeepsInvariant(s, name, change);
  }

  // ---------------------------------------------------------------- main theorems

  /** Every state that any history of operations can reach satisfies the invariant. */
  lemma {:induction false} ReachableInvariant(ops: seq<Op>)
    ensures Invariant(Run(ops))
  {
    if ops != [] {
      ReachableInvariant(ops[..|ops| - 1]);
      StepKeepsInvariant(Run(ops[..|ops| - 1]), ops[|ops| - 1]);
    }
  }

  lemma EvolvesTransitive(a: System, b: System, c: System)
    requires Evolves(a, b) && Evolves(b, c)
    ensures Evolves(a, c)
  {
    forall name | name in a.incidents
      ensures name in c.incidents && Extends(a.incidents[name], c.incidents[name])
    {
      ExtendsTransitive(a.incidents[name], b.incidents[name], c.incidents[name]);
    }
  }

  /** Along every history: no incident disappears, rows are only appended, a binding once set never
      changes, and severities and versions never fall. */
  lemma {:induction false} HistoryOnlyExtends(ops: seq<Op>, more: seq<Op>)
    ensures Evolves(Run(ops), Run(ops + more))
  {
    hide Evolves, Invariant, Step;
    if more == [] {
      assert ops + more == ops;
      StandsStill(Run(ops));
    } else {
      var init := more[..|more| - 1];
      HistoryOnlyExtends(ops, init);
      assert (ops + more)[..|ops + more| - 1] == ops + init;
      ReachableInvariant(ops + init);
      StepKeepsInvariant(Run(ops + init), more[|more| - 1]);
      EvolvesTransitive(Run(ops), Run(ops + init), Run(ops + more));
    }
  }

  /** Binding is write-once and runs are never mixed: in no reachable state can a submission fail
      for any reason other than the evidence itself. */
  lemma SubmissionNeverMixes(ops: seq<Op>, request: Request, requestId: string)
    ensures
      var s := Run(ops);
      var outcome := Submit(s.evidence, s.incidents, request, requestId).outcome;
      IsAccepted(outcome) || outcome.EvidenceOnly? || (outcome.Rejected? && outcome.error.EvidenceRejected?)
  {
    var s := Run(ops);
    ReachableInvariant(ops);
    QualifiedIsValid(s.evidence, request);
    hide Run, Invariant, Qualify, File, Routed;
    if Qualify(s.evidence, request).Ok? && Qualify(s.evidence, request).value.Some? {
      FilingSucceeds(s, Qualify(s.evidence, request).value.value, requestId);
    }
  }

  lemma FiledIsExisting(i: Incident, c: Candidate, requestId: string)
    requires Filed(i, c) && DistinctEvidence(i.memberships) && c.boundSimulation.Some? == c.boundConfiguration.Some?
    ensures Enrich(i, c, requestId) == Ok(Enrichment(i, false))
  {
    NothingNew(i.memberships, c.Members(), i.primaryEvidence);
  }

  lemma {:induction false} NothingNew(rows: seq<Membership>, proposed: seq<Membership>, primary: string)
    requires forall m :: m in proposed ==> HasMember(rows, m.evidenceId)
    ensures NewMembers(rows, proposed, primary) == []
  {
    if proposed != [] {
      NothingNew(rows, proposed[..|proposed| - 1], primary);
      assert rows + [] == rows;
      assert proposed[|proposed| - 1] in proposed;
    }
  }

  lemma RememberedRoutesBack(s: System, a: Accepted)
    requires Invariant(s) && Remembered(s, a)
    ensures Routed(s.incidents, a.original) == a.filed
  {
    hide Healthy, Explained, Candidate.Valid, Qualify, GroupingKey.CanonicalName;
  }

  /** Idempotence over every reachable state: whatever requests, status changes, notes, reports or
      evidence came in between, resubmitting an accepted request (even one that was rerouted to its
      own bound scope) answers "existing" for the same incident and changes no row. */
  lemma ResubmissionChangesNothing(ops: seq<Op>, a: Accepted, requestId: string)
    requires a in Run(ops).accepted
    ensures
      var s := Run(ops);
      Submit(s.evidence, s.incidents, a.request, requestId) == Submission(s.incidents, Existing(a.name))
  {
    var s := Run(ops);
    ReachableInvariant(ops);
    assert Remembered(s, a);
    RememberedRoutesBack(s, a);
    hide Run, Explained, Qualify, Routed, GroupingKey.CanonicalName;
    var i := s.incidents[a.name];
    assert Healthy(s.evidence, i);
    FiledIsExisting(i, a.filed, requestId);
  }

  /** The log really is the history's accepted submissions: each one is recorded when it happens
      and stays recorded. */
  lemma AcceptedIsRecorded(ops: seq<Op>, k: nat)
    requires k < |ops| && ops[k].SubmitRequest?
    ensures
      var s := Run(ops[..k]);
      var outcome := Submit(s.evidence, s.incidents, ops[k].request, ops[k].requestId).outcome;
      IsAccepted(outcome) ==>
        exists a :: a in Run(ops).accepted && a.request == ops[k].request && a.name == outcome.name
  {
    hide Run, Submit, SubmitStep, IsAccepted, Extends, Grows;
    var at := Run(ops[..k]);
    if !IsAccepted(Submit(at.evidence, at.incidents, ops[k].request, ops[k].requestId).outcome) { return; }
    RunStep(ops, k);
    HistoryOnlyExtends(ops[..k + 1], ops[k + 1..]);
    assert ops == ops[..k + 1] + ops[k + 1..];
    var s, t := Run(ops[..k]), Run(ops[..k + 1]);
    AcceptedIsLogged(s, ops[k].request, ops[k].requestId);
    LoggedStays(t, Run(ops), |s.accepted|);
  }

  lemma LoggedStays(s: System, t: System, k: nat)
    requires Evolves(s, t) && k < |s.accepted|
    ensures s.accepted[k] in t.accepted
  {
    hide Extends, Grows;
    assert t.accepted[k] == s.accepted[k];
  }

  lemma RunStep(ops: seq<Op>, k: nat)
    requires k < |ops|
    ensures Run(ops[..k + 1]) == Step(Run(ops[..k]), ops[k])
  {
    assert ops[..k + 1][..k] == ops[..k];
  }

  lemma AcceptedIsLogged(s: System, request: Request, requestId: string)
    requires IsAccepted(Submit(s.evidence, s.incidents, request, requestId).outcome)
    ensures
      var t := SubmitStep(s, request, requestId);
      && |t.accepted| == |s.accepted| + 1
      && t.accepted[|s.accepted|].request == request
      && t.accepted[|s.accepted|].name == Submit(s.evidence, s.incidents, request, requestId).outcome.name
  {
    hide Qualify, File, Routed;
  }

  // ---------------------------------------------------------------- matched findings reach an incident

  /** A stored S4 match that names itself, agrees with its provenance, rests on verified telemetry
      of its own run, and carries its run, configuration, anchor and the S4 assets. */
  ghost predicate CompleteS4Match(store: EvidenceStore, id: string)
    requires id in store && store[id].body.CorrelationBody?
  {
    var e := store[id];
    && e.intact && CorrelationMatched(e.body, Correlation.S4_RULE)
    && e.body.correlationId == id && e.body.parentSet == e.body.derivedParentSet
    && (forall r :: r in e.body.telemetryParents ==> SupportsFinding(store, r, e.body))
    && e.body.policyParent.None? && e.body.semanticParent.None? && e.body.contextParent.None?
    && (set a | a in e.body.processAssets :: a.0) == {"P-101", "PL-101", "TK-101", "TK-102"}
    && e.body.simulationId.Some? && e.body.configurationHash.Some? && e.body.anchorTime.Some?
  }

  function FindingRequest(store: EvidenceStore, id: string): Request
    requires id in store
  {
    Request(None, Some(Ref(id, store[id].digest)))
  }

  /** The finding passes verification exactly when it is intact, consistent and supported. */
  lemma FindingVerifiedExactly(store: EvidenceStore, id: string)
    requires id in store && store[id].body.CorrelationBody?
    ensures
      var v := VerifiedCorrelation(store, Some(Ref(id, store[id].digest)));
      && (v.Ok? <==>
            && store[id].intact && store[id].body.correlationId == id
            && store[id].body.parentSet == store[id].body.derivedParentSet
            && forall r :: r in store[id].body.telemetryParents ==> SupportsFinding(store, r, store[id].body))
      && (v.Ok? ==> v.value == Some(Item(id, store[id])))
  {
    TelemetryLineageExactly(store, store[id].body.telemetryParents, store[id].body);
    hide TelemetryLineage, AllOfRun, SupportsFinding;
  }

  lemma S4MatchQualifiesExactly(store: EvidenceStore, id: string)
    requires id in store && store[id].body.CorrelationBody? && store[id].body.ruleId == Correlation.S4_RULE
    ensures
      var q := Qualify(store, FindingRequest(store, id));
      && (q.Ok? && q.value.Some? <==> CompleteS4Match(store, id))
      && (CompleteS4Match(store, id) ==>
            && store[id].body.simulationId.Some? && store[id].body.configurationHash.Some?
            && q.value.value.Members() == [Membership(id, true, Primary, store[id].observedAt)]
            && q.value.value.severity == High && q.value.value.Bound()
            && q.value.value.Binding() == Some((store[id].body.simulationId.value,
              store[id].body.configurationHash.value)))
  {
    FindingVerifiedExactly(store, id);
    S4BundleExactly(store, id);
    S4CandidateExactly(Item(id, store[id]));
    hide VerifyBundle, QualifyS4, SupportsFinding, VerifiedCorrelation, QualifyS3, CandidateS1, CandidateS2,
      CorrelationMatched;
  }

  /** What reaches the S4 rule: a verified finding without a policy parent. */
  lemma S4BundleExactly(store: EvidenceStore, id: string)
    requires id in store && store[id].body.CorrelationBody? && store[id].body.ruleId == Correlation.S4_RULE
    ensures
      var b := VerifyBundle(store, FindingRequest(store, id));
      var v := VerifiedCorrelation(store, Some(Ref(id, store[id].digest)));
      && (b.Ok? ==>
            && v.Ok? && b.value.correlation == v.value
            && (b.value.policy.Some? <==> store[id].body.policyParent.Some?))
      && (v.Ok? && store[id].body.policyParent.None? ==> b == Ok(Bundle(None, v.value, None, None, None)))
  {
    FindingVerifiedExactly(store, id);
    VerifiedPolicyTyped(store, store[id].body.policyParent);
    hide VerifiedCorrelation, SupportsFinding, Verified, PolicyLineage;
  }

  lemma S4CandidateExactly(item: Item)
    requires item.evidence.body.CorrelationBody?
    ensures
      var q, body := QualifyS4(item), item.evidence.body;
      && (q.Ok? && q.value.Some? <==>
            && CorrelationMatched(body, Correlation.S4_RULE)
            && body.policyParent.None? && body.semanticParent.None? && body.contextParent.None?
            && (set a | a in body.processAssets :: a.0) == S4Assets()
            && body.simulationId.Some? && body.configurationHash.Some? && body.anchorTime.Some?)
      && (q.Ok? && q.value.Some? ==>
            && q.value.value.Members() == [MembershipOf(item, Primary)]
            && q.value.value.severity == High && q.value.value.Bound()
            && q.value.value.Binding() == Some((body.simulationId.value, body.configurationHash.value)))
  {
    hide SortedAssets, Firsts, Seconds, RuleText, CategoryText;
  }

  lemma VerifiedPolicyTyped(store: EvidenceStore, r: Option<Ref>)
    ensures
      var v := VerifiedOption(store, r, PolicyKind);
      v.Ok? ==> (v.value.Some? <==> r.Some?)
  {
  }

  /** In every reachable state a stored S4 finding is accepted exactly when it is a complete match,
      and its incident then holds it, is of high severity and is bound to its run. */
  lemma S4MatchIsFiled(ops: seq<Op>, id: string, requestId: string)
    ensures
      var s := Run(ops);
      id in s.evidence && s.evidence[id].body.CorrelationBody? && s.evidence[id].body.ruleId == Correlation.S4_RULE ==>
        var r := Submit(s.evidence, s.incidents, FindingRequest(s.evidence, id), requestId);
        && (IsAccepted(r.outcome) <==> CompleteS4Match(s.evidence, id))
        && (IsAccepted(r.outcome) ==>
              r.outcome.name in r.incidents && HoldsFinding(s.evidence, r.incidents[r.outcome.name], id))
  {
    hide Run, Invariant, Qualify, Routed, File, CompleteS4Match, Filed, Healthy, GrownBy, Candidate.Valid, HasMember,
      GroupingKey.CanonicalName, FindingRequest;
    var s := Run(ops);
    if id in s.evidence && s.evidence[id].body.CorrelationBody? && s.evidence[id].body.ruleId == Correlation.S4_RULE {
      S4MatchQualifiesExactly(s.evidence, id);
      if CompleteS4Match(s.evidence, id) {
        ReachableInvariant(ops);
        var request := FindingRequest(s.evidence, id);
        QualifiedIsValid(s.evidence, request);
        var c := Qualify(s.evidence, request).value.value;
        FilingSucceeds(s, c, requestId);
        RoutedKeepsContent(s.incidents, c);
        var filed := Routed(s.incidents, c);
        var r := File(s.incidents, filed, requestId);
        FiledHolds(r.incidents[r.outcome.name], filed, id);
      }
    }
  }

  ghost predicate HoldsFinding(store: EvidenceStore, i: Incident, id: string)
    requires id in store && store[id].body.CorrelationBody?
  {
    && HasMember(i.memberships, id) && i.severity == High
    && BoundTo(i).Some? && Some(BoundTo(i).value.0) == store[id].body.simulationId
    && Some(BoundTo(i).value.1) == store[id].body.configurationHash
  }

  lemma FiledHolds(i: Incident, c: Candidate, id: string)
    requires Filed(i, c) && c.Members() != [] && c.Members()[0].evidenceId == id && c.severity == High && c.Bound()
    ensures HasMember(i.memberships, id) && i.severity == High && BoundTo(i) == c.Binding()
  {
    assert c.Members()[0] in c.Members();
  }

  lemma RoutedKeepsContent(incidents: IncidentTable, c: Candidate)
    ensures
      var d := Routed(incidents, c);
      && d.Members() == c.Members() && d.severity == c.severity && d.Bound() == c.Bound() && d.Binding() == c.Binding()
      && d.processKeys == c.processKeys && d.processIds == c.processIds
  {
    hide GroupingKey.CanonicalName;
  }

  // ---------------------------------------------------------------- order independence

  function MemberIds(rows: seq<Membership>): set<string> {
    set m | m in rows :: m.evidenceId
  }

  /** The candidates that were absorbed into an incident. */
  function Absorbed(s: System, name: string): set<Candidate> {
    set a | a in s.accepted && a.name == name :: a.filed
  }

  /** One evidence identity means one record, in every store. */
  ghost predicate Agree(a: EvidenceStore, b: EvidenceStore) {
    forall id :: id in a && id in b ==> a[id] == b[id]
  }

  lemma AbsorbedWithin(s: System, t: System, n: string, k: string)
    requires Invariant(s) && Invariant(t) && Agree(s.evidence, t.evidence)
    requires n in s.incidents && k in t.incidents && Absorbed(s, n) <= Absorbed(t, k)
    ensures MemberIds(s.incidents[n].memberships) <= MemberIds(t.incidents[k].memberships)
    ensures Rank(s.incidents[n].severity) <= Rank(t.incidents[k].severity)
    ensures t.incidents[k].firstObserved <= s.incidents[n].firstObserved
    ensures s.incidents[n].lastObserved <= t.incidents[k].lastObserved
  {
    hide Healthy, GroupingKey.CanonicalName, WellFormed;
    var i, j := s.incidents[n], t.incidents[k];
    assert Explained(s, n);
    forall a | a in s.accepted && a.name == n
      ensures Filed(j, a.filed)
    {
      assert a.filed in Absorbed(s, n);
      var b :| b in t.accepted && b.name == k && b.filed == a.filed;
      assert Remembered(t, b);
    }
    hide Remembered;
    forall m | m in i.memberships
      ensures HasMember(j.memberships, m.evidenceId)
    {
      assert BroughtBy(s.accepted, n, m.evidenceId);
      var a :| a in s.accepted && a.name == n && HasMember(a.filed.Members(), m.evidenceId);
      var p :| p in a.filed.Members() && p.evidenceId == m.evidenceId;
    }
    var a :| a in s.accepted && a.name == n && a.filed.severity == i.severity;
    assert Filed(j, a.filed);
    SpanWithin(s, t, n, k);
  }

  lemma SpanWithin(s: System, t: System, n: string, k: string)
    requires IncidentsOk(s) && IncidentsOk(t) && Agree(s.evidence, t.evidence)
    requires n in s.incidents && k in t.incidents
    requires forall m :: m in s.incidents[n].memberships ==> HasMember(t.incidents[k].memberships, m.evidenceId)
    ensures t.incidents[k].firstObserved <= s.incidents[n].firstObserved
    ensures s.incidents[n].lastObserved <= t.incidents[k].lastObserved
  {
    hide TablesOk, BindingOk, GroupingKey.Valid, GroupingKey.CanonicalName;
    var i, j := s.incidents[n], t.incidents[k];
    assert Healthy(s.evidence, i) && Healthy(t.evidence, j);
    forall m | m in i.memberships
      ensures j.firstObserved <= m.observedAt <= j.lastObserved
    {
      var r :| r in j.memberships && r.evidenceId == m.evidenceId;
      assert Backed(s.evidence, m) && Backed(t.evidence, r);
    }
  }

  lemma {:induction false} MemberIdsCount(rows: seq<Membership>)
    requires DistinctEvidence(rows)
    ensures |MemberIds(rows)| == |rows|
  {
    if rows != [] {
      var init, last := rows[..|rows| - 1], rows[|rows| - 1];
      MemberIdsCount(init);
      assert rows == init + [last];
      assert MemberIds(rows) == MemberIds(init) + {last.evidenceId};
    }
  }

  /** Absorption is order-independent: two incidents, in any two reachable states, that absorbed the
      same set of candidates, in whatever order, however often, and whatever else happened, agree on
      their members, their evidence count, their severity and their time span. */
  lemma AbsorptionIgnoresOrder(ops: seq<Op>, ops': seq<Op>, n: string, k: string)
    requires n in Run(ops).incidents && k in Run(ops').incidents
    requires Agree(Run(ops).evidence, Run(ops').evidence)
    requires Absorbed(Run(ops), n) == Absorbed(Run(ops'), k)
    ensures
      var i, j := Run(ops).incidents[n], Run(ops').incidents[k];
      && MemberIds(i.memberships) == MemberIds(j.memberships)
      && i.evidenceCount == j.evidenceCount == |MemberIds(i.memberships)|
      && i.severity == j.severity && IsMaximum(Absorbed(Run(ops), n), i.severity)
      && i.firstObserved == j.firstObserved && i.lastObserved == j.lastObserved
  {
    hide Run, Invariant, Absorbed;
    SeverityIsMaximum(ops, n);
    var s, t := Run(ops), Run(ops');
    ReachableInvariant(ops);
    ReachableInvariant(ops');
    AbsorbedWithin(s, t, n, k);
    AbsorbedWithin(t, s, k, n);
    CountsDistinctEvidence(s, n);
    CountsDistinctEvidence(t, k);
    hide MemberIds;
  }

  /** The highest severity that any of the candidates proposed. */
  ghost predicate IsMaximum(candidates: set<Candidate>, severity: Severity) {
    && (exists c :: c in candidates && c.severity == severity)
    && (forall c :: c in candidates ==> Rank(c.severity) <= Rank(severity))
  }

  lemma SeverityIsMaximum(ops: seq<Op>, name: string)
    ensures name in Run(ops).incidents ==> IsMaximum(Absorbed(Run(ops), name), Run(ops).incidents[name].severity)
  {
    hide Run, IncidentsOk, Remembered, Explained, StoreWellFormed;
    ReachableInvariant(ops);
    var s := Run(ops);
    if name in s.incidents {
      ExplainedSeverity(s, name);
      var a :| a in s.accepted && a.name == name && a.filed.severity == s.incidents[name].severity;
      assert a.filed in Absorbed(s, name);
      forall c | c in Absorbed(s, name)
        ensures Rank(c.severity) <= Rank(s.incidents[name].severity)
      {
        var b :| b in s.accepted && b.name == name && b.filed == c;
        RememberedSeverity(s, b);
      }
    }
  }

  lemma ExplainedSeverity(s: System, name: string)
    requires name in s.incidents && Explained(s, name)
    ensures RaisedBy(s.accepted, name, s.incidents[name].severity)
  {
  }

  lemma RememberedSeverity(s: System, a: Accepted)
    requires Remembered(s, a)
    ensures a.name in s.incidents && Rank(a.filed.severity) <= Rank(s.incidents[a.name].severity)
  {
    hide Qualify, Candidate.Valid, GroupingKey.CanonicalName, Rerouted, HasMember;
  }

  lemma CountsDistinctEvidence(s: System, name: string)
    requires Invariant(s) && name in s.incidents
    ensures s.incidents[name].evidenceCount == |s.incidents[name].memberships| ==
      |MemberIds(s.incidents[name].memberships)|
  {
    hide Remembered, Explained, TablesOk, BindingOk, GroupingKey.CanonicalName, GroupingKey.Valid, MemberIds;
    assert Healthy(s.evidence, s.incidents[name]);
    MemberIdsCount(s.incidents[name].memberships);
  }

  /** The PRIMARY row is unique. */
  lemma SinglePrimary(store: EvidenceStore, rows: seq<Membership>, primary: string, first: int, last: int)
    requires Roster(store, rows, primary, first, last)
    ensures exists p ::
      p in rows && p.evidenceId == primary && p.role == Primary && forall m :: m in rows && m.role == Primary ==> m == p
  {
    var p :| p in rows && p.evidenceId == primary;
    forall m | m in rows && m.role == Primary
      ensures m == p
    {
      var a :| 0 <= a < |rows| && rows[a] == m;
      var b :| 0 <= b < |rows| && rows[b] == p;
    }
  }

  // ---------------------------------------------------------------- what the invariant says

  /** Bookkeeping in every reachable state: the counter counts distinct evidence, one row is PRIMARY
      and it is the incident's primary evidence, the span is the minimum and maximum over the
      members, every asset ID stands beside the key it was brought with,
      the binding is whole and every scoped finding among the members carries it,
        and an incident keyed by a configuration is bound to its key. */
  lemma ReachableBookkeeping(ops: seq<Op>, name: string)
    requires name in Run(ops).incidents
    ensures
      var i := Run(ops).incidents[name];
      && i.evidenceCount == |i.memberships| == |MemberIds(i.memberships)|
      && (exists p :: p in i.memberships && p.evidenceId == i.primaryEvidence && p.role == Primary &&
            forall m :: m in i.memberships && m.role == Primary ==> m == p)
      && (forall m :: m in i.memberships ==> i.firstObserved <= m.observedAt <= i.lastObserved)
      && HasTime(i.memberships, i.firstObserved) && HasTime(i.memberships, i.lastObserved)
      && |i.processKeys| == |i.processIds| && AssetsBrought(Run(ops).accepted, name, i)
      && i.boundSimulation.Some? == i.boundConfiguration.Some?
      && OneScope(Run(ops).evidence, i.memberships, BoundTo(i))
      && (DigestText(i.key.configurationScope) ==>
            i.boundSimulation == Some(i.key.runScope) && i.boundConfiguration == Some(i.key.configurationScope))
  {
    hide Run, Remembered, Explained, TablesOk, GroupingKey.CanonicalName, GroupingKey.Valid, DigestText, MemberIds,
      HasTime, AssetsBrought, OneScope;
    ReachableInvariant(ops);
    var s := Run(ops);
    var i := s.incidents[name];
    CountsDistinctEvidence(s, name);
    ExplainedAssets(s, name);
    assert Healthy(s.evidence, i);
    SinglePrimary(s.evidence, i.memberships, i.primaryEvidence, i.firstObserved, i.lastObserved);
    AlignedAssets(i);
  }

  lemma ExplainedAssets(s: System, name: string)
    requires name in s.incidents && Explained(s, name)
    ensures AssetsBrought(s.accepted, name, s.incidents[name])
  {
  }

  lemma AlignedAssets(i: Incident)
    requires TablesOk(i)
    ensures |i.processKeys| == |i.processIds|
  {
  }

  /** Histories in every reachable state: each version step has an audit row, only report saves have
      zero width, the status path never returns to OPEN and enters and leaves RESOLVED with a reason,
      the severity ladder has at most three rungs, and no row identity repeats. */
  lemma ReachableHistories(ops: seq<Op>, name: string)
    requires name in Run(ops).incidents
    ensures
      var i := Run(ops).incidents[name];
      && (forall v: nat :: 1 <= v <= i.version ==> Audited(i.audit, v))
      && (forall row :: row in i.audit ==> (row.before == row.after <==> row.action == ReportSaved))
      && PathOk(i.statusHistory, i.status, i.version)
      && (forall k :: 0 < k < |i.statusHistory| ==> i.statusHistory[k].next != Open)
      && LadderOk(i.severityHistory, i.severity, i.version) && |i.severityHistory| <= 3
      && Distinct(i.audit) && UniqueEntries(i.timeline)
      && (forall a, b :: 0 <= a < b < |i.statusHistory| ==> i.statusHistory[a].name != i.statusHistory[b].name)
      && (forall a, b :: 0 <= a < b < |i.notes| ==> i.notes[a].name != i.notes[b].name)
      && (forall a, b :: 0 <= a < b < |i.severityHistory| ==> i.severityHistory[a].name != i.severityHistory[b].name)
      && (forall a, b :: 0 <= a < b < |i.revisions| ==> i.revisions[a].version < i.revisions[b].version)
  {
    hide Run, Remembered, Explained, Healthy, GroupingKey.CanonicalName;
    ReachableInvariant(ops);
    assert Healthy(Run(ops).evidence, Run(ops).incidents[name]);
    HealthyHistories(Run(ops).evidence, Run(ops).incidents[name]);
  }

  lemma HealthyHistories(store: EvidenceStore, i: Incident)
    requires Healthy(store, i)
    ensures forall v: nat :: 1 <= v <= i.version ==> Audited(i.audit, v)
    ensures forall row :: row in i.audit ==> (row.before == row.after <==> row.action == ReportSaved)
    ensures PathOk(i.statusHistory, i.status, i.version)
    ensures forall k :: 0 < k < |i.statusHistory| ==> i.statusHistory[k].next != Open
    ensures LadderOk(i.severityHistory, i.severity, i.version) && |i.severityHistory| <= 3
    ensures Distinct(i.audit) && UniqueEntries(i.timeline)
    ensures forall a, b :: 0 <= a < b < |i.statusHistory| ==> i.statusHistory[a].name != i.statusHistory[b].name
    ensures forall a, b :: 0 <= a < b < |i.notes| ==> i.notes[a].name != i.notes[b].name
    ensures forall a, b :: 0 <= a < b < |i.severityHistory| ==> i.severityHistory[a].name != i.severityHistory[b].name
    ensures forall a, b :: 0 <= a < b < |i.revisions| ==> i.revisions[a].version < i.revisions[b].version
  {
    hide GroupingKey.Valid, Roster, BindingOk;
    SeverityNamesDistinct(i.severityHistory, i.severity, i.version);
    forall k | 0 < k < |i.statusHistory|
      ensures i.statusHistory[k].next != Open
    {
      assert StatusStep(i.statusHistory[k - 1], i.statusHistory[k]);
    }
    StatusNamesDistinct(i.statusHistory, i.status, i.version);
    LadderIsShort(i.severityHistory, i.severity, i.version);
  }

  lemma StatusNamesDistinct(rows: seq<StatusRow>, status: Status, version: nat)
    requires PathOk(rows, status, version)
    ensures forall a, b :: 0 <= a < b < |rows| ==> rows[a].name != rows[b].name
  {
    forall a, b | 0 <= a < b < |rows|
      ensures rows[a].name != rows[b].name
    {
      StatusVersionsRise(rows, status, version, a, b);
      assert StatusStep(rows[b - 1], rows[b]);
      assert a > 0 ==> StatusStep(rows[a - 1], rows[a]);
    }
  }

  lemma {:induction false} StatusVersionsRise(rows: seq<StatusRow>, status: Status, version: nat, a: nat, b: nat)
    requires PathOk(rows, status, version) && a < b < |rows|
    ensures rows[a].after <= rows[b].before && rows[b].after == rows[b].before + 1
    decreases b
  {
    assert StatusStep(rows[b - 1], rows[b]);
    if a < b - 1 {
      StatusVersionsRise(rows, status, version, a, b - 1);
    }
  }

  lemma LadderIsShort(rows: seq<SeverityRow>, severity: Severity, version: nat)
    requires LadderOk(rows, severity, version)
    ensures |rows| <= 3
  {
    RungRank(rows, severity, version, |rows| - 1);
  }

  lemma SeverityNamesDistinct(rows: seq<SeverityRow>, severity: Severity, version: nat)
    requires LadderOk(rows, severity, version)
    ensures forall a, b :: 0 <= a < b < |rows| ==> rows[a].name != rows[b].name
  {
    forall a, b | 0 <= a < b < |rows|
      ensures rows[a].name != rows[b].name
    {
      assert SeverityStep(rows[b - 1], rows[b]);
      assert a > 0 ==> SeverityStep(rows[a - 1], rows[a]);
      SeverityVersionsRise(rows, severity, version, a, b);
    }
  }

  lemma {:induction false} SeverityVersionsRise(rows: seq<SeverityRow>, severity: Severity, version: nat, a: nat,
                                                b: nat)
    requires LadderOk(rows, severity, version) && a < b < |rows|
    ensures rows[a].version < rows[b].version
    decreases b
  {
    assert SeverityStep(rows[b - 1], rows[b]);
    if a < b - 1 {
      SeverityVersionsRise(rows, severity, version, a, b - 1);
    }
  }

  lemma {:induction false} RungRank(rows: seq<SeverityRow>, severity: Severity, version: nat, k: nat)
    requires LadderOk(rows, severity, version) && k < |rows|
    ensures Rank(rows[k].next) > k
  {
    if k > 0 {
      assert SeverityStep(rows[k - 1], rows[k]);
      RungRank(rows, severity, version, k - 1);
    }
  }
}
