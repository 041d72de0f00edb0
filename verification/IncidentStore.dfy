/** The incident engine in its own form: objects updated in place, proved against the
    specification functions of Incidents. */
module IncidentStore {
  import opened Common
  import opened Identity
  import opened Qualification
  import opened Incidents

  /** One incident with the rows that belong to it. */
  class IncidentRecord {
    const key: GroupingKey
    const primaryEvidence: string
    var status: Status
    var severity: Severity
    var assignee: Option<string>
    var disposition: Disposition
    var processKeys: seq<string>
    var processIds: seq<string>
    var targetPoints: seq<string>
    var boundSimulation: Option<string>
    var boundConfiguration: Option<string>
    var firstObserved: int
    var lastObserved: int
    var version: nat
    var evidenceCount: nat
    var memberships: seq<Membership>
    var timeline: seq<TimelineRow>
    var statusHistory: seq<StatusRow>
    var severityHistory: seq<SeverityRow>
    var notes: seq<NoteRow>
    var audit: seq<AuditRow>
    var report: Option<Report>
    var revisions: seq<Report>

    function State(): Incident
      reads this
    {
      Incident(key, status, severity, assignee, disposition, primaryEvidence, processKeys, processIds, targetPoints,
               boundSimulation, boundConfiguration, firstObserved, lastObserved, version, evidenceCount,
               memberships, timeline, statusHistory, severityHistory, notes, audit, report, revisions)
    }

    /** Inserts the incident row and records its creation. */
    constructor (c: Candidate, requestId: string)
      requires DistinctEvidence(c.Members())
      ensures State() == Create(c, requestId)
    {
      key, primaryEvidence := c.Key(), c.primary.evidenceId;
      status, severity, assignee, disposition := Open, c.severity, None, Unreviewed;
      processKeys, processIds, targetPoints := c.processKeys, c.processIds, c.pointScope;
      boundSimulation, boundConfiguration := c.boundSimulation, c.boundConfiguration;
      firstObserved, lastObserved, version, evidenceCount := c.firstObserved, c.lastObserved, 1, 1 + |c.additional|;
      memberships, notes, report, revisions := [], [], None, [];
      timeline := [TimelineRow(CreatedEntry, IncidentRef, 1)];
      statusHistory := [StatusRow(InitialStatus, None, Open, None, 0, 1)];
      severityHistory := [SeverityRow(InitialSeverity(c.severity), None, c.severity, c.primary.evidenceId, 1)];
      audit := [AuditRow(IncidentCreated, requestId, 0, 1, RuleDetail(c.ruleId))];
      new;
      InsertInitial(c.Members());
    }

    method InsertInitial(proposed: seq<Membership>)
      requires memberships == [] && DistinctEvidence(proposed)
      modifies this`memberships
      ensures memberships == proposed
    {
      for k := 0 to |proposed|
        invariant memberships == proposed[..k]
      {
        assert forall m :: m in proposed[..k] ==> m.evidenceId != proposed[k].evidenceId;
        var inserted := InsertMembership(proposed[k]);
      }
      assert proposed[..|proposed|] == proposed;
    }

    /** Insert, on conflict with (incident, evidence) do nothing. */
    method InsertMembership(m: Membership) returns (inserted: bool)
      modifies this`memberships
      ensures inserted == !HasMember(old(memberships), m.evidenceId)
      ensures memberships == if inserted then old(memberships) + [m] else old(memberships)
    {
      inserted := true;
      for k := 0 to |memberships|
        invariant memberships == old(memberships)
        invariant inserted == forall j :: 0 <= j < k ==> memberships[j].evidenceId != m.evidenceId
      {
        if memberships[k].evidenceId == m.evidenceId {
          inserted := false;
        }
      }
      if inserted {
        memberships := memberships + [m];
      }
    }

    /** Adds what is new in the candidate. A binding conflict rolls the memberships back. */
    method Enrich(c: Candidate, requestId: string) returns (r: Result<bool, IncidentError>)
      modifies this
      ensures
        match Incidents.Enrich(old(State()), c, requestId)
        case Err(e) => r == Err(e) && State() == old(State())
        case Ok(e) => r == Ok(e.changed) && State() == e.incident
    {
      if key.ruleId != c.ruleId {
        return Err(RuleMismatch);
      }
      var before := version;
      var saved := memberships;
      var added := InsertProposed(c.Members());
      var bound := BindScope(boundSimulation, boundConfiguration, c);
      if bound.Err? {
        memberships := saved;
        return Err(bound.error);
      }
      var escalates := Rank(c.severity) > Rank(severity);
      if added == [] && !bound.value.changed && !escalates {
        return Ok(false);
      }
      if |processKeys| != |processIds| || |c.processKeys| != |c.processIds| {
        memberships := saved;
        return Err(AssetsMisaligned);
      }
      AbsorbNew(saved, c, added, bound.value, requestId);
      if escalates {
        RecordEscalation(c.severity, Trigger(added, c.primary), requestId, before, version);
      }
      r := Ok(true);
    }

    /** Widens the scopes and the time span and appends the rows of the new memberships. */
    method AbsorbNew(ghost saved: seq<Membership>, c: Candidate, added: seq<Membership>, binding: Binding,
                     requestId: string)
      requires |processKeys| == |processIds| && |c.processKeys| == |c.processIds|
      requires memberships == saved + added
      modifies this
      ensures State() == Absorb(old(State()).(memberships := saved), c, added, binding, requestId)
    {
      hide State, MergedKeys, MergedIds, SortedSet, EvidenceEntries, EvidenceAudits, Min, Max;
      StateFields();
      var keys, ids, points := MergeScopes(saved, c);
      SetScopes(keys, ids, points);
      WidenSpan(c, binding);
      RecordEvidence(added, requestId);
    }

    lemma StateFields()
      ensures State().memberships == memberships
      ensures State().processKeys == processKeys && State().processIds == processIds
      ensures State().version == version && State().status == status && State().severity == severity
    {
    }

    method MergeScopes(ghost saved: seq<Membership>, c: Candidate)
      returns (keys: seq<string>, ids: seq<string>, points: seq<string>)
      requires |processKeys| == |processIds| && |c.processKeys| == |c.processIds|
      ensures keys == MergedKeys(State().(memberships := saved), c)
      ensures ids == MergedIds(State().(memberships := saved), c)
      ensures points == SortedSet(State().targetPoints + c.pointScope)
    {
      AssetMapKeys(processKeys, processIds);
      AssetMapKeys(c.processKeys, c.processIds);
      var assets := AssetMap(processKeys, processIds) + AssetMap(c.processKeys, c.processIds);
      keys := SortedSet(processKeys + c.processKeys);
      ids := Lookup(keys, assets);
      points := SortedSet(targetPoints + c.pointScope);
    }

    method SetScopes(keys: seq<string>, ids: seq<string>, points: seq<string>)
      modifies this
      ensures State() == old(State()).(processKeys := keys, processIds := ids, targetPoints := points)
    {
      processKeys, processIds, targetPoints := keys, ids, points;
    }

    method WidenSpan(c: Candidate, binding: Binding)
      modifies this
      ensures
        var i := old(State());
        State() == i.(firstObserved := Min(i.firstObserved, c.firstObserved),
          lastObserved := Max(i.lastObserved, c.lastObserved),
                      boundSimulation := binding.simulation, boundConfiguration := binding.configuration)
    {
      hide Min, Max;
      firstObserved, lastObserved := Min(firstObserved, c.firstObserved), Max(lastObserved, c.lastObserved);
      boundSimulation, boundConfiguration := binding.simulation, binding.configuration;
    }

    /** The version step, with one timeline entry and one audit row per new membership. */
    method RecordEvidence(added: seq<Membership>, requestId: string)
      modifies this
      ensures
        var i := old(State());
        State() == i.(version := i.version + 1, evidenceCount := i.evidenceCount + |added|,
                      timeline := i.timeline + EvidenceEntries(added, i.version + 1),
                      audit := i.audit + EvidenceAudits(added, requestId, i.version))
    {
      hide State, EvidenceEntries, EvidenceAudits;
      StateFields();
      var entries, audits := EvidenceRows(added, requestId, version);
      AppendRows(entries, audits);
      CountNew(|added|);
    }

    method AppendRows(entries: seq<TimelineRow>, audits: seq<AuditRow>)
      modifies this
      ensures State() == old(State()).(timeline := old(State()).timeline + entries,
        audit := old(State()).audit + audits)
    {
      timeline, audit := timeline + entries, audit + audits;
    }

    method CountNew(added: nat)
      modifies this
      ensures State() == old(State()).(version := old(State()).version + 1,
        evidenceCount := old(State()).evidenceCount + added)
    {
      version, evidenceCount := version + 1, evidenceCount + added;
    }

    method InsertProposed(proposed: seq<Membership>) returns (added: seq<Membership>)
      modifies this`memberships
      ensures added == NewMembers(old(memberships), proposed, primaryEvidence)
      ensures memberships == old(memberships) + added
    {
      added := [];
      for k := 0 to |proposed|
        invariant added == NewMembers(old(memberships), proposed[..k], primaryEvidence)
        invariant memberships == old(memberships) + added
      {
        assert proposed[..k + 1][..k] == proposed[..k];
        var effective := Effective(primaryEvidence, proposed[k]);
        var inserted := InsertMembership(effective);
        if inserted {
          added := added + [effective];
        }
      }
      assert proposed[..|proposed|] == proposed;
    }

    /** One timeline entry and one audit row per new membership. */
    method EvidenceRows(added: seq<Membership>, requestId: string, before: nat)
      returns (entries: seq<TimelineRow>, audits: seq<AuditRow>)
      ensures entries == EvidenceEntries(added, before + 1)
      ensures audits == EvidenceAudits(added, requestId, before)
    {
      entries, audits := [], [];
      for k := 0 to |added|
        invariant entries == EvidenceEntries(added, before + 1)[..k]
        invariant audits == EvidenceAudits(added, requestId, before)[..k]
      {
        entries := entries + [TimelineRow(EvidenceEntry, EvidenceRef(added[k].evidenceId), before + 1)];
        audits := audits + [AuditRow(EvidenceEnriched, requestId, before, before + 1,
                                     EvidenceDetail(added[k].evidenceId, added[k].role))];
      }
    }

    method AppendTimeline(row: TimelineRow)
      modifies this
      ensures State() == old(State()).(timeline := old(State()).timeline + [row])
    {
      timeline := timeline + [row];
    }

    method AppendAudit(row: AuditRow)
      modifies this
      ensures State() == old(State()).(audit := old(State()).audit + [row])
    {
      audit := audit + [row];
    }

    method RecordEscalation(proposed: Severity, trigger: string, requestId: string, before: nat, after: nat)
      requires after == version && after == before + 1
      modifies this
      ensures State() == Escalate(old(State()), proposed, trigger, requestId)
    {
      hide State;
      StateFields();
      var previous := severity;
      var name := SeverityName(previous, proposed, trigger, after);
      SetSeverity(SeverityRow(name, Some(previous), proposed, trigger, after));
      AppendTimeline(TimelineRow(SeverityEntry, RowRef(name), after));
      AppendAudit(AuditRow(SeverityEscalated, requestId, before, after, SeverityDetail(previous, proposed)));
    }

    method SetSeverity(row: SeverityRow)
      modifies this
      ensures State() == old(State()).(severity := row.next, severityHistory := old(State()).severityHistory + [row])
    {
      severity, severityHistory := row.next, severityHistory + [row];
    }

    method ChangeStatus(next: Status, expected: nat, actor: string, reason: Option<string>, requestId: string)
      returns (error: Option<IncidentError>)
      modifies this
      ensures
        match Transition(old(State()), next, expected, actor, reason, requestId)
        case Err(e) => error == Some(e) && State() == old(State())
        case Ok(i) => error == None && State() == i
    {
      hide Transition;
      error := CheckStatus(next, expected, actor, reason, requestId);
      if error.None? {
        RecordStatus(next, expected, actor, reason, requestId);
      }
    }

    /** Version first, then the transition table, the text of the reason and its presence. */
    method CheckStatus(next: Status, expected: nat, ghost actor: string, reason: Option<string>,
                       ghost requestId: string)
      returns (error: Option<IncidentError>)
      ensures
        match Transition(State(), next, expected, actor, reason, requestId)
        case Err(e) => error == Some(e)
        case Ok(_) => error == None
    {
      hide NoteText, Allowed;
      if version != expected { return Some(VersionStale); }
      if !Allowed(status, next) { return Some(TransitionNotAllowed); }
      if reason.Some? && !NoteText(reason.value, 500) { return Some(TextInvalid); }
      if (next.Resolved? || status.Resolved?) && reason.None? { return Some(ReasonRequired); }
      return None;
    }

    method RecordStatus(next: Status, ghost expected: nat, actor: string, reason: Option<string>, requestId: string)
      requires Transition(State(), next, expected, actor, reason, requestId).Ok?
      modifies this
      ensures State() == Transition(old(State()), next, expected, actor, reason, requestId).value
    {
      hide State, NoteText, Allowed;
      StateFields();
      var previous, before, after := status, version, version + 1;
      var name := StatusName(previous, next, actor, before);
      SetStatus(StatusRow(name, Some(previous), next, reason, before, after));
      AppendTimeline(TimelineRow(StatusEntry, RowRef(name), after));
      AppendAudit(AuditRow(StatusTransitioned, requestId, before, after, StatusDetail(previous, next, reason)));
    }

    method SetStatus(row: StatusRow)
      modifies this
      ensures State() == old(State()).(status := row.next, version := row.after,
        statusHistory := old(State()).statusHistory + [row])
    {
      status, version, statusHistory := row.next, row.after, statusHistory + [row];
    }

    method WriteNote(content: string, expected: nat, actor: string, requestId: string)
      returns (error: Option<IncidentError>)
      modifies this
      ensures
        match AddNote(old(State()), content, expected, actor, requestId)
        case Err(e) => error == Some(e) && State() == old(State())
        case Ok(i) => error == None && State() == i
    {
      hide State, NoteText;
      StateFields();
      if !NoteText(content, 2_000) { return Some(TextInvalid); }
      if version != expected { return Some(VersionStale); }
      var before, after := version, version + 1;
      var name := NoteName(actor, content, before);
      InsertNote(NoteRow(name, content, after));
      AppendTimeline(TimelineRow(NoteEntry, RowRef(name), after));
      AppendAudit(AuditRow(AnalystNoteAdded, requestId, before, after, NoteDetail(name)));
      return None;
    }

    method InsertNote(row: NoteRow)
      modifies this
      ensures State() == old(State()).(version := row.version, notes := old(State()).notes + [row])
    {
      version, notes := row.version, notes + [row];
    }

    method AssignTo(user: Option<string>, eligible: bool, expected: nat, requestId: string)
      returns (error: Option<IncidentError>)
      modifies this
      ensures
        match Assign(old(State()), user, eligible, expected, requestId)
        case Err(e) => error == Some(e) && State() == old(State())
        case Ok(i) => error == None && State() == i
    {
      if version != expected { return Some(VersionStale); }
      if user.Some? && !eligible { return Some(AssigneeInvalid); }
      var before, previous := version, assignee;
      assignee, version := user, before + 1;
      audit := audit + [AuditRow(AssignmentChanged, requestId, before, version, AssignmentDetail(previous, user))];
      return None;
    }

    method Dispose(verdict: Disposition, rationale: string, expected: nat, requestId: string)
      returns (error: Option<IncidentError>)
      modifies this
      ensures
        match SetDisposition(old(State()), verdict, rationale, expected, requestId)
        case Err(e) => error == Some(e) && State() == old(State())
        case Ok(i) => error == None && State() == i
    {
      if !BoundedText(rationale, 2_000, false) { return Some(TextInvalid); }
      if version != expected { return Some(VersionStale); }
      var before, previous := version, disposition;
      disposition, version := verdict, before + 1;
      audit := audit + [AuditRow(DispositionChanged, requestId, before, version,
        DispositionDetail(previous, verdict, rationale))];
      return None;
    }

    method WriteReport(fields: seq<string>, expected: nat, requestId: string) returns (error: Option<IncidentError>)
      modifies this
      ensures
        match SaveReport(old(State()), fields, expected, requestId)
        case Err(e) => error == Some(e) && State() == old(State())
        case Ok(i) => error == None && State() == i
    {
      if exists f :: f in fields && !BoundedText(f, 4_000, true) { return Some(TextInvalid); }
      var current := if report.None? then 0 else report.value.version;
      if current != expected { return Some(VersionStale); }
      var saved := Report(current + 1, fields);
      report := Some(saved);
      revisions := revisions + [saved];
      audit := audit + [AuditRow(ReportSaved, requestId, version, version,
        ReportDetail(saved.version, Filled(fields)))];
      return None;
    }
  }

  /** The incident table: one object per canonical name. */
  class Store {
    var incidents: map<string, IncidentRecord>

    /** Different names hold different objects. */
    ghost predicate Valid()
      reads this
    {
      forall a, b :: a in incidents && b in incidents && a != b ==> incidents[a] != incidents[b]
    }

    ghost function Snapshot(): IncidentTable
      reads this, incidents.Values
    {
      map name | name in incidents :: incidents[name].State()
    }

    constructor ()
      ensures Valid() && Snapshot() == map[]
    {
      incidents := map[];
    }

    /** Insert, or load, the incident of the candidate's own key. */
    method InsertOrLoad(c: Candidate, requestId: string) returns (record: IncidentRecord, created: bool)
      requires Valid() && DistinctEvidence(c.Members())
      modifies this
      ensures Valid() && c.Key().CanonicalName() in incidents && record == incidents[c.Key().CanonicalName()]
      ensures created == (c.Key().CanonicalName() !in old(incidents))
      ensures created ==> Snapshot() == old(Snapshot())[c.Key().CanonicalName() := Create(c, requestId)]
      ensures !created ==> incidents == old(incidents)
    {
      hide Create, GroupingKey.CanonicalName, Candidate.Key;
      var name := c.Key().CanonicalName();
      if name in incidents {
        return incidents[name], false;
      }
      record := new IncidentRecord(c, requestId);
      incidents := incidents[name := record];
      created := true;
    }

    method EnrichLoaded(name: string, c: Candidate, requestId: string) returns (outcome: Outcome)
      requires Valid() && name in incidents
      modifies incidents[name]
      ensures
        match Incidents.Enrich(old(incidents[name].State()), c, requestId)
        case Err(e) => outcome == Rejected(e) && Snapshot() == old(Snapshot())
        case Ok(e) =>
          if e.changed then outcome == Enriched(name) && Snapshot() == old(Snapshot())[name := e.incident]
          else outcome == Existing(name) && Snapshot() == old(Snapshot())
    {
      hide Incidents.Enrich, IncidentRecord.State;
      UnchangedWhenExisting(incidents[name].State(), c, requestId);
      var record := incidents[name];
      var r := record.Enrich(c, requestId);
      assert Snapshot() == old(Snapshot())[name := record.State()];
      if r.Err? { return Rejected(r.error); }
      return if r.value then Enriched(name) else Existing(name);
    }

    /** Qualify stored evidence: route by key, reroute to the bound scope when the incident belongs
        to another run, then create or enrich. */
    method Submit(evidence: EvidenceStore, request: Request, requestId: string) returns (outcome: Outcome)
      requires Valid()
      requires StoreWellFormed(evidence)
      modifies this, incidents.Values
      ensures Valid()
      ensures Snapshot() == Incidents.Submit(evidence, old(Snapshot()), request, requestId).incidents
      ensures outcome == Incidents.Submit(evidence, old(Snapshot()), request, requestId).outcome
    {
      QualifiedIsValid(evidence, request);
      hide Qualify, GroupingKey.CanonicalName, Candidate.Key, Candidate.Valid, RequiresSeparateScope, Create,
        Incidents.Enrich, IncidentRecord.State, StoreWellFormed;
      var qualified := Qualify(evidence, request);
      if qualified.Err? { return Rejected(EvidenceRejected(qualified.error)); }
      if qualified.value.None? { return EvidenceOnly; }
      outcome := RouteAndFile(qualified.value.value, requestId);
    }

    /** The incident the candidate belongs to, under its own key or under the key of its run. */
    method Route(qualified: Candidate, requestId: string) returns (c: Candidate, created: bool)
      requires Valid() && DistinctEvidence(qualified.Members())
      modifies this
      ensures Valid() && c == Routed(old(Snapshot()), qualified) && c.Key().CanonicalName() in incidents
      ensures created == (c.Key().CanonicalName() !in old(incidents))
      ensures created ==> Snapshot() == old(Snapshot())[c.Key().CanonicalName() := Create(c, requestId)]
      ensures !created ==> incidents == old(incidents)
    {
      hide GroupingKey.CanonicalName, Candidate.Key, RequiresSeparateScope, Create, IncidentRecord.State;
      c := qualified;
      var record;
      record, created := InsertOrLoad(c, requestId);
      if !created && RequiresSeparateScope(record.State(), c) {
        RescopingKeepsMembers(record.State(), c);
        c := c.Rescoped();
        record, created := InsertOrLoad(c, requestId);
      }
    }

    method RouteAndFile(qualified: Candidate, requestId: string) returns (outcome: Outcome)
      requires Valid() && DistinctEvidence(qualified.Members())
      modifies this, incidents.Values
      ensures Valid()
      ensures Snapshot() == File(old(Snapshot()), Routed(old(Snapshot()), qualified), requestId).incidents
      ensures outcome == File(old(Snapshot()), Routed(old(Snapshot()), qualified), requestId).outcome
    {
      hide GroupingKey.CanonicalName, Candidate.Key, Routed, Create, Incidents.Enrich, IncidentRecord.State;
      var c, created := Route(qualified, requestId);
      if created {
        return Created(c.Key().CanonicalName());
      }
      outcome := EnrichLoaded(c.Key().CanonicalName(), c, requestId);
    }

    /** Analyst operations: the one incident is edited in place, or nothing changes. */
    method Edit(name: string, change: Change) returns (outcome: Outcome)
      requires Valid()
      modifies incidents.Values
      ensures Valid()
      ensures Snapshot() == EditTable(old(Snapshot()), name, change).incidents
      ensures outcome == EditTable(old(Snapshot()), name, change).outcome
    {
      hide IncidentRecord.State, Incidents.Edit;
      if name !in incidents { return Rejected(IncidentNotFound); }
      var record := incidents[name];
      var error := EditRecord(record, change);
      assert Snapshot() == old(Snapshot())[name := record.State()];
      return if error.None? then Done else Rejected(error.value);
    }

    method EditRecord(record: IncidentRecord, change: Change) returns (error: Option<IncidentError>)
      modifies record
      ensures
        match Incidents.Edit(change, old(record.State()))
        case Err(e) => error == Some(e) && record.State() == old(record.State())
        case Ok(i) => error == None && record.State() == i
    {
      hide IncidentRecord.State, Transition, AddNote, Assign, SetDisposition, SaveReport;
      match change
      case ChangeStatus(next, expected, actor, reason, requestId) =>
        error := record.ChangeStatus(next, expected, actor, reason, requestId);
      case WriteNote(content, expected, actor, requestId) =>
        error := record.WriteNote(content, expected, actor, requestId);
      case AssignTo(assignee, eligible, expected, requestId) =>
        error := record.AssignTo(assignee, eligible, expected, requestId);
      case Dispose(disposition, rationale, expected, requestId) =>
        error := record.Dispose(disposition, rationale, expected, requestId);
      case WriteReport(fields, expected, requestId) =>
        error := record.WriteReport(fields, expected, requestId);
    }
  }

  lemma RescopingKeepsMembers(i: Incident, c: Candidate)
    ensures RequiresSeparateScope(i, c) ==> c.Bound() && c.Rescoped().Members() == c.Members()
  {
  }

  lemma UnchangedWhenExisting(i: Incident, c: Candidate, requestId: string)
    ensures Enrich(i, c, requestId).Ok? && !Enrich(i, c, requestId).value.changed ==>
      Enrich(i, c, requestId).value.incident == i
  {
  }
}
