/** What holds of every incident, and why creation and every operation keep it. */
module IncidentInvariants {
  import opened Common
  import opened Sorting
  import opened Text
  import opened Identity
  import opened Qualification
  import opened Incidents

  // ---------------------------------------------------------------- the invariant, table by table

  ghost predicate Audited(audit: seq<AuditRow>, v: nat) {
    exists row :: row in audit && row.after == v && row.before + 1 == v
  }

  /** Every version step is audited; exactly the report saves have zero width. */
  ghost predicate TrailOk(audit: seq<AuditRow>, version: nat) {
    && version >= 1
    && (forall v: nat :: 1 <= v <= version ==> Audited(audit, v))
    && (forall row :: row in audit ==>
          row.after <= version && row.after == if row.action == ReportSaved then row.before else row.before + 1)
  }

  ghost predicate StatusStep(previous: StatusRow, row: StatusRow) {
    && row.previous == Some(previous.next) && Allowed(previous.next, row.next)
    && (row.next == Resolved || previous.next == Resolved ==> row.reason.Some?)
    && previous.after <= row.before && row.after == row.before + 1
    && row.name.StatusName? && row.name.before == row.before
  }

  /** The status rows are an unbroken allowed path from the initial OPEN to the current status. */
  ghost predicate PathOk(rows: seq<StatusRow>, status: Status, version: nat) {
    && rows != [] && rows[0] == StatusRow(InitialStatus, None, Open, None, 0, 1)
    && (forall k :: 0 < k < |rows| ==> StatusStep(rows[k - 1], rows[k]))
    && rows[|rows| - 1].next == status && rows[|rows| - 1].after <= version
  }

  /** A severity row is named by the rise it records and by its version. */
  ghost predicate SeverityStep(previous: SeverityRow, row: SeverityRow) {
    && row.previous == Some(previous.next) && Rank(previous.next) < Rank(row.next) && previous.version < row.version
    && row.name == SeverityName(previous.next, row.next, row.trigger, row.version)
  }

  /** The severity rows climb strictly from the initial severity to the current one. */
  ghost predicate LadderOk(rows: seq<SeverityRow>, severity: Severity, version: nat) {
    && rows != [] && rows[0].previous.None? && rows[0].name == InitialSeverity(rows[0].next)
    && (forall k :: 0 < k < |rows| ==> SeverityStep(rows[k - 1], rows[k]))
    && rows[|rows| - 1].next == severity && rows[|rows| - 1].version <= version
  }

  /** A row name that was used up to version `v`. */
  predicate NameBefore(name: RowName, v: nat) {
    match name
    case StatusName(_, _, _, before) => before < v
    case NoteName(_, _, before) => before < v
    case SeverityName(_, _, _, after) => after <= v
    case _ => true
  }

  ghost predicate RefUsed(ref: EntryRef, members: seq<Membership>, version: nat) {
    match ref
    case IncidentRef => true
    case EvidenceRef(id) => HasMember(members, id)
    case RowRef(name) => NameBefore(name, version)
  }

  ghost predicate UniqueEntries(rows: seq<TimelineRow>) {
    forall a, b :: 0 <= a < b < |rows| ==> rows[a].kind != rows[b].kind || rows[a].ref != rows[b].ref
  }

  /** No timeline identity is used twice, and every reference points at something that exists. */
  ghost predicate EntriesOk(rows: seq<TimelineRow>, members: seq<Membership>, version: nat) {
    UniqueEntries(rows) && forall row :: row in rows ==> RefUsed(row.ref, members, version)
  }

  /** No audit identity is used twice. */
  ghost predicate AuditIdsOk(audit: seq<AuditRow>, reportVersion: nat) {
    && Distinct(audit)
    && (forall row :: row in audit && row.action == ReportSaved ==>
          row.detail.ReportDetail? && row.detail.reportVersion <= reportVersion)
  }

  /** No note identity is used twice. */
  ghost predicate NotesOk(notes: seq<NoteRow>, version: nat) {
    && (forall a, b :: 0 <= a < b < |notes| ==> notes[a].name != notes[b].name)
    && (forall row :: row in notes ==> row.name.NoteName? && NameBefore(row.name, version))
  }

  /** The report is its last revision and revisions are numbered 1, 2, 3, ... */
  ghost predicate RevisionsOk(report: Option<Report>, revisions: seq<Report>) {
    && (forall k :: 0 <= k < |revisions| ==> revisions[k].version == k + 1)
    && (if revisions == [] then report.None? else report == Some(revisions[|revisions| - 1]))
  }

  ghost predicate AssetsOk(keys: seq<string>, ids: seq<string>) {
    |keys| == |ids| && Sorted(keys, StringLe)
  }

  function BoundTo(i: Incident): Option<(string, string)> {
    if i.boundSimulation.Some? && i.boundConfiguration.Some?
    then Some((i.boundSimulation.value, i.boundConfiguration.value)) else None
  }

  /** The binding is complete or absent; every scoped member carries it; an incident keyed by a
      configuration is bound to exactly its key. */
  ghost predicate BindingOk(store: EvidenceStore, i: Incident) {
    && i.boundSimulation.Some? == i.boundConfiguration.Some?
    && OneScope(store, i.memberships, BoundTo(i))
    && (DigestText(i.key.configurationScope) ==> BoundTo(i) == Some((i.key.runScope, i.key.configurationScope)))
  }

  /** The append-only tables agree with the incident row. */
  ghost predicate TablesOk(i: Incident) {
    && TrailOk(i.audit, i.version) && AuditIdsOk(i.audit, ReportVersion(i))
    && PathOk(i.statusHistory, i.status, i.version)
    && LadderOk(i.severityHistory, i.severity, i.version)
    && EntriesOk(i.timeline, i.memberships, i.version)
    && NotesOk(i.notes, i.version)
    && RevisionsOk(i.report, i.revisions)
    && AssetsOk(i.processKeys, i.processIds)
  }

  ghost predicate Healthy(store: EvidenceStore, i: Incident) {
    && i.key.Valid()
    && i.evidenceCount == |i.memberships|
    && Roster(store, i.memberships, i.primaryEvidence, i.firstObserved, i.lastObserved)
    && BindingOk(store, i)
    && TablesOk(i)
  }

  /** Rows are only appended, identity and binding never change once set, severity and version
      never fall, the time span never shrinks and no process asset is dropped. */
  ghost predicate Extends(before: Incident, after: Incident) {
    && after.key == before.key && after.primaryEvidence == before.primaryEvidence
    && before.memberships <= after.memberships && before.timeline <= after.timeline
    && before.statusHistory <= after.statusHistory && before.severityHistory <= after.severityHistory
    && before.notes <= after.notes && before.audit <= after.audit && before.revisions <= after.revisions
    && before.version <= after.version && Rank(before.severity) <= Rank(after.severity)
    && after.firstObserved <= before.firstObserved && before.lastObserved <= after.lastObserved
    && (BoundTo(before).Some? ==> BoundTo(after) == BoundTo(before))
    && (forall key :: key in before.processKeys ==> key in after.processKeys)
  }

  lemma ExtendsTransitive(a: Incident, b: Incident, c: Incident)
    requires Extends(a, b) && Extends(b, c)
    ensures Extends(a, c)
  {
  }

  // ---------------------------------------------------------------- creation

  lemma CreateHealthy(store: EvidenceStore, c: Candidate, requestId: string)
    requires c.Valid(store)
    ensures Healthy(store, Create(c, requestId))
  {
    hide GroupingKey.Valid, DigestText, RunText, Roster, OneScope;
    var i := Create(c, requestId);
    assert i.audit[0] in i.audit;
  }

  // ---------------------------------------------------------------- enrichment: memberships

  lemma HasMemberGrows(rows: seq<Membership>, more: seq<Membership>, id: string)
    requires HasMember(rows, id)
    ensures HasMember(rows + more, id)
  {
    var m :| m in rows && m.evidenceId == id;
    assert m in rows + more;
  }

  /** Exactly the rows that were missing are added, each once. */
  lemma {:induction false} NewMembersDistinct(rows: seq<Membership>, proposed: seq<Membership>, primaryEvidence: string)
    requires DistinctEvidence(rows)
    ensures
      var added := NewMembers(rows, proposed, primaryEvidence);
      DistinctEvidence(rows + added) && forall m :: m in added ==> !HasMember(rows, m.evidenceId)
  {
    if proposed != [] {
      var init, p := proposed[..|proposed| - 1], proposed[|proposed| - 1];
      NewMembersDistinct(rows, init, primaryEvidence);
      var before := NewMembers(rows, init, primaryEvidence);
      if !HasMember(rows + before, p.evidenceId) {
        assert rows + (before + [Effective(primaryEvidence, p)]) == (rows + before) + [Effective(primaryEvidence, p)];
        assert forall m :: m in rows ==> m in rows + before;
      }
    }
  }

  /** Every added row is a proposed one, and afterwards every proposed one has a row. */
  lemma {:induction false} NewMembersOrigin(rows: seq<Membership>, proposed: seq<Membership>, primaryEvidence: string)
    ensures
      var added := NewMembers(rows, proposed, primaryEvidence);
      && (forall m :: m in added ==> exists p :: p in proposed && m == Effective(primaryEvidence, p))
      && (forall p :: p in proposed ==> HasMember(rows + added, p.evidenceId))
  {
    if proposed != [] {
      var init, p := proposed[..|proposed| - 1], proposed[|proposed| - 1];
      NewMembersOrigin(rows, init, primaryEvidence);
      var before := NewMembers(rows, init, primaryEvidence);
      var added := NewMembers(rows, proposed, primaryEvidence);
      assert proposed == init + [p];
      assert HasMember(rows + added, p.evidenceId) by {
        if added != before { assert Effective(primaryEvidence, p) in rows + added; }
      }
      forall q | q in init
        ensures HasMember(rows + added, q.evidenceId)
      {
        HasMemberGrows(rows + before, added[|before|..], q.evidenceId);
        assert rows + added == (rows + before) + added[|before|..];
      }
      forall m | m in added
        ensures exists q :: q in proposed && m == Effective(primaryEvidence, q)
      {
        if m in before {
          var q :| q in init && m == Effective(primaryEvidence, q);
          assert q in proposed;
        } else {
          assert p in proposed;
        }
      }
    }
  }

  lemma NewMembersShape(rows: seq<Membership>, proposed: seq<Membership>, primaryEvidence: string)
    requires DistinctEvidence(rows)
    ensures
      var added := NewMembers(rows, proposed, primaryEvidence);
      && DistinctEvidence(rows + added)
      && (forall m :: m in added ==> !HasMember(rows, m.evidenceId))
      && (forall m :: m in added ==> exists p :: p in proposed && m == Effective(primaryEvidence, p))
      && (forall p :: p in proposed ==> HasMember(rows + added, p.evidenceId))
  {
    hide NewMembers, HasMember, Effective;
    NewMembersDistinct(rows, proposed, primaryEvidence);
    NewMembersOrigin(rows, proposed, primaryEvidence);
  }

  /** A time that some candidate member carries is the time of a row once the candidate is filed. */
  lemma FiledTime(store: EvidenceStore, rows: seq<Membership>, proposed: seq<Membership>, t: int)
    requires HasTime(proposed, t)
    requires forall m :: m in rows ==> Backed(store, m)
    requires forall p :: p in proposed ==> Backed(store, p) && HasMember(rows, p.evidenceId)
    ensures HasTime(rows, t)
  {
    var p :| p in proposed && p.observedAt == t;
    var m :| m in rows && m.evidenceId == p.evidenceId;
    assert Backed(store, m) && Backed(store, p);
  }

  lemma KeptTime(rows: seq<Membership>, more: seq<Membership>, t: int)
    requires HasTime(rows, t)
    ensures HasTime(rows + more, t)
  {
    var m :| m in rows && m.observedAt == t;
    assert m in rows + more;
  }

  /** What the filed rows look like, one by one. */
  lemma FiledRows(store: EvidenceStore, rows: seq<Membership>, proposed: seq<Membership>, primary: string, p0: string,
                  first: int, last: int, first': int, last': int)
    requires Roster(store, rows, primary, first, last) && Roster(store, proposed, p0, first', last')
    ensures
      var all := rows + NewMembers(rows, proposed, primary);
      && DistinctEvidence(all)
      && (forall m :: m in all ==> Backed(store, m) && Min(first, first') <= m.observedAt <= Max(last, last'))
      && (forall m :: m in all ==> (m.role == Primary <==> m.evidenceId == primary))
      && (forall p :: p in proposed ==> HasMember(all, p.evidenceId))
  {
    NewMembersShape(rows, proposed, primary);
    var added := NewMembers(rows, proposed, primary);
    forall m | m in added
      ensures Backed(store, m) && first' <= m.observedAt <= last'
      ensures m.role == Primary <==> m.evidenceId == primary
    {
      assert !HasMember(rows, m.evidenceId);
      var p :| p in proposed && m == Effective(primary, p);
      assert Backed(store, p);
    }
    assert forall m :: m in rows + added <==> m in rows || m in added;
  }

  lemma RosterGrows(store: EvidenceStore, rows: seq<Membership>, proposed: seq<Membership>, primary: string, p0: string,
                    first: int, last: int, first': int, last': int)
    requires Roster(store, rows, primary, first, last) && Roster(store, proposed, p0, first', last')
    ensures Roster(store, rows + NewMembers(rows, proposed, primary), primary, Min(first, first'), Max(last, last'))
  {
    hide NewMembers, Effective, ScopeOf;
    FiledRows(store, rows, proposed, primary, p0, first, last, first', last');
    var added := NewMembers(rows, proposed, primary);
    var all := rows + added;
    HasMemberGrows(rows, added, primary);
    KeptTime(rows, added, first);
    KeptTime(rows, added, last);
    assert forall p :: p in proposed ==> Backed(store, p);
    FiledTime(store, all, proposed, first');
    FiledTime(store, all, proposed, last');
    RosterFrom(store, all, primary, first, last, first', last');
  }

  lemma RosterFrom(store: EvidenceStore, all: seq<Membership>, primary: string, first: int, last: int, first': int,
                   last': int)
    requires DistinctEvidence(all) && HasMember(all, primary)
    requires forall m :: m in all ==> Backed(store, m) && Min(first, first') <= m.observedAt <= Max(last, last')
    requires forall m :: m in all ==> (m.role == Primary <==> m.evidenceId == primary)
    requires HasTime(all, first) && HasTime(all, first') && HasTime(all, last) && HasTime(all, last')
    ensures Roster(store, all, primary, Min(first, first'), Max(last, last'))
  {
    hide DistinctEvidence, HasMember, HasTime, Backed;
  }

  // ---------------------------------------------------------------- enrichment: binding

  /** Binding an unbound incident always files new evidence: had its scoped finding been a member
      already, the incident would have been bound. So no version step goes unaudited. */
  lemma BindingNeedsNewMember(store: EvidenceStore, i: Incident, c: Candidate)
    requires DistinctEvidence(i.memberships) && BindingOk(store, i) && c.BindingValid(store)
    requires BindScope(i.boundSimulation, i.boundConfiguration, c).Ok?
    requires BindScope(i.boundSimulation, i.boundConfiguration, c).value.changed
    ensures NewMembers(i.memberships, c.Members(), i.primaryEvidence) != []
  {
    hide DigestText, RunText;
    var p :| p in c.Members() && p.evidenceId in store && ScopeOf(store[p.evidenceId]) == c.Binding();
    assert !HasMember(i.memberships, p.evidenceId);
    NewMembersShape(i.memberships, c.Members(), i.primaryEvidence);
    hide NewMembers, OneScope;
    assert i.memberships + [] == i.memberships;
  }

  /** The two can share a binding: one of them is unbound, or they agree. */
  ghost predicate Compatible(i: Incident, c: Candidate) {
    c.Bound() && BoundTo(i).Some? ==> BoundTo(i) == c.Binding()
  }

  /** Compatible bindings never raise a binding error. */
  lemma CompatibleBinds(store: EvidenceStore, i: Incident, c: Candidate)
    requires BindingOk(store, i) && c.BindingValid(store) && Compatible(i, c)
    ensures
      var b := BindScope(i.boundSimulation, i.boundConfiguration, c);
      && b.Ok? && b.value.simulation.Some? == b.value.configuration.Some?
      && (BoundTo(i).Some? ==> b.value == Binding(false, i.boundSimulation, i.boundConfiguration))
      && (BoundTo(i).None? && c.Bound() ==> b.value == Binding(true, c.boundSimulation, c.boundConfiguration))
      && (BoundTo(i).None? && !c.Bound() ==> b.value == Binding(false, None, None))
  {
    hide OneScope, HasScope, DigestText, RunText;
  }

  lemma OneScopeGrows(store: EvidenceStore, rows: seq<Membership>, proposed: seq<Membership>, primary: string,
                      scope: Option<(string, string)>)
    requires DistinctEvidence(rows) && OneScope(store, rows, scope) && OneScope(store, proposed, scope)
    ensures OneScope(store, rows + NewMembers(rows, proposed, primary), scope)
  {
    NewMembersShape(rows, proposed, primary);
    var added := NewMembers(rows, proposed, primary);
    hide NewMembers;
    forall m | m in added
      ensures m.evidenceId in store && (ScopeOf(store[m.evidenceId]).Some? ==> ScopeOf(store[m.evidenceId]) == scope)
    {
      var p :| p in proposed && m == Effective(primary, p);
    }
  }

  lemma UnscopedFits(store: EvidenceStore, rows: seq<Membership>, scope: Option<(string, string)>)
    requires OneScope(store, rows, None)
    ensures OneScope(store, rows, scope)
  {
  }

  lemma EnrichedBindingOk(store: EvidenceStore, i: Incident, c: Candidate, j: Incident)
    requires DistinctEvidence(i.memberships) && BindingOk(store, i) && c.BindingValid(store) && Compatible(i, c)
    requires
      var b := BindScope(i.boundSimulation, i.boundConfiguration, c);
      b.Ok? && j.boundSimulation == b.value.simulation && j.boundConfiguration == b.value.configuration
    requires j.memberships == i.memberships + NewMembers(i.memberships, c.Members(), i.primaryEvidence)
    requires j.key == i.key
    ensures BindingOk(store, j)
    ensures BoundTo(i).Some? ==> BoundTo(j) == BoundTo(i)
    ensures c.Bound() ==> BoundTo(j) == c.Binding()
  {
    CompatibleBinds(store, i, c);
    hide BindScope, NewMembers, DigestText, RunText, HasScope;
    if BoundTo(i).None? { UnscopedFits(store, i.memberships, BoundTo(j)); }
    if !c.Bound() { UnscopedFits(store, c.Members(), BoundTo(j)); }
    OneScopeGrows(store, i.memberships, c.Members(), i.primaryEvidence, BoundTo(j));
    hide OneScope;
  }

  // ---------------------------------------------------------------- appending rows

  /** The rows one version step appends to the audit trail. */
  ghost predicate StepRows(rows: seq<AuditRow>, before: nat) {
    && rows != [] && Distinct(rows)
    && forall row :: row in rows ==> row.before == before && row.after == before + 1 && row.action != ReportSaved
  }

  lemma TrailStep(audit: seq<AuditRow>, rows: seq<AuditRow>, version: nat, reportVersion: nat)
    requires TrailOk(audit, version) && AuditIdsOk(audit, reportVersion) && StepRows(rows, version)
    ensures TrailOk(audit + rows, version + 1) && AuditIdsOk(audit + rows, reportVersion)
  {
    assert forall row :: row in audit + rows <==> row in audit || row in rows;
    assert rows[0] in rows && rows[0] in audit + rows;
    forall v: nat | 1 <= v <= version + 1
      ensures Audited(audit + rows, v)
    {
      if v <= version {
        assert Audited(audit, v);
        var row :| row in audit && row.after == v && row.before + 1 == v;
        assert row in audit + rows;
      }
    }
    DistinctAppend(audit, rows);
  }

  lemma PathKept(rows: seq<StatusRow>, status: Status, version: nat, later: nat)
    requires PathOk(rows, status, version) && version <= later
    ensures PathOk(rows, status, later)
  {
  }

  lemma EntriesStep(timeline: seq<TimelineRow>, rows: seq<TimelineRow>, members: seq<Membership>, more: seq<Membership>,
                    version: nat, later: nat)
    requires EntriesOk(timeline, members, version) && UniqueEntries(rows) && version <= later
    requires forall row :: row in rows ==>
      !RefUsed(row.ref, members, version) && RefUsed(row.ref, members + more, later)
    ensures EntriesOk(timeline + rows, members + more, later)
  {
    var all := timeline + rows;
    forall a, b | 0 <= a < b < |all|
      ensures all[a].kind != all[b].kind || all[a].ref != all[b].ref
    {
      if a < |timeline| <= b {
        assert all[a] in timeline && all[b] in rows;
      }
    }
    forall row | row in timeline
      ensures RefUsed(row.ref, members + more, later)
    {
      if row.ref.EvidenceRef? {
        HasMemberGrows(members, more, row.ref.evidenceId);
      }
    }
  }

  lemma OneEntryStep(timeline: seq<TimelineRow>, kind: EntryKind, name: RowName, members: seq<Membership>, version: nat)
    requires EntriesOk(timeline, members, version)
    requires !NameBefore(name, version) && NameBefore(name, version + 1)
    ensures EntriesOk(timeline + [TimelineRow(kind, RowRef(name), version + 1)], members, version + 1)
  {
    EntriesStep(timeline, [TimelineRow(kind, RowRef(name), version + 1)], members, [], version, version + 1);
    assert members + [] == members;
  }

  lemma EntriesKept(timeline: seq<TimelineRow>, members: seq<Membership>, version: nat, later: nat)
    requires EntriesOk(timeline, members, version) && version <= later
    ensures EntriesOk(timeline, members, later)
  {
  }

  // ---------------------------------------------------------------- enrichment: rows

  function EnrichmentEntries(added: seq<Membership>, escalation: Option<RowName>, after: nat): seq<TimelineRow> {
    EvidenceEntries(added, after)
    + if escalation.Some? then [TimelineRow(SeverityEntry, RowRef(escalation.value), after)] else []
  }

  function EnrichmentAudits(added: seq<Membership>, escalation: Option<Detail>, requestId: string,
                            before: nat): seq<AuditRow> {
    EvidenceAudits(added, requestId, before)
    + if escalation.Some? then [AuditRow(SeverityEscalated, requestId, before, before + 1, escalation.value)] else []
  }

  lemma AddedDistinct(rows: seq<Membership>, added: seq<Membership>)
    requires DistinctEvidence(rows + added)
    ensures DistinctEvidence(added)
  {
    forall a, b | 0 <= a < b < |added|
      ensures added[a].evidenceId != added[b].evidenceId
    {
      assert (rows + added)[|rows| + a] == added[a] && (rows + added)[|rows| + b] == added[b];
    }
  }

  lemma EnrichmentAuditsAreStep(added: seq<Membership>, escalation: Option<Detail>, requestId: string, before: nat)
    requires DistinctEvidence(added) && (added != [] || escalation.Some?)
    ensures StepRows(EnrichmentAudits(added, escalation, requestId, before), before)
  {
  }

  lemma EnrichmentEntriesOk(timeline: seq<TimelineRow>, members: seq<Membership>, added: seq<Membership>,
                            escalation: Option<RowName>, version: nat)
    requires EntriesOk(timeline, members, version) && DistinctEvidence(added)
    requires forall m :: m in added ==> !HasMember(members, m.evidenceId)
    requires escalation.Some? ==> escalation.value.SeverityName? && escalation.value.after == version + 1
    ensures EntriesOk(timeline + EnrichmentEntries(added, escalation, version + 1), members + added, version + 1)
  {
    var rows := EnrichmentEntries(added, escalation, version + 1);
    forall row | row in rows
      ensures !RefUsed(row.ref, members, version) && RefUsed(row.ref, members + added, version + 1)
    {
      if row.ref.EvidenceRef? {
        var k :| 0 <= k < |added| && row.ref == EvidenceRef(added[k].evidenceId);
        assert added[k] in added && added[k] in members + added;
      }
    }
    EntriesStep(timeline, rows, members, added, version, version + 1);
  }

  /** An enrichment that takes effect, field by field. */
  ghost predicate EnrichedTo(i: Incident, c: Candidate, requestId: string, j: Incident) {
    var added := NewMembers(i.memberships, c.Members(), i.primaryEvidence);
    var b := BindScope(i.boundSimulation, i.boundConfiguration, c);
    var up := Rank(c.severity) > Rank(i.severity);
    var trigger := Trigger(added, c.primary);
    var name := SeverityName(i.severity, c.severity, trigger, i.version + 1);
    && b.Ok? && (added != [] || up || b.value.changed)
    && |i.processKeys| == |i.processIds| && |c.processKeys| == |c.processIds|
    && j.key == i.key && j.status == i.status && j.primaryEvidence == i.primaryEvidence
    && j.version == i.version + 1 && j.evidenceCount == i.evidenceCount + |added|
    && j.firstObserved == Min(i.firstObserved, c.firstObserved)
    && j.lastObserved == Max(i.lastObserved, c.lastObserved)
    && j.processKeys == MergedKeys(i, c) && j.processIds == MergedIds(i, c)
    && j.boundSimulation == b.value.simulation && j.boundConfiguration == b.value.configuration
    && j.memberships == i.memberships + added
    && j.timeline == i.timeline + EnrichmentEntries(added, if up then Some(name) else None, i.version + 1)
    && j.audit == i.audit + EnrichmentAudits(added, if up then Some(SeverityDetail(i.severity, c.severity)) else None,
      requestId, i.version)
    && j.statusHistory == i.statusHistory && j.notes == i.notes && j.report == i.report && j.revisions == i.revisions
    && j.severity == (if up then c.severity else i.severity)
    && j.severityHistory == i.severityHistory +
         if up then [SeverityRow(name, Some(i.severity), c.severity, trigger, i.version + 1)] else []
  }

  lemma EnrichFields(i: Incident, c: Candidate, requestId: string)
    ensures
      var r := Enrich(i, c, requestId);
      r.Ok? && r.value.changed ==> EnrichedTo(i, c, requestId, r.value.incident)
  {
    hide NewMembers, MergedKeys, MergedIds, EvidenceEntries, EvidenceAudits, BindScope, SortedSet, Rank, Trigger;
    var r := Enrich(i, c, requestId);
    if r.Ok? && r.value.changed {
      var j := r.value.incident;
      var added := NewMembers(i.memberships, c.Members(), i.primaryEvidence);
      if Rank(c.severity) > Rank(i.severity) {
        assert j.timeline == i.timeline + (EvidenceEntries(added, i.version + 1) + [j.timeline[|j.timeline| - 1]]);
        assert j.audit == i.audit + (EvidenceAudits(added, requestId, i.version) + [j.audit[|j.audit| - 1]]);
      } else {
        assert EvidenceEntries(added, i.version + 1) + [] == EvidenceEntries(added, i.version + 1);
        assert EvidenceAudits(added, requestId, i.version) + [] == EvidenceAudits(added, requestId, i.version);
      }
    }
  }

  /** The key and the ID stand at one position of the two lists. */
  ghost predicate Paired(keys: seq<string>, ids: seq<string>, key: string, id: string) {
    exists k :: 0 <= k < |keys| && k < |ids| && keys[k] == key && ids[k] == id
  }

  lemma {:induction false} AssetMapPairs(keys: seq<string>, ids: seq<string>, key: string)
    requires |keys| == |ids| && key in AssetMap(keys, ids)
    ensures Paired(keys, ids, key, AssetMap(keys, ids)[key])
  {
    var n := |keys| - 1;
    if keys[n] != key {
      AssetMapPairs(keys[..n], ids[..n], key);
      var k :| 0 <= k < n && keys[..n][k] == key && ids[..n][k] == AssetMap(keys[..n], ids[..n])[key];
      assert keys[k] == key;
    }
  }

  /** Merging never moves an ID to another key. */
  lemma MergedPairs(i: Incident, c: Candidate, k: nat)
    requires |i.processKeys| == |i.processIds| && |c.processKeys| == |c.processIds|
    requires k < |MergedKeys(i, c)|
    ensures k < |MergedIds(i, c)|
    ensures
      var key, id := MergedKeys(i, c)[k], MergedIds(i, c)[k];
      Paired(c.processKeys, c.processIds, key, id) || Paired(i.processKeys, i.processIds, key, id)
  {
    AssetMapKeys(i.processKeys, i.processIds);
    AssetMapKeys(c.processKeys, c.processIds);
    hide AssetMap;
    var key := MergedKeys(i, c)[k];
    assert key in MergedKeys(i, c) && key in i.processKeys + c.processKeys;
    assert key in Elements(i.processKeys) || key in Elements(c.processKeys);
    hide SortedSet;
    if key in AssetMap(c.processKeys, c.processIds) {
      AssetMapPairs(c.processKeys, c.processIds, key);
    } else {
      AssetMapPairs(i.processKeys, i.processIds, key);
    }
  }

  lemma MergedAssetsOk(i: Incident, c: Candidate)
    requires |i.processKeys| == |i.processIds| && |c.processKeys| == |c.processIds|
    ensures AssetsOk(MergedKeys(i, c), MergedIds(i, c))
  {
    hide AssetMap, Dedup;
  }

  lemma LadderStep(rows: seq<SeverityRow>, severity: Severity, row: SeverityRow, version: nat)
    requires LadderOk(rows, severity, version)
    requires row.previous == Some(severity) && Rank(severity) < Rank(row.next) && row.version == version + 1
    requires row.name == SeverityName(severity, row.next, row.trigger, row.version)
    ensures LadderOk(rows + [row], row.next, version + 1)
  {
    var all := rows + [row];
    forall k | 0 < k < |all|
      ensures SeverityStep(all[k - 1], all[k])
    {
      assert k < |rows| ==> SeverityStep(rows[k - 1], rows[k]);
    }
  }

  /** The tables of an enriched incident, one call per table. */
  lemma EnrichedTables(i: Incident, c: Candidate, requestId: string, j: Incident, added: seq<Membership>)
    requires TablesOk(i) && EnrichedTo(i, c, requestId, j)
    requires added == NewMembers(i.memberships, c.Members(), i.primaryEvidence) && DistinctEvidence(added)
    requires forall m :: m in added ==> !HasMember(i.memberships, m.evidenceId)
    requires added != [] || Rank(c.severity) > Rank(i.severity)
    ensures TablesOk(j)
  {
    hide NewMembers, TrailOk, AuditIdsOk, PathOk, LadderOk, EntriesOk, NotesOk, RevisionsOk, AssetsOk;
    hide MergedKeys, MergedIds, EnrichmentEntries, EnrichmentAudits, Trigger, BindScope, HasMember, DistinctEvidence;
    var up := Rank(c.severity) > Rank(i.severity);
    var name := SeverityName(i.severity, c.severity, Trigger(added, c.primary), i.version + 1);
    var detail := if up then Some(SeverityDetail(i.severity, c.severity)) else None;
    EnrichmentAuditsAreStep(added, detail, requestId, i.version);
    TrailStep(i.audit, EnrichmentAudits(added, detail, requestId, i.version), i.version, ReportVersion(i));
    EnrichmentEntriesOk(i.timeline, i.memberships, added, if up then Some(name) else None, i.version);
    PathKept(i.statusHistory, i.status, i.version, j.version);
    MergedAssetsOk(i, c);
    NotesKept(i.notes, i.version, j.version);
    LadderKept(i.severityHistory, i.severity, i.version, j.version);
    if up {
      LadderStep(i.severityHistory, i.severity, j.severityHistory[|i.severityHistory|], i.version);
      assert j.severityHistory == i.severityHistory + [j.severityHistory[|i.severityHistory|]];
    } else {
      assert j.severityHistory == i.severityHistory;
    }
  }

  lemma MergedKeepsKeys(i: Incident, c: Candidate)
    ensures forall key :: key in i.processKeys ==> key in MergedKeys(i, c)
  {
    assert forall key :: key in i.processKeys ==> key in i.processKeys + c.processKeys;
  }

  lemma EnrichedHealthy(store: EvidenceStore, i: Incident, c: Candidate, requestId: string, j: Incident)
    requires Healthy(store, i) && c.Valid(store) && Compatible(i, c) && EnrichedTo(i, c, requestId, j)
    ensures Healthy(store, j) && Extends(i, j)
    ensures c.Bound() ==> BoundTo(j) == c.Binding()
  {
    MergedKeepsKeys(i, c);
    hide GroupingKey.Valid, BindingOk, Candidate.BindingValid, TablesOk;
    hide MergedKeys, MergedIds, EnrichmentEntries, EnrichmentAudits, Trigger;
    var added := NewMembers(i.memberships, c.Members(), i.primaryEvidence);
    RosterGrows(store, i.memberships, c.Members(), i.primaryEvidence, c.primary.evidenceId,
                i.firstObserved, i.lastObserved, c.firstObserved, c.lastObserved);
    NewMembersShape(i.memberships, c.Members(), i.primaryEvidence);
    AddedDistinct(i.memberships, added);
    EnrichedBindingOk(store, i, c, j);
    if BindScope(i.boundSimulation, i.boundConfiguration, c).value.changed { BindingNeedsNewMember(store, i, c); }
    hide NewMembers, Roster, BindScope, DistinctEvidence, HasMember, Compatible;
    EnrichedTables(i, c, requestId, j, added);
  }

  lemma NotesKept(notes: seq<NoteRow>, version: nat, later: nat)
    requires NotesOk(notes, version) && version <= later
    ensures NotesOk(notes, later)
  {
  }

  lemma LadderKept(rows: seq<SeverityRow>, severity: Severity, version: nat, later: nat)
    requires LadderOk(rows, severity, version) && version <= later
    ensures LadderOk(rows, severity, later)
  {
  }

  /** Enrichment keeps the invariant and only extends. */
  lemma EnrichHealthy(store: EvidenceStore, i: Incident, c: Candidate, requestId: string)
    requires Healthy(store, i) && c.Valid(store) && Compatible(i, c)
    ensures
      var r := Enrich(i, c, requestId);
      r.Ok? ==> Healthy(store, r.value.incident) && Extends(i, r.value.incident)
  {
    hide Healthy, Candidate.Valid, EnrichedTo;
    EnrichFields(i, c, requestId);
    var r := Enrich(i, c, requestId);
    if r.Ok? && r.value.changed {
      hide Enrich;
      EnrichedHealthy(store, i, c, requestId, r.value.incident);
    }
  }

  // ---------------------------------------------------------------- analyst operations

  /** The fields no analyst operation touches. */
  ghost predicate SameEvidence(i: Incident, j: Incident) {
    && j.key == i.key && j.primaryEvidence == i.primaryEvidence && j.memberships == i.memberships
    && j.evidenceCount == i.evidenceCount && j.firstObserved == i.firstObserved && j.lastObserved == i.lastObserved
    && j.boundSimulation == i.boundSimulation && j.boundConfiguration == i.boundConfiguration
    && j.severity == i.severity && j.severityHistory == i.severityHistory
    && j.processKeys == i.processKeys && j.processIds == i.processIds
  }

  lemma OneAuditStep(audit: seq<AuditRow>, row: AuditRow, version: nat, reportVersion: nat)
    requires TrailOk(audit, version) && AuditIdsOk(audit, reportVersion)
    requires row.before == version && row.after == version + 1 && row.action != ReportSaved
    ensures TrailOk(audit + [row], version + 1) && AuditIdsOk(audit + [row], reportVersion)
  {
    TrailStep(audit, [row], version, reportVersion);
  }

  lemma PathStep(rows: seq<StatusRow>, status: Status, row: StatusRow, version: nat)
    requires PathOk(rows, status, version)
    requires row.previous == Some(status) && Allowed(status, row.next)
    requires row.next == Resolved || status == Resolved ==> row.reason.Some?
    requires row.before == version && row.after == version + 1 && row.name.StatusName? && row.name.before == version
    ensures PathOk(rows + [row], row.next, version + 1)
  {
  }

  lemma TransitionHealthy(store: EvidenceStore, i: Incident, next: Status, expected: nat, actor: string,
                          reason: Option<string>, requestId: string)
    requires Healthy(store, i)
    ensures
      var r := Transition(i, next, expected, actor, reason, requestId);
      r.Ok? ==> Healthy(store, r.value) && Extends(i, r.value) && SameEvidence(i, r.value)
  {
    hide GroupingKey.Valid, Roster, OneScope, TrailOk, AuditIdsOk, PathOk, LadderOk, EntriesOk, NotesOk, RevisionsOk,
      AssetsOk;
    hide NoteText, DigestText;
    var r := Transition(i, next, expected, actor, reason, requestId);
    if r.Ok? {
      var j := r.value;
      var row := j.statusHistory[|i.statusHistory|];
      PathStep(i.statusHistory, i.status, row, i.version);
      OneAuditStep(i.audit, j.audit[|i.audit|], i.version, ReportVersion(i));
      OneEntryStep(i.timeline, StatusEntry, row.name, i.memberships, i.version);
      LadderKept(i.severityHistory, i.severity, i.version, j.version);
      NotesKept(i.notes, i.version, j.version);
    }
  }

  lemma NotesStep(notes: seq<NoteRow>, row: NoteRow, version: nat)
    requires NotesOk(notes, version) && row.name.NoteName? && row.name.before == version
    ensures NotesOk(notes + [row], version + 1)
  {
    var all := notes + [row];
    forall a, b | 0 <= a < b < |all|
      ensures all[a].name != all[b].name
    {
      assert all[a] in notes;
    }
  }

  lemma AddNoteHealthy(store: EvidenceStore, i: Incident, content: string, expected: nat, actor: string,
                       requestId: string)
    requires Healthy(store, i)
    ensures
      var r := AddNote(i, content, expected, actor, requestId);
      r.Ok? ==> Healthy(store, r.value) && Extends(i, r.value) && SameEvidence(i, r.value)
  {
    hide GroupingKey.Valid, Roster, OneScope, TrailOk, AuditIdsOk, PathOk, LadderOk, EntriesOk, NotesOk, RevisionsOk,
      AssetsOk;
    hide NoteText, DigestText;
    var r := AddNote(i, content, expected, actor, requestId);
    if r.Ok? {
      var j := r.value;
      var row := j.notes[|i.notes|];
      NotesStep(i.notes, row, i.version);
      OneAuditStep(i.audit, j.audit[|i.audit|], i.version, ReportVersion(i));
      OneEntryStep(i.timeline, NoteEntry, row.name, i.memberships, i.version);
      PathKept(i.statusHistory, i.status, i.version, j.version);
      LadderKept(i.severityHistory, i.severity, i.version, j.version);
    }
  }

  /** A step that only bumps the version and appends one audit row. */
  lemma PlainStepHealthy(store: EvidenceStore, i: Incident, j: Incident, row: AuditRow)
    requires Healthy(store, i) && row.before == i.version && row.after == i.version + 1 && row.action != ReportSaved
    requires j == i.(version := i.version + 1, audit := i.audit + [row], assignee := j.assignee,
      disposition := j.disposition)
    ensures Healthy(store, j) && Extends(i, j) && SameEvidence(i, j)
  {
    hide GroupingKey.Valid, Roster, OneScope, TrailOk, AuditIdsOk, PathOk, LadderOk, EntriesOk, NotesOk, RevisionsOk,
      AssetsOk;
    hide DigestText;
    OneAuditStep(i.audit, row, i.version, ReportVersion(i));
    PathKept(i.statusHistory, i.status, i.version, j.version);
    LadderKept(i.severityHistory, i.severity, i.version, j.version);
    EntriesKept(i.timeline, i.memberships, i.version, j.version);
    NotesKept(i.notes, i.version, j.version);
  }

  lemma WorkflowHealthy(store: EvidenceStore, i: Incident, assignee: Option<string>, eligible: bool,
                        disposition: Disposition, reason: string, expected: nat, requestId: string)
    requires Healthy(store, i)
    ensures
      var r := Assign(i, assignee, eligible, expected, requestId);
      r.Ok? ==> Healthy(store, r.value) && Extends(i, r.value) && SameEvidence(i, r.value)
    ensures
      var r := SetDisposition(i, disposition, reason, expected, requestId);
      r.Ok? ==> Healthy(store, r.value) && Extends(i, r.value) && SameEvidence(i, r.value)
  {
    hide Healthy, BoundedText;
    var a := Assign(i, assignee, eligible, expected, requestId);
    if a.Ok? { PlainStepHealthy(store, i, a.value, a.value.audit[|i.audit|]); }
    var d := SetDisposition(i, disposition, reason, expected, requestId);
    if d.Ok? { PlainStepHealthy(store, i, d.value, d.value.audit[|i.audit|]); }
  }

  lemma ReportRowAppended(audit: seq<AuditRow>, row: AuditRow, version: nat, reportVersion: nat)
    requires TrailOk(audit, version) && AuditIdsOk(audit, reportVersion)
    requires row.action == ReportSaved && row.before == row.after == version
    requires row.detail.ReportDetail? && row.detail.reportVersion == reportVersion + 1
    ensures TrailOk(audit + [row], version) && AuditIdsOk(audit + [row], reportVersion + 1)
  {
    forall v: nat | 1 <= v <= version
      ensures Audited(audit + [row], v)
    {
      assert Audited(audit, v);
      var r :| r in audit && r.after == v && r.before + 1 == v;
      assert r in audit + [row];
    }
    assert row !in audit;
    DistinctAppend(audit, [row]);
  }

  lemma RevisionStep(report: Option<Report>, revisions: seq<Report>, saved: Report)
    requires RevisionsOk(report, revisions)
    requires saved.version == (if report.None? then 0 else report.value.version) + 1
    ensures RevisionsOk(Some(saved), revisions + [saved])
  {
  }

  lemma SaveReportHealthy(store: EvidenceStore, i: Incident, fields: seq<string>, expected: nat, requestId: string)
    requires Healthy(store, i)
    ensures
      var r := SaveReport(i, fields, expected, requestId);
      r.Ok? ==>
        Healthy(store, r.value) && Extends(i, r.value) && SameEvidence(i, r.value) && r.value.version == i.version
  {
    hide GroupingKey.Valid, Roster, OneScope, TrailOk, AuditIdsOk, PathOk, LadderOk, EntriesOk, NotesOk, RevisionsOk,
      AssetsOk;
    hide DigestText, BoundedText, Filled;
    var r := SaveReport(i, fields, expected, requestId);
    if r.Ok? {
      var j := r.value;
      ReportRowAppended(i.audit, j.audit[|i.audit|], i.version, ReportVersion(i));
      RevisionStep(i.report, i.revisions, j.report.value);
    }
  }
}
