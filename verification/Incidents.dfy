/** The incident aggregate: creation, enrichment, escalation, lifecycle, notes, workflow and
    reports, each with the rows it appends. One value holds an incident and its own rows. */
module Incidents {
  import opened Common
  import opened Text
  import opened Identity
  import opened Qualification

  datatype Status = Open | Investigating | Resolved
  datatype Disposition = Unreviewed | TruePositive | FalsePositive

  /** A row identity is the tuple of name parts whose name-based UUID becomes the primary key;
      every identity belongs to one incident. */
  datatype RowName =
    | InitialStatus
    | StatusName(previous: Status, next: Status, actor: string, before: nat)
    | InitialSeverity(severity: Severity)
    | SeverityName(from: Severity, to: Severity, evidenceId: string, after: nat)
    | NoteName(actor: string, content: string, before: nat)

  datatype StatusRow = StatusRow(
    name: RowName, previous: Option<Status>, next: Status, reason: Option<string>, before: nat, after: nat)
  datatype SeverityRow = SeverityRow(
    name: RowName, previous: Option<Severity>, next: Severity, trigger: string, version: nat)
  datatype NoteRow = NoteRow(name: RowName, content: string, version: nat)

  datatype EntryKind = CreatedEntry | EvidenceEntry | StatusEntry | SeverityEntry | NoteEntry
  datatype EntryRef = IncidentRef | EvidenceRef(evidenceId: string) | RowRef(name: RowName)
  /** `kind` and `ref` make up the identity of a timeline entry. */
  datatype TimelineRow = TimelineRow(kind: EntryKind, ref: EntryRef, version: nat)

  datatype Action =
    | IncidentCreated | EvidenceEnriched | StatusTransitioned | SeverityEscalated
    | AnalystNoteAdded | AssignmentChanged | DispositionChanged | ReportSaved

  datatype Detail =
    | RuleDetail(ruleId: string)
    | EvidenceDetail(evidenceId: string, role: EvidenceRole)
    | StatusDetail(previousStatus: Status, newStatus: Status, statusReason: Option<string>)
    | SeverityDetail(previousSeverity: Severity, newSeverity: Severity)
    | NoteDetail(note: RowName)
    | AssignmentDetail(previousAssignee: Option<string>, newAssignee: Option<string>)
    | DispositionDetail(previousDisposition: Disposition, newDisposition: Disposition, rationale: string)
    | ReportDetail(reportVersion: nat, filled: nat)

  /** All five fields make up the identity of an audit row. */
  datatype AuditRow = AuditRow(action: Action, requestId: string, before: nat, after: nat, detail: Detail)

  datatype Report = Report(version: nat, fields: seq<string>)

  datatype Incident = Incident(
    key: GroupingKey,
    status: Status,
    severity: Severity,
    assignee: Option<string>,
    disposition: Disposition,
    primaryEvidence: string,
    processKeys: seq<string>,
    processIds: seq<string>,
    targetPoints: seq<string>,
    boundSimulation: Option<string>,
    boundConfiguration: Option<string>,
    firstObserved: int,
    lastObserved: int,
    version: nat,
    evidenceCount: nat,
    memberships: seq<Membership>,
    timeline: seq<TimelineRow>,
    statusHistory: seq<StatusRow>,
    severityHistory: seq<SeverityRow>,
    notes: seq<NoteRow>,
    audit: seq<AuditRow>,
    report: Option<Report>,
    revisions: seq<Report>)

  datatype IncidentError =
    | EvidenceRejected(error: Error)
    | RuleMismatch | BindingIncomplete | CannotMixScope | AssetsMisaligned
    | IncidentNotFound | VersionStale | TransitionNotAllowed | ReasonRequired | TextInvalid | AssigneeInvalid

  // ---------------------------------------------------------------- creation

  function Create(c: Candidate, requestId: string): Incident {
    Incident(
      c.Key(), Open, c.severity, None, Unreviewed, c.primary.evidenceId,
      c.processKeys, c.processIds, c.pointScope, c.boundSimulation, c.boundConfiguration,
      c.firstObserved, c.lastObserved, 1, 1 + |c.additional|,
      c.Members(),
      [TimelineRow(CreatedEntry, IncidentRef, 1)],
      [StatusRow(InitialStatus, None, Open, None, 0, 1)],
      [SeverityRow(InitialSeverity(c.severity), None, c.severity, c.primary.evidenceId, 1)],
      [],
      [AuditRow(IncidentCreated, requestId, 0, 1, RuleDetail(c.ruleId))],
      None, [])
  }

  // ---------------------------------------------------------------- enrichment

  /** A second primary is absorbed as supporting evidence. */
  function Effective(primaryEvidence: string, m: Membership): Membership {
    if m.role == Primary && m.evidenceId != primaryEvidence then m.(role := Supporting) else m
  }

  /** The rows that "insert, on conflict do nothing" adds for the proposed memberships. */
  function NewMembers(rows: seq<Membership>, proposed: seq<Membership>, primaryEvidence: string): seq<Membership> {
    if proposed == [] then []
    else
      var added := NewMembers(rows, proposed[..|proposed| - 1], primaryEvidence);
      var m := proposed[|proposed| - 1];
      if HasMember(rows + added, m.evidenceId) then added else added + [Effective(primaryEvidence, m)]
  }

  datatype Binding = Binding(changed: bool, simulation: Option<string>, configuration: Option<string>)

  function BindScope(simulation: Option<string>, configuration: Option<string>, c: Candidate)
    : Result<Binding, IncidentError>
  {
    if c.boundSimulation.None? && c.boundConfiguration.None? then Ok(Binding(false, simulation, configuration))
    else if c.boundSimulation.None? || c.boundConfiguration.None? then Err(BindingIncomplete)
    else if simulation.None? && configuration.None? then Ok(Binding(true, c.boundSimulation, c.boundConfiguration))
    else if simulation != c.boundSimulation || configuration != c.boundConfiguration then Err(CannotMixScope)
    else Ok(Binding(false, simulation, configuration))
  }

  /** `dict(zip(keys, ids))`. */
  function AssetMap(keys: seq<string>, ids: seq<string>): map<string, string>
    requires |keys| == |ids|
  {
    if keys == [] then map[]
    else AssetMap(keys[..|keys| - 1], ids[..|ids| - 1])[keys[|keys| - 1] := ids[|ids| - 1]]
  }

  lemma {:induction false} AssetMapKeys(keys: seq<string>, ids: seq<string>)
    requires |keys| == |ids|
    ensures AssetMap(keys, ids).Keys == Elements(keys)
  {
    if keys != [] {
      AssetMapKeys(keys[..|keys| - 1], ids[..|ids| - 1]);
      assert keys == keys[..|keys| - 1] + [keys[|keys| - 1]];
    }
  }

  function SortedSet(s: seq<string>): (r: seq<string>)
    ensures forall x :: x in r <==> x in s
  {
    SortStrings(Dedup(s))
  }

  function Lookup(keys: seq<string>, assets: map<string, string>): (ids: seq<string>)
    requires forall k :: k in keys ==> k in assets
    ensures |ids| == |keys| && forall i :: 0 <= i < |keys| ==> ids[i] == assets[keys[i]]
  {
    seq(|keys|, i requires 0 <= i < |keys| => assets[keys[i]])
  }

  /** Keys sorted, every ID under its key, the candidate's asset winning. */
  function MergedKeys(i: Incident, c: Candidate): seq<string> {
    SortedSet(i.processKeys + c.processKeys)
  }

  function MergedIds(i: Incident, c: Candidate): seq<string>
    requires |i.processKeys| == |i.processIds| && |c.processKeys| == |c.processIds|
  {
    AssetMapKeys(i.processKeys, i.processIds);
    AssetMapKeys(c.processKeys, c.processIds);
    Lookup(MergedKeys(i, c), AssetMap(i.processKeys, i.processIds) + AssetMap(c.processKeys, c.processIds))
  }

  function EvidenceEntries(added: seq<Membership>, after: nat): (r: seq<TimelineRow>)
    ensures |r| == |added|
    ensures forall k :: 0 <= k < |r| ==> r[k] == TimelineRow(EvidenceEntry, EvidenceRef(added[k].evidenceId), after)
  {
    seq(|added|, k requires 0 <= k < |added| => TimelineRow(EvidenceEntry, EvidenceRef(added[k].evidenceId), after))
  }

  function EvidenceAudits(added: seq<Membership>, requestId: string, before: nat): (r: seq<AuditRow>)
    ensures |r| == |added|
    ensures forall k :: 0 <= k < |r| ==>
      r[k] == AuditRow(EvidenceEnriched, requestId, before, before + 1,
        EvidenceDetail(added[k].evidenceId, added[k].role))
  {
    seq(|added|, k requires 0 <= k < |added| =>
      AuditRow(EvidenceEnriched, requestId, before, before + 1, EvidenceDetail(added[k].evidenceId, added[k].role)))
  }

  /** The first added correlation finding, else the candidate's primary evidence. */
  function Trigger(added: seq<Membership>, primary: Membership): string {
    if added == [] then primary.evidenceId
    else if added[0].correlation then added[0].evidenceId
    else Trigger(added[1..], primary)
  }

  datatype Enrichment = Enrichment(incident: Incident, changed: bool)

  function Enrich(i: Incident, c: Candidate, requestId: string): Result<Enrichment, IncidentError> {
    if i.key.ruleId != c.ruleId then Err(RuleMismatch)
    else
      var added := NewMembers(i.memberships, c.Members(), i.primaryEvidence);
      var binding :- BindScope(i.boundSimulation, i.boundConfiguration, c);
      var escalates := Rank(c.severity) > Rank(i.severity);
      if added == [] && !binding.changed && !escalates then Ok(Enrichment(i, false))
      else if |i.processKeys| != |i.processIds| || |c.processKeys| != |c.processIds| then Err(AssetsMisaligned)
      else
        var grown := Absorb(i, c, added, binding, requestId);
        Ok(Enrichment(if escalates then Escalate(grown, c.severity, Trigger(added, c.primary), requestId) else grown,
          true))
  }

  /** New memberships with their rows, the merged scopes and the widened time span. */
  function Absorb(i: Incident, c: Candidate, added: seq<Membership>, binding: Binding, requestId: string): Incident
    requires |i.processKeys| == |i.processIds| && |c.processKeys| == |c.processIds|
  {
    i.(version := i.version + 1,
       evidenceCount := i.evidenceCount + |added|,
       firstObserved := Min(i.firstObserved, c.firstObserved),
       lastObserved := Max(i.lastObserved, c.lastObserved),
       processKeys := MergedKeys(i, c),
       processIds := MergedIds(i, c),
       targetPoints := SortedSet(i.targetPoints + c.pointScope),
       boundSimulation := binding.simulation,
       boundConfiguration := binding.configuration,
       memberships := i.memberships + added,
       timeline := i.timeline + EvidenceEntries(added, i.version + 1),
       audit := i.audit + EvidenceAudits(added, requestId, i.version))
  }

  /** Severity rows of the version step just taken; `i` is already at the new version. */
  function Escalate(i: Incident, proposed: Severity, trigger: string, requestId: string): Incident
  {
    var before := if i.version == 0 then 0 else i.version - 1;
    var name := SeverityName(i.severity, proposed, trigger, i.version);
    i.(severity := proposed,
       severityHistory := i.severityHistory + [SeverityRow(name, Some(i.severity), proposed, trigger, i.version)],
       timeline := i.timeline + [TimelineRow(SeverityEntry, RowRef(name), i.version)],
       audit := i.audit + [AuditRow(SeverityEscalated, requestId, before, i.version,
         SeverityDetail(i.severity, proposed))])
  }

  // ---------------------------------------------------------------- lifecycle

  predicate Allowed(previous: Status, next: Status) {
    || (previous.Open? && (next.Investigating? || next.Resolved?))
    || (previous.Investigating? && next.Resolved?)
    || (previous.Resolved? && next.Investigating?)
  }

  /** Unicode category Cc. */
  predicate Control(c: char) { c <= '\U{1F}' || '\U{7F}' <= c <= '\U{9F}' }

  predicate SafeText(s: string) { forall c :: c in s ==> !Control(c) || c == '\n' || c == '\t' }

  predicate NoteText(s: string, maximum: nat) { 1 <= |s| <= maximum && SafeText(s) }

  function Transition(i: Incident, next: Status, expected: nat, actor: string, reason: Option<string>,
                      requestId: string)
    : Result<Incident, IncidentError>
  {
    if i.version != expected then Err(VersionStale)
    else if !Allowed(i.status, next) then Err(TransitionNotAllowed)
    else if reason.Some? && !NoteText(reason.value, 500) then Err(TextInvalid)
    else if (next.Resolved? || i.status.Resolved?) && reason.None? then Err(ReasonRequired)
    else
      var before, after := i.version, i.version + 1;
      var name := StatusName(i.status, next, actor, before);
      Ok(i.(status := next, version := after,
            statusHistory := i.statusHistory + [StatusRow(name, Some(i.status), next, reason, before, after)],
            timeline := i.timeline + [TimelineRow(StatusEntry, RowRef(name), after)],
            audit := i.audit + [AuditRow(StatusTransitioned, requestId, before, after,
              StatusDetail(i.status, next, reason))]))
  }

  function AddNote(i: Incident, content: string, expected: nat, actor: string, requestId: string)
    : Result<Incident, IncidentError>
  {
    if !NoteText(content, 2_000) then Err(TextInvalid)
    else if i.version != expected then Err(VersionStale)
    else
      var before, after := i.version, i.version + 1;
      var name := NoteName(actor, content, before);
      Ok(i.(version := after,
            notes := i.notes + [NoteRow(name, content, after)],
            timeline := i.timeline + [TimelineRow(NoteEntry, RowRef(name), after)],
            audit := i.audit + [AuditRow(AnalystNoteAdded, requestId, before, after, NoteDetail(name))]))
  }

  // ---------------------------------------------------------------- workflow

  /** `eligible` says whether the assignee is an active local analyst or administrator. */
  function Assign(i: Incident, assignee: Option<string>, eligible: bool, expected: nat, requestId: string)
    : Result<Incident, IncidentError>
  {
    if i.version != expected then Err(VersionStale)
    else if assignee.Some? && !eligible then Err(AssigneeInvalid)
    else
      Ok(i.(assignee := assignee, version := i.version + 1,
            audit := i.audit + [AuditRow(AssignmentChanged, requestId, i.version, i.version + 1,
                                         AssignmentDetail(i.assignee, assignee))]))
  }

  predicate Space(c: char) {
    c in " \t\n" || c == '\U{A0}' || '\U{2000}' <= c <= '\U{200A}' || c == '\U{3000}'
  }

  predicate Blank(s: string) { forall c :: c in s ==> Space(c) }

  predicate BoundedText(s: string, maximum: nat, allowEmpty: bool) {
    |s| <= maximum && (allowEmpty || !Blank(s)) && SafeText(s)
  }

  function SetDisposition(i: Incident, disposition: Disposition, reason: string, expected: nat, requestId: string)
    : Result<Incident, IncidentError>
  {
    if !BoundedText(reason, 2_000, false) then Err(TextInvalid)
    else if i.version != expected then Err(VersionStale)
    else
      Ok(i.(disposition := disposition, version := i.version + 1,
            audit := i.audit + [AuditRow(DispositionChanged, requestId, i.version, i.version + 1,
                                         DispositionDetail(i.disposition, disposition, reason))]))
  }

  function ReportVersion(i: Incident): nat {
    if i.report.None? then 0 else i.report.value.version
  }

  function Filled(fields: seq<string>): nat {
    if fields == [] then 0 else Filled(fields[..|fields| - 1]) + if Blank(fields[|fields| - 1]) then 0 else 1
  }

  /** Saving a report moves the report's own version, never the aggregate's. */
  function SaveReport(i: Incident, fields: seq<string>, expected: nat, requestId: string)
    : Result<Incident, IncidentError>
  {
    if exists f :: f in fields && !BoundedText(f, 4_000, true) then Err(TextInvalid)
    else if ReportVersion(i) != expected then Err(VersionStale)
    else
      var saved := Report(ReportVersion(i) + 1, fields);
      Ok(i.(report := Some(saved), revisions := i.revisions + [saved],
            audit := i.audit + [AuditRow(ReportSaved, requestId, i.version, i.version,
                                         ReportDetail(saved.version, Filled(fields)))]))
  }

  // ---------------------------------------------------------------- routing

  type IncidentTable = map<string, Incident>

  datatype Outcome =
    | Created(name: string) | Enriched(name: string) | Existing(name: string)
    | EvidenceOnly | Done | Rejected(error: IncidentError)

  datatype Submission = Submission(incidents: IncidentTable, outcome: Outcome)

  /** Both are bound, to different runs or configurations. */
  predicate RequiresSeparateScope(i: Incident, c: Candidate) {
    c.Bound() && i.boundSimulation.Some? && i.boundConfiguration.Some? &&
    (i.boundSimulation != c.boundSimulation || i.boundConfiguration != c.boundConfiguration)
  }

  /** The candidate under whose key the evidence is filed: regrouped when its incident belongs
      to another run. */
  function Routed(incidents: IncidentTable, c: Candidate): Candidate {
    var name := c.Key().CanonicalName();
    if name in incidents && RequiresSeparateScope(incidents[name], c) then c.Rescoped() else c
  }

  /** Insert, or load and enrich, under the candidate's own key. */
  function File(incidents: IncidentTable, c: Candidate, requestId: string): Submission {
    var name := c.Key().CanonicalName();
    if name !in incidents then Submission(incidents[name := Create(c, requestId)], Created(name))
    else
      match Enrich(incidents[name], c, requestId)
      case Err(e) => Submission(incidents, Rejected(e))
      case Ok(e) =>
        if e.changed then Submission(incidents[name := e.incident], Enriched(name))
        else Submission(incidents, Existing(name))
  }

  function Submit(evidence: EvidenceStore, incidents: IncidentTable, request: Request, requestId: string): Submission {
    match Qualify(evidence, request)
    case Err(e) => Submission(incidents, Rejected(EvidenceRejected(e)))
    case Ok(None) => Submission(incidents, EvidenceOnly)
    case Ok(Some(c)) => File(incidents, Routed(incidents, c), requestId)
  }

  // ---------------------------------------------------------------- analyst operations

  datatype Change =
    | ChangeStatus(next: Status, expected: nat, actor: string, reason: Option<string>, requestId: string)
    | WriteNote(content: string, expected: nat, actor: string, requestId: string)
    | AssignTo(assignee: Option<string>, eligible: bool, expected: nat, requestId: string)
    | Dispose(disposition: Disposition, rationale: string, expected: nat, requestId: string)
    | WriteReport(fields: seq<string>, expected: nat, requestId: string)

  function Edit(change: Change, i: Incident): Result<Incident, IncidentError> {
    match change
    case ChangeStatus(next, expected, actor, reason, requestId) =>
      Transition(i, next, expected, actor, reason, requestId)
    case WriteNote(content, expected, actor, requestId) => AddNote(i, content, expected, actor, requestId)
    case AssignTo(assignee, eligible, expected, requestId) => Assign(i, assignee, eligible, expected, requestId)
    case Dispose(disposition, rationale, expected, requestId) =>
      SetDisposition(i, disposition, rationale, expected, requestId)
    case WriteReport(fields, expected, requestId) => SaveReport(i, fields, expected, requestId)
  }

  /** One incident of the table is edited, or the table stays as it was. */
  function EditTable(incidents: IncidentTable, name: string, change: Change): Submission {
    if name !in incidents then Submission(incidents, Rejected(IncidentNotFound))
    else
      match Edit(change, incidents[name])
      case Err(e) => Submission(incidents, Rejected(e))
      case Ok(i) => Submission(incidents[name := i], Done)
  }
}
