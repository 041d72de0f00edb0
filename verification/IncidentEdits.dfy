/** When each analyst operation is accepted and what it then leaves, said on the texts, versions and
    fields themselves; and what an enrichment does to assets and triggers. */
module IncidentEdits {
  import opened Common
  import opened Text
  import opened Identity
  import opened Qualification
  import opened Incidents
  import opened IncidentInvariants

  // ---------------------------------------------------------------- texts

  predicate PlainChar(c: char) {
    c == '\t' || c == '\n' || ('\U{20}' <= c <= '\U{7E}') || '\U{A0}' <= c
  }

  predicate PlainText(s: string, least: nat, most: nat) {
    least <= |s| <= most && forall i :: 0 <= i < |s| ==> PlainChar(s[i])
  }

  lemma SafeExactly(s: string)
    ensures SafeText(s) <==> forall i :: 0 <= i < |s| ==> PlainChar(s[i])
  {
    assert forall i :: 0 <= i < |s| ==> s[i] in s;
    hide PlainChar, Control;
    assert forall c: char :: PlainChar(c) <==> !Control(c) || c == '\n' || c == '\t' by { CharsExactly(); }
  }

  lemma CharsExactly()
    ensures forall c: char :: PlainChar(c) <==> !Control(c) || c == '\n' || c == '\t'
  {
  }

  /** Something besides white space stands in the text. */
  predicate Written(s: string) {
    exists i :: 0 <= i < |s| && s[i] !in " \t\n" && s[i] != '\U{A0}' && s[i] != '\U{3000}' &&
      !('\U{2000}' <= s[i] <= '\U{200A}')
  }

  lemma WrittenExactly(s: string)
    ensures Blank(s) <==> !Written(s)
  {
    assert forall i :: 0 <= i < |s| ==> s[i] in s;
  }

  // ---------------------------------------------------------------- analyst operations

  /** What every analyst operation leaves alone. */
  ghost predicate Untouched(i: Incident, j: Incident) {
    && SameEvidence(i, j) && j.targetPoints == i.targetPoints && j.evidenceCount == i.evidenceCount
  }

  lemma StatusChangeExactly(i: Incident, next: Status, expected: nat, actor: string, reason: Option<string>,
                            requestId: string)
    ensures
      var r := Transition(i, next, expected, actor, reason, requestId);
      && (r.Ok? <==>
            && i.version == expected
            && (i.status, next) in {(Open, Investigating), (Open, Resolved), (Investigating, Resolved),
              (Resolved, Investigating)}
            && (reason.Some? ==> PlainText(reason.value, 1, 500))
            && (next == Resolved || i.status == Resolved ==> reason.Some?))
      && (r == Err(VersionStale) <==> i.version != expected)
      && (r.Ok? ==>
            && r.value.status == next && r.value.version == i.version + 1 && Untouched(i, r.value)
            && r.value.assignee == i.assignee && r.value.disposition == i.disposition && r.value.notes == i.notes
            && r.value.report == i.report && r.value.revisions == i.revisions
            && |r.value.statusHistory| == |i.statusHistory| + 1 && i.statusHistory <= r.value.statusHistory
            && var row := r.value.statusHistory[|i.statusHistory|];
               row.previous == Some(i.status) && row.next == next && row.reason == reason &&
               row.before == i.version && row.after == i.version + 1)
  {
    if reason.Some? { SafeExactly(reason.value); }
    hide SafeText, PlainChar;
  }

  lemma NoteExactly(i: Incident, content: string, expected: nat, actor: string, requestId: string)
    ensures
      var r := AddNote(i, content, expected, actor, requestId);
      && (r.Ok? <==> i.version == expected && PlainText(content, 1, 2000))
      && (r.Ok? ==>
            && r.value.version == i.version + 1 && r.value.status == i.status && Untouched(i, r.value)
            && r.value.assignee == i.assignee && r.value.disposition == i.disposition
            && r.value.statusHistory == i.statusHistory && r.value.report == i.report
            && |r.value.notes| == |i.notes| + 1 && i.notes <= r.value.notes
            && r.value.notes[|i.notes|].content == content && r.value.notes[|i.notes|].version == i.version + 1)
  {
    SafeExactly(content);
    hide SafeText, PlainChar;
  }

  lemma AssignExactly(i: Incident, assignee: Option<string>, eligible: bool, expected: nat, requestId: string)
    ensures
      var r := Assign(i, assignee, eligible, expected, requestId);
      && (r.Ok? <==> i.version == expected && (assignee.Some? ==> eligible))
      && (r.Ok? ==>
            && r.value.assignee == assignee && r.value.version == i.version + 1 && Untouched(i, r.value)
            && r.value.status == i.status && r.value.disposition == i.disposition && r.value.report == i.report
            && r.value.statusHistory == i.statusHistory && r.value.notes == i.notes)
  {
  }

  lemma DispositionExactly(i: Incident, disposition: Disposition, reason: string, expected: nat, requestId: string)
    ensures
      var r := SetDisposition(i, disposition, reason, expected, requestId);
      && (r.Ok? <==> i.version == expected && PlainText(reason, 0, 2000) && Written(reason))
      && (r.Ok? ==>
            && r.value.disposition == disposition && r.value.version == i.version + 1 && Untouched(i, r.value)
            && r.value.status == i.status && r.value.assignee == i.assignee && r.value.report == i.report
            && r.value.statusHistory == i.statusHistory && r.value.notes == i.notes)
  {
    SafeExactly(reason);
    WrittenExactly(reason);
    hide SafeText, PlainChar, Blank, Written;
  }

  /** A report save moves only the report, and only from the version the analyst saw. */
  lemma ReportExactly(i: Incident, fields: seq<string>, expected: nat, requestId: string)
    ensures
      var r := SaveReport(i, fields, expected, requestId);
      var seen := if i.report.None? then 0 else i.report.value.version;
      && (r.Ok? <==> seen == expected && forall k :: 0 <= k < |fields| ==> PlainText(fields[k], 0, 4000))
      && (r.Ok? ==>
            && r.value.report == Some(Report(seen + 1, fields)) &&
              r.value.revisions == i.revisions + [Report(seen + 1, fields)]
            && r.value.version == i.version && Untouched(i, r.value) && r.value.status == i.status
            && r.value.assignee == i.assignee && r.value.disposition == i.disposition
            && r.value.statusHistory == i.statusHistory && r.value.notes == i.notes && r.value.timeline == i.timeline)
  {
    forall k | 0 <= k < |fields|
      ensures BoundedText(fields[k], 4_000, true) <==> PlainText(fields[k], 0, 4000)
    {
      SafeExactly(fields[k]);
    }
    assert forall k :: 0 <= k < |fields| ==> fields[k] in fields;
    hide BoundedText, PlainText, Filled;
  }

  /** The audit row of a report save counts the fields in which something is written. */
  lemma {:induction false} FilledCounts(fields: seq<string>)
    ensures Filled(fields) == |set k | 0 <= k < |fields| && Written(fields[k])|
  {
    if fields != [] {
      var init, n := fields[..|fields| - 1], |fields| - 1;
      FilledCounts(init);
      WrittenExactly(fields[n]);
      hide Written, Blank;
      var before, now := set k | 0 <= k < |init| && Written(init[k]), set k | 0 <= k < |fields| && Written(fields[k]);
      assert now == before + if Written(fields[n]) then {n} else {};
    }
  }

  // ---------------------------------------------------------------- enrichment

  /** The row of a proposed membership: as proposed, but a second PRIMARY becomes SUPPORTING. */
  ghost predicate AddedAs(m: Membership, p: Membership, primaryEvidence: string) {
    && m.evidenceId == p.evidenceId && m.observedAt == p.observedAt && m.correlation == p.correlation
    && m.role == if p.role == Primary && p.evidenceId != primaryEvidence then Supporting else p.role
  }

  /** Exactly the proposed evidence that has no row yet is added, each as proposed or demoted. */
  lemma {:induction false} AddedExactly(rows: seq<Membership>, proposed: seq<Membership>, primaryEvidence: string)
    ensures
      var added := NewMembers(rows, proposed, primaryEvidence);
      && (forall m :: m in added ==> exists p :: p in proposed && AddedAs(m, p, primaryEvidence))
      && (forall id :: HasMember(added, id) <==> HasMember(proposed, id) && !HasMember(rows, id))
  {
    if proposed != [] {
      var init, last := proposed[..|proposed| - 1], proposed[|proposed| - 1];
      AddedExactly(rows, init, primaryEvidence);
      assert proposed == init + [last];
      var before := NewMembers(rows, init, primaryEvidence);
      var e := Effective(primaryEvidence, last);
      assert AddedAs(e, last, primaryEvidence) && last in proposed;
      MembersConcat(init, last);
      MembersConcat(before, e);
      MemberOfEither(rows, before, last.evidenceId);
      hide HasMember, Effective;
    }
  }

  lemma MemberOfEither(a: seq<Membership>, b: seq<Membership>, id: string)
    ensures HasMember(a + b, id) <==> HasMember(a, id) || HasMember(b, id)
  {
    assert forall x :: x in a + b <==> x in a || x in b;
  }

  lemma MembersConcat(rows: seq<Membership>, m: Membership)
    ensures forall id :: HasMember(rows + [m], id) <==> HasMember(rows, id) || m.evidenceId == id
  {
    assert m in rows + [m] && forall x :: x in rows ==> x in rows + [m];
  }

  /** A candidate without a whole binding binds nothing; a bound one binds an unbound incident,
      agrees with its own, and is refused by any other. */
  lemma BindExactly(simulation: Option<string>, configuration: Option<string>, c: Candidate)
    ensures
      var b := BindScope(simulation, configuration, c);
      var none := c.boundSimulation.None? && c.boundConfiguration.None?;
      var free := simulation.None? && configuration.None?;
      var same := simulation == c.boundSimulation && configuration == c.boundConfiguration;
      && (b == Err(BindingIncomplete) <==> !none && !c.Bound())
      && (b == Err(CannotMixScope) <==> c.Bound() && !free && !same)
      && (b.Ok? ==>
            && (b.value.changed <==> c.Bound() && free)
            && b.value.simulation == (if b.value.changed then c.boundSimulation else simulation)
            && b.value.configuration == (if b.value.changed then c.boundConfiguration else configuration))
  {
  }

  /** The first correlation finding among the new members triggers an escalation, else the
      candidate's primary evidence. */
  lemma {:induction false} TriggerExactly(added: seq<Membership>, primary: Membership)
    ensures
      var t := Trigger(added, primary);
      || (exists k :: FirstCorrelation(added, k) && t == added[k].evidenceId)
      || ((forall m :: m in added ==> !m.correlation) && t == primary.evidenceId)
  {
    if added != [] {
      if added[0].correlation {
        assert FirstCorrelation(added, 0);
      } else {
        var rest := added[1..];
        TriggerExactly(rest, primary);
        assert added == [added[0]] + rest;
        if k :| FirstCorrelation(rest, k) && Trigger(rest, primary) == rest[k].evidenceId {
          assert FirstCorrelation(added, k + 1);
        }
      }
    }
  }

  ghost predicate FirstCorrelation(added: seq<Membership>, k: int) {
    0 <= k < |added| && added[k].correlation && forall j :: 0 <= j < k ==> !added[j].correlation
  }

  /** After an enrichment that takes effect, the assets are those of both: every key once, sorted,
      the candidate's ID under each of its keys and the incident's under every other. When nothing
      is new they stay, even if the candidate names another asset. */
  lemma AssetsExactly(i: Incident, c: Candidate, requestId: string)
    ensures
      var r := Enrich(i, c, requestId);
      && (r.Ok? && !r.value.changed ==> r.value.incident == i)
      && (r.Ok? && r.value.changed ==>
            var j := r.value.incident;
            && |j.processKeys| == |j.processIds| && Distinct(j.processKeys)
            && (forall key :: key in j.processKeys <==> key in i.processKeys || key in c.processKeys)
            && (forall n :: 0 <= n < |j.processKeys| ==>
                  var key, id := j.processKeys[n], j.processIds[n];
                  if key in c.processKeys then Paired(c.processKeys, c.processIds, key, id)
                  else Paired(i.processKeys, i.processIds, key, id)))
  {
    EnrichFields(i, c, requestId);
    var r := Enrich(i, c, requestId);
    hide NewMembers, BindScope, Absorb, Escalate, Trigger, EnrichmentEntries, EnrichmentAudits;
    if r.Ok? && r.value.changed {
      MergedExactly(i, c);
    }
    hide MergedKeys, MergedIds;
  }

  /** So it is with the target points. */
  lemma PointsExactly(i: Incident, c: Candidate, requestId: string)
    ensures
      var r := Enrich(i, c, requestId);
      r.Ok? && r.value.changed ==>
        forall p :: p in r.value.incident.targetPoints <==> p in i.targetPoints || p in c.pointScope
  {
    hide NewMembers, BindScope, Trigger, MergedKeys, MergedIds, EvidenceEntries, EvidenceAudits, Rank, SortedSet, Min,
      Max;
    UnionPoints(i.targetPoints, c.pointScope);
  }

  lemma UnionPoints(a: seq<string>, b: seq<string>)
    ensures forall p :: p in SortedSet(a + b) <==> p in a || p in b
  {
    hide Dedup;
  }

  lemma MergedExactly(i: Incident, c: Candidate)
    requires |i.processKeys| == |i.processIds| && |c.processKeys| == |c.processIds|
    ensures
      var keys, ids := MergedKeys(i, c), MergedIds(i, c);
      && |keys| == |ids| && Distinct(keys)
      && (forall key :: key in keys <==> key in i.processKeys || key in c.processKeys)
      && (forall n :: 0 <= n < |keys| ==>
            if keys[n] in c.processKeys then Paired(c.processKeys, c.processIds, keys[n], ids[n])
            else Paired(i.processKeys, i.processIds, keys[n], ids[n]))
  {
    AssetMapKeys(i.processKeys, i.processIds);
    AssetMapKeys(c.processKeys, c.processIds);
    var keys, ids := MergedKeys(i, c), MergedIds(i, c);
    var all := i.processKeys + c.processKeys;
    DistinctPermutation(Dedup(all), SortStrings(Dedup(all)));
    assert forall key :: key in all <==> key in i.processKeys || key in c.processKeys;
    hide AssetMap, Dedup, SortStrings, Paired;
    forall n | 0 <= n < |keys|
      ensures
        if keys[n] in c.processKeys then Paired(c.processKeys, c.processIds, keys[n], ids[n])
        else Paired(i.processKeys, i.processIds, keys[n], ids[n])
    {
      assert keys[n] in keys;
      if keys[n] in c.processKeys {
        assert keys[n] in Elements(c.processKeys);
        AssetMapPairs(c.processKeys, c.processIds, keys[n]);
      } else {
        assert keys[n] in Elements(i.processKeys) && keys[n] !in Elements(c.processKeys);
        AssetMapPairs(i.processKeys, i.processIds, keys[n]);
      }
    }
  }
}
