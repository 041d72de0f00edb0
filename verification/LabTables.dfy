/** The lab tables updated in place, one method per transaction, proved against the steps of the
    protocol. The executing transaction runs the strict closure itself. */
module LabTables {
  import opened Common
  import opened Lineage
  import opened Closure
  import opened ScenarioLab

  class Tables {
    var runs: map<RunId, LabRun>
    var context: Option<Context>
    const store: Store

    constructor (evidence: Store)
      ensures runs == map[] && context == None && store == evidence
    {
      runs, context, store := map[], None, evidence;
    }

    /** The tables as one protocol state, beside the clients and the phase of the process. */
    ghost function State(clients: map<nat, Client>, phase: Phase): Lab
      reads this
    {
      Lab(runs, context, store, clients, phase)
    }

    method RunningExists() returns (found: bool)
      ensures found <==> AnyRunning(runs)
    {
      var ids := runs.Keys;
      while ids != {}
        invariant ids <= runs.Keys
        invariant forall id :: id in runs && id !in ids ==> !runs[id].state.Running?
        decreases ids
      {
        var id :| id in ids;
        if runs[id].state.Running? { return true; }
        ids := ids - {id};
      }
      return false;
    }

    /** Start a scenario: the insert that the unique index on RUNNING may refuse. */
    method InsertRun(scenario: Scenario, uuid: string, scope: Scope, ghost client: nat, ghost clients: map<nat, Client>,
                     ghost phase: Phase)
      returns (reply: Reply)
      requires phase.Up? && client !in clients
      modifies this
      ensures
        var t := StartStep(old(State(clients, phase)), client, scenario, uuid, scope);
        reply == t.reply && runs == t.lab.runs && context == t.lab.context
    {
      if scenario.Baseline? { return ScenarioRefused; }
      var busy := RunningExists();
      var id := RandomId(uuid);
      if busy || id in runs { return RunConflict; }
      runs := runs[id := NewRun(scenario, scope)];
      return Accepted;
    }

    /** Verify the closure, link it row by row and complete the run; on any failure mark it FAILED. */
    method FinishRun(id: RunId, e: Execution, now: int) returns (completed: bool)
      requires id in runs
      modifies this`runs
      ensures runs == old(runs)[id := Executed(store, old(runs)[id], e, now)]
      ensures completed == runs[id].state.Completed?
    {
      hide StrictlyAdmissible, Lists, Refuted, Reached;
      var run := runs[id];
      if e.Produced? {
        var records := VerifiedExecutionClosure(store, e.roots, run.scope);
        if records.Ok? && e.caseMatches && e.incidentsExist {
          var linked := LinkAll(run.evidence, records.value, ReachedRecords(store, Strict, e.roots));
          runs := runs[id := run.(state := Completed, completedAt := Some(now), failureCode := None,
                                  evidence := linked, incidents := run.incidents + e.incidents)];
          return true;
        }
      }
      runs := runs[id := MarkFailed(run, now, PipelineExecutionFailed)];
      return false;
    }

    /** Insert one association row per record, on conflict do nothing. */
    method LinkAll(present: set<string>, records: seq<Stored>, ghost ids: set<string>) returns (linked: set<string>)
      requires Lists(store, records, ids)
      ensures linked == present + ids
    {
      linked := present;
      for k := 0 to |records|
        invariant linked == present + Ids(records[..k])
      {
        assert records[..k + 1] == records[..k] + [records[k]];
        linked := linked + {records[k].evidenceId};
      }
      assert records[..|records|] == records;
      ListsIds(store, records, ids);
    }

    /** Point the singleton context at a run, unless the run in hand is not completed. `seen` is
        the state of the cached row, as the caller last saw it. */
    method ActivateRun(id: RunId, seen: RunState, reason: ActivationReason) returns (activated: bool)
      modifies this`context
      ensures activated <==> seen.Completed?
      ensures !activated ==> context == old(context)
      ensures activated ==>
        && context.Some? && context.value.activeRun == id && context.value.reason == reason
        && context.value.version == 1 + (if old(context).None? then 0 else old(context).value.version)
        && context.value == Activation(old(context), id, reason)
    {
      if !seen.Completed? { return false; }
      if context.None? {
        context := Some(Context(id, 1, reason));
      } else {
        context := Some(context.value.(activeRun := id, version := context.value.version + 1, reason := reason));
      }
      return true;
    }

    /** Return to the Baseline, or reset: the checks before the activation, in order. */
    method SelectBaseline(reason: ActivationReason) returns (reply: Reply)
      ensures reply == SelectStep(State(map[], Up(true)), 0, reason).reply
    {
      if reason == ResetLab {
        var busy := RunningExists();
        if busy { return RunConflict; }
      }
      if BaselineId !in runs || runs[BaselineId].state != Completed { return NotInitialized; }
      return Accepted;
    }

    /** Startup: every interrupted run becomes FAILED. */
    method FailStale(now: int)
      modifies this`runs
      ensures runs == Recovered(old(runs), now)
    {
      ghost var before := runs;
      var stale := set id | id in runs && runs[id].state.Running?;
      while stale != {}
        invariant runs.Keys == before.Keys
        invariant forall id :: id in stale ==> id in before && before[id].state.Running?
        invariant forall id :: id in before ==>
          runs[id] == if id in stale then before[id] else Recovered(before, now)[id]
        decreases stale
      {
        var id :| id in stale;
        runs := runs[id := MarkFailed(runs[id], now, BackendRestarted)];
        stale := stale - {id};
      }
    }

    /** Startup: insert the Baseline, or put an unfinished one back to RUNNING. */
    method EnsureBaseline(scope: Scope) returns (reply: Reply)
      modifies this`runs
      ensures
        var t := EnsureStep(old(State(map[], Ensuring)), scope);
        reply == t.reply && runs == t.lab.runs
    {
      var busy := RunningExists();
      if BaselineId !in runs {
        if busy { return StartupConflict; }
        runs := runs[BaselineId := NewRun(Baseline, scope)];
      } else if !runs[BaselineId].state.Completed? {
        if busy && !runs[BaselineId].state.Running? { return StartupConflict; }
        runs := runs[BaselineId := runs[BaselineId].(state := Running, completedAt := None, failureCode := None)];
      }
      return Accepted;
    }
  }
}
