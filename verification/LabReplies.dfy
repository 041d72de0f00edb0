/** What each request and each process step of the lab answers and changes, exactly, in terms of
    the stored rows, and what an activation reason tells about the history. */
module LabReplies {
  import opened Common
  import opened EvidenceTypes
  import opened Lineage
  import opened Closure
  import opened ScenarioLab
  import opened LabProofs

  /** The process serves requests and this client has none in flight. */
  predicate Serves(l: Lab, client: nat) {
    l.phase.Up? && client !in l.clients
  }

  ghost predicate NothingRuns(l: Lab) {
    forall id :: id in l.runs ==> l.runs[id].state != Running
  }

  predicate BaselineReady(l: Lab) {
    BaselineId in l.runs && l.runs[BaselineId].state == Completed
  }

  function Waiting(l: Lab, client: nat, c: Client): Lab {
    l.(clients := l.clients[client := c])
  }

  function Without(l: Lab, client: nat): Lab {
    l.(clients := l.clients - {client})
  }

  // ---------------------------------------------------------------- client requests

  /** Reset is accepted exactly while nothing runs and the Baseline is completed. */
  lemma ResetExactly(l: Lab, client: nat)
    ensures
      var t := Step(l, Reset(client));
      && (t.reply == Ignored <==> !Serves(l, client))
      && (t.reply == RunConflict <==> Serves(l, client) && !NothingRuns(l))
      && (t.reply == NotInitialized <==> Serves(l, client) && NothingRuns(l) && !BaselineReady(l))
      && (t.reply == Accepted <==> Serves(l, client) && NothingRuns(l) && BaselineReady(l))
      && t.lab == if t.reply == Accepted then Waiting(l, client, ActivatingRun(BaselineId, ResetLab)) else l
  {
  }

  /** Returning to the Baseline does not ask whether something runs. */
  lemma ReturnExactly(l: Lab, client: nat)
    ensures
      var t := Step(l, SelectBaseline(client));
      && (t.reply == Ignored <==> !Serves(l, client))
      && (t.reply == NotInitialized <==> Serves(l, client) && !BaselineReady(l))
      && (t.reply == Accepted <==> Serves(l, client) && BaselineReady(l))
      && t.lab == if t.reply == Accepted then Waiting(l, client, ActivatingRun(BaselineId, ReturnBaseline)) else l
  {
  }

  /** A start is refused exactly for the Baseline, while a run is RUNNING, or under a used identity. */
  lemma StartExactly(l: Lab, client: nat, scenario: Scenario, uuid: string, scope: Scope)
    ensures
      var t := Step(l, Start(client, scenario, uuid, scope));
      var id := RandomId(uuid);
      var row := LabRun(scenario, scope, Running, None, None, {}, {});
      && (t.reply == Ignored <==> !Serves(l, client))
      && (t.reply == ScenarioRefused <==> Serves(l, client) && scenario == Baseline)
      && (t.reply == RunConflict <==>
            Serves(l, client) && scenario != Baseline && (!NothingRuns(l) || id in l.runs))
      && (t.reply == Accepted <==> Serves(l, client) && scenario != Baseline && NothingRuns(l) && id !in l.runs)
      && t.lab == if t.reply == Accepted then Waiting(l.(runs := l.runs[id := row]), client, ExecutingRun(id)) else l
  {
  }

  /** Finishing: the run is completed and waits for its activation, or is failed and forgotten. */
  lemma ExecuteExactly(l: Lab, client: nat, e: Execution, now: int)
    requires Healthy(l)
    ensures
      var t := Step(l, Execute(client, e, now));
      var owns := l.phase.Up? && client in l.clients && l.clients[client].ExecutingRun?;
      && (t.reply == Ignored <==> !owns)
      && (!owns ==> t.lab == l)
      && (owns ==>
            var id := l.clients[client].run;
            && id in l.runs && id in t.lab.runs && t.lab.runs == l.runs[id := t.lab.runs[id]]
            && t.lab == (if t.reply == ExecutionPassed then Waiting(l, client, ActivatingRun(id, ScenarioCompleted))
                         else Without(l, client)).(runs := t.lab.runs)
            && (t.reply == ExecutionPassed <==> RunAccepts(l.store, l.runs[id], e))
            && (t.reply == ExecutionFailed <==> !RunAccepts(l.store, l.runs[id], e))
            && FinishedAs(l.store, l.runs[id], t.lab.runs[id], e, now))
  {
    hide StrictlyAdmissible, ReachedRecords, RowsAgree, OneRunning, ContextAgrees, PhaseAgrees;
    if client in l.clients {
      assert ClientAgrees(l, l.clients[client]);
    }
  }

  /** The pipeline produced the run's own case, its incidents exist, and its lineage is admissible. */
  ghost predicate RunAccepts(store: Store, r: LabRun, e: Execution) {
    e.Produced? && e.caseMatches && e.incidentsExist && StrictlyAdmissible(store, e.roots, r.scope)
  }

  ghost predicate FinishedAs(store: Store, before: LabRun, after: LabRun, e: Execution, now: int) {
    && after.scenario == before.scenario && after.scope == before.scope && after.completedAt == Some(now)
    && (if RunAccepts(store, before, e) then
          && after.state == Completed && after.failureCode == None
          && after.evidence == before.evidence + ReachedRecords(store, Strict, e.roots)
          && after.incidents == before.incidents + e.incidents
        else
          && after.state == Failed && after.failureCode == Some(PipelineExecutionFailed)
          && after.evidence == before.evidence && after.incidents == before.incidents)
  }

  /** Activation: exactly what the client was waiting for, one version later. */
  lemma ActivateExactly(l: Lab, client: nat)
    ensures
      var t := Step(l, Activate(client));
      var waits := l.phase.Up? && client in l.clients && l.clients[client].ActivatingRun?;
      && (t.reply == Ignored <==> !waits)
      && (!waits ==> t.lab == l)
      && (waits ==>
            var c := l.clients[client];
            && t.reply == Activated(c.run)
            && t.lab == Without(l, client).(context := Some(Context(c.run, Version(l) + 1, c.reason))))
  {
  }

  // ---------------------------------------------------------------- process steps

  lemma ProcessExactly(l: Lab, enabled: bool, client: nat)
    ensures Step(l, Crash) == Turn(l.(clients := map[], phase := Down), Accepted)
    ensures Step(l, Abandon(client)) == Turn(Without(l, client), Accepted)
    ensures Step(l, Boot(enabled)) ==
      if l.phase != Down then Turn(l, Ignored)
      else Turn(l.(phase := if enabled then Recovering else Up(false)), Accepted)
  {
  }

  /** Recovery fails exactly the interrupted rows, keeping everything else about them. */
  lemma RecoverExactly(l: Lab, now: int, id: RunId)
    ensures
      var t := Step(l, Recover(now));
      && (t.reply == Ignored <==> l.phase != Recovering)
      && (l.phase != Recovering ==> t.lab == l)
      && (l.phase == Recovering ==>
            && t.lab == l.(runs := t.lab.runs, phase := Ensuring) && t.lab.runs.Keys == l.runs.Keys
            && (id in l.runs ==>
                  t.lab.runs[id] ==
                    if l.runs[id].state != Running then l.runs[id]
                    else l.runs[id].(state := Failed, completedAt := Some(now), failureCode := Some(BackendRestarted))))
  {
  }

  /** A completed Baseline is kept, an unfinished one runs again, a missing one is inserted. */
  lemma EnsureExactly(l: Lab, scope: Scope)
    requires Healthy(l) && l.phase == Ensuring
    ensures
      var t := Step(l, Ensure(scope));
      && t.reply == Accepted
      && t.lab == l.(runs := t.lab.runs, phase := ExecutingBaseline)
      && BaselineId in t.lab.runs && t.lab.runs == l.runs[BaselineId := t.lab.runs[BaselineId]]
      && t.lab.runs[BaselineId] ==
           if BaselineReady(l) then l.runs[BaselineId]
           else if BaselineId in l.runs then l.runs[BaselineId].(state := Running, completedAt := None,
             failureCode := None)
           else LabRun(Baseline, scope, Running, None, None, {}, {})
  {
    EnsureHealthy(l, scope);
    hide RowsAgree, OneRunning, ContextAgrees, ClientsAgree;
  }

  // ---------------------------------------------------------------- what a reason tells

  /** Action `k` of the trace was an accepted request for the Baseline. */
  ghost predicate Requested(trace: seq<Action>, k: nat, client: nat, reason: ActivationReason) {
    && k < |trace|
    && Serves(After(trace[..k]), client) && BaselineReady(After(trace[..k]))
    && (if reason == ResetLab then trace[k] == Reset(client) && NothingRuns(After(trace[..k]))
        else reason == ReturnBaseline && trace[k] == SelectBaseline(client))
  }

  ghost predicate SomeoneRequested(trace: seq<Action>, reason: ActivationReason) {
    exists k: nat, client: nat :: Requested(trace, k, client, reason)
  }

  ghost predicate ReasonBacked(trace: seq<Action>, run: RunId, reason: ActivationReason) {
    match reason
    case StartupBaseline => run == BaselineId
    case ScenarioCompleted => run.RandomId?
    case _ => run == BaselineId && SomeoneRequested(trace, reason)
  }

  lemma BackedStays(trace: seq<Action>, a: Action, run: RunId, reason: ActivationReason)
    requires ReasonBacked(trace, run, reason)
    ensures ReasonBacked(trace + [a], run, reason)
  {
    if reason == ReturnBaseline || reason == ResetLab {
      var k: nat, client: nat :| Requested(trace, k, client, reason);
      assert (trace + [a])[..k] == trace[..k];
      assert Requested(trace + [a], k, client, reason);
    }
  }

  /** The run is active, or about to be activated, for this reason. */
  ghost predicate Known(l: Lab, run: RunId, reason: ActivationReason) {
    || (l.context.Some? && l.context.value.activeRun == run && l.context.value.reason == reason)
    || (exists c :: c in l.clients && l.clients[c] == ActivatingRun(run, reason))
  }

  ghost predicate AllBacked(trace: seq<Action>) {
    forall run, reason :: Known(After(trace), run, reason) ==> ReasonBacked(trace, run, reason)
  }

  /** In every reachable state the active context, and every client about to activate, has a reason
      the history backs: a reset was requested while nothing ran and the Baseline was completed, a
      return while the Baseline was completed, and a scenario activation is of a scenario run. */
  lemma {:induction false} ReasonsAreBacked(trace: seq<Action>)
    ensures AllBacked(trace)
  {
    if trace != [] {
      var init, a := trace[..|trace| - 1], trace[|trace| - 1];
      ReasonsAreBacked(init);
      ReachableHealthy(init);
      assert trace == init + [a];
      BackedStep(init, a);
    }
  }

  lemma BackedStep(trace: seq<Action>, a: Action)
    requires AllBacked(trace) && Healthy(After(trace))
    ensures AllBacked(trace + [a])
  {
    AfterMore(trace, a);
    NewReasons(After(trace), a);
    RequestIsRecorded(trace, a);
    hide After, Step, Healthy, SomeoneRequested, Known;
    forall run, reason | Known(After(trace + [a]), run, reason)
      ensures ReasonBacked(trace + [a], run, reason)
    {
      if Known(After(trace), run, reason) {
        BackedStays(trace, a, run, reason);
      }
    }
  }

  /** Every reason in the next state was there before or is brought by this very action. */
  ghost predicate Brought(l: Lab, a: Action, run: RunId, reason: ActivationReason) {
    match reason
    case StartupBaseline => run == BaselineId
    case ScenarioCompleted => run.RandomId?
    case ResetLab => run == BaselineId && a.Reset? && Step(l, a).reply == Accepted
    case ReturnBaseline => run == BaselineId && a.SelectBaseline? && Step(l, a).reply == Accepted
  }

  lemma NewReasons(l: Lab, a: Action)
    requires Healthy(l)
    ensures forall run, reason :: Known(Step(l, a).lab, run, reason) ==>
      Known(l, run, reason) || Brought(l, a, run, reason)
  {
    hide Executed, RowsAgree, OneRunning, ContextAgrees, PhaseAgrees, AnyRunning, Recovered;
    var t := Step(l, a);
    forall run, reason | Known(t.lab, run, reason)
      ensures Known(l, run, reason) || Brought(l, a, run, reason)
    {
      if a.Execute? && a.client in l.clients {
        assert ClientAgrees(l, l.clients[a.client]);
      }
      if t.lab.context.Some? && t.lab.context.value.activeRun == run && t.lab.context.value.reason == reason {
        if a.Activate? && t.reply != Ignored {
          assert l.clients[a.client] == ActivatingRun(run, reason);
        }
      } else {
        var c :| c in t.lab.clients && t.lab.clients[c] == ActivatingRun(run, reason);
        assert c in l.clients && l.clients[c] == t.lab.clients[c] ==> Known(l, run, reason);
      }
    }
  }

  lemma RequestIsRecorded(trace: seq<Action>, a: Action)
    ensures
      a.Reset? && Step(After(trace), a).reply == Accepted ==> SomeoneRequested(trace + [a], ResetLab)
    ensures
      a.SelectBaseline? && Step(After(trace), a).reply == Accepted ==> SomeoneRequested(trace + [a], ReturnBaseline)
  {
    var all, k := trace + [a], |trace|;
    assert all[..k] == trace && all[k] == a;
    if a.Reset? {
      ResetExactly(After(trace), a.client);
      hide After, Step;
      assert Step(After(trace), a).reply == Accepted ==> Requested(all, k, a.client, ResetLab);
    } else if a.SelectBaseline? {
      ReturnExactly(After(trace), a.client);
      hide After, Step;
      assert Step(After(trace), a).reply == Accepted ==> Requested(all, k, a.client, ReturnBaseline);
    }
  }
}
