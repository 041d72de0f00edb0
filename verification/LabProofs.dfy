/** Safety of the run protocol over every trace: interleaved clients, crashes and restarts. */
module LabProofs {
  import opened Common
  import opened EvidenceTypes
  import opened Lineage
  import opened Closure
  import opened ScenarioLab

  // ---------------------------------------------------------------- the invariant

  /** State, completion time and failure code agree; only the Baseline identity is a Baseline. */
  predicate RowAgrees(id: RunId, r: LabRun) {
    && (r.state.Running? <==> r.completedAt.None?)
    && (r.state.Failed? <==> r.failureCode.Some?)
    && (r.scenario.Baseline? <==> id.BaselineId?)
    && (r.state.Completed? ==> r.evidence != {})
  }

  ghost predicate Linked(store: Store, r: LabRun) {
    r.evidence <= store.Keys && LineageClosed(store, r.evidence)
  }

  ghost predicate RowsAgree(l: Lab) {
    forall id :: id in l.runs ==> RowAgrees(id, l.runs[id]) && Linked(l.store, l.runs[id])
  }

  ghost predicate OneRunning(l: Lab) {
    forall a, b :: a in l.runs && b in l.runs && l.runs[a].state.Running? && l.runs[b].state.Running? ==> a == b
  }

  predicate RunIs(l: Lab, id: RunId, state: RunState) {
    id in l.runs && l.runs[id].state == state
  }

  predicate ContextAgrees(l: Lab) {
    l.context.Some? ==>
      && l.context.value.version >= 1
      && l.context.value.activeRun in l.runs
      && (l.context.value.activeRun.BaselineId? || RunIs(l, l.context.value.activeRun, Completed))
  }

  /** An executing client owns the running row; an activating client's run is completed. */
  predicate ClientAgrees(l: Lab, c: Client) {
    if c.ExecutingRun? then c.run.RandomId? && RunIs(l, c.run, Running) else RunIs(l, c.run, Completed)
  }

  ghost predicate ClientsAgree(l: Lab) {
    && (forall c :: c in l.clients ==> ClientAgrees(l, l.clients[c]))
    && (forall c, d :: c in l.clients && d in l.clients && l.clients[c].ExecutingRun? && l.clients[d].ExecutingRun? ==>
          c == d)
  }

  ghost predicate PhaseAgrees(l: Lab) {
    && (!l.phase.Up? ==> l.clients == map[])
    && (l.phase.Ensuring? ==> !AnyRunning(l.runs))
    && (l.phase.ExecutingBaseline? ==> BaselineId in l.runs)
    && (l.phase.Concluding? ==> BaselineCompleted(l.runs))
    && (l.phase == Up(true) ==>
          BaselineCompleted(l.runs) && l.context.Some? && RunIs(l, l.context.value.activeRun, Completed))
  }

  ghost predicate Healthy(l: Lab) {
    RowsAgree(l) && OneRunning(l) && ContextAgrees(l) && ClientsAgree(l) && PhaseAgrees(l)
  }

  // ---------------------------------------------------------------- executing a run

  lemma ExecutedAgrees(l: Lab, id: RunId, e: Execution, now: int)
    requires RowsAgree(l) && id in l.runs
    ensures
      var r := Executed(l.store, l.runs[id], e, now);
      && RowAgrees(id, r) && Linked(l.store, r) && r.scenario == l.runs[id].scenario
      && l.runs[id].evidence <= r.evidence && l.runs[id].incidents <= r.incidents
      && (r.state.Completed? <==> Passes(l.store, l.runs[id], e)) && !r.state.Running?
  {
    if Passes(l.store, l.runs[id], e) {
      LinkedIsClosed(l.store, e.roots, l.runs[id].scope);
      RootIsReached(l.store, e.roots, l.runs[id].scope);
      hide StrictlyAdmissible, RefersTo, Reached;
    }
  }

  lemma RootIsReached(store: Store, roots: seq<Ref>, expected: Scope)
    requires StrictlyAdmissible(store, roots, expected)
    ensures ReachedRecords(store, Strict, roots) != {}
  {
    hide RefersTo, Sound;
    assert Met(store, Strict, roots, roots[0]);
    assert ReachedIn(store, Strict, roots, roots[0].evidenceId, 0);
    assert roots[0].evidenceId in ReachedRecords(store, Strict, roots);
  }

  // ---------------------------------------------------------------- every step keeps it

  lemma IngestHealthy(l: Lab, r: Stored)
    requires Healthy(l)
    ensures Healthy(Step(l, Ingest(r)).lab)
  {
    hide LineageClosed;
    if r.evidenceId !in l.store {
      var later := l.store[r.evidenceId := r];
      forall id | id in l.runs
        ensures Linked(later, l.runs[id])
      {
        LinkedStaysClosed(l.store, later, l.runs[id].evidence);
      }
    }
  }

  lemma StartHealthy(l: Lab, client: nat, scenario: Scenario, uuid: string, scope: Scope)
    requires Healthy(l)
    ensures Healthy(StartStep(l, client, scenario, uuid, scope).lab)
  {
    if StartStep(l, client, scenario, uuid, scope).reply.Accepted? {
      NewRunAgrees(l, RandomId(uuid), NewRun(scenario, scope));
      hide RowsAgree, OneRunning, ContextAgrees, AnyRunning;
    }
  }

  /** With nothing running, a new RUNNING row fits, and every waiting client keeps its run. */
  lemma NewRunAgrees(l: Lab, id: RunId, r: LabRun)
    requires Healthy(l) && !AnyRunning(l.runs) && id !in l.runs && id.RandomId?
    requires !r.scenario.Baseline? && r == NewRun(r.scenario, r.scope)
    ensures
      var after := l.(runs := l.runs[id := r]);
      && RowsAgree(after) && OneRunning(after) && ContextAgrees(after) 
      && forall c :: c in l.clients ==> ClientAgrees(after, l.clients[c]) && !l.clients[c].ExecutingRun?
  {
    assert RowAgrees(id, r) && Linked(l.store, r);
    hide Linked, RowAgrees;
  }

  lemma ExecuteHealthy(l: Lab, client: nat, e: Execution, now: int)
    requires Healthy(l)
    ensures Healthy(ExecuteStep(l, client, e, now).lab)
  {
    hide Executed, Linked, RowAgrees, Passes;
    if ExecuteStep(l, client, e, now).reply != Ignored {
      var id := l.clients[client].run;
      var r := Executed(l.store, l.runs[id], e, now);
      ExecutedAgrees(l, id, e, now);
      SettledRowAgrees(l, id, r);
      var after := ExecuteStep(l, client, e, now).lab;
      forall c | c in after.clients
        ensures ClientAgrees(after, after.clients[c])
      {
        assert c != client ==> after.clients[c] == l.clients[c] && ClientAgrees(l, l.clients[c]);
      }
    }
  }

  /** Writing a finished row keeps the table consistent. */
  lemma SettledRowAgrees(l: Lab, id: RunId, r: LabRun)
    requires RowsAgree(l) && OneRunning(l) && RowAgrees(id, r) && Linked(l.store, r) && !r.state.Running?
    ensures RowsAgree(l.(runs := l.runs[id := r])) && OneRunning(l.(runs := l.runs[id := r]))
  {
    hide Linked, RowAgrees;
  }

  lemma ActivateHealthy(l: Lab, client: nat)
    requires Healthy(l)
    ensures Healthy(ActivateStep(l, client).lab)
  {
    hide Linked, RowAgrees;
  }

  lemma SelectHealthy(l: Lab, client: nat, reason: ActivationReason)
    requires Healthy(l)
    ensures Healthy(SelectStep(l, client, reason).lab)
  {
    hide Linked, RowAgrees;
  }

  lemma RecoverHealthy(l: Lab, now: int)
    requires Healthy(l)
    ensures Healthy(RecoverStep(l, now).lab)
  {
    hide LineageClosed;
  }

  lemma EnsureHealthy(l: Lab, scope: Scope)
    requires Healthy(l)
    ensures Healthy(EnsureStep(l, scope).lab)
    ensures !EnsureStep(l, scope).reply.StartupConflict?
  {
    hide RefersTo;
  }

  lemma ExecuteBaselineHealthy(l: Lab, e: Execution, now: int)
    requires Healthy(l)
    ensures Healthy(ExecuteBaselineStep(l, e, now).lab)
  {
    if BaselineId in l.runs {
      ExecutedAgrees(l, BaselineId, e, now);
    }
    hide Executed, Linked, RowAgrees;
  }

  lemma ConcludeHealthy(l: Lab)
    requires Healthy(l)
    ensures Healthy(ConcludeStep(l).lab)
  {
    hide Linked, RowAgrees;
  }

  lemma StepHealthy(l: Lab, a: Action)
    requires Healthy(l)
    ensures Healthy(Step(l, a).lab)
  {
    hide Linked, RowAgrees, Executed;
    match a
    case Ingest(r) => IngestHealthy(l, r);
    case Start(client, scenario, uuid, scope) => StartHealthy(l, client, scenario, uuid, scope);
    case Execute(client, e, now) => ExecuteHealthy(l, client, e, now);
    case Activate(client) => ActivateHealthy(l, client);
    case SelectBaseline(client) => SelectHealthy(l, client, ReturnBaseline);
    case Reset(client) => SelectHealthy(l, client, ResetLab);
    case Abandon(client) =>
    case Crash =>
    case Boot(enabled) =>
    case Recover(now) => RecoverHealthy(l, now);
    case Ensure(scope) => EnsureHealthy(l, scope);
    case ExecuteBaseline(e, now) => ExecuteBaselineHealthy(l, e, now);
    case Conclude => ConcludeHealthy(l);
  }

  /** In every reachable state at most one run is RUNNING and at most one is a Baseline, every row
      is consistent and its evidence closed under parents, and a process that started
      successfully serves a COMPLETED active run. */
  lemma {:induction false} ReachableHealthy(trace: seq<Action>)
    ensures Healthy(After(trace))
  {
    if trace != [] {
      ReachableHealthy(trace[..|trace| - 1]);
      StepHealthy(After(trace[..|trace| - 1]), trace[|trace| - 1]);
    }
  }

  /** The two partial unique indexes hold in every reachable state. */
  lemma AtMostOneRunningAndOneBaseline(trace: seq<Action>)
    ensures
      var runs := After(trace).runs;
      forall a, b | a in runs && b in runs ::
        && (runs[a].state.Running? && runs[b].state.Running? ==> a == b)
        && (runs[a].scenario.Baseline? && runs[b].scenario.Baseline? ==> a == b)
  {
    ReachableHealthy(trace);
    hide After, Linked, ClientsAgree, PhaseAgrees, ContextAgrees;
  }

  /** Every record a run links has its whole lineage linked to the same run. */
  lemma LinkedEvidenceIsClosed(trace: seq<Action>, id: RunId)
    ensures
      var l := After(trace);
      id in l.runs ==> l.runs[id].evidence <= l.store.Keys && LineageClosed(l.store, l.runs[id].evidence)
  {
    ReachableHealthy(trace);
    hide After, LineageClosed, ClientsAgree, PhaseAgrees, ContextAgrees, OneRunning;
  }

  // ---------------------------------------------------------------- activations and versions

  function Version(l: Lab): nat {
    if l.context.None? then 0 else l.context.value.version
  }

  /** The context version is exactly the number of activations, whoever made them. */
  lemma {:induction false} VersionCountsActivations(trace: seq<Action>)
    ensures Version(After(trace)) == Activations(trace)
  {
    if trace != [] {
      var init := trace[..|trace| - 1];
      VersionCountsActivations(init);
      VersionStep(After(init), trace[|trace| - 1]);
      hide Step;
    }
  }

  lemma VersionStep(l: Lab, a: Action)
    ensures Version(Step(l, a).lab) == Version(l) + if Step(l, a).reply.Activated? then 1 else 0
  {
    hide Executed, AnyRunning, BaselineCompleted;
  }

  /** Whatever is activated is a COMPLETED run at that very commit, though clients rely on what
      they saw before. */
  lemma ActivatedIsCompleted(trace: seq<Action>)
    requires trace != [] && LastReply(trace).Activated?
    ensures
      && RunIs(After(trace), LastReply(trace).run, Completed)
      && After(trace).context.Some? && After(trace).context.value.activeRun == LastReply(trace).run
  {
    ReachableHealthy(trace[..|trace| - 1]);
    ActivationStep(After(trace[..|trace| - 1]), trace[|trace| - 1]);
    hide Step, Healthy;
  }

  lemma ActivationStep(l: Lab, a: Action)
    requires Healthy(l)
    ensures
      var t := Step(l, a);
      t.reply.Activated? ==>
        RunIs(t.lab, t.reply.run, Completed) && t.lab.context.Some? && t.lab.context.value.activeRun == t.reply.run
  {
    hide Executed, RowsAgree, OneRunning, ContextAgrees, AnyRunning, MarkFailed, NewRun;
    if a.Activate? && a.client in l.clients {
      assert ClientAgrees(l, l.clients[a.client]);
    }
  }

  /** No unique index ever refuses a startup that follows a crash. */
  lemma StartupNeverConflicts(trace: seq<Action>)
    requires trace != []
    ensures !LastReply(trace).StartupConflict?
  {
    hide After, Step, Healthy;
    var l, a := After(trace[..|trace| - 1]), trace[|trace| - 1];
    ReachableHealthy(trace[..|trace| - 1]);
    ConflictStep(l, a);
  }

  lemma ConflictStep(l: Lab, a: Action)
    requires Healthy(l)
    ensures !Step(l, a).reply.StartupConflict?
  {
    if a.Ensure? {
      EnsureHealthy(l, a.scope);
    }
    hide Executed, AnyRunning, Healthy, MarkFailed, NewRun, BaselineCompleted, Activation;
  }

  // ---------------------------------------------------------------- when the active run is completed

  ghost predicate BrokenAgrees(l: Lab, broken: bool) {
    && (broken ==> BaselineId in l.runs && !l.runs[BaselineId].state.Completed?)
    && (!broken && l.context.Some? && l.context.value.activeRun.BaselineId? ==> RunIs(l, BaselineId, Completed))
  }

  lemma BrokenStep(l: Lab, a: Action, broken: bool)
    requires Healthy(l) && BrokenAgrees(l, broken)
    ensures
      var t := Step(l, a);
      BrokenAgrees(t.lab, t.reply.BaselineFailed? || (!t.reply.BaselinePassed? && broken))
  {
    hide Passes, Linked, RowAgrees, ReachedRecords;
    if a.Activate? && a.client in l.clients {
      assert ClientAgrees(l, l.clients[a.client]);
    }
    if a.Execute? && a.client in l.clients {
      assert ClientAgrees(l, l.clients[a.client]);
    }
  }

  lemma {:induction false} BrokenMeansIncomplete(trace: seq<Action>)
    ensures BrokenAgrees(After(trace), BaselineBroken(trace))
  {
    if trace != [] {
      var init := trace[..|trace| - 1];
      BrokenMeansIncomplete(init);
      ReachableHealthy(init);
      BrokenStep(After(init), trace[|trace| - 1], BaselineBroken(init));
      hide Step;
    }
  }

  /** The active context points at a COMPLETED run, except exactly while the Baseline is active
      and its latest re-execution at startup failed. */
  lemma ActiveRunCompletedExactly(trace: seq<Action>)
    ensures
      var l := After(trace);
      l.context.Some? ==>
        (RunIs(l, l.context.value.activeRun, Completed) <==>
         !(l.context.value.activeRun.BaselineId? && BaselineBroken(trace)))
  {
    ReachableHealthy(trace);
    BrokenMeansIncomplete(trace);
    hide After, BaselineBroken, RowsAgree, OneRunning, ClientsAgree, PhaseAgrees;
  }

  // ---------------------------------------------------------------- startup from any state

  /** Down, recovered, ensured: the state in which the Baseline is executed again. */
  ghost function Restarted(l: Lab, scope: Scope, now: int): Lab {
    var up := Step(Step(l, Crash).lab, Boot(true)).lab;
    Step(Step(up, Recover(now)).lab, Ensure(scope)).lab
  }

  function BaselineScope(l: Lab, scope: Scope): Scope {
    if BaselineId in l.runs then l.runs[BaselineId].scope else scope
  }

  function BaselineIncidents(l: Lab): set<string> {
    if BaselineId in l.runs then l.runs[BaselineId].incidents else {}
  }

  lemma RestartReachesBaseline(l: Lab, scope: Scope, now: int)
    requires Healthy(l)
    ensures
      var m := Restarted(l, scope, now);
      && m.phase.ExecutingBaseline? && BaselineId in m.runs && m.store == l.store && m.context == l.context
      && m.runs[BaselineId].scope == BaselineScope(l, scope)
      && m.runs[BaselineId].incidents == BaselineIncidents(l)
  {
    hide RowsAgree, OneRunning, ContextAgrees, ClientsAgree, Executed, StartStep, ExecuteStep, ActivateStep, SelectStep,
      ExecuteBaselineStep, ConcludeStep;
    var down := l.(clients := map[], phase := Down);
    var recovering := down.(phase := Recovering);
    StepHealthy(l, Crash);
    StepHealthy(down, Boot(true));
    RecoverHealthy(recovering, now);
    var ensuring := RecoverStep(recovering, now).lab;
    EnsureHealthy(ensuring, scope);
  }

  /** From any reachable state, however it was interrupted, a restart ends with the Baseline
      active and COMPLETED exactly when its execution passes and no incident is linked to it. */
  lemma RestartRestoresBaseline(l: Lab, scope: Scope, now: int, e: Execution)
    requires Healthy(l)
    ensures
      var m := Restarted(l, scope, now);
      var done := Step(Step(m, ExecuteBaseline(e, now)).lab, Conclude).lab;
      var passes := e.Produced? && StrictlyAdmissible(l.store, e.roots, BaselineScope(l, scope)) && e.caseMatches &&
        e.incidentsExist;
      && (done.phase == Up(true) <==> passes && BaselineIncidents(l) + e.incidents == {})
      && (done.phase == Up(true) ==>
            RunIs(done, BaselineId, Completed) && done.context.Some? && done.context.value.activeRun == BaselineId &&
            Version(done) == Version(l) + 1)
  {
    hide Restarted, StrictlyAdmissible, Healthy, Step, ExecuteBaselineStep, ConcludeStep;
    var m := Restarted(l, scope, now);
    RestartReachesBaseline(l, scope, now);
    StartupConcludes(m, e, now);
    StartupSteps(m, e, now);
  }

  lemma StartupSteps(m: Lab, e: Execution, now: int)
    ensures Step(m, ExecuteBaseline(e, now)) == ExecuteBaselineStep(m, e, now)
    ensures Step(ExecuteBaselineStep(m, e, now).lab, Conclude) == ConcludeStep(ExecuteBaselineStep(m, e, now).lab)
  {
    hide ExecuteBaselineStep, ConcludeStep;
  }

  lemma StartupConcludes(m: Lab, e: Execution, now: int)
    requires m.phase.ExecutingBaseline? && BaselineId in m.runs
    ensures
      var done := ConcludeStep(ExecuteBaselineStep(m, e, now).lab).lab;
      && (done.phase == Up(true) <==>
            Passes(m.store, m.runs[BaselineId], e) && m.runs[BaselineId].incidents + e.incidents == {})
      && (done.phase == Up(true) ==>
            RunIs(done, BaselineId, Completed) && done.context.Some? && done.context.value.activeRun == BaselineId &&
            Version(done) == Version(m) + 1)
  {
    hide StrictlyAdmissible, ReachedRecords;
  }

  /** A failed re-execution leaves the active context at a FAILED Baseline. */
  lemma FailedReexecutionStrandsContext(l: Lab, scope: Scope, now: int)
    requires Healthy(l) && l.context.Some? && l.context.value.activeRun == BaselineId
    ensures
      var done := Step(Restarted(l, scope, now), ExecuteBaseline(Raised, now)).lab;
      done.context == l.context && RunIs(done, BaselineId, Failed)
  {
    RestartReachesBaseline(l, scope, now);
    hide Restarted, Healthy;
  }

  /** One intact record of a kind that has no parents, in its own scope. */
  lemma LoneIsAdmissible(store: Store, r: Stored)
    requires r.intact && (r.kind.RawKind? || r.kind.TelemetryKind?) && store == map[r.evidenceId := r]
    ensures StrictlyAdmissible(store, [Ref(r.evidenceId, r.digest)], RecordScope(r))
  {
    var roots := [Ref(r.evidenceId, r.digest)];
    assert StrictRefs([]) == Ok([]) && FixedPairs(r) + [] == [];
    assert StrictParents(r) == Ok([]);
    assert Sound(Strict, r, RecordScope(r));
    assert forall ref :: !RefersTo(Strict, r, ref);
    hide FixedPairs, StrictParents, Sound, RefersTo, RecordScope;
    assert ReachedRecords(store, Strict, roots) <= {r.evidenceId};
    SubsetSize(ReachedRecords(store, Strict, roots), {r.evidenceId});
  }

  /** So from every such record there is a reachable state whose active context points at a FAILED run. */
  lemma ActiveRunCanBeFailed(r: Stored) returns (trace: seq<Action>)
    requires r.intact && (r.kind.RawKind? || r.kind.TelemetryKind?)
    ensures After(trace).context.Some? && RunIs(After(trace), After(trace).context.value.activeRun, Failed)
  {
    var e, scope := Produced([Ref(r.evidenceId, r.digest)], {}, true, true), RecordScope(r);
    var first := [Ingest(r)];
    var startup := [Crash, Boot(true), Recover(0), Ensure(scope)];
    var l := After(first);
    assert first == [] + [Ingest(r)] && After([]) == EMPTY;
    AfterMore([], Ingest(r));
    assert l == EMPTY.(store := map[r.evidenceId := r]);
    LoneIsAdmissible(l.store, r);
    ReachableHealthy(first);
    RestartRestoresBaseline(l, scope, 0, e);
    hide Step, Healthy, StrictlyAdmissible, RunIs, RecordScope;
    var served := first + startup + [ExecuteBaseline(e, 0), Conclude];
    AfterRestart(first, scope, 0);
    AfterMore(first + startup, ExecuteBaseline(e, 0));
    AfterMore(first + startup + [ExecuteBaseline(e, 0)], Conclude);
    assert served == first + startup + [ExecuteBaseline(e, 0)] + [Conclude];
    ReachableHealthy(served);
    FailedReexecutionStrandsContext(After(served), scope, 0);
    AfterRestart(served, scope, 0);
    AfterMore(served + startup, ExecuteBaseline(Raised, 0));
    trace := served + startup + [ExecuteBaseline(Raised, 0)];
  }

  lemma AfterMore(trace: seq<Action>, a: Action)
    ensures After(trace + [a]) == Step(After(trace), a).lab
  {
    hide Step;
    assert (trace + [a])[..|trace|] == trace;
  }

  lemma AfterRestart(trace: seq<Action>, scope: Scope, now: int)
    ensures After(trace + [Crash, Boot(true), Recover(now), Ensure(scope)]) == Restarted(After(trace), scope, now)
  {
    hide Step;
    AfterMore(trace, Crash);
    AfterMore(trace + [Crash], Boot(true));
    AfterMore(trace + [Crash] + [Boot(true)], Recover(now));
    AfterMore(trace + [Crash] + [Boot(true)] + [Recover(now)], Ensure(scope));
    assert trace + [Crash, Boot(true), Recover(now), Ensure(scope)] ==
      trace + [Crash] + [Boot(true)] + [Recover(now)] + [Ensure(scope)];
  }

  // ---------------------------------------------------------------- history

  /** A finished scenario run never changes again. */
  predicate RowKept(id: RunId, r: LabRun, later: LabRun) {
    && r.scenario == later.scenario && r.scope == later.scope
    && r.evidence <= later.evidence && r.incidents <= later.incidents
    && (id.RandomId? && !r.state.Running? ==> later == r)
  }

  ghost predicate Kept(l: Lab, later: Lab) {
    && RunsKept(l, later)
    && (forall id :: id in l.store ==> id in later.store && later.store[id] == l.store[id])
    && Version(l) <= Version(later)
  }

  lemma StepKeeps(l: Lab, a: Action)
    requires Healthy(l)
    ensures Kept(l, Step(l, a).lab)
  {
    VersionStep(l, a);
    RunsStep(l, a);
    hide RunsKept, Healthy, StartStep, ExecuteStep, EnsureStep, ExecuteBaselineStep, RecoverStep;
    assert forall id :: id in l.store ==> id in Step(l, a).lab.store && Step(l, a).lab.store[id] == l.store[id] by {
      StoreStep(l, a);
    }
  }

  lemma StoreStep(l: Lab, a: Action)
    ensures !a.Ingest? ==> Step(l, a).lab.store == l.store
  {
    hide Executed, AnyRunning, BaselineCompleted, MarkFailed, NewRun, Activation;
  }

  ghost predicate RunsKept(l: Lab, later: Lab) {
    forall id :: id in l.runs ==> id in later.runs && RowKept(id, l.runs[id], later.runs[id])
  }

  lemma ExecuteKeeps(l: Lab, client: nat, e: Execution, now: int)
    requires Healthy(l)
    ensures RunsKept(l, ExecuteStep(l, client, e, now).lab)
  {
    ExecutedIsKept(l, Execute(client, e, now));
    hide Executed, RowsAgree, ContextAgrees, PhaseAgrees, OneRunning;
    if client in l.clients {
      assert ClientAgrees(l, l.clients[client]);
    }
  }

  lemma RecoverKeeps(l: Lab, now: int)
    ensures RunsKept(l, RecoverStep(l, now).lab)
  {
  }

  lemma ExecuteBaselineKeeps(l: Lab, e: Execution, now: int)
    ensures RunsKept(l, ExecuteBaselineStep(l, e, now).lab)
  {
    ExecutedIsKept(l, ExecuteBaseline(e, now));
    hide Executed;
  }

  lemma RunsStep(l: Lab, a: Action)
    requires Healthy(l)
    ensures RunsKept(l, Step(l, a).lab)
  {
    hide Healthy, ExecuteStep, RecoverStep, ExecuteBaselineStep, AnyRunning, Activation;
    match a
    case Execute(client, e, now) => ExecuteKeeps(l, client, e, now);
    case Recover(now) => RecoverKeeps(l, now);
    case ExecuteBaseline(e, now) => ExecuteBaselineKeeps(l, e, now);
    case _ =>
  }

  lemma ExecutedIsKept(l: Lab, a: Action)
    ensures forall id | id in l.runs && (id.RandomId? ==> l.runs[id].state.Running?) ::
      && (a.Execute? ==> RowKept(id, l.runs[id], Executed(l.store, l.runs[id], a.execution, a.now)))
      && (a.ExecuteBaseline? ==> RowKept(id, l.runs[id], Executed(l.store, l.runs[id], a.execution, a.now)))
  {
    hide Passes, ReachedRecords;
  }

  lemma {:induction false} HistoryRetained(trace: seq<Action>, more: seq<Action>)
    ensures Kept(After(trace), After(trace + more))
    decreases |more|
  {
    hide Step, Kept, Healthy;
    if more == [] {
      assert trace + more == trace;
      KeptReflexive(After(trace));
    } else {
      var init, all := more[..|more| - 1], trace + more;
      HistoryRetained(trace, init);
      assert all[..|all| - 1] == trace + init && all[|all| - 1] == more[|more| - 1];
      ReachableHealthy(trace + init);
      StepKeeps(After(trace + init), more[|more| - 1]);
      KeptTransitive(After(trace), After(trace + init), After(all));
    }
  }

  lemma KeptReflexive(l: Lab)
    ensures Kept(l, l)
  {
  }

  lemma KeptTransitive(a: Lab, b: Lab, c: Lab)
    requires Kept(a, b) && Kept(b, c)
    ensures Kept(a, c)
  {
  }
}
