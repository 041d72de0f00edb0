/** The Scenario Lab run protocol. Every step is one committed transaction (or a finer read), so
    a trace is any interleaving of clients, with crashes and restarts between any two commits. */
module ScenarioLab {
  import opened Common
  import opened EvidenceTypes
  import opened Lineage
  import opened Closure

  datatype Scenario = Baseline | S1 | S2 | S3 | S4
  datatype RunState = Running | Completed | Failed
  datatype FailureCode = BackendRestarted | PipelineExecutionFailed
  datatype ActivationReason = StartupBaseline | ScenarioCompleted | ReturnBaseline | ResetLab

  /** The Baseline run has one deterministic identity; every other run gets a random one. */
  datatype RunId = BaselineId | RandomId(uuid: string)

  datatype LabRun = LabRun(
    scenario: Scenario, scope: Scope, state: RunState, completedAt: Option<int>, failureCode: Option<FailureCode>,
    evidence: set<string>, incidents: set<string>)

  datatype Context = Context(activeRun: RunId, version: nat, reason: ActivationReason)

  /** A request between two of its commits. Objects stay cached across commits, so a client that
      saw its run completed activates it without looking again. */
  datatype Client = ExecutingRun(run: RunId) | ActivatingRun(run: RunId, reason: ActivationReason)

  /** `Up(true)` serves after a successful startup, `Up(false)` with the startup switched off. */
  datatype Phase = Down | Recovering | Ensuring | ExecutingBaseline | Concluding | Up(verified: bool)

  datatype Lab = Lab(
    runs: map<RunId, LabRun>, context: Option<Context>, store: Store, clients: map<nat, Client>, phase: Phase)

  /** What the frozen pipeline handed back; it may also have raised. */
  datatype Execution =
    | Raised
    | Produced(roots: seq<Ref>, incidents: set<string>, caseMatches: bool, incidentsExist: bool)

  datatype Action =
    | Ingest(record: Stored)
    | Start(client: nat, scenario: Scenario, uuid: string, scope: Scope)
    | Execute(client: nat, execution: Execution, now: int)
    | Activate(client: nat)
    | SelectBaseline(client: nat)
    | Reset(client: nat)
    | Abandon(client: nat)
    | Crash
    | Boot(startupEnabled: bool)
    | Recover(now: int)
    | Ensure(scope: Scope)
    | ExecuteBaseline(execution: Execution, now: int)
    | Conclude

  datatype Reply =
    | Accepted | Ignored | RunConflict | ScenarioRefused | NotInitialized
    | ExecutionPassed | ExecutionFailed | BaselinePassed | BaselineFailed
    | Activated(run: RunId) | StartupConflict | BaselineHasIncidents

  datatype Turn = Turn(lab: Lab, reply: Reply)

  const EMPTY := Lab(map[], None, map[], map[], Down)

  // ---------------------------------------------------------------- rows

  /** The partial unique index on RUNNING rows is occupied. */
  predicate AnyRunning(runs: map<RunId, LabRun>) {
    exists id :: id in runs && runs[id].state.Running?
  }

  function NewRun(scenario: Scenario, scope: Scope): LabRun {
    LabRun(scenario, scope, Running, None, None, {}, {})
  }

  function MarkFailed(r: LabRun, now: int, code: FailureCode): LabRun {
    r.(state := Failed, completedAt := Some(now), failureCode := Some(code))
  }

  ghost predicate Passes(store: Store, r: LabRun, e: Execution) {
    e.Produced? && StrictlyAdmissible(store, e.roots, r.scope) && e.caseMatches && e.incidentsExist
  }

  /** Link the verified closure and complete the run, or mark it failed. */
  ghost function Executed(store: Store, r: LabRun, e: Execution, now: int): LabRun {
    if Passes(store, r, e) then
      r.(state := Completed, completedAt := Some(now), failureCode := None,
         evidence := r.evidence + ReachedRecords(store, Strict, e.roots),
         incidents := r.incidents + e.incidents)
    else MarkFailed(r, now, PipelineExecutionFailed)
  }

  function Activation(context: Option<Context>, run: RunId, reason: ActivationReason): Context {
    if context.None? then Context(run, 1, reason) else Context(run, context.value.version + 1, reason)
  }

  predicate BaselineCompleted(runs: map<RunId, LabRun>) {
    BaselineId in runs && runs[BaselineId].state.Completed?
  }

  // ---------------------------------------------------------------- client steps

  function StartStep(l: Lab, client: nat, scenario: Scenario, uuid: string, scope: Scope): Turn {
    var id := RandomId(uuid);
    if !l.phase.Up? || client in l.clients then Turn(l, Ignored)
    else if scenario.Baseline? then Turn(l, ScenarioRefused)
    else if AnyRunning(l.runs) || id in l.runs then Turn(l, RunConflict)
    else
      var clients := l.clients[client := ExecutingRun(id)];
      Turn(l.(runs := l.runs[id := NewRun(scenario, scope)], clients := clients), Accepted)
  }

  ghost function ExecuteStep(l: Lab, client: nat, e: Execution, now: int): Turn {
    if !l.phase.Up? || client !in l.clients || !l.clients[client].ExecutingRun? || l.clients[client].run !in l.runs
    then Turn(l, Ignored)
    else
      var id := l.clients[client].run;
      var r := Executed(l.store, l.runs[id], e, now);
      var after := l.(runs := l.runs[id := r]);
      if r.state.Completed?
      then Turn(after.(clients := l.clients[client := ActivatingRun(id, ScenarioCompleted)]), ExecutionPassed)
      else Turn(after.(clients := l.clients - {client}), ExecutionFailed)
  }

  function ActivateStep(l: Lab, client: nat): Turn {
    if !l.phase.Up? || client !in l.clients || !l.clients[client].ActivatingRun? then Turn(l, Ignored)
    else
      var c := l.clients[client];
      var context := Activation(l.context, c.run, c.reason);
      Turn(l.(context := Some(context), clients := l.clients - {client}), Activated(c.run))
  }

  function SelectStep(l: Lab, client: nat, reason: ActivationReason): Turn {
    if !l.phase.Up? || client in l.clients then Turn(l, Ignored)
    else if reason.ResetLab? && AnyRunning(l.runs) then Turn(l, RunConflict)
    else if !BaselineCompleted(l.runs) then Turn(l, NotInitialized)
    else Turn(l.(clients := l.clients[client := ActivatingRun(BaselineId, reason)]), Accepted)
  }

  // ---------------------------------------------------------------- process steps

  function BootStep(l: Lab, startupEnabled: bool): Turn {
    if !l.phase.Down? then Turn(l, Ignored)
    else Turn(l.(phase := if startupEnabled then Recovering else Up(false)), Accepted)
  }

  function Recovered(runs: map<RunId, LabRun>, now: int): map<RunId, LabRun> {
    map id | id in runs :: if runs[id].state.Running? then MarkFailed(runs[id], now, BackendRestarted) else runs[id]
  }

  function RecoverStep(l: Lab, now: int): Turn {
    if !l.phase.Recovering? then Turn(l, Ignored)
    else Turn(l.(runs := Recovered(l.runs, now), phase := Ensuring), Accepted)
  }

  /** Insert the Baseline, or put it back to RUNNING; a unique index may refuse either. */
  function EnsureStep(l: Lab, scope: Scope): Turn {
    if !l.phase.Ensuring? then Turn(l, Ignored)
    else if BaselineCompleted(l.runs) then Turn(l.(phase := ExecutingBaseline), Accepted)
    else if AnyRunning(l.runs) && (BaselineId in l.runs ==> !l.runs[BaselineId].state.Running?) then
      Turn(l.(phase := Down), StartupConflict)
    else
      var r := if BaselineId in l.runs
               then l.runs[BaselineId].(state := Running, completedAt := None, failureCode := None)
               else NewRun(Baseline, scope);
      Turn(l.(runs := l.runs[BaselineId := r], phase := ExecutingBaseline), Accepted)
  }

  ghost function ExecuteBaselineStep(l: Lab, e: Execution, now: int): Turn {
    if !l.phase.ExecutingBaseline? || BaselineId !in l.runs then Turn(l, Ignored)
    else
      var r := Executed(l.store, l.runs[BaselineId], e, now);
      var after := l.(runs := l.runs[BaselineId := r]);
      if r.state.Completed? then Turn(after.(phase := Concluding), BaselinePassed)
      else Turn(after.(phase := Down), BaselineFailed)
  }

  function ConcludeStep(l: Lab): Turn {
    if !l.phase.Concluding? || BaselineId !in l.runs then Turn(l, Ignored)
    else if l.runs[BaselineId].incidents != {} then Turn(l.(phase := Down), BaselineHasIncidents)
    else
      var context := Activation(l.context, BaselineId, StartupBaseline);
      Turn(l.(context := Some(context), phase := Up(true)), Activated(BaselineId))
  }

  ghost function Step(l: Lab, a: Action): Turn {
    match a
    case Ingest(r) =>
      if r.evidenceId in l.store then Turn(l, Ignored) else Turn(l.(store := l.store[r.evidenceId := r]), Accepted)
    case Start(client, scenario, uuid, scope) => StartStep(l, client, scenario, uuid, scope)
    case Execute(client, e, now) => ExecuteStep(l, client, e, now)
    case Activate(client) => ActivateStep(l, client)
    case SelectBaseline(client) => SelectStep(l, client, ReturnBaseline)
    case Reset(client) => SelectStep(l, client, ResetLab)
    case Abandon(client) => Turn(l.(clients := l.clients - {client}), Accepted)
    case Crash => Turn(l.(clients := map[], phase := Down), Accepted)
    case Boot(enabled) => BootStep(l, enabled)
    case Recover(now) => RecoverStep(l, now)
    case Ensure(scope) => EnsureStep(l, scope)
    case ExecuteBaseline(e, now) => ExecuteBaselineStep(l, e, now)
    case Conclude => ConcludeStep(l)
  }

  /** The lab after a whole trace. */
  ghost function After(trace: seq<Action>): Lab {
    if trace == [] then EMPTY else Step(After(trace[..|trace| - 1]), trace[|trace| - 1]).lab
  }

  /** The reply to the last action of a trace. */
  ghost function LastReply(trace: seq<Action>): Reply
    requires trace != []
  {
    Step(After(trace[..|trace| - 1]), trace[|trace| - 1]).reply
  }

  /** How often a trace activated a run. */
  ghost function Activations(trace: seq<Action>): nat {
    if trace == [] then 0
    else Activations(trace[..|trace| - 1]) + if LastReply(trace).Activated? then 1 else 0
  }

  /** The most recent Baseline execution of the trace failed. */
  ghost predicate BaselineBroken(trace: seq<Action>) {
    trace != [] &&
    (LastReply(trace).BaselineFailed? || (!LastReply(trace).BaselinePassed? && BaselineBroken(trace[..|trace| - 1])))
  }
}
