/** Communication-policy evaluation: a first-match cascade over a nine-field record,
    measured against the declared reason precedence. */
module Policy {
  import opened Common

  datatype ResolutionStatus = Resolved | Unresolved | Conflict

  /** An identity resolution; trusted context is present exactly when the identity resolved. */
  datatype Resolution = Resolution(
    status: ResolutionStatus, enabled: Option<bool>, assetKey: Option<string>, zone: Option<string>
  ) {
    predicate Valid() {
      if status.Resolved? then enabled.Some? && assetKey.Some? && zone.Some?
      else enabled.None? && assetKey.None? && zone.None?
    }
  }

  datatype PolicyStatus = Approved | Denied | Unknown
  datatype Dimension = Satisfied | NotSatisfied | Undetermined
  datatype Operation = Read | Write | Unsupported
  datatype AccessClass = ReadOnly | Commandable
  datatype Compatibility = Compatible | Incompatible | NotApplicable
  datatype Decision = Allow | Deny

  datatype Reason =
    | SourceEvidenceNotVerified
    | SemanticEvidenceNotVerified
    | ProfileVersionUnsupported
    | PolicyProfileInvalid
    | IdentityConflict
    | SourceUnknown
    | DestinationUnknown
    | SourceDisabled
    | DestinationDisabled
    | SourceZoneUnexpected
    | DestinationZoneUnexpected
    | PointWriteNotApproved
    | ProtocolNotApproved
    | OperationNotApproved
    | SourceRoleNotApproved
    | CommunicationNotApproved
    | PolicyNotClassified
    | PolicyMatchApproved

  const REASON_PRECEDENCE: seq<Reason> := [
    SourceEvidenceNotVerified, SemanticEvidenceNotVerified, ProfileVersionUnsupported,
    PolicyProfileInvalid, IdentityConflict, SourceUnknown, DestinationUnknown, SourceDisabled,
    DestinationDisabled, SourceZoneUnexpected, DestinationZoneUnexpected, PointWriteNotApproved,
    ProtocolNotApproved, OperationNotApproved, SourceRoleNotApproved, CommunicationNotApproved,
    PolicyNotClassified, PolicyMatchApproved ]

  datatype Authorization = Authorization(
    sourceVerified: bool, semanticVerified: bool, protocol: string, operation: Operation,
    functionSemantic: Option<string>, targetPoint: Option<string>,
    accessClass: Option<AccessClass>, compatibility: Compatibility)

  datatype GovernedPath = GovernedPath(
    pathId: string, sourceKey: string, destinationKey: string,
    sourceZone: string, destinationZone: string, approvedProtocols: seq<string>)

  datatype Rule = Rule(
    ruleId: string, pathId: string, protocol: string, operations: seq<Operation>,
    functionSemantics: seq<string>, pointIds: seq<string>, accessClasses: seq<AccessClass>,
    decision: Decision, reason: Reason, enabled: bool)

  datatype Profile = Profile(paths: seq<GovernedPath>, rules: seq<Rule>)

  datatype Dimensions = Dimensions(
    sourceKnown: Dimension, destinationKnown: Dimension,
    sourceZone: Dimension, destinationZone: Dimension,
    communicationPath: Dimension, protocol: Dimension, operation: Dimension,
    pointClassification: Dimension, sourceRole: Dimension)

  const UNDETERMINED := Dimensions(Undetermined, Undetermined, Undetermined, Undetermined,
    Undetermined, Undetermined, Undetermined, Undetermined, Undetermined)
  const ALL_SATISFIED := Dimensions(Satisfied, Satisfied, Satisfied, Satisfied,
    Satisfied, Satisfied, Satisfied, Satisfied, Satisfied)

  datatype Evaluation = Evaluation(
    dimensions: Dimensions, pathId: Option<string>, ruleId: Option<string>,
    status: PolicyStatus, reason: Reason)

  datatype PolicyError = AmbiguousRules

  // ---------------------------------------------------------------- precedence

  function Rank(r: Reason): nat {
    match r
    case SourceEvidenceNotVerified => 0
    case SemanticEvidenceNotVerified => 1
    case ProfileVersionUnsupported => 2
    case PolicyProfileInvalid => 3
    case IdentityConflict => 4
    case SourceUnknown => 5
    case DestinationUnknown => 6
    case SourceDisabled => 7
    case DestinationDisabled => 8
    case SourceZoneUnexpected => 9
    case DestinationZoneUnexpected => 10
    case PointWriteNotApproved => 11
    case ProtocolNotApproved => 12
    case OperationNotApproved => 13
    case SourceRoleNotApproved => 14
    case CommunicationNotApproved => 15
    case PolicyNotClassified => 16
    case PolicyMatchApproved => 17
  }

  /** `r` is the member of `candidates` that the declared precedence puts first. */
  ghost predicate IsPrimary(candidates: set<Reason>, r: Reason) {
    r in candidates && forall s :: s in candidates ==> Rank(r) <= Rank(s)
  }

  /** Walks the precedence list; fails exactly when there is no candidate. */
  method SelectPrimaryReason(candidates: set<Reason>) returns (r: Option<Reason>)
    ensures r.Some? ==> IsPrimary(candidates, r.value)
    ensures r.None? <==> candidates == {}
  {
    for i := 0 to |REASON_PRECEDENCE|
      invariant forall s :: s in candidates ==> i <= Rank(s)
    {
      var reason := REASON_PRECEDENCE[i];
      assert Rank(reason) == i;
      if reason in candidates {
        return Some(reason);
      }
      assert forall s :: s in candidates && Rank(s) == i ==> s == reason;
    }
    assert candidates == {} by {
      assert forall s: Reason :: Rank(s) < |REASON_PRECEDENCE|;
    }
    return None;
  }

  // ---------------------------------------------------------------- rule matching

  function Selects(auth: Authorization, pathId: string): Rule -> bool {
    (rule: Rule) =>
      && rule.enabled
      && rule.pathId == pathId
      && rule.protocol == auth.protocol
      && auth.operation in rule.operations
      && (auth.functionSemantic.Some? && auth.functionSemantic.value in rule.functionSemantics)
      && (auth.targetPoint.Some? && auth.targetPoint.value in rule.pointIds)
      && (auth.accessClass.Some? && auth.accessClass.value in rule.accessClasses)
  }

  const DENIES: Rule -> bool := (rule: Rule) => rule.decision == Deny

  function MatchingRule(auth: Authorization, pathId: string, rules: seq<Rule>): Result<Option<Rule>, PolicyError> {
    var matches := Filter(rules, Selects(auth, pathId));
    if |matches| > 1 then
      var denies := Filter(matches, DENIES);
      if |denies| == 1 then Ok(Some(denies[0])) else Err(AmbiguousRules)
    else if |matches| == 1 then Ok(Some(matches[0]))
    else Ok(None)
  }

  /** Neither the outcome nor the ambiguity error depends on the order of the rules. */
  lemma MatchingRuleOrderIndependent(auth: Authorization, pathId: string, a: seq<Rule>, b: seq<Rule>)
    requires multiset(a) == multiset(b)
    ensures MatchingRule(auth, pathId, a) == MatchingRule(auth, pathId, b)
  {
    FilterPermutation(a, b, Selects(auth, pathId));
    FilterPermutation(Filter(a, Selects(auth, pathId)), Filter(b, Selects(auth, pathId)), DENIES);
  }

  /** One matching deny overrides any number of matching approvals. */
  lemma SingleDenyOverrides(auth: Authorization, pathId: string, rules: seq<Rule>, deny: Rule)
    requires multiset(rules)[deny] == 1
    requires Selects(auth, pathId)(deny) && deny.decision == Deny
    requires forall r :: r in rules && Selects(auth, pathId)(r) && r != deny ==> r.decision == Allow
    ensures MatchingRule(auth, pathId, rules) == Ok(Some(deny))
  {
    var matches := Filter(rules, Selects(auth, pathId));
    var denies := Filter(matches, DENIES);
    forall x
      ensures multiset(denies)[x] == multiset{deny}[x]
    {
      FilterMultiset(rules, Selects(auth, pathId), x);
      FilterMultiset(matches, DENIES, x);
      assert x in matches <==> multiset(matches)[x] > 0;
      assert x in rules <==> multiset(rules)[x] > 0;
    }
    assert multiset(denies) == multiset{deny};
    assert |multiset(denies)| == |denies|;
    assert denies[0] in multiset(denies);
    assert deny in multiset(matches) by { FilterMultiset(rules, Selects(auth, pathId), deny); }
    assert matches != [] && (|matches| == 1 ==> matches[0] == deny);
  }

  // ---------------------------------------------------------------- the cascade

  function FindPath(paths: seq<GovernedPath>, source: Resolution, destination: Resolution): (r: Option<GovernedPath>)
    ensures r.Some? ==> source.assetKey.Some? && destination.assetKey.Some?
  {
    if paths == [] then None
    else if source.assetKey == Some(paths[0].sourceKey) && destination.assetKey == Some(paths[0].destinationKey) then
      Some(paths[0])
    else FindPath(paths[1..], source, destination)
  }

  predicate WritesReadOnly(auth: Authorization) {
    auth.operation.Write? && (auth.accessClass == Some(ReadOnly) || auth.compatibility.Incompatible?)
  }

  function Evaluate(auth: Authorization, source: Resolution, destination: Resolution, profile: Profile)
    : Result<Evaluation, PolicyError>
  {
    var dimensions := UNDETERMINED;
    if !auth.sourceVerified then Ok(Evaluation(dimensions, None, None, Unknown, SourceEvidenceNotVerified))
    else if !auth.semanticVerified then Ok(Evaluation(dimensions, None, None, Unknown, SemanticEvidenceNotVerified))
    else if source.status.Conflict? || destination.status.Conflict? then
      Ok(Evaluation(dimensions, None, None, Unknown, IdentityConflict))
    else if source.status.Unresolved? then
      Ok(Evaluation(dimensions.(sourceKnown := NotSatisfied), None, None, Unknown, SourceUnknown))
    else if destination.status.Unresolved? then
      Ok(Evaluation(dimensions.(sourceKnown := Satisfied, destinationKnown := NotSatisfied),
                    None, None, Unknown, DestinationUnknown))
    else
      var dimensions := dimensions.(sourceKnown := Satisfied, destinationKnown := Satisfied);
      if source.enabled == Some(false) then Ok(Evaluation(dimensions, None, None, Denied, SourceDisabled))
      else if destination.enabled == Some(false) then
        Ok(Evaluation(dimensions, None, None, Denied, DestinationDisabled))
      else
        match FindPath(profile.paths, source, destination)
        case None => Ok(Evaluation(dimensions, None, None, Unknown, PolicyNotClassified))
        case Some(path) => EvaluateOnPath(auth, source, destination, profile, path, dimensions)
  }

  function EvaluateOnPath(auth: Authorization, source: Resolution, destination: Resolution, profile: Profile,
                          path: GovernedPath, dimensions: Dimensions)
    : Result<Evaluation, PolicyError>
  {
    var id := Some(path.pathId);
    if source.zone != Some(path.sourceZone) then
      Ok(Evaluation(dimensions.(sourceZone := NotSatisfied), id, None, Denied, SourceZoneUnexpected))
    else if destination.zone != Some(path.destinationZone) then
      Ok(Evaluation(dimensions.(sourceZone := Satisfied, destinationZone := NotSatisfied),
                    id, None, Denied, DestinationZoneUnexpected))
    else
      var dimensions := dimensions.(sourceZone := Satisfied, destinationZone := Satisfied);
      if WritesReadOnly(auth) then
        Ok(Evaluation(dimensions.(pointClassification := NotSatisfied), id, None, Denied, PointWriteNotApproved))
      else
        var dimensions := dimensions.(pointClassification := Satisfied);
        if auth.protocol !in path.approvedProtocols then
          Ok(Evaluation(dimensions.(protocol := NotSatisfied), id, None, Denied, ProtocolNotApproved))
        else
          var dimensions := dimensions.(protocol := Satisfied);
          var matched :- MatchingRule(auth, path.pathId, profile.rules);
          match matched
          case None =>
            Ok(Evaluation(dimensions.(operation := NotSatisfied), id, None, Denied, OperationNotApproved))
          case Some(rule) =>
            if rule.decision == Deny then
              Ok(Evaluation(DeniedDimensions(dimensions, rule.reason), id, Some(rule.ruleId), Denied, rule.reason))
            else
              Ok(Evaluation(
                   dimensions.(communicationPath := Satisfied, operation := Satisfied, sourceRole := Satisfied),
                   id, Some(rule.ruleId), Approved, PolicyMatchApproved))
  }

  function DeniedDimensions(dimensions: Dimensions, reason: Reason): Dimensions {
    match reason
    case SourceRoleNotApproved =>
      dimensions.(operation := Satisfied, communicationPath := Satisfied, sourceRole := NotSatisfied)
    case CommunicationNotApproved =>
      dimensions.(operation := Satisfied, communicationPath := NotSatisfied, sourceRole := Satisfied)
    case _ => dimensions.(operation := NotSatisfied)
  }

  // ---------------------------------------------------------------- the declared precedence

  /** The rule outcome that would be consulted on the classified path, if there is one. */
  function ConsultedRule(auth: Authorization, source: Resolution, destination: Resolution, profile: Profile)
    : Result<Option<Rule>, PolicyError>
  {
    match FindPath(profile.paths, source, destination)
    case None => Ok(None)
    case Some(path) => MatchingRule(auth, path.pathId, profile.rules)
  }

  /** Whether a reason's own condition holds on the request and the profile, deny rules aside. */
  predicate Holds(reason: Reason, auth: Authorization, source: Resolution, destination: Resolution, profile: Profile) {
    var path := FindPath(profile.paths, source, destination);
    var rule := ConsultedRule(auth, source, destination, profile);
    match reason
    case SourceEvidenceNotVerified => !auth.sourceVerified
    case SemanticEvidenceNotVerified => !auth.semanticVerified
    case IdentityConflict => source.status.Conflict? || destination.status.Conflict?
    case SourceUnknown => source.status.Unresolved?
    case DestinationUnknown => destination.status.Unresolved?
    case SourceDisabled => source.enabled == Some(false)
    case DestinationDisabled => destination.enabled == Some(false)
    case PolicyNotClassified => path.None?
    case SourceZoneUnexpected => path.Some? && source.zone != Some(path.value.sourceZone)
    case DestinationZoneUnexpected => path.Some? && destination.zone != Some(path.value.destinationZone)
    case PointWriteNotApproved => path.Some? && WritesReadOnly(auth)
    case ProtocolNotApproved => path.Some? && auth.protocol !in path.value.approvedProtocols
    case OperationNotApproved => path.Some? && rule == Ok(None)
    case PolicyMatchApproved => rule.Ok? && rule.value.Some? && rule.value.value.decision == Allow
    case _ => false
  }

  /** Whether a reason applies, whatever the other reasons say. */
  predicate Applies(reason: Reason, auth: Authorization, source: Resolution, destination: Resolution,
                    profile: Profile) {
    DeniedWith(ConsultedRule(auth, source, destination, profile), reason) ||
      Holds(reason, auth, source, destination, profile)
  }

  predicate DeniedWith(rule: Result<Option<Rule>, PolicyError>, reason: Reason) {
    rule.Ok? && rule.value.Some? && rule.value.value.decision == Deny && rule.value.value.reason == reason
  }

  /** All reasons that apply, as an unordered set. */
  ghost function Applicable(auth: Authorization, source: Resolution, destination: Resolution,
                            profile: Profile): set<Reason> {
    set reason: Reason | Applies(reason, auth, source, destination, profile)
  }

  /** The deny rule on the request's path carries a reason that outranks every condition that
      stops the request before rules are consulted, and there is such a condition. */
  ghost predicate DenyOutranksGuards(auth: Authorization, source: Resolution, destination: Resolution,
                                     profile: Profile) {
    var rule := ConsultedRule(auth, source, destination, profile);
    && rule.Ok? && rule.value.Some? && rule.value.value.decision == Deny
    && (exists s: Reason :: Holds(s, auth, source, destination, profile))
    && (forall s: Reason :: Holds(s, auth, source, destination, profile) ==> Rank(rule.value.value.reason) < Rank(s))
  }

  /** Apart from deny rules the cascade stops at the first reason whose condition holds. */
  lemma CascadeStopsAtFirst(auth: Authorization, source: Resolution, destination: Resolution, profile: Profile)
    requires source.Valid() && destination.Valid()
    ensures
      var r := Evaluate(auth, source, destination, profile);
      r.Ok? ==>
        if Holds(r.value.reason, auth, source, destination, profile)
        then forall s: Reason :: Holds(s, auth, source, destination, profile) ==> Rank(r.value.reason) <= Rank(s)
        else DeniedWith(ConsultedRule(auth, source, destination, profile), r.value.reason) &&
             forall s: Reason :: !Holds(s, auth, source, destination, profile)
  {
  }

  /** The cascade's reason is the primary one among all reasons that apply, exactly unless a deny
      rule's own reason outranks the conditions that stopped the request. */
  lemma CascadeAgreesWithPrecedence(auth: Authorization, source: Resolution, destination: Resolution, profile: Profile)
    requires source.Valid() && destination.Valid()
    ensures
      var r := Evaluate(auth, source, destination, profile);
      r.Ok? ==>
        (IsPrimary(Applicable(auth, source, destination, profile), r.value.reason) <==>
         !DenyOutranksGuards(auth, source, destination, profile))
  {
    CascadeStopsAtFirst(auth, source, destination, profile);
    hide Evaluate, Holds, ConsultedRule;
    var r := Evaluate(auth, source, destination, profile);
    var rule := ConsultedRule(auth, source, destination, profile);
    if r.Ok? && DenyOutranksGuards(auth, source, destination, profile) {
      assert rule.value.value.reason in Applicable(auth, source, destination, profile);
    }
  }

  /** What the frozen policy promises of its deny rules. */
  ghost predicate DeniesByRoleOrCommunication(profile: Profile) {
    forall r :: r in profile.rules && r.decision == Deny ==>
      r.reason.SourceRoleNotApproved? || r.reason.CommunicationNotApproved?
  }

  /** Under such a profile the cascade refines the declared precedence on every input. */
  lemma CascadeRefinesPrecedence(auth: Authorization, source: Resolution, destination: Resolution, profile: Profile)
    requires source.Valid() && destination.Valid()
    requires DeniesByRoleOrCommunication(profile)
    ensures
      var r := Evaluate(auth, source, destination, profile);
      r.Ok? ==> IsPrimary(Applicable(auth, source, destination, profile), r.value.reason)
  {
    CascadeAgreesWithPrecedence(auth, source, destination, profile);
    var rule := ConsultedRule(auth, source, destination, profile);
    assert rule.Ok? && rule.value.Some? ==> rule.value.value in profile.rules;
    GuardsPrecedeRules(auth, source, destination, profile);
    hide Evaluate, Holds, ConsultedRule;
  }

  /** Where a deny rule is consulted, whatever else holds is a guard that precedes both reasons. */
  lemma GuardsPrecedeRules(auth: Authorization, source: Resolution, destination: Resolution, profile: Profile)
    ensures
      var rule := ConsultedRule(auth, source, destination, profile);
      rule.Ok? && rule.value.Some? && rule.value.value.decision == Deny ==>
        forall s: Reason :: Holds(s, auth, source, destination, profile) ==>
          Rank(s) < Rank(SourceRoleNotApproved) && Rank(s) < Rank(CommunicationNotApproved)
  {
  }

  // ---------------------------------------------------------------- a profile that breaks it

  /** What loading demands of a profile: the three governed paths, the six rules, every rule on a
      known path, enabled, with explicit selectors. */
  ghost predicate Loadable(profile: Profile) {
    && |profile.paths| == 3 && |profile.rules| == 6
    && (forall i :: 0 <= i < 3 ==>
          profile.paths[i].pathId == PathId(i) && profile.paths[i].approvedProtocols == [Modbus()])
    && (forall i :: 0 <= i < 6 ==> profile.rules[i].ruleId == RuleId(i) && RuleLoadable(profile.rules[i]))
  }

  ghost predicate RuleLoadable(r: Rule) {
    && (exists i :: 0 <= i < 3 && r.pathId == PathId(i))
    && r.enabled && r.protocol == Modbus()
    && r.operations != [] && r.functionSemantics != [] && r.pointIds != [] && r.accessClasses != []
    && forall p :: p in r.pointIds ==> p != "*" && p != "ANY"
  }

  function PathId(i: nat): string {
    if i == 0 then "PATH-HMI-PLC" else if i == 1 then "PATH-ENG-PLC" else "PATH-IT-PLC"
  }

  function RuleId(i: nat): string {
    if i == 0 then "ACP-001" else if i == 1 then "ACP-002" else if i == 2 then "ACP-003"
    else if i == 3 then "ACP-004" else if i == 4 then "ACP-005" else "ACP-006"
  }

  function SourceKey(i: nat): string {
    if i == 0 then "HMI-01" else if i == 1 then "ENG-WS-01" else "IT-WS-01"
  }

  function Modbus(): string { "modbus_tcp" }
  function Plc(): string { "PLC-01" }
  function ControlZone(): string { "OT_CONTROL_ZONE" }
  function ItZone(): string { "IT_ZONE" }
  function Pump(): string { "transfer_pump_command_percent" }
  function Valve(): string { "control_valve_command_percent" }
  function Flow(): string { "pipeline_flow_rate_m3h" }
  function WriteSemantic(): string { "WRITE_SINGLE_REGISTER" }

  function ReadSemantics(): seq<string> {
    ["READ_DISCRETE_INPUTS", "READ_HOLDING_REGISTERS", "READ_INPUT_REGISTERS"]
  }

  function AllPoints(): seq<string> {
    [Pump(), Valve(), "source_tank_level_percent", "receiving_tank_level_percent", Flow(), "pipeline_pressure_bar",
     "process_temperature_c", "control_valve_position_percent", "transfer_pump_running"]
  }

  function ReadRule(i: nat, path: nat): Rule {
    Rule(RuleId(i), PathId(path), Modbus(), [Read], ReadSemantics(), AllPoints(), [ReadOnly, Commandable],
         Allow, PolicyMatchApproved, true)
  }

  function WriteRule(i: nat, path: nat, points: seq<string>, decision: Decision, reason: Reason): Rule {
    Rule(RuleId(i), PathId(path), Modbus(), [Write], [WriteSemantic()], points, [Commandable], decision, reason, true)
  }

  function ItRule(reason: Reason): Rule {
    Rule(RuleId(5), PathId(2), Modbus(), [Read, Write], ReadSemantics() + [WriteSemantic()], AllPoints(),
         [ReadOnly, Commandable], Deny, reason, true)
  }

  function PathFrom(i: nat, zone: string): GovernedPath {
    GovernedPath(PathId(i), SourceKey(i), Plc(), zone, ControlZone(), [Modbus()])
  }

  /** The frozen profile, but with `reason` on the rule that denies the IT workstation. */
  function ProfileWith(reason: Reason): Profile {
    Profile(Paths(), RulesWith(reason))
  }

  function Paths(): seq<GovernedPath> {
    [PathFrom(0, ControlZone()), PathFrom(1, ControlZone()), PathFrom(2, ItZone())]
  }

  function RulesWith(reason: Reason): seq<Rule> {
    [ReadRule(0, 0), WriteRule(1, 0, [Pump()], Allow, PolicyMatchApproved),
     WriteRule(2, 0, [Valve()], Allow, PolicyMatchApproved),
     ReadRule(3, 1), WriteRule(4, 1, [Pump(), Valve()], Deny, SourceRoleNotApproved), ItRule(reason)]
  }

  /** The IT workstation writes a register of the read-only flow point. */
  function ItWrite(): Authorization {
    Authorization(true, true, Modbus(), Write, Some(WriteSemantic()), Some(Flow()), Some(ReadOnly), Incompatible)
  }

  function ItWorkstation(): Resolution { Resolution(Resolved, Some(true), Some(SourceKey(2)), Some(ItZone())) }

  function Controller(): Resolution { Resolution(Resolved, Some(true), Some(Plc()), Some(ControlZone())) }

  lemma ProfileIsLoadable(reason: Reason)
    ensures Loadable(ProfileWith(reason))
  {
    RulesLoadable(reason);
    PathLoadable(0, ControlZone());
    PathLoadable(1, ControlZone());
    PathLoadable(2, ItZone());
    hide PathId, RuleId, Modbus, ControlZone, ItZone, RuleLoadable, PathFrom, RulesWith;
  }

  lemma RulesLoadable(reason: Reason)
    ensures |RulesWith(reason)| == 6
    ensures forall i :: 0 <= i < 6 ==> RulesWith(reason)[i].ruleId == RuleId(i) && RuleLoadable(RulesWith(reason)[i])
  {
    ReadRuleLoadable(0, 0);
    ReadRuleLoadable(3, 1);
    WriteRuleLoadable(1, 0, [Pump()], Allow, PolicyMatchApproved);
    WriteRuleLoadable(2, 0, [Valve()], Allow, PolicyMatchApproved);
    WriteRuleLoadable(4, 1, [Pump(), Valve()], Deny, SourceRoleNotApproved);
    ItRuleLoadable(reason);
    hide PathId, RuleId, Modbus, Pump, Valve, RuleLoadable, ReadRule, WriteRule, ItRule;
  }

  lemma PathLoadable(i: nat, zone: string)
    ensures PathFrom(i, zone).pathId == PathId(i) && PathFrom(i, zone).approvedProtocols == [Modbus()]
  {
  }

  lemma ReadRuleLoadable(i: nat, path: nat)
    requires path < 3
    ensures ReadRule(i, path).ruleId == RuleId(i) && RuleLoadable(ReadRule(i, path))
  {
    PointsAreExplicit();
    hide PathId, RuleId, Modbus, AllPoints, ReadSemantics;
  }

  lemma WriteRuleLoadable(i: nat, path: nat, points: seq<string>, decision: Decision, reason: Reason)
    requires path < 3 && points != [] && forall p :: p in points ==> p == Pump() || p == Valve()
    ensures WriteRule(i, path, points, decision, reason).ruleId == RuleId(i)
    ensures RuleLoadable(WriteRule(i, path, points, decision, reason))
  {
    PointsAreExplicit();
    hide PathId, RuleId, Modbus, Pump, Valve, WriteSemantic;
  }

  lemma ItRuleLoadable(reason: Reason)
    ensures ItRule(reason).ruleId == RuleId(5) && RuleLoadable(ItRule(reason))
  {
    PointsAreExplicit();
    hide PathId, RuleId, Modbus, AllPoints, ReadSemantics, WriteSemantic;
  }

  lemma PointsAreExplicit()
    ensures AllPoints() != [] && ReadSemantics() != []
    ensures forall p :: p in AllPoints() ==> p != "*" && p != "ANY"
    ensures Pump() != "*" && Pump() != "ANY" && Valve() != "*" && Valve() != "ANY"
  {
    assert forall p :: p in AllPoints() ==> |p| > 3;
  }

  lemma PathsDiffer()
    ensures PathId(2) != PathId(0) && PathId(2) != PathId(1)
    ensures SourceKey(2) != SourceKey(0) && SourceKey(2) != SourceKey(1)
  {
    assert |PathId(2)| != |PathId(0)| && |PathId(2)| != |PathId(1)|;
    assert |SourceKey(2)| != |SourceKey(0)| && |SourceKey(2)| != |SourceKey(1)|;
  }

  lemma ItPath(reason: Reason)
    ensures FindPath(ProfileWith(reason).paths, ItWorkstation(), Controller()) == Some(PathFrom(2, ItZone()))
  {
    PathsDiffer();
    hide PathId, SourceKey, Plc, ControlZone, ItZone, Modbus, ItRule, ReadRule, WriteRule;
  }

  /** Loading accepts a deny rule with any reason. One that outranks "point write not approved"
      breaks the agreement: the cascade stops at the point, the precedence names the rule. */
  lemma EarlyDenyReasonBreaksPrecedence(reason: Reason)
    requires Rank(reason) < Rank(PointWriteNotApproved)
    ensures Loadable(ProfileWith(reason))
    ensures
      var r := Evaluate(ItWrite(), ItWorkstation(), Controller(), ProfileWith(reason));
      && r.Ok? && r.value.reason == PointWriteNotApproved
      && !IsPrimary(Applicable(ItWrite(), ItWorkstation(), Controller(), ProfileWith(reason)), r.value.reason)
  {
    ProfileIsLoadable(reason);
    EarlyDenyEvaluates(reason);
    EarlyDenyApplies(reason);
    hide Evaluate, Applies, ItWrite, ItWorkstation, Controller, ProfileWith, Loadable;
    assert reason in Applicable(ItWrite(), ItWorkstation(), Controller(), ProfileWith(reason));
  }

  /** With its own reason on that rule the frozen profile loads, and its cascade follows the
      precedence on every request. */
  lemma FrozenProfileFollowsPrecedence(auth: Authorization, source: Resolution, destination: Resolution)
    requires source.Valid() && destination.Valid()
    ensures Loadable(ProfileWith(CommunicationNotApproved))
    ensures
      var profile := ProfileWith(CommunicationNotApproved);
      var r := Evaluate(auth, source, destination, profile);
      r.Ok? ==> IsPrimary(Applicable(auth, source, destination, profile), r.value.reason)
  {
    var profile := ProfileWith(CommunicationNotApproved);
    ProfileIsLoadable(CommunicationNotApproved);
    FrozenDenies();
    hide ProfileWith, Evaluate, Applicable, DeniesByRoleOrCommunication, Loadable;
    CascadeRefinesPrecedence(auth, source, destination, profile);
  }

  lemma FrozenDenies()
    ensures DeniesByRoleOrCommunication(ProfileWith(CommunicationNotApproved))
  {
    hide PathId, RuleId, Modbus, Pump, Valve, AllPoints, ReadSemantics, WriteSemantic, PathFrom;
  }

  lemma EarlyDenyEvaluates(reason: Reason)
    ensures
      var r := Evaluate(ItWrite(), ItWorkstation(), Controller(), ProfileWith(reason));
      r.Ok? && r.value.reason == PointWriteNotApproved
  {
    ItPath(reason);
    hide FindPath, MatchingRule, ProfileWith, PathId, SourceKey, Plc, ControlZone, ItZone, Modbus, Flow, WriteSemantic;
  }

  lemma EarlyDenyApplies(reason: Reason)
    ensures Applies(reason, ItWrite(), ItWorkstation(), Controller(), ProfileWith(reason))
  {
    ItPath(reason);
    PathsDiffer();
    ItRuleSelects(reason);
    hide FindPath, PathId, SourceKey, Plc, ControlZone, ItZone, Modbus, Flow, WriteSemantic, AllPoints, ReadSemantics;
    var rules := ProfileWith(reason).rules;
    var keep := Selects(ItWrite(), PathId(2));
    forall i | 0 <= i < 5
      ensures !keep(rules[i])
    {
      assert rules[i].pathId == PathId(0) || rules[i].pathId == PathId(1);
    }
    FilterOnlyLast(rules, keep);
    hide Filter, Holds;
  }

  lemma ItRuleSelects(reason: Reason)
    ensures Selects(ItWrite(), PathId(2))(ItRule(reason))
  {
    assert ItRule(reason).pointIds[4] == Flow();
    assert ItRule(reason).functionSemantics[3] == WriteSemantic();
    hide PathId, Flow, WriteSemantic, Modbus;
  }

  lemma {:induction false} FilterNothing(s: seq<Rule>, keep: Rule -> bool)
    requires forall i :: 0 <= i < |s| ==> !keep(s[i])
    ensures Filter(s, keep) == []
  {
    if s != [] { FilterNothing(s[..|s| - 1], keep); }
  }

  lemma FilterOnlyLast(s: seq<Rule>, keep: Rule -> bool)
    requires s != [] && keep(s[|s| - 1]) && forall i :: 0 <= i < |s| - 1 ==> !keep(s[i])
    ensures Filter(s, keep) == [s[|s| - 1]]
  {
    FilterNothing(s[..|s| - 1], keep);
  }

  // ---------------------------------------------------------------- what an evaluation says

  /** The rule names the path, the protocol, the operation, the function, the point and its class. */
  ghost predicate Covers(rule: Rule, auth: Authorization, pathId: string) {
    && rule.enabled && rule.pathId == pathId && rule.protocol == auth.protocol && auth.operation in rule.operations
    && (exists f :: f in rule.functionSemantics && auth.functionSemantic == Some(f))
    && (exists p :: p in rule.pointIds && auth.targetPoint == Some(p))
    && (exists c :: c in rule.accessClasses && auth.accessClass == Some(c))
  }

  ghost function Covering(auth: Authorization, pathId: string, rules: seq<Rule>): set<int> {
    set i | 0 <= i < |rules| && Covers(rules[i], auth, pathId)
  }

  ghost function Denying(auth: Authorization, pathId: string, rules: seq<Rule>): set<int> {
    set i | 0 <= i < |rules| && Covers(rules[i], auth, pathId) && rules[i].decision == Deny
  }

  /** No rule covers the request, one does, or one deny among several; anything else is ambiguous. */
  lemma MatchingRuleExactly(auth: Authorization, pathId: string, rules: seq<Rule>)
    ensures
      var r := MatchingRule(auth, pathId, rules);
      var covering, denying := Covering(auth, pathId, rules), Denying(auth, pathId, rules);
      && (r == Ok(None) <==> covering == {})
      && (r.Err? <==> |covering| > 1 && |denying| != 1)
      && (r.Ok? && r.value.Some? ==>
            exists i :: i in covering && rules[i] == r.value.value && (|covering| > 1 ==> i in denying))
  {
    var keep := Selects(auth, pathId);
    var matches := Filter(rules, keep);
    var both := (rule: Rule) => keep(rule) && rule.decision == Deny;
    forall i | 0 <= i < |rules|
      ensures keep(rules[i]) <==> Covers(rules[i], auth, pathId)
    {
    }
    FilterCount(rules, keep);
    FilterCount(rules, both);
    FilterTwice(rules, keep, DENIES, both);
    assert Positions(rules, keep) == Covering(auth, pathId, rules);
    assert Positions(rules, both) == Denying(auth, pathId, rules);
    FilterKeeps(rules, keep);
    FilterKeeps(matches, DENIES);
    var r := MatchingRule(auth, pathId, rules);
    if r.Ok? && r.value.Some? {
      var rule := r.value.value;
      assert rule in matches && rule in rules && keep(rule);
      var i :| 0 <= i < |rules| && rules[i] == rule;
      assert i in Covering(auth, pathId, rules);
    }
  }

  lemma {:induction false} FilterTwice(s: seq<Rule>, p: Rule -> bool, q: Rule -> bool, both: Rule -> bool)
    requires forall x :: both(x) <==> p(x) && q(x)
    ensures Filter(Filter(s, p), q) == Filter(s, both)
  {
    if s != [] {
      FilterTwice(s[..|s| - 1], p, q, both);
      var init := Filter(s[..|s| - 1], p);
      assert p(s[|s| - 1]) ==> (init + [s[|s| - 1]])[..|init|] == init;
    }
  }

  predicate Joins(path: GovernedPath, source: Resolution, destination: Resolution) {
    source.assetKey == Some(path.sourceKey) && destination.assetKey == Some(path.destinationKey)
  }

  ghost predicate FirstJoin(paths: seq<GovernedPath>, source: Resolution, destination: Resolution, k: int) {
    && 0 <= k < |paths| && Joins(paths[k], source, destination)
    && forall i :: 0 <= i < k ==> !Joins(paths[i], source, destination)
  }

  /** The first governed path between the two assets. */
  lemma {:induction false} FindPathExactly(paths: seq<GovernedPath>, source: Resolution, destination: Resolution)
    ensures
      match FindPath(paths, source, destination)
      case None => forall i :: 0 <= i < |paths| ==> !Joins(paths[i], source, destination)
      case Some(path) => exists k :: FirstJoin(paths, source, destination, k) && paths[k] == path
  {
    if paths != [] {
      var rest := paths[1..];
      FindPathExactly(rest, source, destination);
      if Joins(paths[0], source, destination) {
        assert FirstJoin(paths, source, destination, 0);
      } else if FindPath(rest, source, destination).Some? {
        var path := FindPath(rest, source, destination).value;
        var k :| FirstJoin(rest, source, destination, k) && rest[k] == path;
        assert paths[k + 1] == path;
        forall i | 0 <= i < k + 1
          ensures !Joins(paths[i], source, destination)
        {
          assert i > 0 ==> paths[i] == rest[i - 1];
        }
        assert FirstJoin(paths, source, destination, k + 1);
      } else {
        forall i | 0 <= i < |paths|
          ensures !Joins(paths[i], source, destination)
        {
          assert i > 0 ==> paths[i] == rest[i - 1];
        }
      }
    }
  }

  // The stages of the cascade, each on the request alone.

  predicate Identified(auth: Authorization, source: Resolution, destination: Resolution) {
    auth.sourceVerified && auth.semanticVerified && !source.status.Conflict? && !destination.status.Conflict?
  }

  predicate BothKnown(auth: Authorization, source: Resolution, destination: Resolution) {
    Identified(auth, source, destination) && source.status.Resolved? && destination.status.Resolved?
  }

  predicate Routable(auth: Authorization, source: Resolution, destination: Resolution) {
    BothKnown(auth, source, destination) && source.enabled != Some(false) && destination.enabled != Some(false)
  }

  predicate ZonesFit(path: GovernedPath, source: Resolution, destination: Resolution) {
    source.zone == Some(path.sourceZone) && destination.zone == Some(path.destinationZone)
  }

  predicate PointAllows(auth: Authorization) {
    auth.operation == Write ==> auth.accessClass != Some(ReadOnly) && auth.compatibility != Incompatible
  }

  /** Every guard before the rules is passed on this path. */
  predicate ReachesRules(auth: Authorization, source: Resolution, destination: Resolution, path: GovernedPath) {
    && Routable(auth, source, destination) && ZonesFit(path, source, destination) && PointAllows(auth)
    && auth.protocol in path.approvedProtocols
  }

  function Tristate(satisfied: bool, failed: bool): Dimension {
    if satisfied then Satisfied else if failed then NotSatisfied else Undetermined
  }

  /** The answer as a whole: ambiguity, path, rule and status, each from the request and profile. */
  lemma StatusExactly(auth: Authorization, source: Resolution, destination: Resolution, profile: Profile)
    requires source.Valid() && destination.Valid()
    ensures
      var r := Evaluate(auth, source, destination, profile);
      var path := FindPath(profile.paths, source, destination);
      var consulted := path.Some? && ReachesRules(auth, source, destination, path.value);
      var rule := if consulted then MatchingRule(auth, path.value.pathId, profile.rules) else Ok(None);
      && (r.Err? <==> rule.Err?)
      && (r.Ok? ==>
            && r.value.pathId == (if Routable(auth, source, destination) && path.Some? then
              Some(path.value.pathId) else None)
            && r.value.ruleId == (if rule.value.Some? then Some(rule.value.value.ruleId) else None)
            && (r.value.status == Unknown <==>
                  !BothKnown(auth, source, destination) || (Routable(auth, source, destination) && path.None?))
            && (r.value.status == Approved <==> rule.value.Some? && rule.value.value.decision == Allow))
  {
    hide MatchingRule, FindPath;
  }

  /** UNKNOWN for the reasons that leave the request unjudged, APPROVED for the match, DENIED for
      every other reason and for every deny rule whatever its reason. */
  lemma StatusByReason(auth: Authorization, source: Resolution, destination: Resolution, profile: Profile)
    requires source.Valid() && destination.Valid()
    ensures
      var r := Evaluate(auth, source, destination, profile);
      r.Ok? ==>
        && (r.value.status == Unknown <==>
              r.value.ruleId.None? &&
              r.value.reason in {SourceEvidenceNotVerified, SemanticEvidenceNotVerified, IdentityConflict,
                SourceUnknown,
                                 DestinationUnknown, PolicyNotClassified})
        && (r.value.status == Approved ==> r.value.reason == PolicyMatchApproved && r.value.ruleId.Some?)
        && (r.value.ruleId.None? ==> r.value.status != Approved)
  {
    hide MatchingRule, FindPath;
  }

  /** Each of the nine dimensions: satisfied, failed or never reached. */
  lemma DimensionsExactly(auth: Authorization, source: Resolution, destination: Resolution, profile: Profile)
    requires source.Valid() && destination.Valid()
    ensures
      var r := Evaluate(auth, source, destination, profile);
      var identified := Identified(auth, source, destination);
      var found := FindPath(profile.paths, source, destination);
      r.Ok? ==>
        && r.value.dimensions.sourceKnown == Tristate(identified && source.status.Resolved?, identified &&
          source.status.Unresolved?)
        && r.value.dimensions.destinationKnown ==
             Tristate(BothKnown(auth, source, destination),
                      identified && source.status.Resolved? && destination.status.Unresolved?)
        && (if Routable(auth, source, destination) && found.Some?
            then PathDimensions(auth, source, destination, profile, found.value, r.value.dimensions)
            else OffPath(r.value.dimensions))
  {
    hide MatchingRule, FindPath;
  }

  predicate OffPath(d: Dimensions) {
    && d.sourceZone == d.destinationZone == d.communicationPath == Undetermined
    && d.protocol == d.operation == d.pointClassification == d.sourceRole == Undetermined
  }

  predicate PathDimensions(auth: Authorization, source: Resolution, destination: Resolution, profile: Profile,
                           path: GovernedPath, d: Dimensions) {
    var from, zones := source.zone == Some(path.sourceZone), ZonesFit(path, source, destination);
    var point, protocol := zones && PointAllows(auth), auth.protocol in path.approvedProtocols;
    && d.sourceZone == Tristate(from, !from)
    && d.destinationZone == Tristate(zones, from && !zones)
    && d.pointClassification == Tristate(point, zones && !PointAllows(auth))
    && d.protocol == Tristate(point && protocol, point && !protocol)
    && (point && protocol ==> RuleDimensions(MatchingRule(auth, path.pathId, profile.rules), d))
    && (!(point && protocol) ==> d.operation == d.communicationPath == d.sourceRole == Undetermined)
  }

  /** An approval satisfies all three; a role denial fails only the role, a communication denial
      only the path, any other denial and a missing rule only the operation. */
  predicate RuleDimensions(rule: Result<Option<Rule>, PolicyError>, d: Dimensions) {
    rule.Ok? &&
    var allow := rule.value.Some? && rule.value.value.decision == Allow;
    var role := DeniedWith(rule, SourceRoleNotApproved);
    var communication := DeniedWith(rule, CommunicationNotApproved);
    && d.operation == Tristate(allow || role || communication, !(allow || role || communication))
    && d.communicationPath == Tristate(allow || role, communication)
    && d.sourceRole == Tristate(allow || communication, role)
  }

  /** Approval means all nine dimensions are satisfied, and nothing else does. */
  lemma ApprovedIffAllSatisfied(auth: Authorization, source: Resolution, destination: Resolution, profile: Profile)
    requires Evaluate(auth, source, destination, profile).Ok?
    ensures
      var r := Evaluate(auth, source, destination, profile).value;
      && (r.status == Approved <==> r.dimensions == ALL_SATISFIED)
      && (r.status == Approved ==> r.reason == PolicyMatchApproved && r.pathId.Some? && r.ruleId.Some?)
  {
  }

  /** The whole evaluation, including the ambiguity error, is independent of the rule order. */
  lemma EvaluationIgnoresRuleOrder(auth: Authorization, source: Resolution, destination: Resolution,
                                   a: Profile, b: Profile)
    requires a.paths == b.paths && multiset(a.rules) == multiset(b.rules)
    ensures Evaluate(auth, source, destination, a) == Evaluate(auth, source, destination, b)
  {
    var path := FindPath(a.paths, source, destination);
    if path.Some? {
      MatchingRuleOrderIndependent(auth, path.value.pathId, a.rules, b.rules);
    }
  }
}
