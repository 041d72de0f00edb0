/** The replay order, and why it never shows an event before one it was derived from. */
module Replay {
  import opened Common
  import opened Text
  import opened Sorting
  import opened EvidenceTypes
  import opened Telemetry
  import opened Correlation
  import opened CorrelationProofs

  // ---------------------------------------------------------------- the order

  function EventRank(k: Kind): nat {
    match k
    case RawKind => 10
    case SemanticKind => 20
    case ContextKind => 30
    case PolicyKind => 40
    case TelemetryKind => 50
    case CorrelationKind => 60
  }

  datatype Event = Event(id: string, kind: Kind, observedAt: int)

  predicate ReplayLe(a: Event, b: Event) {
    if a.observedAt != b.observedAt then a.observedAt < b.observedAt
    else if EventRank(a.kind) != EventRank(b.kind) then EventRank(a.kind) < EventRank(b.kind)
    else StringLe(a.id, b.id)
  }

  lemma ReplayOrder()
    ensures Total(ReplayLe)
  {
    forall x, y
      ensures ReplayLe(x, y) || ReplayLe(y, x)
    {
      StringLeTotal(x.id, y.id);
    }
    forall x, y, z | ReplayLe(x, y) && ReplayLe(y, z)
      ensures ReplayLe(x, z)
    {
      if x.observedAt == y.observedAt == z.observedAt && EventRank(x.kind) == EventRank(y.kind) == EventRank(z.kind) {
        StringLeTransitive(x.id, y.id, z.id);
      }
    }
  }

  /** The declared classes, from the raw event to the correlation finding. */
  const EVENT_CLASSES: seq<Kind> := [RawKind, SemanticKind, ContextKind, PolicyKind, TelemetryKind, CorrelationKind]

  /** Time first, then the place of the class in the declared order, then the identity. */
  lemma ReplayOrderExactly(a: Event, b: Event, i: nat, j: nat)
    requires i < |EVENT_CLASSES| && EVENT_CLASSES[i] == a.kind && j < |EVENT_CLASSES| && EVENT_CLASSES[j] == b.kind
    ensures ReplayLe(a, b) <==>
      || a.observedAt < b.observedAt
      || (a.observedAt == b.observedAt && (i < j || (i == j && StringLe(a.id, b.id))))
  {
    hide StringLe;
  }

  function OrderedEvents(events: seq<Event>): seq<Event> {
    ReplayOrder();
    Sort(events, ReplayLe)
  }

  /** Strictly before in every replay: earlier, at the same time with a lower rank, or equal in
      both with the smaller identity. */
  predicate Precedes(a: Event, b: Event) { !ReplayLe(b, a) }

  // ---------------------------------------------------------------- a finding and its parents

  /** The stored cyber parents of a request: each of its own type, all stamped with the time of
      the command, as decoding, context resolution and policy judgement copy it along. */
  predicate CyberStamped(c: CyberContext) {
    c.raw.observedAt == c.semantic.observedAt == c.assetContext.observedAt == c.commandAt &&
    (c.policy.Some? ==> c.policy.value.observedAt == c.commandAt)
  }

  /** The persistence layer refuses an S4 request with cyber parents. */
  predicate Persistable(q: Question) {
    q.ruleId == S4_RULE ==> q.cyber.None?
  }

  function CyberEvents(q: Question): seq<Event> {
    if q.cyber.None? then []
    else
      var c := q.cyber.value;
      [Event(c.raw.evidenceId, RawKind, c.raw.observedAt),
       Event(c.semantic.evidenceId, SemanticKind, c.semantic.observedAt),
       Event(c.assetContext.evidenceId, ContextKind, c.assetContext.observedAt)]
      + if c.policy.None? then [] else [Event(c.policy.value.evidenceId, PolicyKind, c.policy.value.observedAt)]
  }

  /** The finding that is evaluated again, if any. */
  function ReevaluatedEvents(q: Question): seq<Event> {
    if q.reevaluates.None? then []
    else [Event(q.reevaluates.value.evidenceId, CorrelationKind, q.reevaluates.value.observedAt)]
  }

  function SampleEvent(s: Sample): Event {
    Event(s.evidenceId, TelemetryKind, s.observedAt)
  }

  /** No cyber parent, no telemetry at all, or a sample at or after the command. */
  predicate Timely(q: Question, telemetry: seq<Sample>) {
    q.cyber.None? || telemetry == [] || exists s :: s in telemetry && s.observedAt >= q.cyber.value.commandAt
  }

  /** The time a finding will carry: of its latest sample, else of its command, else 1970. */
  function StampTime(q: Question, telemetry: seq<Sample>): int {
    EvidenceTime(telemetry, RequestAnchor(q))
  }

  /** Later than the finding it re-evaluates, or at the same time under the greater identity. */
  predicate Supersedes(q: Question, telemetry: seq<Sample>, id: string) {
    q.reevaluates.Some? ==>
      || q.reevaluates.value.observedAt < StampTime(q, telemetry)
      || (q.reevaluates.value.observedAt == StampTime(q, telemetry) && !StringLe(id, q.reevaluates.value.evidenceId))
  }

  lemma {:induction false} LatestIsMaximum(s: seq<Sample>)
    ensures Latest(s).None? <==> s == []
    ensures Latest(s).Some? ==> exists x :: x in s && x.observedAt == Latest(s).value
    ensures forall x :: x in s ==> x.observedAt <= Latest(s).value
  {
    if s != [] {
      var init, last := s[..|s| - 1], s[|s| - 1];
      LatestIsMaximum(init);
      assert s == init + [last] && last in s;
      if Latest(init).Some? && Latest(init).value > last.observedAt {
        var x :| x in init && x.observedAt == Latest(init).value;
        assert x in s;
      }
    }
  }

  /** Whatever the verdict, a finding is stamped with its latest sample, and without samples with
      the command time. */
  lemma DecisionTime(q: Question, sha256: string, ordered: seq<Sample>)
    requires Sorted(ordered, SampleLe) && Persistable(q)
    ensures Decide(q, sha256, ordered).observedAt == StampTime(q, ordered)
  {
    LatestIsMaximum(ordered);
    hide S3Verdict, S4Verdict, SelectWindow, FindAnchor, ValidateRunConsistency;
    if GuardReason(q, sha256, ordered).None? {
      ConsistentIsChronological(ordered);
    }
  }

  lemma LatestByContent(a: seq<Sample>, b: seq<Sample>)
    requires forall s :: s in a <==> s in b
    ensures Latest(a) == Latest(b)
  {
    LatestIsMaximum(a);
    LatestIsMaximum(b);
    hide Latest;
    assert a != [] ==> a[0] in a;
    assert b != [] ==> b[0] in b;
  }

  lemma FindingTime(q: Question, telemetry: seq<Sample>, sha256: string)
    requires Persistable(q)
    ensures
      var r := EvaluateCorrelation(q, telemetry, sha256);
      r.Ok? ==> r.value.decision.observedAt == StampTime(q, telemetry)
  {
    var r := EvaluateCorrelation(q, telemetry, sha256);
    if r.Err? { return; }
    SampleOrder();
    CanonicalContent(telemetry, SAMPLE_ID, SampleLe);
    var ordered := CanonicalTelemetry(telemetry).value;
    DecisionTime(q, sha256, ordered);
    LatestByContent(telemetry, ordered);
    assert r.value.decision == Decide(q, sha256, ordered);
    hide EvaluateCorrelation, Decide, CanonicalTelemetry, Latest, Total, Sorted, Persistable;
  }

  /** A finding always follows its telemetry. It follows its cyber parents exactly when it is
      timely, and the finding it re-evaluates exactly when it supersedes it. */
  lemma FindingFollowsParentsExactly(q: Question, telemetry: seq<Sample>, sha256: string, id: string)
    requires Persistable(q) && (q.cyber.Some? ==> CyberStamped(q.cyber.value))
    ensures
      var r := EvaluateCorrelation(q, telemetry, sha256);
      r.Ok? ==>
        var finding := Event(id, CorrelationKind, r.value.decision.observedAt);
        && (forall s :: s in telemetry ==> Precedes(SampleEvent(s), finding))
        && ((forall e :: e in CyberEvents(q) ==> Precedes(e, finding)) <==> Timely(q, telemetry))
        && ((forall e :: e in ReevaluatedEvents(q) ==> Precedes(e, finding)) <==> Supersedes(q, telemetry, id))
  {
    FindingTime(q, telemetry, sha256);
    hide EvaluateCorrelation;
    StampedFollowsExactly(q, telemetry, Event(id, CorrelationKind, StampTime(q, telemetry)));
  }

  lemma StampedFollowsExactly(q: Question, telemetry: seq<Sample>, finding: Event)
    requires q.cyber.Some? ==> CyberStamped(q.cyber.value)
    requires finding.kind.CorrelationKind? && finding.observedAt == StampTime(q, telemetry)
    ensures forall s :: s in telemetry ==> Precedes(SampleEvent(s), finding)
    ensures (forall e :: e in CyberEvents(q) ==> Precedes(e, finding)) <==> Timely(q, telemetry)
    ensures (forall e :: e in ReevaluatedEvents(q) ==> Precedes(e, finding)) <==> Supersedes(q, telemetry, finding.id)
  {
    LatestIsMaximum(telemetry);
    hide Latest, StringLe;
    if q.cyber.Some? {
      var at := q.cyber.value.commandAt;
      var raw := CyberEvents(q)[0];
      assert raw == Event(q.cyber.value.raw.evidenceId, RawKind, at) && raw in CyberEvents(q);
      assert forall e :: e in CyberEvents(q) ==> e.observedAt == at && EventRank(e.kind) < EventRank(CorrelationKind);
      assert at <= finding.observedAt <==> Timely(q, telemetry);
    }
    if q.reevaluates.Some? {
      assert ReevaluatedEvents(q)[0] in ReevaluatedEvents(q);
    }
  }

  function IdsOf(parents: seq<Parent>): set<string> {
    set p | p in parents :: p.evidenceId
  }

  lemma IdsOfConcat(a: seq<Parent>, b: seq<Parent>)
    ensures IdsOf(a + b) == IdsOf(a) + IdsOf(b)
  {
    assert forall p :: p in a + b <==> p in a || p in b;
  }

  lemma IdsByContent(a: seq<Parent>, b: seq<Parent>)
    requires forall p :: p in a <==> p in b
    ensures IdsOf(a) == IdsOf(b)
  {
  }

  /** The recorded parents are exactly the cyber parents, the samples and the re-evaluated finding. */
  lemma FindingParents(q: Question, telemetry: seq<Sample>, sha256: string)
    ensures
      var r := EvaluateCorrelation(q, telemetry, sha256);
      r.Ok? ==> IdsOf(r.value.parents) == CyberIds(q) + SampleIds(telemetry) + ReevaluatedIds(q)
  {
    var r := EvaluateCorrelation(q, telemetry, sha256);
    if r.Err? { return; }
    SampleOrder();
    ParentOrder();
    CanonicalContent(telemetry, SAMPLE_ID, SampleLe);
    var ordered := CanonicalTelemetry(telemetry).value;
    assert r.value.parents == CanonicalParents(References(q, ordered)).value;
    CanonicalContent(References(q, ordered), PARENT_ID, ParentLe);
    hide EvaluateCorrelation, CanonicalTelemetry, Total, Sorted, References, Canonical, IdsOf, CyberIds, ReevaluatedIds;
    IdsByContent(r.value.parents, References(q, ordered));
    ReferenceIds(q, ordered);
    assert SampleIds(ordered) == SampleIds(telemetry);
  }

  lemma ReferenceIds(q: Question, telemetry: seq<Sample>)
    ensures IdsOf(References(q, telemetry)) == CyberIds(q) + SampleIds(telemetry) + ReevaluatedIds(q)
  {
    var cyber, again := CyberParents(q), ReevaluatedParents(q);
    assert References(q, telemetry) == cyber + TelemetryParents(telemetry) + again;
    TelemetryParentIds(telemetry);
    CyberParentIds(q);
    ReevaluatedParentIds(q);
    hide TelemetryParents, CyberEvents, IdsOf, CyberParents, ReevaluatedParents, ReevaluatedIds, CyberIds, SampleIds;
    IdsOfConcat(cyber + TelemetryParents(telemetry), again);
    IdsOfConcat(cyber, TelemetryParents(telemetry));
  }

  function CyberParents(q: Question): seq<Parent> {
    if q.cyber.None? then []
    else
      [q.cyber.value.raw, q.cyber.value.semantic, q.cyber.value.assetContext]
      + if q.cyber.value.policy.None? then [] else [q.cyber.value.policy.value]
  }

  function ReevaluatedParents(q: Question): seq<Parent> {
    if q.reevaluates.None? then [] else [q.reevaluates.value]
  }

  lemma CyberParentIds(q: Question)
    ensures IdsOf(CyberParents(q)) == CyberIds(q)
  {
    if q.cyber.Some? {
      var es := CyberEvents(q);
      assert es[0] in es && es[1] in es && es[2] in es;
      assert q.cyber.value.policy.Some? ==> es[3] in es;
    }
  }

  lemma ReevaluatedParentIds(q: Question)
    ensures IdsOf(ReevaluatedParents(q)) == ReevaluatedIds(q)
  {
    assert q.reevaluates.Some? ==> ReevaluatedEvents(q)[0] in ReevaluatedEvents(q);
  }

  lemma TelemetryParentIds(telemetry: seq<Sample>)
    ensures IdsOf(TelemetryParents(telemetry)) == SampleIds(telemetry)
  {
    forall s | s in telemetry
      ensures ParentOf(s) in TelemetryParents(telemetry)
    {
      var i :| 0 <= i < |telemetry| && telemetry[i] == s;
      assert TelemetryParents(telemetry)[i] == ParentOf(s);
    }
  }

  /** A finding whose S3 window is final, or any S4 finding, is timely. */
  lemma FinalFindingIsTimely(q: Question, telemetry: seq<Sample>)
    requires Persistable(q) && (q.ruleId == S3_RULE || q.ruleId == S4_RULE)
    requires CanonicalTelemetry(telemetry).Ok?
    ensures Final(q, CanonicalTelemetry(telemetry).value) ==> Timely(q, telemetry)
  {
    var ordered := CanonicalTelemetry(telemetry).value;
    SampleOrder();
    CanonicalContent(telemetry, SAMPLE_ID, SampleLe);
    hide CanonicalTelemetry, FindAnchor, Total, Sorted;
    if Final(q, ordered) {
      assert ordered[|ordered| - 1] in telemetry;
    }
  }

  /** A request over one sample taken before the command: its finding is stamped before, and so
      replayed before, the command it is about. */
  lemma EarlyFindingPrecedesItsCommand(q: Question, s: Sample, sha256: string)
    requires q.ruleId == S3_RULE && q.cyber.Some? && CyberStamped(q.cyber.value)
    requires s.observedAt < q.cyber.value.commandAt
    ensures
      var r := EvaluateCorrelation(q, [s], sha256);
      && (r.Ok? <==> !IdentityClash(q, [s]))
      && (r.Ok? ==> ReplayLe(Event("finding", CorrelationKind, r.value.decision.observedAt), CyberEvents(q)[1]))
  {
    RejectedExactlyOnClash(q, [s], sha256);
    FindingTime(q, [s], sha256);
    SingleStamp(q, s);
    hide EvaluateCorrelation, IdentityClash, StampTime;
  }

  lemma SingleStamp(q: Question, s: Sample)
    ensures StampTime(q, [s]) == s.observedAt
  {
    LatestIsMaximum([s]);
    assert s in [s];
  }

  // ---------------------------------------------------------------- re-evaluation

  /** Evaluating the same samples again gives the same time, so only identities order the two. */
  lemma ReevaluationTies(q: Question, telemetry: seq<Sample>, sha256: string, previous: Parent)
    requires Persistable(q)
    ensures
      var first := EvaluateCorrelation(q, telemetry, sha256);
      var again := EvaluateCorrelation(q.(reevaluates := Some(previous)), telemetry, sha256);
      first.Ok? && again.Ok? ==> again.value.decision.observedAt == first.value.decision.observedAt
  {
    FindingTime(q, telemetry, sha256);
    FindingTime(q.(reevaluates := Some(previous)), telemetry, sha256);
    hide EvaluateCorrelation;
  }

  /** An S4 request over the full point set of the approved profile. */
  function S4Question(sha256: string, previous: Option<Parent>): Question {
    Question(PROFILE_ID, PROFILE_VERSION, sha256, S4_RULE, "1.0.0", None, S4_POINTS, previous)
  }

  function FindingParent(id: string, digest: string, s: Sample): Parent {
    Parent(id, TypeName(CorrelationKind), digest, s.observedAt, Some(s.sequence))
  }

  /** One finding, then its re-evaluation over the same sample. */
  function EvaluatedTwice(s: Sample, first: string, again: string, digest: string, sha256: string): seq<Derivation> {
    [IngestTelemetry(s), Correlate(first, S4Question(sha256, None), [s], sha256),
     Correlate(again, S4Question(sha256, Some(FindingParent(first, digest, s))), [s], sha256)]
  }

  lemma NoClash(s: Sample, sha256: string, previous: Option<Parent>)
    requires previous.Some? ==> previous.value.evidenceId != s.evidenceId
    ensures EvaluateCorrelation(S4Question(sha256, previous), [s], sha256).Ok?
  {
    hide EvaluateCorrelation, Conflicts, References;
    var q := S4Question(sha256, previous);
    RejectedExactlyOnClash(q, [s], sha256);
    S4References(s, sha256, previous);
    hide S4Question;
    SoleHasNoConflict(s, SAMPLE_ID);
    SoleHasNoConflict(ParentOf(s), PARENT_ID);
    if previous.Some? {
      PairHasNoConflict(ParentOf(s), previous.value, PARENT_ID);
    }
  }

  lemma S4References(s: Sample, sha256: string, previous: Option<Parent>)
    ensures References(S4Question(sha256, previous), [s]) ==
      if previous.None? then [ParentOf(s)] else [ParentOf(s), previous.value]
  {
    assert TelemetryParents([s]) == [ParentOf(s)];
  }

  lemma SoleHasNoConflict<T>(x: T, id: T -> string)
    ensures !Conflicts([x], id)
  {
  }

  lemma PairHasNoConflict<T>(x: T, y: T, id: T -> string)
    requires id(x) != id(y)
    ensures !Conflicts([x, y], id)
  {
  }

  /** Whenever the re-evaluation gets the smaller identity, replay shows it before the finding it
      was derived from. */
  lemma ReevaluationShownFirst(s: Sample, first: string, again: string, digest: string, sha256: string)
    requires first != again && s.evidenceId !in {first, again} && StringLe(again, first)
    ensures
      var log := DeriveAll(EvaluatedTwice(s, first, again, digest, sha256));
      && first in log && again in log && first in log[again].parents
      && OrderedEvents([EventAt(log, first), EventAt(log, again)]) == [EventAt(log, again), EventAt(log, first)]
  {
    var log := DeriveAll(EvaluatedTwice(s, first, again, digest, sha256));
    TwoFindings(s, first, again, digest, sha256);
    StringLeTotal(first, again);
    var a, b := EventAt(log, first), EventAt(log, again);
    ReplayOrder();
    hide DeriveAll, EvaluatedTwice, StringLe;
    assert !ReplayLe(a, b) && ReplayLe(b, a);
    assert [a, b][..1] == [a] && [a][..0] == [];
    assert Sort([a], ReplayLe) == [a];
    assert Insert([a], b, ReplayLe) == [b, a];
  }

  lemma TwoFindings(s: Sample, first: string, again: string, digest: string, sha256: string)
    requires first != again && s.evidenceId !in {first, again}
    ensures
      var log := DeriveAll(EvaluatedTwice(s, first, again, digest, sha256));
      && Holds(log, first, CorrelationKind) && Holds(log, again, CorrelationKind) && first in log[again].parents
      && log[first].observedAt == log[again].observedAt == s.observedAt
  {
    var ds := EvaluatedTwice(s, first, again, digest, sha256);
    assert ds[..2][..1] == ds[..1] && ds[..1][..0] == [] && ds[..2] == [ds[0], ds[1]] && ds[..1] == [ds[0]];
    assert DeriveAll([]) == map[];
    var log1 := Derive(map[], ds[0]);
    assert DeriveAll(ds[..1]) == log1;
    var log2 := Derive(log1, ds[1]);
    assert DeriveAll(ds[..2]) == log2;
    assert DeriveAll(ds) == Derive(log2, ds[2]);
    hide DeriveAll;
    FirstFinding(log1, s, first, sha256);
    Reevaluation(log2, s, first, again, digest, sha256);
  }

  lemma FirstFinding(log: Log, s: Sample, first: string, sha256: string)
    requires first !in log && HoldsAt(log, SampleEvent(s))
    ensures
      var later := Derive(log, Correlate(first, S4Question(sha256, None), [s], sha256));
      later.Keys == log.Keys + {first} && HoldsAt(later, SampleEvent(s)) &&
        HoldsAt(later, Event(first, CorrelationKind, s.observedAt))
  {
    hide EvaluateCorrelation, StampTime, Loaded, S4Question, Persistable;
    var q := S4Question(sha256, None);
    NoClash(s, sha256, None);
    S4Loaded(log, s, sha256, None);
    FindingTime(q, [s], sha256);
    SingleStamp(q, s);
  }

  lemma S4Loaded(log: Log, s: Sample, sha256: string, previous: Option<Parent>)
    requires HoldsAt(log, SampleEvent(s))
    requires previous.Some? ==> HoldsAt(log, Event(previous.value.evidenceId, CorrelationKind,
      previous.value.observedAt))
    ensures Persistable(S4Question(sha256, previous)) && Loaded(log, S4Question(sha256, previous), [s])
  {
  }

  lemma Reevaluation(log: Log, s: Sample, first: string, again: string, digest: string, sha256: string)
    requires again !in log && first != s.evidenceId
    requires HoldsAt(log, SampleEvent(s)) && HoldsAt(log, Event(first, CorrelationKind, s.observedAt))
    ensures
      var q := S4Question(sha256, Some(FindingParent(first, digest, s)));
      var later := Derive(log, Correlate(again, q, [s], sha256));
      && HoldsAt(later, Event(first, CorrelationKind, s.observedAt)) &&
        HoldsAt(later, Event(again, CorrelationKind, s.observedAt))
      && first in later[again].parents
  {
    hide EvaluateCorrelation, StampTime, Loaded, IdsOf, S4Question, Persistable, CyberIds, SampleIds, ReevaluatedIds;
    var previous := Some(FindingParent(first, digest, s));
    var q := S4Question(sha256, previous);
    NoClash(s, sha256, previous);
    S4Loaded(log, s, sha256, previous);
    FindingTime(q, [s], sha256);
    FindingParents(q, [s], sha256);
    SingleStamp(q, s);
    NamesPrevious(sha256, previous.value);
  }

  lemma NamesPrevious(sha256: string, previous: Parent)
    ensures previous.evidenceId in ReevaluatedIds(S4Question(sha256, Some(previous)))
  {
    var events := ReevaluatedEvents(S4Question(sha256, Some(previous)));
    assert events == [Event(previous.evidenceId, CorrelationKind, previous.observedAt)];
    assert events[0] in events;
  }

  // ---------------------------------------------------------------- the derivation pipeline

  datatype Node = Node(kind: Kind, observedAt: int, parents: set<string>)

  type Log = map<string, Node>

  datatype Derivation =
    | IngestRaw(id: string, at: int)
    | IngestTelemetry(sample: Sample)
    | DecodeSemantic(id: string, raw: string)
    | ResolveContext(id: string, semantic: string)
    | JudgePolicy(id: string, semantic: string, assetContext: string)
    | Correlate(id: string, question: Question, telemetry: seq<Sample>, sha256: string)

  predicate Holds(log: Log, id: string, kind: Kind) {
    id in log && log[id].kind == kind
  }

  predicate HoldsAt(log: Log, e: Event) {
    Holds(log, e.id, e.kind) && log[e.id].observedAt == e.observedAt
  }

  predicate DerivedFrom(log: Log, child: string, parent: string) {
    child in log && parent in log[child].parents
  }

  /** The stored records that a correlation request names, as the persistence layer loads them:
      each of the expected type, the command time taken from the semantic event, the cyber
      parents one derivation chain. */
  predicate Loaded(log: Log, q: Question, telemetry: seq<Sample>) {
    && (forall e :: e in CyberEvents(q) ==> HoldsAt(log, e))
    && (forall e :: e in ReevaluatedEvents(q) ==> HoldsAt(log, e))
    && (forall s :: s in telemetry ==> HoldsAt(log, SampleEvent(s)))
    && Persistable(q)
    && (q.cyber.Some? ==>
          var c := q.cyber.value;
          && c.commandAt == c.semantic.observedAt
          && DerivedFrom(log, c.semantic.evidenceId, c.raw.evidenceId)
          && DerivedFrom(log, c.assetContext.evidenceId, c.semantic.evidenceId)
          && (c.policy.Some? ==> DerivedFrom(log, c.policy.value.evidenceId, c.assetContext.evidenceId)))
  }

  function CyberIds(q: Question): set<string> {
    set e | e in CyberEvents(q) :: e.id
  }

  function ReevaluatedIds(q: Question): set<string> {
    set e | e in ReevaluatedEvents(q) :: e.id
  }

  function SampleIds(telemetry: seq<Sample>): set<string> {
    set s | s in telemetry :: s.evidenceId
  }

  /** One adapter run. Evidence is append-only, so a taken identity changes nothing. */
  function Derive(log: Log, d: Derivation): Log {
    match d
    case IngestRaw(id, at) => if id in log then log else log[id := Node(RawKind, at, {})]
    case IngestTelemetry(s) =>
      if s.evidenceId in log then log else log[s.evidenceId := Node(TelemetryKind, s.observedAt, {})]
    case DecodeSemantic(id, raw) =>
      if id in log || !Holds(log, raw, RawKind) then log
      else log[id := Node(SemanticKind, log[raw].observedAt, {raw})]
    case ResolveContext(id, semantic) =>
      if id in log || !Holds(log, semantic, SemanticKind) then log
      else log[id := Node(ContextKind, log[semantic].observedAt, log[semantic].parents + {semantic})]
    case JudgePolicy(id, semantic, assetContext) =>
      if id in log || !Holds(log, semantic, SemanticKind) || !Holds(log, assetContext, ContextKind) ||
         semantic !in log[assetContext].parents then log
      else log[id := Node(PolicyKind, log[semantic].observedAt, log[assetContext].parents + {assetContext})]
    case Correlate(id, q, telemetry, sha256) =>
      if id in log || !Loaded(log, q, telemetry) then log
      else
        match EvaluateCorrelation(q, telemetry, sha256)
        case Err(_) => log
        case Ok(f) => log[id := Node(CorrelationKind, f.decision.observedAt, IdsOf(f.parents))]
  }

  /** Each adapter adds at most its own record, stamped and parented as its kind demands. */
  lemma DerivedExactly(log: Log, d: Derivation)
    ensures
      match d
      case IngestRaw(id, at) => id !in log ==> Derive(log, d) == log[id := Node(RawKind, at, {})]
      case IngestTelemetry(s) =>
        s.evidenceId !in log ==> Derive(log, d) == log[s.evidenceId := Node(TelemetryKind, s.observedAt, {})]
      case DecodeSemantic(id, raw) =>
        id !in log && Holds(log, raw, RawKind) ==>
          Derive(log, d) == log[id := Node(SemanticKind, log[raw].observedAt, {raw})]
      case ResolveContext(id, semantic) =>
        id !in log && Holds(log, semantic, SemanticKind) ==>
          Derive(log, d) == log[id := Node(ContextKind, log[semantic].observedAt, log[semantic].parents + {semantic})]
      case JudgePolicy(id, semantic, context) =>
        id !in log && Holds(log, semantic, SemanticKind) && Holds(log, context, ContextKind) &&
        semantic in log[context].parents ==>
          Derive(log, d) == log[id := Node(PolicyKind, log[semantic].observedAt, log[context].parents + {context})]
      case Correlate(id, q, telemetry, sha256) =>
        id !in log && Loaded(log, q, telemetry) && EvaluateCorrelation(q, telemetry, sha256).Ok? ==>
          Derive(log, d) == log[id := Node(CorrelationKind, StampTime(q, telemetry),
                                           CyberIds(q) + SampleIds(telemetry) + ReevaluatedIds(q))]
  {
    if d.Correlate? && Loaded(log, d.question, d.telemetry) {
      FindingTime(d.question, d.telemetry, d.sha256);
      FindingParents(d.question, d.telemetry, d.sha256);
    }
    hide EvaluateCorrelation, IdsOf, StampTime, CyberIds, SampleIds, ReevaluatedIds;
  }

  function DeriveAll(ds: seq<Derivation>): Log {
    if ds == [] then map[] else Derive(DeriveAll(ds[..|ds| - 1]), ds[|ds| - 1])
  }

  function EventAt(log: Log, id: string): Event
    requires id in log
  {
    Event(id, log[id].kind, log[id].observedAt)
  }

  /** A chain record shares the time of its parents, and every record follows all of its parents. */
  ghost predicate FollowsParents(log: Log, id: string)
    requires id in log
  {
    forall p :: p in log[id].parents ==>
      && p in log && Precedes(EventAt(log, p), EventAt(log, id))
      && (!log[id].kind.CorrelationKind? ==> log[p].observedAt == log[id].observedAt && !log[p].kind.CorrelationKind?)
  }

  ghost predicate Topological(log: Log) {
    forall id :: id in log ==> FollowsParents(log, id)
  }

  /** Every finding is timely and supersedes what it re-evaluates. */
  predicate AllInOrder(ds: seq<Derivation>) {
    forall d :: d in ds && d.Correlate? ==> Timely(d.question, d.telemetry) && Supersedes(d.question, d.telemetry, d.id)
  }

  lemma ExtendedFollows(log: Log, id: string, n: Node)
    requires Topological(log) && id !in log
    requires forall p :: p in n.parents ==>
      && p in log && Precedes(EventAt(log, p), Event(id, n.kind, n.observedAt))
      && (!n.kind.CorrelationKind? ==> log[p].observedAt == n.observedAt && !log[p].kind.CorrelationKind?)
    ensures Topological(log[id := n])
  {
    var later := log[id := n];
    hide Precedes;
    forall x | x in later
      ensures FollowsParents(later, x)
    {
      if x != id {
        assert FollowsParents(log, x);
        assert forall p :: p in log[x].parents ==> EventAt(later, p) == EventAt(log, p);
      } else {
        assert forall p :: p in n.parents ==> EventAt(later, p) == EventAt(log, p);
      }
    }
  }

  lemma LoadedIsStamped(log: Log, q: Question, telemetry: seq<Sample>)
    requires Topological(log) && Loaded(log, q, telemetry) && q.cyber.Some?
    ensures CyberStamped(q.cyber.value)
  {
    var c := q.cyber.value;
    var es := CyberEvents(q);
    assert HoldsAt(log, es[0]) && HoldsAt(log, es[1]) && HoldsAt(log, es[2]);
    assert c.policy.Some? ==> HoldsAt(log, es[3]);
    assert FollowsParents(log, c.semantic.evidenceId) && FollowsParents(log, c.assetContext.evidenceId);
    if c.policy.Some? {
      assert FollowsParents(log, c.policy.value.evidenceId);
    }
  }

  lemma CorrelateFollows(log: Log, id: string, q: Question, telemetry: seq<Sample>, sha256: string)
    requires Topological(log) && Timely(q, telemetry) && Supersedes(q, telemetry, id)
    ensures Topological(Derive(log, Correlate(id, q, telemetry, sha256)))
  {
    if id !in log && Loaded(log, q, telemetry) {
      if q.cyber.Some? { LoadedIsStamped(log, q, telemetry); }
      FindingFollowsParentsExactly(q, telemetry, sha256, id);
      FindingParents(q, telemetry, sha256);
      var r := EvaluateCorrelation(q, telemetry, sha256);
      hide EvaluateCorrelation, Timely, Supersedes, Persistable, Precedes, CyberEvents, ReevaluatedEvents;
      if r.Ok? {
        var n := Node(CorrelationKind, r.value.decision.observedAt, IdsOf(r.value.parents));
        forall p | p in n.parents
          ensures p in log && Precedes(EventAt(log, p), Event(id, n.kind, n.observedAt))
        {
          if p in SampleIds(telemetry) {
            var s :| s in telemetry && s.evidenceId == p;
            assert EventAt(log, p) == SampleEvent(s);
          } else {
            var e :| (e in CyberEvents(q) || e in ReevaluatedEvents(q)) && e.id == p;
            assert EventAt(log, p) == e;
          }
        }
        hide IdsOf;
        ExtendedFollows(log, id, n);
      }
    }
  }

  lemma DeriveFollows(log: Log, d: Derivation)
    requires Topological(log)
    requires d.Correlate? ==> Timely(d.question, d.telemetry) && Supersedes(d.question, d.telemetry, d.id)
    ensures Topological(Derive(log, d))
  {
    match d
    case IngestRaw(id, at) => if id !in log { ExtendedFollows(log, id, Node(RawKind, at, {})); }
    case IngestTelemetry(s) =>
      if s.evidenceId !in log { ExtendedFollows(log, s.evidenceId, Node(TelemetryKind, s.observedAt, {})); }
    case DecodeSemantic(id, raw) =>
      if id !in log && Holds(log, raw, RawKind) {
        ExtendedFollows(log, id, Node(SemanticKind, log[raw].observedAt, {raw}));
      }
    case ResolveContext(id, semantic) =>
      if id !in log && Holds(log, semantic, SemanticKind) {
        assert FollowsParents(log, semantic);
        ExtendedFollows(log, id, Node(ContextKind, log[semantic].observedAt, log[semantic].parents + {semantic}));
      }
    case JudgePolicy(id, semantic, assetContext) =>
      if Derive(log, d) != log {
        assert FollowsParents(log, assetContext);
        ExtendedFollows(log, id, Node(PolicyKind, log[semantic].observedAt,
          log[assetContext].parents + {assetContext}));
      }
    case Correlate(id, q, telemetry, sha256) => CorrelateFollows(log, id, q, telemetry, sha256);
  }

  lemma {:induction false} DerivedFollowsParents(ds: seq<Derivation>)
    requires AllInOrder(ds)
    ensures Topological(DeriveAll(ds))
  {
    if ds != [] {
      DerivedFollowsParents(ds[..|ds| - 1]);
      DeriveFollows(DeriveAll(ds[..|ds| - 1]), ds[|ds| - 1]);
      hide Derive;
    }
  }

  /** Replay order is a topological order of derivation: whatever the pipeline derived and
      whichever records are shown, no event comes before one it was derived from. */
  lemma ReplayIsTopological(ds: seq<Derivation>, events: seq<Event>, i: nat, j: nat)
    requires AllInOrder(ds)
    requires forall e :: e in events ==> e.id in DeriveAll(ds) && e == EventAt(DeriveAll(ds), e.id)
    requires i <= j < |OrderedEvents(events)|
    ensures OrderedEvents(events)[j].id !in DeriveAll(ds)[OrderedEvents(events)[i].id].parents
  {
    DerivedFollowsParents(ds);
    ReplayOrder();
    var log, ordered := DeriveAll(ds), OrderedEvents(events);
    hide DeriveAll, OrderedEvents;
    assert ordered == OrderedEvents(events);
    OrderedIsSorted(events);
    var child, parent := ordered[i], ordered[j];
    assert child in events && parent in events && ReplayLe(child, parent);
    assert FollowsParents(log, child.id);
  }

  lemma OrderedIsSorted(events: seq<Event>)
    ensures Sorted(OrderedEvents(events), ReplayLe)
    ensures forall e :: e in OrderedEvents(events) <==> e in events
  {
    ReplayOrder();
  }
}
