/** The reference graph of stored evidence, as the strict and the tolerant reader parse it. */
module Lineage {
  import opened Common
  import opened EvidenceTypes

  /** A JSON value as the readers see it: null, or a value that may be a string (`text`) and
      whose printed form may parse as a UUID (`uuid`). */
  datatype Raw = Null | Value(text: Option<string>, uuid: Option<string>)

  type Document = map<string, Raw>

  function Get(d: Document, key: string): Raw {
    if key in d then d[key] else Null
  }

  datatype Item = Dict(fields: Document) | NotDict

  /** The `telemetry_parents` entry of a payload. */
  datatype ItemList = Absent | Items(items: seq<Item>) | NotIterable

  datatype Stored = Stored(
    evidenceId: string, kind: Kind, observedAt: int, digest: string, intact: bool,
    payload: Document, provenance: Document, telemetryParents: ItemList)

  /** Stored evidence is immutable, so an identity determines its record. */
  type Store = s: map<string, Stored> | forall id :: id in s ==> s[id].evidenceId == id

  datatype Pair = Pair(id: Raw, digest: Raw)

  datatype ReadError =
    | NoRoot | TwoDigests | Unavailable | VerificationFailed | DifferentScope
    | TelemetryMalformed | DigestMalformed | IdentityMalformed | NotIterableParents | BoundExceeded

  // ---------------------------------------------------------------- parent references

  /** The fixed reference fields of each evidence type. */
  function FixedPairs(r: Stored): seq<Pair> {
    var raw := Pair(Get(r.payload, "source_evidence_id"), Get(r.payload, "source_evidence_integrity_sha256"));
    var semantic := Pair(Get(r.payload, "semantic_event_id"), Get(r.payload, "semantic_evidence_integrity_sha256"));
    match r.kind
    case RawKind => []
    case TelemetryKind => []
    case SemanticKind => [raw]
    case ContextKind => [raw, semantic]
    case PolicyKind =>
      [raw, semantic, Pair(Get(r.payload, "asset_context_event_id"),
        Get(r.provenance, "asset_context_integrity_sha256"))]
    case CorrelationKind =>
      [Pair(Get(r.payload, "primary_cyber_evidence_id"), Get(r.payload, "primary_cyber_evidence_integrity_sha256")),
       Pair(Get(r.payload, "semantic_evidence_id"), Get(r.payload, "semantic_evidence_integrity_sha256")),
       Pair(Get(r.payload, "asset_context_evidence_id"), Get(r.payload, "asset_context_evidence_integrity_sha256")),
       Pair(Get(r.payload, "policy_finding_evidence_id"), Get(r.payload, "policy_finding_evidence_integrity_sha256"))]
  }

  function ItemPairs(items: seq<Item>): seq<Pair> {
    if items == [] then []
    else
      var rest, last := ItemPairs(items[..|items| - 1]), items[|items| - 1];
      if last.NotDict? then rest else rest + [Pair(Get(last.fields, "evidence_id"),
        Get(last.fields, "integrity_sha256"))]
  }

  function TelemetryPairs(r: Stored): Result<seq<Pair>, ReadError> {
    if !r.kind.CorrelationKind? || r.telemetryParents.Absent? then Ok([])
    else if r.telemetryParents.NotIterable? then Err(NotIterableParents)
    else Ok(ItemPairs(r.telemetryParents.items))
  }

  /** The strict reader skips only a pair of nulls and refuses anything else malformed. */
  function StrictRefs(pairs: seq<Pair>): Result<seq<Ref>, ReadError> {
    if pairs == [] then Ok([])
    else
      var rest :- StrictRefs(pairs[..|pairs| - 1]);
      var p := pairs[|pairs| - 1];
      if p.id.Null? && p.digest.Null? then Ok(rest)
      else if p.digest.Null? || p.digest.text.None? || |p.digest.text.value| != 64 then Err(DigestMalformed)
      else if p.id.Null? || p.id.uuid.None? then Err(IdentityMalformed)
      else Ok(rest + [Ref(p.id.uuid.value, p.digest.text.value)])
  }

  /** The tolerant reader drops every pair it cannot read. */
  function TolerantRefs(pairs: seq<Pair>): seq<Ref> {
    if pairs == [] then []
    else
      var rest, p := TolerantRefs(pairs[..|pairs| - 1]), pairs[|pairs| - 1];
      if p.id.Null? || p.digest.Null? || p.digest.text.None? || p.id.uuid.None? then rest
      else rest + [Ref(p.id.uuid.value, p.digest.text.value)]
  }

  predicate StrayItem(r: Stored) {
    r.kind.CorrelationKind? && r.telemetryParents.Items? && NotDict in r.telemetryParents.items
  }

  function StrictParents(r: Stored): Result<seq<Ref>, ReadError> {
    var telemetry :- TelemetryPairs(r);
    if StrayItem(r) then Err(TelemetryMalformed) else StrictRefs(FixedPairs(r) + telemetry)
  }

  function TolerantParents(r: Stored): Result<seq<Ref>, ReadError> {
    var telemetry :- TelemetryPairs(r);
    Ok(TolerantRefs(FixedPairs(r) + telemetry))
  }

  /** Whatever the strict reader accepts, the tolerant reader reads identically. */
  lemma StrictParseIsTolerantParse(r: Stored)
    ensures StrictParents(r).Ok? ==> TolerantParents(r) == StrictParents(r)
  {
    hide FixedPairs, ItemPairs;
    if TelemetryPairs(r).Ok? {
      StrictRefsAreTolerantRefs(FixedPairs(r) + TelemetryPairs(r).value);
    }
  }

  lemma {:induction false} StrictRefsAreTolerantRefs(pairs: seq<Pair>)
    ensures StrictRefs(pairs).Ok? ==> TolerantRefs(pairs) == StrictRefs(pairs).value
  {
    if pairs != [] {
      StrictRefsAreTolerantRefs(pairs[..|pairs| - 1]);
    }
  }

  /** All null, or a 64-character digest beside a parsable identity. */
  predicate Readable(p: Pair) {
    || (p.id.Null? && p.digest.Null?)
    || (p.id.Value? && p.id.uuid.Some? && p.digest.Value? && p.digest.text.Some? && |p.digest.text.value| == 64)
  }

  lemma {:induction false} StrictAcceptsExactlyReadable(pairs: seq<Pair>)
    ensures StrictRefs(pairs).Ok? <==> forall p :: p in pairs ==> Readable(p)
  {
    if pairs != [] {
      var init, last := pairs[..|pairs| - 1], pairs[|pairs| - 1];
      StrictAcceptsExactlyReadable(init);
      assert pairs == init + [last];
      assert StrictRefs(pairs).Ok? <==> StrictRefs(init).Ok? && Readable(last);
      assert forall p :: p in pairs <==> p in init || p == last;
    }
  }

  /** Every reference of the record is readable and every telemetry parent is an object. */
  predicate WhollyReadable(r: Stored) {
    TelemetryPairs(r).Ok? && !StrayItem(r) && forall p :: p in FixedPairs(r) + TelemetryPairs(r).value ==> Readable(p)
  }

  /** The two readers agree exactly on wholly readable records, and where both give up because the
      parent list cannot be iterated. */
  lemma ReadersAgreeExactly(r: Stored)
    ensures StrictParents(r) == TolerantParents(r) <==> WhollyReadable(r) || TelemetryPairs(r).Err?
    ensures StrictParents(r).Ok? <==> WhollyReadable(r)
  {
    StrictParseIsTolerantParse(r);
    hide FixedPairs, ItemPairs, StrictRefs, TolerantRefs, Readable;
    if TelemetryPairs(r).Ok? {
      StrictAcceptsExactlyReadable(FixedPairs(r) + TelemetryPairs(r).value);
    }
  }

  /** A semantic event whose digest lost a character: refused by one reader, read by the other. */
  lemma TolerantReadsMoreThanStrict(id: string, digest: string)
    requires |digest| == 63
    ensures
      var r := Stored("child", SemanticKind, 0, "", true,
                      map["source_evidence_id" := Value(Some(id), Some(id)),
                          "source_evidence_integrity_sha256" := Value(Some(digest), None)],
                      map[], Absent);
      StrictParents(r) == Err(DigestMalformed) && TolerantParents(r) == Ok([Ref(id, digest)])
  {
    var p := Pair(Value(Some(id), Some(id)), Value(Some(digest), None));
    assert [p][..0] == [];
    assert [p] + [] == [p];
    assert StrictRefs([p]) == Err(DigestMalformed);
    assert TolerantRefs([p]) == [Ref(id, digest)];
  }

  // ---------------------------------------------------------------- which fields name a parent

  /** The identity parses and the digest is text, and together they are the reference. */
  predicate Names(id: Raw, digest: Raw, ref: Ref) {
    id.Value? && id.uuid == Some(ref.evidenceId) && digest.Value? && digest.text == Some(ref.digest)
  }

  predicate NamedAt(r: Stored, idKey: string, digestKey: string, ref: Ref) {
    Names(Get(r.payload, idKey), Get(r.payload, digestKey), ref)
  }

  predicate NamedItem(item: Item, ref: Ref) {
    item.Dict? && Names(Get(item.fields, "evidence_id"), Get(item.fields, "integrity_sha256"), ref)
  }

  predicate NamesRaw(r: Stored, ref: Ref) {
    NamedAt(r, "source_evidence_id", "source_evidence_integrity_sha256", ref)
  }

  predicate NamesSemantic(r: Stored, ref: Ref) {
    NamedAt(r, "semantic_event_id", "semantic_evidence_integrity_sha256", ref)
  }

  /** The digest of a policy finding's asset context stands in its provenance. */
  predicate NamesContext(r: Stored, ref: Ref) {
    Names(Get(r.payload, "asset_context_event_id"), Get(r.provenance, "asset_context_integrity_sha256"), ref)
  }

  predicate NamesTelemetry(r: Stored, ref: Ref) {
    r.telemetryParents.Items? && exists item :: item in r.telemetryParents.items && NamedItem(item, ref)
  }

  /** What each evidence type is derived from, field by field. */
  predicate NamedParent(r: Stored, ref: Ref) {
    match r.kind
    case RawKind => false
    case TelemetryKind => false
    case SemanticKind => NamesRaw(r, ref)
    case ContextKind => NamesRaw(r, ref) || NamesSemantic(r, ref)
    case PolicyKind => NamesRaw(r, ref) || NamesSemantic(r, ref) || NamesContext(r, ref)
    case CorrelationKind =>
      || NamedAt(r, "primary_cyber_evidence_id", "primary_cyber_evidence_integrity_sha256", ref)
      || NamedAt(r, "semantic_evidence_id", "semantic_evidence_integrity_sha256", ref)
      || NamedAt(r, "asset_context_evidence_id", "asset_context_evidence_integrity_sha256", ref)
      || NamedAt(r, "policy_finding_evidence_id", "policy_finding_evidence_integrity_sha256", ref)
      || NamesTelemetry(r, ref)
  }

  /** Both readers follow exactly the named parents. */
  lemma ParentsAreNamed(r: Stored, ref: Ref)
    ensures TolerantParents(r).Ok? ==> (ref in TolerantParents(r).value <==> NamedParent(r, ref))
    ensures StrictParents(r).Ok? ==> (ref in StrictParents(r).value <==> NamedParent(r, ref))
  {
    StrictParseIsTolerantParse(r);
    if TolerantParents(r).Ok? {
      var telemetry := TelemetryPairs(r).value;
      TolerantRefsAreNamed(FixedPairs(r) + telemetry, ref);
      FixedPairsAreNamed(r, ref);
      TelemetryPairsAreNamed(r, ref);
      hide FixedPairs, TelemetryPairs, TolerantRefs, NamedParent, NamesTelemetry, Names;
      assert forall p :: p in FixedPairs(r) + telemetry <==> p in FixedPairs(r) || p in telemetry;
    }
  }

  ghost predicate PairNames(pairs: seq<Pair>, ref: Ref) {
    exists p :: p in pairs && Names(p.id, p.digest, ref)
  }

  lemma {:induction false} TolerantRefsAreNamed(pairs: seq<Pair>, ref: Ref)
    ensures ref in TolerantRefs(pairs) <==> PairNames(pairs, ref)
  {
    if pairs != [] {
      var init, last := pairs[..|pairs| - 1], pairs[|pairs| - 1];
      TolerantRefsAreNamed(init, ref);
      assert pairs == init + [last];
      assert PairNames(pairs, ref) <==> PairNames(init, ref) || Names(last.id, last.digest, ref);
    }
  }

  lemma FixedPairsAreNamed(r: Stored, ref: Ref)
    ensures NamedParent(r, ref) <==>
      PairNames(FixedPairs(r), ref) || (r.kind.CorrelationKind? && NamesTelemetry(r, ref))
  {
    hide NamesTelemetry;
    var pairs := FixedPairs(r);
    assert |pairs| > 0 ==> pairs[0] in pairs;
    assert |pairs| > 1 ==> pairs[1] in pairs;
    assert |pairs| > 2 ==> pairs[2] in pairs;
    assert |pairs| > 3 ==> pairs[3] in pairs;
  }

  lemma TelemetryPairsAreNamed(r: Stored, ref: Ref)
    ensures TelemetryPairs(r).Ok? ==>
      (PairNames(TelemetryPairs(r).value, ref) <==> r.kind.CorrelationKind? && NamesTelemetry(r, ref))
  {
    if r.kind.CorrelationKind? && r.telemetryParents.Items? {
      ItemPairsAreNamed(r.telemetryParents.items, ref);
    }
  }

  lemma {:induction false} ItemPairsAreNamed(items: seq<Item>, ref: Ref)
    ensures PairNames(ItemPairs(items), ref) <==> exists item :: item in items && NamedItem(item, ref)
  {
    if items != [] {
      var init, last := items[..|items| - 1], items[|items| - 1];
      ItemPairsAreNamed(init, ref);
      assert items == init + [last];
      assert forall item :: item in items <==> item in init || item == last;
      if last.Dict? {
        var p := Pair(Get(last.fields, "evidence_id"), Get(last.fields, "integrity_sha256"));
        assert ItemPairs(items) == ItemPairs(init) + [p];
        assert p in ItemPairs(items);
        assert PairNames(ItemPairs(items), ref) <==> PairNames(ItemPairs(init), ref) || Names(p.id, p.digest, ref);
        assert NamedItem(last, ref) <==> Names(p.id, p.digest, ref);
      }
      assert last in items && (forall item :: item in init ==> item in items);
    }
  }

  predicate ReadableAt(r: Stored, idKey: string, digestKey: string) {
    Readable(Pair(Get(r.payload, idKey), Get(r.payload, digestKey)))
  }

  predicate FieldsReadable(r: Stored) {
    var raw := ReadableAt(r, "source_evidence_id", "source_evidence_integrity_sha256");
    var semantic := ReadableAt(r, "semantic_event_id", "semantic_evidence_integrity_sha256");
    match r.kind
    case RawKind => true
    case TelemetryKind => true
    case SemanticKind => raw
    case ContextKind => raw && semantic
    case PolicyKind =>
      raw && semantic &&
      Readable(Pair(Get(r.payload, "asset_context_event_id"), Get(r.provenance, "asset_context_integrity_sha256")))
    case CorrelationKind =>
      && ReadableAt(r, "primary_cyber_evidence_id", "primary_cyber_evidence_integrity_sha256")
      && ReadableAt(r, "semantic_evidence_id", "semantic_evidence_integrity_sha256")
      && ReadableAt(r, "asset_context_evidence_id", "asset_context_evidence_integrity_sha256")
      && ReadableAt(r, "policy_finding_evidence_id", "policy_finding_evidence_integrity_sha256")
  }

  predicate ItemReadable(item: Item) {
    item.Dict? && Readable(Pair(Get(item.fields, "evidence_id"), Get(item.fields, "integrity_sha256")))
  }

  /** A record is accepted by the strict reader exactly when every field and item it names parents
      with is readable. */
  lemma StrictAcceptsFields(r: Stored)
    ensures StrictParents(r).Ok? <==>
      && FieldsReadable(r)
      && (r.kind.CorrelationKind? && !r.telemetryParents.Absent? ==>
            r.telemetryParents.Items? && forall item :: item in r.telemetryParents.items ==> ItemReadable(item))
  {
    ReadersAgreeExactly(r);
    FieldsReadableExactly(r);
    if TelemetryPairs(r).Ok? {
      var telemetry := TelemetryPairs(r).value;
      assert forall p :: p in FixedPairs(r) + telemetry <==> p in FixedPairs(r) || p in telemetry;
      if r.kind.CorrelationKind? && r.telemetryParents.Items? { ItemsReadableExactly(r.telemetryParents.items); }
    }
    hide FixedPairs, ItemPairs, StrictParents, TolerantParents, FieldsReadable, Readable;
  }

  lemma FieldsReadableExactly(r: Stored)
    ensures FieldsReadable(r) <==> forall p :: p in FixedPairs(r) ==> Readable(p)
  {
    var pairs := FixedPairs(r);
    hide Readable;
    assert |pairs| > 0 ==> pairs[0] in pairs;
    assert |pairs| > 1 ==> pairs[1] in pairs;
    assert |pairs| > 2 ==> pairs[2] in pairs;
    assert |pairs| > 3 ==> pairs[3] in pairs;
  }

  lemma {:induction false} ItemsReadableExactly(items: seq<Item>)
    ensures NotDict !in items && (forall p :: p in ItemPairs(items) ==> Readable(p)) <==>
      forall item :: item in items ==> ItemReadable(item)
  {
    if items != [] {
      var init, last := items[..|items| - 1], items[|items| - 1];
      ItemsReadableExactly(init);
      assert items == init + [last];
      assert forall item :: item in items <==> item in init || item == last;
      if last.Dict? {
        var p := Pair(Get(last.fields, "evidence_id"), Get(last.fields, "integrity_sha256"));
        assert ItemPairs(items) == ItemPairs(init) + [p];
        assert forall x :: x in ItemPairs(items) <==> x in ItemPairs(init) || x == p;
        assert ItemReadable(last) <==> Readable(p);
      }
      assert NotDict in items <==> NotDict in init || last == NotDict;
      hide Readable, ItemReadable;
      assert (forall item :: item in items ==> ItemReadable(item)) <==>
        (forall item :: item in init ==> ItemReadable(item)) && ItemReadable(last);
    }
  }

  // ---------------------------------------------------------------- scope

  datatype Scope = Scope(simulation: Option<string>, configuration: Option<string>)

  const UNBOUND := Scope(None, None)

  function TextOf(v: Raw): Option<string> {
    if v.Null? then None else v.text
  }

  function RecordScope(r: Stored): Scope {
    Scope(TextOf(Get(r.payload, "simulation_id")), TextOf(Get(r.payload, "configuration_hash")))
  }

  /** Unscoped, or of exactly the expected run. */
  predicate StrictScope(r: Stored, expected: Scope) {
    RecordScope(r) == UNBOUND || RecordScope(r) == expected
  }

  /** Not of a visibly different run. */
  predicate TolerantScope(r: Stored, expected: Scope) {
    RecordScope(r).simulation.None? || expected.simulation.None? || RecordScope(r) == expected
  }

  predicate HasText(d: Document, key: string, text: string) {
    key in d && d[key].Value? && d[key].text == Some(text)
  }

  /** A record's run and configuration are the two string fields of its payload. */
  lemma ScopeIsRead(r: Stored, text: string)
    ensures RecordScope(r).simulation == Some(text) <==> HasText(r.payload, "simulation_id", text)
    ensures RecordScope(r).configuration == Some(text) <==> HasText(r.payload, "configuration_hash", text)
  {
  }

  /** The strict check implies the tolerant one; they differ exactly on a record whose run or whose
      expected run is unknown while something else is not as expected. */
  lemma ScopeChecksDiffer(r: Stored, expected: Scope)
    ensures StrictScope(r, expected) ==> TolerantScope(r, expected)
    ensures TolerantScope(r, expected) && !StrictScope(r, expected) <==>
      && RecordScope(r) != expected && RecordScope(r) != Scope(None, None)
      && (RecordScope(r).simulation.None? || expected.simulation.None?)
  {
    hide RecordScope;
  }

  // ---------------------------------------------------------------- reachability

  datatype Reader = Strict | Tolerant

  function Parents(reader: Reader, r: Stored): Result<seq<Ref>, ReadError> {
    if reader.Strict? then StrictParents(r) else TolerantParents(r)
  }

  predicate InScope(reader: Reader, r: Stored, expected: Scope) {
    if reader.Strict? then StrictScope(r, expected) else TolerantScope(r, expected)
  }

  predicate RefersTo(reader: Reader, r: Stored, ref: Ref) {
    Parents(reader, r).Ok? && ref in Parents(reader, r).value
  }

  /** Reached from the roots over `n` parent references. */
  ghost predicate ReachedIn(store: Store, reader: Reader, roots: seq<Ref>, id: string, n: nat)
    decreases n
  {
    if n == 0 then exists ref :: ref in roots && ref.evidenceId == id
    else exists p, ref ::
      p in store && ReachedIn(store, reader, roots, p, n - 1) && RefersTo(reader, store[p], ref) && ref.evidenceId == id
  }

  ghost predicate Reached(store: Store, reader: Reader, roots: seq<Ref>, id: string) {
    exists n: nat :: ReachedIn(store, reader, roots, id, n)
  }

  /** A reference met on the way: a root, or a parent reference of a reached record. */
  ghost predicate Met(store: Store, reader: Reader, roots: seq<Ref>, ref: Ref) {
    ref in roots || exists p :: p in store && Reached(store, reader, roots, p) && RefersTo(reader, store[p], ref)
  }

  ghost function ReachedRecords(store: Store, reader: Reader, roots: seq<Ref>): set<string> {
    set id | id in store && Reached(store, reader, roots, id)
  }

  lemma MetIsReached(store: Store, reader: Reader, roots: seq<Ref>, ref: Ref)
    requires Met(store, reader, roots, ref)
    ensures Reached(store, reader, roots, ref.evidenceId)
  {
    hide RefersTo;
    if ref in roots {
      assert ReachedIn(store, reader, roots, ref.evidenceId, 0);
    } else {
      var p :| p in store && Reached(store, reader, roots, p) && RefersTo(reader, store[p], ref);
      var n: nat :| ReachedIn(store, reader, roots, p, n);
      assert ReachedIn(store, reader, roots, ref.evidenceId, n + 1);
    }
  }

  /** A set that holds the roots and the parents of its own records holds everything reached. */
  ghost predicate Closed(store: Store, reader: Reader, roots: seq<Ref>, s: set<string>) {
    && (forall ref :: ref in roots ==> ref.evidenceId in s)
    && (forall p, ref :: p in s && p in store && RefersTo(reader, store[p], ref) ==> ref.evidenceId in s)
  }

  lemma {:induction false} ClosedHoldsReached(store: Store, reader: Reader, roots: seq<Ref>, s: set<string>, id: string,
                                              n: nat)
    requires Closed(store, reader, roots, s) && ReachedIn(store, reader, roots, id, n)
    ensures id in s
    decreases n
  {
    hide RefersTo;
    if n > 0 {
      var p, ref :|
        p in store && ReachedIn(store, reader, roots, p, n - 1) && RefersTo(reader, store[p], ref) &&
          ref.evidenceId == id;
      ClosedHoldsReached(store, reader, roots, s, p, n - 1);
    }
  }

  /** Everything a reader asks of one record. */
  predicate Sound(reader: Reader, r: Stored, expected: Scope) {
    r.intact && InScope(reader, r, expected) && Parents(reader, r).Ok?
  }

  ghost predicate Consistent(store: Store, ref: Ref) {
    ref.evidenceId in store && store[ref.evidenceId].digest == ref.digest
  }

  const MAX_LINKED_EVIDENCE := 2_000

  /** The lineage of the roots as a whole: every reference met names a stored record by its
      stored digest, every record reached is sound, and they are at most 2,000. */
  ghost predicate Admissible(store: Store, reader: Reader, roots: seq<Ref>, expected: Scope) {
    && (forall ref :: Met(store, reader, roots, ref) ==> Consistent(store, ref))
    && (forall id :: id in ReachedRecords(store, reader, roots) ==> Sound(reader, store[id], expected))
    && |ReachedRecords(store, reader, roots)| <= MAX_LINKED_EVIDENCE
  }

  // ---------------------------------------------------------------- the two readers compared

  lemma {:induction false} SameReachIn(store: Store, roots: seq<Ref>, others: seq<Ref>, id: string, n: nat)
    requires forall ref :: ref in roots <==> ref in others
    requires forall p :: p in ReachedRecords(store, Strict, roots) ==> StrictParents(store[p]).Ok?
    ensures ReachedIn(store, Strict, roots, id, n) <==> ReachedIn(store, Tolerant, others, id, n)
    decreases n
  {
    hide StrictParents, TolerantParents;
    if n > 0 {
      forall p | p in store
        ensures ReachedIn(store, Strict, roots, p, n - 1) <==> ReachedIn(store, Tolerant, others, p, n - 1)
      {
        SameReachIn(store, roots, others, p, n - 1);
      }
      forall p | p in store && ReachedIn(store, Strict, roots, p, n - 1)
        ensures Parents(Strict, store[p]) == Parents(Tolerant, store[p])
      {
        assert p in ReachedRecords(store, Strict, roots);
        StrictParseIsTolerantParse(store[p]);
      }
    }
  }

  lemma SameReach(store: Store, roots: seq<Ref>, others: seq<Ref>)
    requires forall ref :: ref in roots <==> ref in others
    requires forall p :: p in ReachedRecords(store, Strict, roots) ==> StrictParents(store[p]).Ok?
    ensures ReachedRecords(store, Strict, roots) == ReachedRecords(store, Tolerant, others)
  {
    forall id, n: nat
      ensures ReachedIn(store, Strict, roots, id, n) <==> ReachedIn(store, Tolerant, others, id, n)
    {
      SameReachIn(store, roots, others, id, n);
    }
  }

  /** A lineage the strict reader admits is admitted, record for record, by the tolerant one. */
  lemma StrictlyAdmissibleIsTolerable(store: Store, roots: seq<Ref>, others: seq<Ref>, expected: Scope)
    requires forall ref :: ref in roots <==> ref in others
    ensures Admissible(store, Strict, roots, expected) ==>
      Admissible(store, Tolerant, others, expected) &&
      ReachedRecords(store, Tolerant, others) == ReachedRecords(store, Strict, roots)
  {
    hide StrictParents, TolerantParents, RecordScope;
    if Admissible(store, Strict, roots, expected) {
      var reached := ReachedRecords(store, Strict, roots);
      assert forall p :: p in reached ==> Sound(Strict, store[p], expected);
      SameReach(store, roots, others);
      forall id | id in reached
        ensures Parents(Strict, store[id]) == Parents(Tolerant, store[id]) && Sound(Tolerant, store[id], expected)
      {
        StrictParseIsTolerantParse(store[id]);
      }
      forall ref | Met(store, Tolerant, others, ref)
        ensures Met(store, Strict, roots, ref)
      {
        if ref !in others {
          var p :| p in store && Reached(store, Tolerant, others, p) && RefersTo(Tolerant, store[p], ref);
          assert p in ReachedRecords(store, Tolerant, others);
          assert RefersTo(Strict, store[p], ref);
        }
      }
    }
  }
}
