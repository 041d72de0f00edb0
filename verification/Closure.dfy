/** The two breadth-first lineage closures: the strict one that links evidence to a laboratory
    run, and the tolerant one behind replay. Both walk graphs that may have cycles. */
module Closure {
  import opened Common
  import opened Text
  import opened Sorting
  import opened EvidenceTypes
  import opened Lineage

  // ---------------------------------------------------------------- reading parents

  method ReadStrict(r: Stored) returns (refs: Result<seq<Ref>, ReadError>)
    ensures refs == StrictParents(r)
  {
    hide FixedPairs, ItemPairs;
    var telemetry := TelemetryPairs(r);
    if telemetry.Err? { return Err(telemetry.error); }
    if StrayItem(r) { return Err(TelemetryMalformed); }
    var pairs := FixedPairs(r) + telemetry.value;
    var found: seq<Ref> := [];
    for k := 0 to |pairs|
      invariant StrictRefs(pairs[..k]) == Ok(found)
    {
      StrictRefsStep(pairs, k);
      if pairs[k].id.Null? && pairs[k].digest.Null? { continue; }
      if pairs[k].digest.Null? || pairs[k].digest.text.None? || |pairs[k].digest.text.value| != 64 {
        return Err(DigestMalformed);
      }
      if pairs[k].id.Null? || pairs[k].id.uuid.None? { return Err(IdentityMalformed); }
      found := found + [Ref(pairs[k].id.uuid.value, pairs[k].digest.text.value)];
    }
    assert pairs[..|pairs|] == pairs;
    return Ok(found);
  }

  /** The first malformed pair decides, whatever follows it. */
  lemma {:induction false} StrictRefsStep(pairs: seq<Pair>, k: nat)
    requires k < |pairs|
    ensures pairs[..k + 1][..k] == pairs[..k]
    ensures StrictRefs(pairs[..k + 1]).Err? ==> StrictRefs(pairs) == StrictRefs(pairs[..k + 1])
    decreases |pairs|
  {
    if k + 1 == |pairs| {
      assert pairs[..k + 1] == pairs;
    } else {
      var init := pairs[..|pairs| - 1];
      StrictRefsStep(init, k);
      assert init[..k + 1] == pairs[..k + 1];
    }
  }

  method ReadTolerant(r: Stored) returns (refs: Result<seq<Ref>, ReadError>)
    ensures refs == TolerantParents(r)
  {
    hide FixedPairs, ItemPairs;
    var telemetry := TelemetryPairs(r);
    if telemetry.Err? { return Err(telemetry.error); }
    var pairs := FixedPairs(r) + telemetry.value;
    var found: seq<Ref> := [];
    for k := 0 to |pairs|
      invariant TolerantRefs(pairs[..k]) == found
    {
      assert pairs[..k + 1][..k] == pairs[..k];
      var p := pairs[k];
      if p.id.Value? && p.digest.Value? && p.digest.text.Some? && p.id.uuid.Some? {
        found := found + [Ref(p.id.uuid.value, p.digest.text.value)];
      }
    }
    assert pairs[..|pairs|] == pairs;
    return Ok(found);
  }

  // ---------------------------------------------------------------- the order of linked evidence

  predicate LinkedLe(a: Stored, b: Stored) {
    if a.observedAt != b.observedAt then a.observedAt < b.observedAt
    else if TypeName(a.kind) != TypeName(b.kind) then StringLe(TypeName(a.kind), TypeName(b.kind))
    else StringLe(a.evidenceId, b.evidenceId)
  }

  lemma LinkedOrder()
    ensures Total(LinkedLe)
  {
    hide TypeName, StringLe;
    forall x, y
      ensures LinkedLe(x, y) || LinkedLe(y, x)
    {
      StringLeTotal(TypeName(x.kind), TypeName(y.kind));
      StringLeTotal(x.evidenceId, y.evidenceId);
    }
    forall x, y, z | LinkedLe(x, y) && LinkedLe(y, z)
      ensures LinkedLe(x, z)
    {
      LinkedTransitive(x, y, z);
    }
  }

  lemma LinkedTransitive(x: Stored, y: Stored, z: Stored)
    requires LinkedLe(x, y) && LinkedLe(y, z)
    ensures LinkedLe(x, z)
  {
    hide TypeName, StringLe;
    var a, b, c := TypeName(x.kind), TypeName(y.kind), TypeName(z.kind);
    if x.observedAt == y.observedAt == z.observedAt {
      if a == b == c {
        StringLeTransitive(x.evidenceId, y.evidenceId, z.evidenceId);
      } else {
        StringLeTotal(a, b);
        StringLeTotal(b, c);
        StringLeTotal(a, a);
        StringLeTransitive(a, b, c);
        StringLeTotal(a, c);
      }
    }
  }

  /** Earlier first, then by type name, then by identity. */
  lemma LinkedOrderExactly(a: Stored, b: Stored)
    ensures LinkedLe(a, b) <==>
      || a.observedAt < b.observedAt
      || (a.observedAt == b.observedAt && a.kind != b.kind && StringLe(TypeName(a.kind), TypeName(b.kind)))
      || (a.observedAt == b.observedAt && a.kind == b.kind && StringLe(a.evidenceId, b.evidenceId))
  {
    TypeNamesDiffer(a.kind, b.kind);
    hide TypeName, StringLe;
  }

  lemma TypeNamesDiffer(a: Kind, b: Kind)
    ensures TypeName(a) == TypeName(b) <==> a == b
  {
    assert |TypeName(RawKind)| == 24 && |TypeName(SemanticKind)| == 23 && |TypeName(ContextKind)| == 19;
    assert |TypeName(PolicyKind)| == 28 && |TypeName(CorrelationKind)| == 19 && |TypeName(TelemetryKind)| == 19;
    assert TypeName(ContextKind)[0] == 'a' && TypeName(CorrelationKind)[0] == 'c' && TypeName(TelemetryKind)[0] == 's';
  }

  ghost function Ids(records: seq<Stored>): set<string> {
    set r | r in records :: r.evidenceId
  }

  /** The records of `ids`, each once. */
  ghost predicate Lists(store: Store, records: seq<Stored>, ids: set<string>) {
    && Distinct(records)
    && (forall r :: r in records ==> r.evidenceId in ids && r.evidenceId in store && r == store[r.evidenceId])
    && (forall id :: id in ids ==> id in store && store[id] in records)
  }

  lemma ListsIds(store: Store, records: seq<Stored>, ids: set<string>)
    requires Lists(store, records, ids)
    ensures Ids(records) == ids
  {
    forall id | id in ids
      ensures id in Ids(records)
    {
      assert store[id] in records;
    }
  }

  lemma ListsMore(store: Store, records: seq<Stored>, ids: set<string>, ref: Ref)
    requires Lists(store, records, ids) && ref.evidenceId !in ids && Consistent(store, ref)
    ensures Lists(store, records + [store[ref.evidenceId]], ids + {ref.evidenceId})
  {
    DistinctAppend(records, [store[ref.evidenceId]]);
  }

  ghost predicate Copies(store: Store, accepted: map<string, Stored>, visited: set<string>) {
    accepted.Keys == visited && forall id :: id in accepted ==> id in store && accepted[id] == store[id]
  }

  lemma CopiesAt(store: Store, accepted: map<string, Stored>, visited: set<string>, id: string)
    requires Copies(store, accepted, visited)
    ensures id in visited <==> id in accepted
    ensures id in visited ==> id in store && accepted[id] == store[id]
  {
  }

  lemma CopiesMore(store: Store, accepted: map<string, Stored>, visited: set<string>, ref: Ref)
    requires Copies(store, accepted, visited) && Consistent(store, ref)
    ensures Copies(store, accepted[ref.evidenceId := store[ref.evidenceId]], visited + {ref.evidenceId})
  {
  }

  lemma ListedSorted(store: Store, records: seq<Stored>, ids: set<string>)
    requires Lists(store, records, ids) && Total(LinkedLe)
    ensures Lists(store, Sort(records, LinkedLe), ids)
  {
    hide LinkedLe, Total, Sorted;
    DistinctPermutation(records, Sort(records, LinkedLe));
  }

  // ---------------------------------------------------------------- progress of a closure

  ghost predicate Settled(store: Store, visited: set<string>, ref: Ref) {
    ref.evidenceId in visited && Consistent(store, ref)
  }

  /** Visited records were met by their stored digest and are sound. */
  ghost predicate VisitedSound(store: Store, reader: Reader, roots: seq<Ref>, expected: Scope, visited: set<string>) {
    forall id :: id in visited ==>
      id in store && Met(store, reader, roots, Ref(id, store[id].digest)) && Sound(reader, store[id], expected)
  }

  ghost predicate AllMet(store: Store, reader: Reader, roots: seq<Ref>, pending: seq<Ref>) {
    forall ref :: ref in pending ==> Met(store, reader, roots, ref)
  }

  ghost predicate Covers(store: Store, pending: seq<Ref>, visited: set<string>, refs: seq<Ref>) {
    forall ref :: ref in refs ==> ref in pending || Settled(store, visited, ref)
  }

  /** Every reference of a root or of a visited record is still pending or settled. */
  ghost predicate Covered(store: Store, reader: Reader, roots: seq<Ref>, pending: seq<Ref>, visited: set<string>) {
    && Covers(store, pending, visited, roots)
    && (forall p :: p in visited && p in store && Parents(reader, store[p]).Ok? ==>
          Covers(store, pending, visited, Parents(reader, store[p]).value))
  }

  ghost predicate Progress(store: Store, reader: Reader, roots: seq<Ref>, expected: Scope, pending: seq<Ref>,
                           visited: set<string>) {
    && VisitedSound(store, reader, roots, expected, visited)
    && AllMet(store, reader, roots, pending)
    && Covered(store, reader, roots, pending, visited)
  }

  lemma ProgressStarts(store: Store, reader: Reader, roots: seq<Ref>, expected: Scope)
    ensures Progress(store, reader, roots, expected, roots, {})
  {
  }

  lemma ProgressMeets(store: Store, reader: Reader, roots: seq<Ref>, expected: Scope, pending: seq<Ref>,
                      visited: set<string>)
    requires pending != [] && Progress(store, reader, roots, expected, pending, visited)
    ensures Met(store, reader, roots, pending[0])
    ensures var id := pending[0].evidenceId;
      id in visited ==> id in store && Met(store, reader, roots, Ref(id, store[id].digest))
    ensures pending[0].evidenceId in visited && Consistent(store, pending[0]) ==> Settled(store, visited, pending[0])
  {
    hide Met, Covered;
  }

  lemma ProgressSkips(store: Store, reader: Reader, roots: seq<Ref>, expected: Scope, pending: seq<Ref>,
                      visited: set<string>)
    requires pending != [] && Progress(store, reader, roots, expected, pending, visited)
    requires Settled(store, visited, pending[0])
    ensures Progress(store, reader, roots, expected, pending[1..], visited)
  {
    hide Met, Sound, Parents, Settled;
    assert pending == [pending[0]] + pending[1..];
  }

  lemma CoversMore(store: Store, pending: seq<Ref>, visited: set<string>, parents: seq<Ref>, refs: seq<Ref>)
    requires pending != [] && Consistent(store, pending[0])
    ensures Covers(store, pending, visited, refs) ==>
      Covers(store, pending[1..] + parents, visited + {pending[0].evidenceId}, refs)
  {
    hide Consistent;
    assert pending == [pending[0]] + pending[1..];
  }

  lemma ProgressVisits(store: Store, reader: Reader, roots: seq<Ref>, expected: Scope, pending: seq<Ref>,
                       visited: set<string>, parents: seq<Ref>)
    requires pending != [] && Progress(store, reader, roots, expected, pending, visited)
    requires Consistent(store, pending[0]) && Sound(reader, store[pending[0].evidenceId], expected)
    requires Parents(reader, store[pending[0].evidenceId]) == Ok(parents)
    ensures Progress(store, reader, roots, expected, pending[1..] + parents, visited + {pending[0].evidenceId})
  {
    var id := pending[0].evidenceId;
    assert pending[0] == Ref(id, store[id].digest) && Met(store, reader, roots, pending[0]);
    ParentsAreMet(store, reader, roots, pending[0], parents);
    hide Met, Sound, Parents, Consistent;
    assert VisitedSound(store, reader, roots, expected, visited + {id});
    assert AllMet(store, reader, roots, pending[1..] + parents);
    assert Covers(store, pending[1..] + parents, visited + {id}, parents);
    forall refs: seq<Ref> | Covers(store, pending, visited, refs)
      ensures Covers(store, pending[1..] + parents, visited + {id}, refs)
    {
      CoversMore(store, pending, visited, parents, refs);
    }
    hide Covers;
    assert Covered(store, reader, roots, pending[1..] + parents, visited + {id});
  }

  lemma ParentsAreMet(store: Store, reader: Reader, roots: seq<Ref>, ref: Ref, parents: seq<Ref>)
    requires Met(store, reader, roots, ref) && ref.evidenceId in store
    requires Parents(reader, store[ref.evidenceId]) == Ok(parents)
    ensures AllMet(store, reader, roots, parents)
  {
    MetIsReached(store, reader, roots, ref);
    hide Parents, Reached;
    forall parent | parent in parents
      ensures Met(store, reader, roots, parent)
    {
      assert RefersTo(reader, store[ref.evidenceId], parent);
    }
  }

  lemma VisitedIsReached(store: Store, reader: Reader, roots: seq<Ref>, expected: Scope, pending: seq<Ref>,
                         visited: set<string>)
    requires Progress(store, reader, roots, expected, pending, visited)
    ensures visited <= ReachedRecords(store, reader, roots) && |visited| <= |ReachedRecords(store, reader, roots)|
  {
    hide Reached, Sound, Met, Covered, AllMet;
    forall id | id in visited
      ensures id in ReachedRecords(store, reader, roots)
    {
      MetIsReached(store, reader, roots, Ref(id, store[id].digest));
    }
    SubsetSize(visited, ReachedRecords(store, reader, roots));
  }

  lemma SubsetSize<T>(a: set<T>, b: set<T>)
    requires a <= b
    ensures |a| <= |b|
  {
    assert b == a + (b - a);
    assert a !! (b - a);
  }

  lemma VisitedIsClosed(store: Store, reader: Reader, roots: seq<Ref>, visited: set<string>)
    requires Covered(store, reader, roots, [], visited)
    ensures Closed(store, reader, roots, visited)
    ensures forall ref :: ref in roots ==> Settled(store, visited, ref)
    ensures forall p, ref :: p in visited && p in store && RefersTo(reader, store[p], ref) ==>
      Settled(store, visited, ref)
  {
    hide Parents;
    forall p, ref | p in visited && p in store && RefersTo(reader, store[p], ref)
      ensures Settled(store, visited, ref)
    {
      assert Covers(store, [], visited, Parents(reader, store[p]).value);
    }
  }

  lemma ClosedHoldsAll(store: Store, reader: Reader, roots: seq<Ref>, s: set<string>)
    requires Closed(store, reader, roots, s)
    ensures forall id :: Reached(store, reader, roots, id) ==> id in s
  {
    hide Closed;
    forall id | Reached(store, reader, roots, id)
      ensures id in s
    {
      var n: nat :| ReachedIn(store, reader, roots, id, n);
      ClosedHoldsReached(store, reader, roots, s, id, n);
    }
  }

  lemma ProgressEnds(store: Store, reader: Reader, roots: seq<Ref>, expected: Scope, visited: set<string>)
    requires Progress(store, reader, roots, expected, [], visited)
    ensures visited == ReachedRecords(store, reader, roots)
    ensures forall id :: Reached(store, reader, roots, id) ==> id in visited
    ensures |visited| <= MAX_LINKED_EVIDENCE ==> Admissible(store, reader, roots, expected)
  {
    VisitedIsReached(store, reader, roots, expected, [], visited);
    VisitedIsClosed(store, reader, roots, visited);
    ClosedHoldsAll(store, reader, roots, visited);
    hide Sound, RefersTo, Reached, Closed, Covered, AllMet;
    forall ref | Met(store, reader, roots, ref)
      ensures Consistent(store, ref)
    {
      assert Settled(store, visited, ref);
    }
  }

  // ---------------------------------------------------------------- the strict closure

  /** What each refusal of the strict closure says about the lineage. */
  ghost predicate Refuted(store: Store, roots: seq<Ref>, expected: Scope, error: ReadError) {
    match error
    case NoRoot => roots == []
    case TwoDigests =>
      exists a, b :: Met(store, Strict, roots, a) && Met(store, Strict, roots, b) && a.evidenceId == b.evidenceId &&
        a.digest != b.digest
    case Unavailable => exists ref :: Met(store, Strict, roots, ref) && ref.evidenceId !in store
    case VerificationFailed =>
      exists ref :: Met(store, Strict, roots, ref) && ref.evidenceId in store &&
        (store[ref.evidenceId].digest != ref.digest || !store[ref.evidenceId].intact)
    case DifferentScope =>
      exists id :: id in ReachedRecords(store, Strict, roots) && !StrictScope(store[id], expected)
    case BoundExceeded => |ReachedRecords(store, Strict, roots)| > MAX_LINKED_EVIDENCE
    case _ => exists id :: id in ReachedRecords(store, Strict, roots) && StrictParents(store[id]) == Err(error)
  }

  ghost predicate StrictlyAdmissible(store: Store, roots: seq<Ref>, expected: Scope) {
    roots != [] && Admissible(store, Strict, roots, expected)
  }

  lemma RefutedIsInadmissible(store: Store, roots: seq<Ref>, expected: Scope, error: ReadError)
    requires Refuted(store, roots, expected, error)
    ensures !StrictlyAdmissible(store, roots, expected)
  {
    hide StrictParents, StrictScope, Met, Reached;
    forall ref | Met(store, Strict, roots, ref) && ref.evidenceId in store
      ensures ref.evidenceId in ReachedRecords(store, Strict, roots)
    {
      MetIsReached(store, Strict, roots, ref);
    }
  }

  /** Succeeds exactly on admissible lineages, with exactly the records reached from the roots. */
  method VerifiedExecutionClosure(store: Store, roots: seq<Ref>, expected: Scope)
    returns (r: Result<seq<Stored>, ReadError>)
    ensures r.Ok? <==> StrictlyAdmissible(store, roots, expected)
    ensures r.Ok? ==> Lists(store, r.value, ReachedRecords(store, Strict, roots)) && Sorted(r.value, LinkedLe)
    ensures r.Err? ==> Refuted(store, roots, expected, r.error)
    ensures r.Ok? ==> AncestorsListed(store, roots, r.value)
    ensures r == Err(BoundExceeded) ==> |ReachedRecords(store, Strict, roots)| > 2_000
  {
    hide StrictParents, StrictScope, Met, Reached, RefersTo, Progress, Admissible, LinkedLe, Sound, Settled, Lists,
      AncestorsListed;
    r := CloseStrictly(store, roots, expected);
    if r.Err? {
      RefutedIsInadmissible(store, roots, expected, r.error);
    } else {
      AdmittedListsAncestors(store, roots, expected, r.value);
    }
  }

  /** The roots are listed, and so is every parent that a listed record names, under the digest it
      is named by. */
  ghost predicate AncestorsListed(store: Store, roots: seq<Ref>, records: seq<Stored>) {
    && (forall ref :: ref in roots ==> ref.evidenceId in Ids(records) && Consistent(store, ref))
    && (forall r, ref :: r in records && NamedParent(r, ref) ==>
      ref.evidenceId in Ids(records) && Consistent(store, ref))
  }

  lemma AdmittedListsAncestors(store: Store, roots: seq<Ref>, expected: Scope, records: seq<Stored>)
    requires StrictlyAdmissible(store, roots, expected) && Lists(store, records, ReachedRecords(store, Strict, roots))
    ensures AncestorsListed(store, roots, records)
  {
    var reached := ReachedRecords(store, Strict, roots);
    ListsIds(store, records, reached);
    LinkedIsClosed(store, roots, expected);
    hide Met, Reached, StrictParents, NamedParent, Names;
    forall ref | ref in roots
      ensures ref.evidenceId in reached && Consistent(store, ref)
    {
      RootIsMet(store, roots, ref);
      MetIsReached(store, Strict, roots, ref);
    }
    forall r, ref | r in records && NamedParent(r, ref)
      ensures ref.evidenceId in reached && Consistent(store, ref)
    {
      assert Sound(Strict, store[r.evidenceId], expected);
      ParentsAreNamed(r, ref);
      assert RefersTo(Strict, store[r.evidenceId], ref);
    }
  }

  lemma RootIsMet(store: Store, roots: seq<Ref>, ref: Ref)
    requires ref in roots
    ensures Met(store, Strict, roots, ref)
  {
  }

  /** Load, verify and scope one referenced record, and read its parents. */
  method Admit(store: Store, ghost roots: seq<Ref>, expected: Scope, ref: Ref)
    returns (r: Result<(Stored, seq<Ref>), ReadError>)
    requires Met(store, Strict, roots, ref)
    ensures r.Err? ==> Refuted(store, roots, expected, r.error)
    ensures r.Ok? ==> Consistent(store, ref) && r.value.0 == store[ref.evidenceId]
    ensures r.Ok? ==> Sound(Strict, r.value.0, expected) && Parents(Strict, r.value.0) == Ok(r.value.1)
  {
    hide Met, Reached, RecordScope, StrictParents, RefersTo;
    if ref.evidenceId !in store { return Err(Unavailable); }
    var record := store[ref.evidenceId];
    if record.digest != ref.digest || !record.intact { return Err(VerificationFailed); }
    MetIsReached(store, Strict, roots, ref);
    assert ref.evidenceId in ReachedRecords(store, Strict, roots);
    var scope := RecordScope(record);
    if scope != UNBOUND && scope != expected { return Err(DifferentScope); }
    if expected == UNBOUND && scope != UNBOUND { return Err(DifferentScope); }
    var parents := ReadStrict(record);
    if parents.Err? {
      StrictParentErrors(record);
      return Err(parents.error);
    }
    return Ok((record, parents.value));
  }

  lemma {:induction false} StrictRefErrors(pairs: seq<Pair>)
    ensures StrictRefs(pairs).Err? ==> StrictRefs(pairs).error in {DigestMalformed, IdentityMalformed}
  {
    if pairs != [] { StrictRefErrors(pairs[..|pairs| - 1]); }
  }

  lemma StrictParentErrors(r: Stored)
    ensures StrictParents(r).Err? ==>
      StrictParents(r).error in {TelemetryMalformed, DigestMalformed, IdentityMalformed, NotIterableParents}
  {
    hide FixedPairs, ItemPairs;
    if TelemetryPairs(r).Ok? { StrictRefErrors(FixedPairs(r) + TelemetryPairs(r).value); }
  }

  lemma TwoDigestsRefuted(store: Store, roots: seq<Ref>, expected: Scope, ref: Ref)
    requires Met(store, Strict, roots, ref) && ref.evidenceId in store && !Consistent(store, ref)
    requires Met(store, Strict, roots, Ref(ref.evidenceId, store[ref.evidenceId].digest))
    ensures Refuted(store, roots, expected, TwoDigests)
  {
    hide Met;
  }

  lemma BoundRefuted(store: Store, roots: seq<Ref>, expected: Scope, pending: seq<Ref>, visited: set<string>)
    requires Progress(store, Strict, roots, expected, pending, visited) && |visited| > MAX_LINKED_EVIDENCE
    ensures Refuted(store, roots, expected, BoundExceeded)
  {
    VisitedIsReached(store, Strict, roots, expected, pending, visited);
  }

  method CloseStrictly(store: Store, roots: seq<Ref>, expected: Scope) returns (r: Result<seq<Stored>, ReadError>)
    ensures r.Ok? ==> StrictlyAdmissible(store, roots, expected)
    ensures r.Ok? ==> Lists(store, r.value, ReachedRecords(store, Strict, roots)) && Sorted(r.value, LinkedLe)
    ensures r.Err? ==> Refuted(store, roots, expected, r.error)
  {
    assert Lists(store, [], {}) && Copies(store, map[], {}) &&
      (roots == [] ==> Refuted(store, roots, expected, NoRoot));
    hide Met, Reached, Sound, Parents, Progress, Lists, Copies, Refuted, ReachedRecords, LinkedLe, Admissible, Total,
      Sorted, Settled, Sort;
    if roots == [] { return Err(NoRoot); }
    var pending, visited := roots, {};
    var accepted: map<string, Stored> := map[];
    var listed: seq<Stored> := [];
    ProgressStarts(store, Strict, roots, expected);
    while pending != []
      invariant Progress(store, Strict, roots, expected, pending, visited)
      invariant |visited| <= MAX_LINKED_EVIDENCE
      invariant Copies(store, accepted, visited)
      invariant Lists(store, listed, visited)
      decreases store.Keys - visited, |pending|
    {
      var ref := pending[0];
      ProgressMeets(store, Strict, roots, expected, pending, visited);
      CopiesAt(store, accepted, visited, ref.evidenceId);
      if ref.evidenceId in visited {
        if accepted[ref.evidenceId].digest != ref.digest {
          TwoDigestsRefuted(store, roots, expected, ref);
          return Err(TwoDigests);
        }
        ProgressSkips(store, Strict, roots, expected, pending, visited);
        pending := pending[1..];
        continue;
      }
      var admitted := Admit(store, roots, expected, ref);
      if admitted.Err? { return Err(admitted.error); }
      var (record, parents) := admitted.value;
      ProgressVisits(store, Strict, roots, expected, pending, visited, parents);
      ListsMore(store, listed, visited, ref);
      CopiesMore(store, accepted, visited, ref);
      visited := visited + {ref.evidenceId};
      accepted := accepted[ref.evidenceId := record];
      listed := listed + [record];
      pending := pending[1..] + parents;
      if |visited| > MAX_LINKED_EVIDENCE {
        BoundRefuted(store, roots, expected, pending, visited);
        return Err(BoundExceeded);
      }
    }
    var sorted := SortLinked(store, roots, expected, visited, listed);
    return Ok(sorted);
  }

  method SortLinked(store: Store, ghost roots: seq<Ref>, ghost expected: Scope, ghost visited: set<string>,
                    listed: seq<Stored>)
    returns (sorted: seq<Stored>)
    requires Progress(store, Strict, roots, expected, [], visited) && |visited| <= MAX_LINKED_EVIDENCE
    requires Lists(store, listed, visited)
    ensures Admissible(store, Strict, roots, expected) && Sorted(sorted, LinkedLe)
    ensures Lists(store, sorted, ReachedRecords(store, Strict, roots))
  {
    ProgressEnds(store, Strict, roots, expected, visited);
    LinkedOrder();
    ListedSorted(store, listed, visited);
    hide Progress, Lists, Admissible, Total, LinkedLe;
    sorted := Sort(listed, LinkedLe);
  }

  // ---------------------------------------------------------------- the tolerant closure

  datatype GapReason = Missing | NotVerified | OtherScope

  datatype Gap = Gap(evidenceId: string, reason: GapReason)

  datatype Replayed = Replayed(records: seq<Stored>, gaps: seq<Gap>)

  ghost function GapIds(gaps: seq<Gap>): set<string> {
    set g | g in gaps :: g.evidenceId
  }

  /** A gap names a record that was referred to, and why it could not be shown. */
  ghost predicate GapJustified(store: Store, roots: seq<Ref>, expected: Scope, g: Gap) {
    exists ref :: Met(store, Tolerant, roots, ref) && ref.evidenceId == g.evidenceId &&
      GapFits(store, expected, ref, g.reason)
  }

  predicate GapFits(store: Store, expected: Scope, ref: Ref, reason: GapReason) {
    match reason
    case Missing => ref.evidenceId !in store
    case NotVerified =>
      ref.evidenceId in store && (store[ref.evidenceId].digest != ref.digest || !store[ref.evidenceId].intact)
    case OtherScope => ref.evidenceId in store && !TolerantScope(store[ref.evidenceId], expected)
  }

  /** Gaps are justified, name each record once, and with the shown records make up the visited. */
  ghost predicate GapsHonest(store: Store, roots: seq<Ref>, expected: Scope, visited: set<string>, shown: set<string>,
                             gaps: seq<Gap>) {
    && (forall g :: g in gaps ==> GapJustified(store, roots, expected, g))
    && (forall i, j :: 0 <= i < j < |gaps| ==> gaps[i].evidenceId != gaps[j].evidenceId)
    && shown !! GapIds(gaps) && visited == shown + GapIds(gaps)
  }

  ghost predicate Seen(pending: seq<Ref>, visited: set<string>, refs: seq<Ref>) {
    forall ref :: ref in refs ==> ref in pending || ref.evidenceId in visited
  }

  /** Nothing met is lost: every root and every parent of a shown record is pending or visited. */
  ghost predicate Accounted(store: Store, roots: seq<Ref>, pending: seq<Ref>, visited: set<string>,
                            shown: set<string>) {
    && Seen(pending, visited, roots)
    && (forall p :: p in shown && p in store && TolerantParents(store[p]).Ok? ==>
          Seen(pending, visited, TolerantParents(store[p]).value))
  }

  ghost predicate Walked(store: Store, roots: seq<Ref>, expected: Scope, pending: seq<Ref>, visited: set<string>,
                         shown: set<string>, gaps: seq<Gap>) {
    && VisitedSound(store, Tolerant, roots, expected, shown)
    && AllMet(store, Tolerant, roots, pending)
    && GapsHonest(store, roots, expected, visited, shown, gaps)
    && Accounted(store, roots, pending, visited, shown)
  }

  lemma WalkStarts(store: Store, roots: seq<Ref>, expected: Scope)
    ensures Walked(store, roots, expected, roots, {}, {}, []) && Lists(store, [], {})
  {
  }

  lemma SeenAfterPop(pending: seq<Ref>, visited: set<string>, more: seq<Ref>, refs: seq<Ref>)
    requires pending != [] && Seen(pending, visited, refs)
    ensures Seen(pending[1..] + more, visited + {pending[0].evidenceId}, refs)
  {
    assert pending == [pending[0]] + pending[1..];
  }

  lemma AccountedAfterPop(store: Store, roots: seq<Ref>, pending: seq<Ref>, visited: set<string>, shown: set<string>,
                          more: seq<Ref>)
    requires pending != [] && Accounted(store, roots, pending, visited, shown)
    ensures Accounted(store, roots, pending[1..] + more, visited + {pending[0].evidenceId}, shown)
  {
    forall refs | Seen(pending, visited, refs)
      ensures Seen(pending[1..] + more, visited + {pending[0].evidenceId}, refs)
    {
      SeenAfterPop(pending, visited, more, refs);
    }
    hide Seen, TolerantParents;
  }

  lemma WalkSkips(store: Store, roots: seq<Ref>, expected: Scope, pending: seq<Ref>, visited: set<string>,
                  shown: set<string>, gaps: seq<Gap>)
    requires pending != [] && Walked(store, roots, expected, pending, visited, shown, gaps)
    requires pending[0].evidenceId in visited
    ensures Walked(store, roots, expected, pending[1..], visited, shown, gaps)
  {
    AccountedAfterPop(store, roots, pending, visited, shown, []);
    assert pending[1..] + [] == pending[1..] && visited + {pending[0].evidenceId} == visited;
    assert forall ref :: ref in pending[1..] ==> ref in pending;
    hide VisitedSound, Accounted, GapsHonest, Met;
  }

  lemma WalkGaps(store: Store, roots: seq<Ref>, expected: Scope, pending: seq<Ref>, visited: set<string>,
                 shown: set<string>, gaps: seq<Gap>, reason: GapReason)
    requires pending != [] && Walked(store, roots, expected, pending, visited, shown, gaps)
    requires pending[0].evidenceId !in visited && GapFits(store, expected, pending[0], reason)
    ensures Walked(store, roots, expected, pending[1..], visited + {pending[0].evidenceId}, shown,
                   gaps + [Gap(pending[0].evidenceId, reason)])
  {
    var g := Gap(pending[0].evidenceId, reason);
    AccountedAfterPop(store, roots, pending, visited, shown, []);
    assert pending[1..] + [] == pending[1..];
    assert forall ref :: ref in pending[1..] ==> ref in pending;
    hide Met, Accounted, VisitedSound, GapFits;
    assert GapJustified(store, roots, expected, g);
    hide GapJustified;
    assert GapIds(gaps + [g]) == GapIds(gaps) + {g.evidenceId};
    forall i | 0 <= i < |gaps|
      ensures gaps[i].evidenceId in GapIds(gaps)
    {
      assert gaps[i] in gaps;
    }
  }

  lemma WalkShows(store: Store, roots: seq<Ref>, expected: Scope, pending: seq<Ref>, visited: set<string>,
                  shown: set<string>, gaps: seq<Gap>, parents: seq<Ref>)
    requires pending != [] && Walked(store, roots, expected, pending, visited, shown, gaps)
    requires pending[0].evidenceId !in visited && Consistent(store, pending[0])
    requires store[pending[0].evidenceId].intact && TolerantScope(store[pending[0].evidenceId], expected)
    requires TolerantParents(store[pending[0].evidenceId]) == Ok(parents)
    ensures Walked(store, roots, expected, pending[1..] + parents, visited + {pending[0].evidenceId},
                   shown + {pending[0].evidenceId}, gaps)
    ensures pending[0].evidenceId !in shown
  {
    var id := pending[0].evidenceId;
    assert pending[0] == Ref(id, store[id].digest) && Met(store, Tolerant, roots, pending[0]);
    ParentsAreMet(store, Tolerant, roots, pending[0], parents);
    AccountedAfterPop(store, roots, pending, visited, shown, parents);
    assert Sound(Tolerant, store[id], expected);
    hide Met, Sound, Parents, TolerantParents, GapJustified;
    assert VisitedSound(store, Tolerant, roots, expected, shown + {id});
    hide VisitedSound;
    assert AllMet(store, Tolerant, roots, pending[1..] + parents);
    hide AllMet;
    assert Seen(pending[1..] + parents, visited + {id}, parents);
    hide Seen;
    assert Accounted(store, roots, pending[1..] + parents, visited + {id}, shown + {id});
    hide Accounted, GapIds;
    assert shown + {id} !! GapIds(gaps);
  }

  ghost predicate AllReached(store: Store, roots: seq<Ref>, s: set<string>) {
    forall id :: id in s ==> Reached(store, Tolerant, roots, id)
  }

  /** Why the tolerant closure may raise: a parent list that cannot be iterated, or the bound. */
  ghost predicate Raised(store: Store, roots: seq<Ref>, error: ReadError) {
    || (error == BoundExceeded &&
        exists s :: AllReached(store, roots, s) && |s| > MAX_LINKED_EVIDENCE)
    || (error == NotIterableParents &&
        exists id :: id in ReachedRecords(store, Tolerant, roots) && TolerantParents(store[id]) == Err(error))
  }

  lemma RaisedIsInadmissible(store: Store, roots: seq<Ref>, expected: Scope, error: ReadError)
    requires Raised(store, roots, error)
    ensures !Admissible(store, Tolerant, roots, expected)
  {
    hide TolerantParents, ReachedIn;
    if error == BoundExceeded && Admissible(store, Tolerant, roots, expected) {
      var s :| AllReached(store, roots, s) && |s| > MAX_LINKED_EVIDENCE;
      forall id | id in s
        ensures id in ReachedRecords(store, Tolerant, roots)
      {
        ReachedIsStored(store, Tolerant, roots, expected, id);
      }
      SubsetSize(s, ReachedRecords(store, Tolerant, roots));
    }
  }

  lemma ReachedIsStored(store: Store, reader: Reader, roots: seq<Ref>, expected: Scope, id: string)
    requires Admissible(store, reader, roots, expected) && Reached(store, reader, roots, id)
    ensures id in store
  {
    hide RefersTo, Sound;
    var n: nat :| ReachedIn(store, reader, roots, id, n);
    if n == 0 {
      var ref :| ref in roots && ref.evidenceId == id;
      assert Met(store, reader, roots, ref);
    } else {
      var p, ref :|
        p in store && ReachedIn(store, reader, roots, p, n - 1) && RefersTo(reader, store[p], ref) &&
          ref.evidenceId == id;
      assert Reached(store, reader, roots, p);
      assert Met(store, reader, roots, ref);
    }
  }

  lemma WalkRaises(store: Store, roots: seq<Ref>, expected: Scope, pending: seq<Ref>, visited: set<string>,
                   shown: set<string>, gaps: seq<Gap>)
    requires Walked(store, roots, expected, pending, visited, shown, gaps) && |visited| > MAX_LINKED_EVIDENCE
    ensures Raised(store, roots, BoundExceeded)
  {
    hide Reached, Met, GapFits, Sound, AllMet, Accounted;
    forall id | id in visited
      ensures Reached(store, Tolerant, roots, id)
    {
      if id in shown {
        MetIsReached(store, Tolerant, roots, Ref(id, store[id].digest));
      } else {
        var g :| g in gaps && g.evidenceId == id;
        assert GapJustified(store, roots, expected, g);
        var ref :| Met(store, Tolerant, roots, ref) && ref.evidenceId == g.evidenceId &&
          GapFits(store, expected, ref, g.reason);
        MetIsReached(store, Tolerant, roots, ref);
      }
    }
    assert AllReached(store, roots, visited);
  }

  lemma UnreadableRaises(store: Store, roots: seq<Ref>, expected: Scope, pending: seq<Ref>, visited: set<string>,
                         shown: set<string>, gaps: seq<Gap>)
    requires pending != [] && Walked(store, roots, expected, pending, visited, shown, gaps)
    requires pending[0].evidenceId in store && TolerantParents(store[pending[0].evidenceId]).Err?
    ensures Raised(store, roots, NotIterableParents)
    ensures TolerantParents(store[pending[0].evidenceId]) == Err(NotIterableParents)
  {
    hide VisitedSound, GapsHonest, Accounted, Reached, Met, FixedPairs, ItemPairs, TolerantRefs;
    MetIsReached(store, Tolerant, roots, pending[0]);
    assert pending[0].evidenceId in ReachedRecords(store, Tolerant, roots);
  }

  /** On an admissible lineage no gap is justified. */
  lemma AdmissibleHasNoGap(store: Store, roots: seq<Ref>, expected: Scope, g: Gap)
    requires Admissible(store, Tolerant, roots, expected)
    ensures !GapJustified(store, roots, expected, g)
  {
    hide Met, Reached, TolerantParents, RecordScope;
    forall ref | Met(store, Tolerant, roots, ref)
      ensures !GapFits(store, expected, ref, g.reason)
    {
      MetIsReached(store, Tolerant, roots, ref);
      assert Consistent(store, ref);
      assert ref.evidenceId in ReachedRecords(store, Tolerant, roots);
    }
  }

  lemma WalkEnds(store: Store, roots: seq<Ref>, expected: Scope, visited: set<string>, shown: set<string>,
                 gaps: seq<Gap>)
    requires Walked(store, roots, expected, [], visited, shown, gaps)
    ensures VisitedSound(store, Tolerant, roots, expected, shown)
    ensures visited == shown + GapIds(gaps)
    ensures GapsHonest(store, roots, expected, visited, shown, gaps)
    ensures Accounted(store, roots, [], visited, shown)
    ensures Admissible(store, Tolerant, roots, expected) ==> gaps == []
    ensures gaps == [] ==> shown == ReachedRecords(store, Tolerant, roots)
    ensures gaps == [] ==> forall id :: Reached(store, Tolerant, roots, id) ==> id in store
  {
    if gaps == [] {
      assert visited == shown;
      WalkIsClosed(store, roots, visited, shown);
      ClosedHoldsAll(store, Tolerant, roots, visited);
      hide Met, Reached, Accounted, Closed, Sound;
      forall id | id in shown
        ensures id in store && Reached(store, Tolerant, roots, id)
      {
        MetIsReached(store, Tolerant, roots, Ref(id, store[id].digest));
      }
    } else {
      assert GapJustified(store, roots, expected, gaps[0]);
      if Admissible(store, Tolerant, roots, expected) {
        AdmissibleHasNoGap(store, roots, expected, gaps[0]);
      }
    }
  }

  lemma WalkIsClosed(store: Store, roots: seq<Ref>, visited: set<string>, shown: set<string>)
    requires Accounted(store, roots, [], visited, shown) && visited == shown
    ensures Closed(store, Tolerant, roots, visited)
  {
    hide TolerantParents;
    forall p, ref | p in visited && p in store && RefersTo(Tolerant, store[p], ref)
      ensures ref.evidenceId in visited
    {
      assert Seen([], visited, TolerantParents(store[p]).value);
    }
  }

  // ---------------------------------------------------------------- the order of first visits

  predicate Shows(store: Store, expected: Scope, ref: Ref) {
    && ref.evidenceId in store && store[ref.evidenceId].digest == ref.digest
    && store[ref.evidenceId].intact && TolerantScope(store[ref.evidenceId], expected)
  }

  function ShownParents(store: Store, expected: Scope, ref: Ref): seq<Ref> {
    if Shows(store, expected, ref) && TolerantParents(store[ref.evidenceId]).Ok?
    then TolerantParents(store[ref.evidenceId]).value else []
  }

  /** The references in the breadth-first order in which their records are first met, no matter
      how many there are. */
  ghost function FirstMet(store: Store, expected: Scope, pending: seq<Ref>, visited: set<string>): seq<Ref>
    decreases store.Keys - visited, |pending|
  {
    if pending == [] then []
    else if pending[0].evidenceId in visited then FirstMet(store, expected, pending[1..], visited)
    else
      [pending[0]] +
      FirstMet(store, expected, pending[1..] + ShownParents(store, expected, pending[0]),
        visited + {pending[0].evidenceId})
  }

  /** A record that would be shown has unreadable parents, or is not among the first 2,000. */
  ghost predicate Stops(store: Store, expected: Scope, order: seq<Ref>, k: nat) {
    && k < |order| && Shows(store, expected, order[k])
    && (TolerantParents(store[order[k].evidenceId]).Err? || k >= 2_000)
  }

  /** Somewhere along the order of first visits the closure stops. */
  ghost predicate Halts(store: Store, roots: seq<Ref>, expected: Scope) {
    exists k :: Stops(store, expected, FirstMet(store, expected, roots, {}), k)
  }

  /** `done` is what has been visited of the order of first visits, without a stop. */
  ghost predicate OnCourse(store: Store, roots: seq<Ref>, expected: Scope, pending: seq<Ref>, visited: set<string>,
                           done: seq<Ref>) {
    && |done| == |visited|
    && FirstMet(store, expected, roots, {}) == done + FirstMet(store, expected, pending, visited)
    && forall k :: 0 <= k < |done| ==> !Stops(store, expected, FirstMet(store, expected, roots, {}), k)
  }

  lemma CourseStarts(store: Store, roots: seq<Ref>, expected: Scope)
    ensures OnCourse(store, roots, expected, roots, {}, [])
  {
    hide FirstMet;
  }

  lemma CourseSkips(store: Store, roots: seq<Ref>, expected: Scope, pending: seq<Ref>, visited: set<string>,
                    done: seq<Ref>)
    requires pending != [] && OnCourse(store, roots, expected, pending, visited, done)
    requires pending[0].evidenceId in visited
    ensures OnCourse(store, roots, expected, pending[1..], visited, done)
  {
    hide Stops;
  }

  lemma CourseAdvances(store: Store, roots: seq<Ref>, expected: Scope, pending: seq<Ref>, visited: set<string>,
                       done: seq<Ref>)
    requires pending != [] && OnCourse(store, roots, expected, pending, visited, done)
    requires pending[0].evidenceId !in visited
    ensures
      var order := FirstMet(store, expected, roots, {});
      && |done| < |order| && order[|done|] == pending[0]
      && (!Stops(store, expected, order, |done|) ==>
            OnCourse(store, roots, expected, pending[1..] + ShownParents(store, expected, pending[0]),
                     visited + {pending[0].evidenceId}, done + [pending[0]]))
  {
    hide Stops, ShownParents, FirstMet;
    FirstMetStep(store, expected, pending, visited);
    var order, next := FirstMet(store, expected, roots, {}), pending[1..] + ShownParents(store, expected, pending[0]);
    var rest := FirstMet(store, expected, next, visited + {pending[0].evidenceId});
    assert order == (done + [pending[0]]) + rest;
  }

  lemma FirstMetStep(store: Store, expected: Scope, pending: seq<Ref>, visited: set<string>)
    requires pending != [] && pending[0].evidenceId !in visited
    ensures
      var next := pending[1..] + ShownParents(store, expected, pending[0]);
      FirstMet(store, expected, pending, visited) ==
        [pending[0]] + FirstMet(store, expected, next, visited + {pending[0].evidenceId})
  {
  }

  lemma CourseGap(store: Store, roots: seq<Ref>, expected: Scope, pending: seq<Ref>, visited: set<string>,
                  done: seq<Ref>)
    requires pending != [] && OnCourse(store, roots, expected, pending, visited, done)
    requires pending[0].evidenceId !in visited
    requires !Shows(store, expected, pending[0])
    ensures OnCourse(store, roots, expected, pending[1..], visited + {pending[0].evidenceId}, done + [pending[0]])
  {
    CourseAdvances(store, roots, expected, pending, visited, done);
    hide OnCourse, FirstMet, Shows;
    assert pending[1..] + [] == pending[1..];
  }

  lemma CourseShows(store: Store, roots: seq<Ref>, expected: Scope, pending: seq<Ref>, visited: set<string>,
                    done: seq<Ref>, parents: seq<Ref>)
    requires pending != [] && OnCourse(store, roots, expected, pending, visited, done)
    requires pending[0].evidenceId !in visited
    requires Shows(store, expected, pending[0]) && TolerantParents(store[pending[0].evidenceId]) == Ok(parents)
    requires |visited| < MAX_LINKED_EVIDENCE
    ensures OnCourse(store, roots, expected, pending[1..] + parents, visited + {pending[0].evidenceId},
      done + [pending[0]])
  {
    assert |done| == |visited|;
    CourseAdvances(store, roots, expected, pending, visited, done);
    hide OnCourse, FirstMet, TolerantParents;
  }

  lemma CourseStops(store: Store, roots: seq<Ref>, expected: Scope, pending: seq<Ref>, visited: set<string>,
                    done: seq<Ref>)
    requires pending != [] && OnCourse(store, roots, expected, pending, visited, done)
    requires pending[0].evidenceId !in visited
    requires Shows(store, expected, pending[0])
    requires TolerantParents(store[pending[0].evidenceId]).Err? || |visited| >= MAX_LINKED_EVIDENCE
    ensures Halts(store, roots, expected)
  {
    assert |done| == |visited|;
    CourseAdvances(store, roots, expected, pending, visited, done);
    hide OnCourse, FirstMet, TolerantParents;
    assert Stops(store, expected, FirstMet(store, expected, roots, {}), |done|);
  }

  /** Every record shown is verified, every gap explained, and together they are closed under
      parents. An admissible lineage is shown whole, and a gapless result is the whole lineage. It
      raises exactly when a record that it would show has unreadable parents or comes after the
      first 2,000 met; missing and refused records alone never reach the bound. */
  method VerifiedClosure(store: Store, roots: seq<Ref>, expected: Scope) returns (r: Result<Replayed, ReadError>)
    ensures r.Err? ==> Raised(store, roots, r.error)
    ensures r.Ok? ==> Lists(store, r.value.records, Ids(r.value.records))
    ensures r.Ok? ==> VisitedSound(store, Tolerant, roots, expected, Ids(r.value.records))
    ensures r.Ok? ==>
      var visited := Ids(r.value.records) + GapIds(r.value.gaps);
      && GapsHonest(store, roots, expected, visited, Ids(r.value.records), r.value.gaps)
      && Accounted(store, roots, [], visited, Ids(r.value.records))
    ensures Admissible(store, Tolerant, roots, expected) ==> r.Ok? && r.value.gaps == []
    ensures r.Ok? && r.value.gaps == [] ==>
      && Ids(r.value.records) == ReachedRecords(store, Tolerant, roots)
      && forall id :: Reached(store, Tolerant, roots, id) ==> id in store
    ensures r.Err? <==> Halts(store, roots, expected)
    ensures r.Ok? ==> AncestorsAccounted(r.value)
    ensures r.Ok? ==> |r.value.records| <= 2_000
    ensures r.Ok? ==> |r.value.records| + |r.value.gaps| == |FirstMet(store, expected, roots, {})|
  {
    hide Met, Reached, Sound, Parents, Lists, ReachedRecords, Admissible, Raised, Walked, VisitedSound, GapsHonest,
      Accounted, OnCourse, FirstMet, TolerantScope, TolerantParents, Shows, Halts, GapFits, Ids, GapIds,
        AncestorsAccounted;
    WalkStarts(store, roots, expected);
    CourseStarts(store, roots, expected);
    ghost var done: seq<Ref> := [];
    var pending, visited := roots, {};
    ghost var shown := {};
    var accepted: seq<Stored> := [];
    var gaps: seq<Gap> := [];
    while pending != []
      invariant Walked(store, roots, expected, pending, visited, shown, gaps)
      invariant Lists(store, accepted, shown)
      invariant OnCourse(store, roots, expected, pending, visited, done)
      invariant |done| == |visited| == |accepted| + |gaps| && |accepted| <= MAX_LINKED_EVIDENCE
      decreases store.Keys - visited, |pending|
    {
      var ref := pending[0];
      if ref.evidenceId in visited {
        CourseSkips(store, roots, expected, pending, visited, done);
        WalkSkips(store, roots, expected, pending, visited, shown, gaps);
        pending := pending[1..];
        continue;
      }
      var gap := Examine(store, expected, ref);
      if gap.Some? {
        CourseGap(store, roots, expected, pending, visited, done);
        WalkGaps(store, roots, expected, pending, visited, shown, gaps, gap.value);
        visited, done := visited + {ref.evidenceId}, done + [ref];
        gaps := gaps + [Gap(ref.evidenceId, gap.value)];
        pending := pending[1..];
        continue;
      }
      var record := store[ref.evidenceId];
      var parents := ReadTolerant(record);
      if parents.Err? {
        CourseStops(store, roots, expected, pending, visited, done);
        UnreadableRaises(store, roots, expected, pending, visited, shown, gaps);
        RaisedIsInadmissible(store, roots, expected, NotIterableParents);
        return Err(parents.error);
      }
      WalkShows(store, roots, expected, pending, visited, shown, gaps, parents.value);
      ListsMore(store, accepted, shown, ref);
      if |visited| >= MAX_LINKED_EVIDENCE {
        CourseStops(store, roots, expected, pending, visited, done);
      } else {
        CourseShows(store, roots, expected, pending, visited, done, parents.value);
      }
      visited, shown, done := visited + {ref.evidenceId}, shown + {ref.evidenceId}, done + [ref];
      accepted := accepted + [record];
      pending := pending[1..] + parents.value;
      if |visited| > MAX_LINKED_EVIDENCE {
        WalkRaises(store, roots, expected, pending, visited, shown, gaps);
        RaisedIsInadmissible(store, roots, expected, BoundExceeded);
        return Err(BoundExceeded);
      }
    }
    WalkEnds(store, roots, expected, visited, shown, gaps);
    CourseEnds(store, roots, expected, visited, done);
    ListsIds(store, accepted, shown);
    WalkAccountsAncestors(store, roots, expected, visited, Replayed(accepted, gaps));
    return Ok(Replayed(accepted, gaps));
  }

  /** Every parent that a shown record names is shown or is a gap. */
  ghost predicate AncestorsAccounted(replayed: Replayed) {
    forall r, ref :: r in replayed.records && NamedParent(r, ref) ==>
      ref.evidenceId in Ids(replayed.records) + GapIds(replayed.gaps)
  }

  lemma WalkAccountsAncestors(store: Store, roots: seq<Ref>, expected: Scope, visited: set<string>, replayed: Replayed)
    requires Lists(store, replayed.records, Ids(replayed.records))
    requires VisitedSound(store, Tolerant, roots, expected, Ids(replayed.records))
    requires visited == Ids(replayed.records) + GapIds(replayed.gaps)
    requires Accounted(store, roots, [], visited, Ids(replayed.records))
    ensures AncestorsAccounted(replayed)
  {
    hide Met, TolerantParents, NamedParent, TolerantScope;
    forall r, ref | r in replayed.records && NamedParent(r, ref)
      ensures ref.evidenceId in visited
    {
      ParentsAreNamed(r, ref);
      assert Sound(Tolerant, store[r.evidenceId], expected);
      assert Seen([], visited, TolerantParents(store[r.evidenceId]).value);
    }
  }

  lemma CourseEnds(store: Store, roots: seq<Ref>, expected: Scope, visited: set<string>, done: seq<Ref>)
    requires OnCourse(store, roots, expected, [], visited, done)
    ensures FirstMet(store, expected, roots, {}) == done && !Halts(store, roots, expected)
  {
    hide Shows;
  }

  lemma {:induction false} MissingNeverStops(store: Store, expected: Scope, pending: seq<Ref>, visited: set<string>)
    requires forall i, j :: 0 <= i < j < |pending| ==> pending[i].evidenceId != pending[j].evidenceId
    requires forall ref :: ref in pending ==> ref.evidenceId !in store && ref.evidenceId !in visited
    ensures FirstMet(store, expected, pending, visited) == pending
    ensures !exists k :: Stops(store, expected, FirstMet(store, expected, pending, visited), k)
    decreases |pending|
  {
    if pending != [] {
      assert pending == [pending[0]] + pending[1..];
      assert pending[1..] + ShownParents(store, expected, pending[0]) == pending[1..];
      forall ref | ref in pending[1..]
        ensures ref in pending && ref.evidenceId != pending[0].evidenceId
      {
        var i :| 0 <= i < |pending| - 1 && pending[1..][i] == ref;
        assert pending[i + 1] == ref;
      }
      MissingNeverStops(store, expected, pending[1..], visited + {pending[0].evidenceId});
    }
  }

  /** So missing records escape the bound: any number of missing roots, 2,001 included, are all met
      and nothing is raised. */
  lemma MissingRootsAreNeverRefused(store: Store, roots: seq<Ref>, expected: Scope)
    requires forall i, j :: 0 <= i < j < |roots| ==> roots[i].evidenceId != roots[j].evidenceId
    requires forall ref :: ref in roots ==> ref.evidenceId !in store
    ensures !Halts(store, roots, expected) && |FirstMet(store, expected, roots, {})| == |roots|
  {
    MissingNeverStops(store, expected, roots, {});
  }

  method Examine(store: Store, expected: Scope, ref: Ref) returns (gap: Option<GapReason>)
    ensures gap.Some? ==> GapFits(store, expected, ref, gap.value) && !Shows(store, expected, ref)
    ensures gap.None? ==> Shows(store, expected, ref)
    ensures gap.None? ==>
      Consistent(store, ref) && store[ref.evidenceId].intact && TolerantScope(store[ref.evidenceId], expected)
  {
    if ref.evidenceId !in store { return Some(Missing); }
    var record := store[ref.evidenceId];
    if record.digest != ref.digest || !record.intact { return Some(NotVerified); }
    var scope := RecordScope(record);
    if scope.simulation.Some? && expected.simulation.Some? && scope != expected { return Some(OtherScope); }
    return None;
  }

  // ---------------------------------------------------------------- agreement

  /** Where the strict closure succeeds, the tolerant one over the same references reports no gap
      and shows the same records, in whatever order and however often the roots are listed. */
  method ClosuresAgree(store: Store, roots: seq<Ref>, replayRoots: seq<Ref>, expected: Scope)
    returns (linked: Result<seq<Stored>, ReadError>, replayed: Result<Replayed, ReadError>)
    requires forall ref :: ref in roots <==> ref in replayRoots
    ensures linked.Ok? <==> StrictlyAdmissible(store, roots, expected)
    ensures linked.Ok? ==>
      replayed.Ok? && replayed.value.gaps == [] && multiset(replayed.value.records) == multiset(linked.value)
  {
    StrictlyAdmissibleIsTolerable(store, roots, replayRoots, expected);
    hide Admissible, Met, Reached, Lists, Sorted, Refuted, Raised, VisitedSound, GapsHonest, Accounted;
    linked := VerifiedExecutionClosure(store, roots, expected);
    replayed := VerifiedClosure(store, replayRoots, expected);
    if linked.Ok? {
      ListingsAgree(store, linked.value, replayed.value.records,
                    ReachedRecords(store, Strict, roots), Ids(replayed.value.records));
    }
  }

  lemma ListingsAgree(store: Store, a: seq<Stored>, b: seq<Stored>, ids: set<string>, others: set<string>)
    requires Lists(store, a, ids) && Lists(store, b, others) && ids == others
    ensures multiset(b) == multiset(a)
  {
    DistinctSameMultiset(b, a);
  }

  // ---------------------------------------------------------------- linked evidence

  /** Every parent that a linked record names is linked, and by its stored digest. */
  ghost predicate LineageClosed(store: Store, linked: set<string>) {
    forall id, ref :: id in linked && id in store && RefersTo(Strict, store[id], ref) ==>
      ref.evidenceId in linked && Consistent(store, ref)
  }

  lemma LinkedIsClosed(store: Store, roots: seq<Ref>, expected: Scope)
    ensures StrictlyAdmissible(store, roots, expected) ==> LineageClosed(store, ReachedRecords(store, Strict, roots))
  {
    hide RefersTo, Sound, Reached;
    if StrictlyAdmissible(store, roots, expected) {
      forall id, ref | id in ReachedRecords(store, Strict, roots) && RefersTo(Strict, store[id], ref)
        ensures ref.evidenceId in ReachedRecords(store, Strict, roots) && Consistent(store, ref)
      {
        assert Met(store, Strict, roots, ref);
        MetIsReached(store, Strict, roots, ref);
      }
    }
  }

  /** Evidence is only ever added, so a closed set of linked records stays closed. */
  lemma LinkedStaysClosed(store: Store, later: Store, linked: set<string>)
    requires LineageClosed(store, linked) && linked <= store.Keys
    requires forall id :: id in store ==> id in later && later[id] == store[id]
    ensures LineageClosed(later, linked)
  {
    hide RefersTo;
    forall id, ref | id in linked && RefersTo(Strict, later[id], ref)
      ensures ref.evidenceId in linked && Consistent(later, ref)
    {
      assert later[id] == store[id] && RefersTo(Strict, store[id], ref);
      assert Consistent(store, ref) && later[ref.evidenceId] == store[ref.evidenceId];
    }
  }
}
