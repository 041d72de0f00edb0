/** Deterministic incident identity: the 300-second grouping epoch and the canonical name
    whose digest is the grouping key. */
module Identity {
  import opened Common
  import opened Text

  const GROUPING_WINDOW_SECONDS := 300
  const PROFILE_ID := "otsoc.incident.oil_gas_transfer"
  const PROFILE_VERSION := "1.0.0"
  const PROFILE_SHA256 := "609de2ee030102c7f36c22109748e7b53b019fedd51125b3bc3af23c8fd53411"

  const NO_IDENTITY_SCOPE := "NO_IDENTITY_ASSET_SCOPE"
  const NO_PROCESS_SCOPE := "NO_PROCESS_ASSET_SCOPE"
  const NO_POINT_SCOPE := "NO_TARGET_POINT_SCOPE"
  const NO_SEMANTIC_SCOPE := "NO_S3_SEMANTIC_SCOPE"

  // ---------------------------------------------------------------- grouping epoch

  /** Python's `int()` drops the fraction towards zero. */
  function TruncatedSeconds(micros: int): int {
    if micros >= 0 then micros / SECOND else -((-micros) / SECOND)
  }

  /** Start, in seconds, of the grouping epoch of a timestamp in microseconds. */
  function GroupingEpochStart(anchor: int): int {
    TruncatedSeconds(anchor) / GROUPING_WINDOW_SECONDS * GROUPING_WINDOW_SECONDS
  }

  /** The epoch is always a multiple of 300 s, and it brackets its anchor for every time from
      1970 on. Before 1970 truncation differs from floor: the bracket then fails exactly in the
      last, fractional second of an epoch. */
  lemma EpochBracketsAnchor(anchor: int)
    ensures GroupingEpochStart(anchor) % 300 == 0
    ensures
      var epoch := GroupingEpochStart(anchor);
      epoch * 1_000_000 <= anchor < (epoch + 300) * 1_000_000 <==> anchor >= 0 || anchor % 300_000_000 <= 299_000_000
  {
    EpochOfSeconds(TruncatedSeconds(anchor));
    if anchor < 0 {
      TruncationBefore1970(anchor);
    }
  }

  lemma EpochOfSeconds(s: int)
    ensures
      var epoch := s / GROUPING_WINDOW_SECONDS * GROUPING_WINDOW_SECONDS;
      epoch % GROUPING_WINDOW_SECONDS == 0 && 0 <= s - epoch < GROUPING_WINDOW_SECONDS
  {
  }

  /** Truncation rounds a negative time up to the next whole second. */
  lemma TruncationBefore1970(anchor: int)
    requires anchor < 0
    ensures
      var s := TruncatedSeconds(anchor);
      && (s - 1) * SECOND < anchor <= s * SECOND
      && (anchor % (GROUPING_WINDOW_SECONDS * SECOND) <= (GROUPING_WINDOW_SECONDS - 1) * SECOND <==>
          s % GROUPING_WINDOW_SECONDS != 0 || anchor == s * SECOND)
  {
    var s := TruncatedSeconds(anchor);
    var q, m := anchor / 300_000_000, anchor % 300_000_000;
    assert anchor == 300_000_000 * q + m && 0 <= m < 300_000_000;
    var c := (m + 999_999) / 1_000_000;
    assert s == 300 * q + c && 0 <= c <= 300;
  }

  lemma EpochMissesPre1970Anchor()
    ensures
      var anchor := -500_000;
      !(GroupingEpochStart(anchor) * SECOND <= anchor)
  {
  }

  // ---------------------------------------------------------------- canonical name

  datatype GroupingKey = GroupingKey(
    ruleId: string,
    ruleVersion: string,
    category: string,
    identityScope: seq<string>,
    processScope: seq<string>,
    pointScope: seq<string>,
    runScope: string,
    configurationScope: string,
    semanticId: Option<string>,
    epoch: int
  ) {
    /** What the field patterns of the evidence schemas guarantee. */
    predicate Valid() {
      && Free(ruleId, '|') && Free(ruleVersion, '|') && Free(category, '|')
      && ScopeTokens(identityScope, NO_IDENTITY_SCOPE)
      && ScopeTokens(processScope, NO_PROCESS_SCOPE)
      && ScopeTokens(pointScope, NO_POINT_SCOPE)
      && Free(runScope, '|') && Free(configurationScope, '|')
      && (semanticId.Some? ==> Free(semanticId.value, '|') && semanticId.value != NO_SEMANTIC_SCOPE)
    }

    /** Agreement on everything the grouping is meant to depend on; scopes count as multisets. */
    predicate Groups(other: GroupingKey) {
      && ruleId == other.ruleId
      && ruleVersion == other.ruleVersion
      && category == other.category
      && multiset(identityScope) == multiset(other.identityScope)
      && multiset(processScope) == multiset(other.processScope)
      && multiset(pointScope) == multiset(other.pointScope)
      && runScope == other.runScope
      && configurationScope == other.configurationScope
      && semanticId == other.semanticId
      && epoch == other.epoch
    }

    function SemanticText(): string {
      if semanticId.Some? then semanticId.value else NO_SEMANTIC_SCOPE
    }

    /** The parts that vary; every name starts with the same three profile constants. */
    function Parts(): seq<string> {
      [ ruleId, ruleVersion, category,
        ScopeText(identityScope, NO_IDENTITY_SCOPE),
        ScopeText(processScope, NO_PROCESS_SCOPE),
        ScopeText(pointScope, NO_POINT_SCOPE),
        runScope, configurationScope, SemanticText(), IntText(epoch) ]
    }

    /** The name that is hashed into the grouping key and the incident identity. */
    function CanonicalName(): string {
      Join([PROFILE_ID, PROFILE_VERSION, PROFILE_SHA256] + Parts(), '|')
    }
  }

  predicate ScopeTokens(scope: seq<string>, placeholder: string) {
    forall x :: x in scope ==> x != "" && Free(x, ',') && Free(x, '|') && x != placeholder
  }

  /** `",".join(sorted(scope)) or placeholder`. */
  function ScopeText(scope: seq<string>, placeholder: string): string {
    var joined := Join(SortStrings(scope), ',');
    if joined == "" then placeholder else joined
  }

  /** Neither the separator nor the placeholder can make two different scopes look alike. */
  lemma ScopeTextInjective(a: seq<string>, b: seq<string>, placeholder: string)
    requires ScopeTokens(a, placeholder) && ScopeTokens(b, placeholder)
    requires placeholder != "" && Free(placeholder, ',')
    ensures ScopeText(a, placeholder) == ScopeText(b, placeholder) <==> multiset(a) == multiset(b)
  {
    SortStringsCanonical(a, b);
    var s, t := SortStrings(a), SortStrings(b);
    ScopeTextShape(a, placeholder);
    ScopeTextShape(b, placeholder);
    if ScopeText(a, placeholder) == ScopeText(b, placeholder) {
      var s', t' := if s == [] then [placeholder] else s, if t == [] then [placeholder] else t;
      JoinInjective(s', t', ',');
      assert s == [] ==> placeholder in t';
      assert t == [] ==> placeholder in s';
      assert s == [] <==> t == [];
    }
  }

  lemma ScopeTextShape(a: seq<string>, placeholder: string)
    requires ScopeTokens(a, placeholder)
    ensures
      var s := SortStrings(a);
      ScopeText(a, placeholder) == Join(if s == [] then [placeholder] else s, ',')
  {
    var s := SortStrings(a);
    if s != [] {
      JoinNonEmpty(s, ',');
    }
  }

  lemma ScopeTextFree(a: seq<string>, placeholder: string)
    requires ScopeTokens(a, placeholder) && Free(placeholder, '|')
    ensures Free(ScopeText(a, placeholder), '|')
  {
    JoinFree(SortStrings(a), ',', '|');
  }

  lemma PlaceholdersFree()
    ensures Free(NO_IDENTITY_SCOPE, '|') && Free(NO_IDENTITY_SCOPE, ',')
    ensures Free(NO_PROCESS_SCOPE, '|') && Free(NO_PROCESS_SCOPE, ',')
    ensures Free(NO_POINT_SCOPE, '|') && Free(NO_POINT_SCOPE, ',')
    ensures Free(NO_SEMANTIC_SCOPE, '|')
  {
  }

  lemma PartsFree(k: GroupingKey)
    requires k.Valid()
    ensures forall x :: x in k.Parts() ==> Free(x, '|')
  {
    PlaceholdersFree();
    ScopeTextFree(k.identityScope, NO_IDENTITY_SCOPE);
    ScopeTextFree(k.processScope, NO_PROCESS_SCOPE);
    ScopeTextFree(k.pointScope, NO_POINT_SCOPE);
  }

  lemma NameIsPrefixedParts(a: GroupingKey, b: GroupingKey)
    ensures a.CanonicalName() == b.CanonicalName() <==> Join(a.Parts(), '|') == Join(b.Parts(), '|')
  {
    var profile := [PROFILE_ID, PROFILE_VERSION, PROFILE_SHA256];
    JoinCommonPrefix(profile, a.Parts(), b.Parts(), '|');
  }

  /** The layout of the name: profile, rule, category, the three scopes, run and configuration,
      semantic event and epoch, in this order. */
  lemma NameLayout(k: GroupingKey)
    ensures
      k.CanonicalName() ==
      Join([PROFILE_ID, PROFILE_VERSION, PROFILE_SHA256, k.ruleId, k.ruleVersion, k.category,
            ScopeText(k.identityScope, "NO_IDENTITY_ASSET_SCOPE"), ScopeText(k.processScope, "NO_PROCESS_ASSET_SCOPE"),
            ScopeText(k.pointScope, "NO_TARGET_POINT_SCOPE"), k.runScope, k.configurationScope,
            if k.semanticId.Some? then k.semanticId.value else "NO_S3_SEMANTIC_SCOPE", IntText(k.epoch)], '|')
  {
    hide ScopeText, IntText, Join;
    assert [PROFILE_ID, PROFILE_VERSION, PROFILE_SHA256] + k.Parts() ==
      [PROFILE_ID, PROFILE_VERSION, PROFILE_SHA256, k.ruleId, k.ruleVersion, k.category,
       ScopeText(k.identityScope, NO_IDENTITY_SCOPE), ScopeText(k.processScope, NO_PROCESS_SCOPE),
       ScopeText(k.pointScope, NO_POINT_SCOPE), k.runScope, k.configurationScope, k.SemanticText(), IntText(k.epoch)];
  }

  /** Two candidates share a canonical name exactly when they are meant to be grouped. */
  lemma CanonicalNameInjective(a: GroupingKey, b: GroupingKey)
    requires a.Valid() && b.Valid()
    ensures a.CanonicalName() == b.CanonicalName() <==> a.Groups(b)
  {
    PlaceholdersFree();
    ScopeTextInjective(a.identityScope, b.identityScope, NO_IDENTITY_SCOPE);
    ScopeTextInjective(a.processScope, b.processScope, NO_PROCESS_SCOPE);
    ScopeTextInjective(a.pointScope, b.pointScope, NO_POINT_SCOPE);
    NameIsPrefixedParts(a, b);
    if a.CanonicalName() == b.CanonicalName() {
      PartsFree(a);
      PartsFree(b);
      JoinInjective(a.Parts(), b.Parts(), '|');
      var p, q := a.Parts(), b.Parts();
      assert p[0] == q[0] && p[1] == q[1] && p[2] == q[2] && p[3] == q[3] && p[4] == q[4];
      assert p[5] == q[5] && p[6] == q[6] && p[7] == q[7] && p[8] == q[8] && p[9] == q[9];
      IntTextInjective(a.epoch, b.epoch);
    } else {
      assert a.Groups(b) ==> a.Parts() == b.Parts();
    }
  }
}
