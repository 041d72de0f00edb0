/** What a correlation verdict means, said on the samples themselves with the frozen numbers, and
    the proof that the evaluators answer exactly that. */
module Verdicts {
  import opened Common
  import opened Text
  import opened Sorting
  import opened Telemetry
  import opened Process
  import opened Correlation

  // ---------------------------------------------------------------- windows and blocks

  function TenSecondsBefore(anchor: int): Sample -> bool { (s: Sample) => anchor - 10_000_000 <= s.observedAt < anchor }
  function FromUntil(anchor: int, end: int): Sample -> bool { (s: Sample) => anchor <= s.observedAt <= end }
  function Beyond(end: int): Sample -> bool { (s: Sample) => s.observedAt > end }

  function BaselineOf(ordered: seq<Sample>, anchor: int): seq<Sample> { Filter(ordered, TenSecondsBefore(anchor)) }
  function EffectOf(ordered: seq<Sample>, anchor: int, end: int): seq<Sample> { Filter(ordered,
                    FromUntil(anchor, end)) }
  function LaterThan(ordered: seq<Sample>, end: int): seq<Sample> { Filter(ordered, Beyond(end)) }

  function Pumping(): Sample -> bool { (s: Sample) => s.pumpRunning }
  function FlowAtMost(x: real): Sample -> bool { (s: Sample) => s.flow <= x }
  function PressureAtLeast(x: real): Sample -> bool { (s: Sample) => s.pressure >= x }
  function ValveAtTarget(): Sample -> bool { (s: Sample) => -0.5 <= s.valve - 25.0 <= 0.5 }

  function FlowOf(): Sample -> real { (s: Sample) => s.flow }
  function PressureOf(): Sample -> real { (s: Sample) => s.pressure }
  function ValveOf(): Sample -> real { (s: Sample) => s.valve }

  /** At least `n` consecutive samples meet the predicate. */
  ghost predicate Lasts(s: seq<Sample>, p: Sample -> bool, n: nat) {
    exists lo, hi :: Block(s, p, lo, hi) && hi - lo >= n
  }

  function MeanFlow(s: seq<Sample>): real requires s != [] { Mean(s, FlowOf()) }
  function MeanPressure(s: seq<Sample>): real requires s != [] { Mean(s, PressureOf()) }
  function MeanValve(s: seq<Sample>): real requires s != [] { Mean(s, ValveOf()) }

  ghost predicate SteadyFlow(s: seq<Sample>) { forall x, y :: x in s && y in s ==> x.flow - y.flow <= 0.1 }
  ghost predicate SteadyPressure(s: seq<Sample>) { forall x, y :: x in s && y in s ==> x.pressure - y.pressure <= 0.05 }
  ghost predicate SteadyValve(s: seq<Sample>) { forall x, y :: x in s && y in s ==> x.valve - y.valve <= 0.5 }

  lemma {:induction false} FilterSame<T>(s: seq<T>, p: T -> bool, q: T -> bool)
    requires forall x :: x in s ==> p(x) == q(x)
    ensures Filter(s, p) == Filter(s, q)
  {
    if s != [] {
      assert s == s[..|s| - 1] + [s[|s| - 1]];
      FilterSame(s[..|s| - 1], p, q);
    }
  }

  lemma PersistenceIsLasting(s: seq<Sample>, q: Sample -> bool, p: Sample -> bool, n: nat)
    requires forall x: Sample :: p(x) == q(x)
    ensures Persistence(s, q) >= n <==> Lasts(s, p, n)
  {
    PersistenceIsLongestBlock(s, q);
    var lo, hi :| Block(s, q, lo, hi) && hi - lo == Persistence(s, q);
    assert Block(s, p, lo, hi);
    forall lo, hi | Block(s, p, lo, hi)
      ensures hi - lo <= Persistence(s, q)
    {
      assert Block(s, q, lo, hi);
    }
  }

  lemma {:induction false} SumSame(s: seq<Sample>, v: Sample -> real, w: Sample -> real)
    requires forall x: Sample :: v(x) == w(x)
    ensures Sum(s, v) == Sum(s, w)
  {
    if s != [] { SumSame(s[..|s| - 1], v, w); }
  }

  lemma {:induction false} RunsSame(s: seq<Sample>, p: Sample -> bool, q: Sample -> bool, required: nat)
    requires forall x: Sample :: p(x) == q(x)
    ensures RunsOf(s, p, required) == RunsOf(s, q, required)
  {
    if s != [] { RunsSame(s[..|s| - 1], p, q, required); }
  }

  lemma RepresentativeSame(s: seq<Sample>, v: Sample -> real, w: Sample -> real, p: Sample -> bool, q: Sample -> bool,
                           required: nat)
    requires s != [] && required > 0 && (forall x: Sample :: v(x) == w(x)) && (forall x: Sample :: p(x) == q(x))
    ensures Representative(s, v, p, required) == Representative(s, w, q, required)
  {
    RunsSame(s, p, q, required);
    RunsMeetPredicate(s, p, required);
    SumSame(Selected(s, p, required), v, w);
  }

  lemma MeansOf(s: seq<Sample>)
    requires s != []
    ensures Mean(s, FLOW) == MeanFlow(s) && Mean(s, PRESSURE) == MeanPressure(s) && Mean(s, VALVE) == MeanValve(s)
  {
    SumSame(s, FLOW, FlowOf());
    SumSame(s, PRESSURE, PressureOf());
    SumSame(s, VALVE, ValveOf());
  }

  lemma {:induction false} HighestLowest(s: seq<Sample>, v: Sample -> real)
    requires s != []
    ensures exists x :: x in s && v(x) == Highest(s, v)
    ensures exists x :: x in s && v(x) == Lowest(s, v)
    ensures forall x :: x in s ==> Lowest(s, v) <= v(x) <= Highest(s, v)
  {
    if |s| == 1 {
      assert s[0] in s;
    } else {
      HighestLowest(s[1..], v);
      assert s == [s[0]] + s[1..];
      assert s[0] in s && forall x :: x in s[1..] ==> x in s;
    }
  }

  lemma RangeIsSteadiness(s: seq<Sample>, v: Sample -> real, tolerance: real)
    requires s != []
    ensures ValueRange(s, v) <= tolerance <==> forall x, y :: x in s && y in s ==> v(x) - v(y) <= tolerance
  {
    HighestLowest(s, v);
    var top :| top in s && v(top) == Highest(s, v);
    var bottom :| bottom in s && v(bottom) == Lowest(s, v);
    assert v(top) - v(bottom) == ValueRange(s, v);
  }

  lemma RangesOf(s: seq<Sample>)
    requires s != []
    ensures ValueRange(s, FLOW) <= FLOW_STABILITY <==> SteadyFlow(s)
    ensures ValueRange(s, PRESSURE) <= PRESSURE_STABILITY <==> SteadyPressure(s)
    ensures ValueRange(s, VALVE) <= VALVE_STABILITY <==> SteadyValve(s)
  {
    RangeIsSteadiness(s, FLOW, FLOW_STABILITY);
    RangeIsSteadiness(s, PRESSURE, PRESSURE_STABILITY);
    RangeIsSteadiness(s, VALVE, VALVE_STABILITY);
    hide ValueRange;
  }

  // ---------------------------------------------------------------- gaps

  lemma {:induction false} GapsAreNeighbours(s: seq<Sample>, g: Gap)
    requires g in AdjacentGaps(s)
    ensures exists i :: 0 <= i < |s| - 1 && g == GapBetween(s[i], s[i + 1])
  {
    var init := s[..|s| - 1];
    assert AdjacentGaps(s) == AdjacentGaps(init) + [GapBetween(s[|s| - 2], s[|s| - 1])];
    hide AdjacentGaps, GapBetween;
    if g in AdjacentGaps(init) {
      GapsAreNeighbours(init, g);
      var i :| 0 <= i < |init| - 1 && g == GapBetween(init[i], init[i + 1]);
      assert g == GapBetween(s[i], s[i + 1]);
    } else {
      assert g == GapBetween(s[|s| - 2], s[|s| - 2 + 1]);
    }
  }

  lemma CadencedHasNoGap(s: seq<Sample>)
    requires Cadenced(s, 2)
    ensures forall g :: g in AdjacentGaps(s) ==> !g.invalid && g.micros <= 2_000_000
  {
    forall g | g in AdjacentGaps(s)
      ensures !g.invalid && g.micros <= 2_000_000
    {
      GapsAreNeighbours(s, g);
      var i :| 0 <= i < |s| - 1 && g == GapBetween(s[i], s[i + 1]);
      assert 0 < s[i + 1].sequence - s[i].sequence <= 2;
    }
  }

  lemma {:induction false} MaximumGapAttained(gaps: seq<Gap>)
    ensures MaximumGap(gaps).Some? ==> exists g :: g in gaps && g.micros == MaximumGap(gaps).value
  {
    if gaps != [] {
      MaximumGapAttained(gaps[1..]);
      assert gaps == [gaps[0]] + gaps[1..];
      assert gaps[0] in gaps && forall g :: g in gaps[1..] ==> g in gaps;
    }
  }

  lemma GapExactly(ordered: seq<Sample>, anchor: int, effectSeconds: nat)
    ensures
      var w := SelectWindow(ordered, anchor, BASELINE_SECONDS, effectSeconds, MAX_GAP_SECONDS);
      w.gapExceeded <==> !(Cadenced(w.baseline, 2) && Cadenced(w.effect, 2))
  {
    var w := SelectWindow(ordered, anchor, BASELINE_SECONDS, effectSeconds, MAX_GAP_SECONDS);
    if !w.gapExceeded {
      GapFreeIsCadenced(ordered, anchor, BASELINE_SECONDS, effectSeconds, MAX_GAP_SECONDS);
    }
    if Cadenced(w.baseline, 2) && Cadenced(w.effect, 2) {
      CadencedHasNoGap(w.baseline);
      CadencedHasNoGap(w.effect);
      var gaps := AdjacentGaps(w.baseline) + AdjacentGaps(w.effect);
      MaximumGapAttained(gaps);
      hide AdjacentGaps, MaximumGap, Cadenced;
      assert forall g :: g in gaps ==> !g.invalid && g.micros <= 2_000_000;
    }
  }

  ghost predicate NeighbourGap(s: seq<Sample>, gap: int) {
    exists i :: 0 <= i < |s| - 1 && gap == s[i + 1].observedAt - s[i].observedAt
  }

  /** The largest distance between neighbours of either part, if there are neighbours. */
  ghost predicate LargestGap(base: seq<Sample>, effect: seq<Sample>, gap: Option<int>) {
    match gap
    case None => |base| < 2 && |effect| < 2
    case Some(g) =>
      && (NeighbourGap(base, g) || NeighbourGap(effect, g))
      && forall other :: NeighbourGap(base, other) || NeighbourGap(effect, other) ==> other <= g
  }

  lemma NeighbourGapExactly(s: seq<Sample>, gap: int)
    ensures NeighbourGap(s, gap) <==> exists g :: g in AdjacentGaps(s) && g.micros == gap
  {
    if NeighbourGap(s, gap) {
      var i :| 0 <= i < |s| - 1 && gap == s[i + 1].observedAt - s[i].observedAt;
      AdjacentGapsAt(s, i);
    }
    hide AdjacentGaps;
    forall g | g in AdjacentGaps(s)
      ensures NeighbourGap(s, g.micros)
    {
      GapsAreNeighbours(s, g);
    }
  }

  lemma LargestGapExactly(ordered: seq<Sample>, anchor: int, effectSeconds: nat)
    ensures
      var w := SelectWindow(ordered, anchor, BASELINE_SECONDS, effectSeconds, MAX_GAP_SECONDS);
      LargestGap(w.baseline, w.effect, w.maximumGap)
  {
    var w := SelectWindow(ordered, anchor, BASELINE_SECONDS, effectSeconds, MAX_GAP_SECONDS);
    var a, b := AdjacentGaps(w.baseline), AdjacentGaps(w.effect);
    MaximumGapBounds(a + b);
    MaximumGapAttained(a + b);
    assert |w.baseline| < 2 <==> a == [];
    assert |w.effect| < 2 <==> b == [];
    hide AdjacentGaps, MaximumGap, Filter, GapExceeded;
    assert forall g :: g in a + b <==> g in a || g in b;
    forall gap: int
      ensures NeighbourGap(w.baseline, gap) <==> exists g :: g in a && g.micros == gap
      ensures NeighbourGap(w.effect, gap) <==> exists g :: g in b && g.micros == gap
    {
      NeighbourGapExactly(w.baseline, gap);
      NeighbourGapExactly(w.effect, gap);
    }
    hide NeighbourGap;
  }

  lemma WindowExactly(ordered: seq<Sample>, anchor: int, effectSeconds: nat)
    requires Chronological(ordered)
    ensures
      var w := SelectWindow(ordered, anchor, BASELINE_SECONDS, effectSeconds, MAX_GAP_SECONDS);
      var end := anchor + effectSeconds * 1_000_000;
      && w.start == anchor - 10_000_000 && w.end == end
      && w.baseline == BaselineOf(ordered, anchor) && w.effect == EffectOf(ordered, anchor, end)
      && w.after == LaterThan(ordered, end)
      && (w.finalized <==> exists s :: s in ordered && s.observedAt >= end)
      && (w.gapExceeded <==> !(Cadenced(w.baseline, 2) && Cadenced(w.effect, 2)))
  {
    var end := anchor + effectSeconds * 1_000_000;
    GapExactly(ordered, anchor, effectSeconds);
    hide AdjacentGaps, MaximumGap, GapExceeded, Cadenced;
    FilterSame(ordered, BaselineCut(anchor - 10_000_000, anchor), TenSecondsBefore(anchor));
    FilterSame(ordered, EffectCut(anchor, end), FromUntil(anchor, end));
    FilterSame(ordered, AfterCut(end), Beyond(end));
    hide Filter;
    if ordered != [] {
      assert ordered[|ordered| - 1] in ordered;
      assert forall s :: s in ordered ==> s.observedAt <= ordered[|ordered| - 1].observedAt;
    }
  }

  // ---------------------------------------------------------------- S4

  /** The pump runs, and the flow has fallen by 0.5 from the mean of ten steady, running seconds. */
  ghost predicate DropAt(ordered: seq<Sample>, k: int)
    requires 0 <= k < |ordered|
  {
    var base := BaselineOf(ordered, ordered[k].observedAt);
    && |base| >= 8 && SteadyFlow(base)
    && ordered[k].pumpRunning && (forall x :: x in base ==> x.pumpRunning)
    && ordered[k].flow <= MeanFlow(base) - 0.5
  }

  ghost predicate FirstDrop(ordered: seq<Sample>, k: int) {
    0 <= k < |ordered| && DropAt(ordered, k) && forall j :: 0 <= j < k ==> !DropAt(ordered, j)
  }

  ghost predicate NoDrop(ordered: seq<Sample>) {
    forall k :: 0 <= k < |ordered| ==> !DropAt(ordered, k)
  }

  lemma QualifiesExactly(ordered: seq<Sample>, k: int)
    requires 0 <= k < |ordered|
    ensures Qualifies(ordered, ordered[k]) <==> DropAt(ordered, k)
  {
    var at := ordered[k].observedAt;
    FilterSame(ordered, BaselineCut(at - BASELINE_SECONDS * SECOND, at), TenSecondsBefore(at));
    var base := BaselineOf(ordered, at);
    assert PrecedingBaseline(ordered, at) == base;
    hide Filter, BaselineOf;
    if base != [] {
      RangesOf(base);
      MeansOf(base);
    }
    hide ValueRange, Mean, SteadyFlow, MeanFlow;
  }

  lemma {:induction false} AnchorExactly(ordered: seq<Sample>, from: nat)
    requires from <= |ordered| && forall j :: 0 <= j < from ==> !DropAt(ordered, j)
    ensures
      match FindAnchor(ordered, from)
      case None => NoDrop(ordered)
      case Some(t) => exists k :: FirstDrop(ordered, k) && ordered[k].observedAt == t
    decreases |ordered| - from
  {
    hide DropAt, Qualifies;
    if from < |ordered| {
      QualifiesExactly(ordered, from);
      if Qualifies(ordered, ordered[from]) {
        assert FirstDrop(ordered, from);
      } else {
        AnchorExactly(ordered, from + 1);
      }
    }
  }

  /** Samples exactly 20 s before the end and exactly at the end, between which both tanks moved by
      at most 0.0002, and by the same amount up to 0.00000002. */
  ghost predicate Stagnant(ordered: seq<Sample>, end: int) {
    exists a, b :: a in ordered && b in ordered && a.observedAt == end - 20_000_000 && b.observedAt == end &&
      Still(a, b)
  }

  predicate Still(a: Sample, b: Sample) {
    var source, receiving := Abs(b.sourceLevel - a.sourceLevel), Abs(b.receivingLevel - a.receivingLevel);
    source <= 0.0002 && receiving <= 0.0002 && Abs(source - receiving) <= 0.00000002
  }

  lemma StillExactly(a: Sample, b: Sample)
    requires b.observedAt - a.observedAt == 20_000_000
    ensures Still(a, b) <==>
      InventoryStagnant(Some(Abs((b.sourceLevel - a.sourceLevel) / 20.0)),
        Some(Abs((b.receivingLevel - a.receivingLevel) / 20.0)))
  {
  }

  lemma TerminalMembers(ordered: seq<Sample>, anchor: int)
    requires Chronological(ordered)
    ensures
      var terminal := Terminal(S4Window(ordered, anchor));
      && Chronological(terminal)
      && forall s :: s in terminal <==> s in ordered && anchor + 40_000_000 <= s.observedAt <= anchor + 60_000_000
  {
    hide Filter, AdjacentGaps, MaximumGap, GapExceeded, Chronological;
    var w := S4Window(ordered, anchor);
    FilterChronological(ordered, EffectCut(anchor, w.end));
    FilterChronological(w.effect, FromTime(w.end - TERMINAL_SECONDS * SECOND));
    FilterKeeps(ordered, EffectCut(anchor, w.end));
    FilterKeeps(w.effect, FromTime(w.end - TERMINAL_SECONDS * SECOND));
  }

  lemma TerminalExactly(ordered: seq<Sample>, anchor: int)
    requires Chronological(ordered)
    ensures
      var terminal := Terminal(S4Window(ordered, anchor));
      InventoryStagnant(TerminalSlope(terminal, SOURCE), TerminalSlope(terminal, RECEIVING)) <==>
      Stagnant(ordered, anchor + 60_000_000)
  {
    TerminalMembers(ordered, anchor);
    hide Terminal, S4Window, InventoryStagnant, TerminalSlope, Stagnant;
    EndpointsExactly(ordered, Terminal(S4Window(ordered, anchor)), anchor + 60_000_000);
  }

  lemma EndpointsExactly(ordered: seq<Sample>, terminal: seq<Sample>, end: int)
    requires Chronological(ordered) && Chronological(terminal)
    requires forall s :: s in terminal <==> s in ordered && end - 20_000_000 <= s.observedAt <= end
    ensures
      InventoryStagnant(TerminalSlope(terminal, SOURCE), TerminalSlope(terminal, RECEIVING)) <==>
      Stagnant(ordered, end)
  {
    forall x, y | x in terminal && y in terminal
      ensures Span(terminal) >= y.observedAt - x.observedAt
    {
      SpanCovers(terminal, x, y);
    }
    if Span(terminal) >= TERMINAL_SECONDS * SECOND {
      var a, b := terminal[0], terminal[|terminal| - 1];
      assert a in terminal && b in terminal;
      assert a.observedAt == end - 20_000_000 && b.observedAt == end;
      StillExactly(a, b);
      assert Span(terminal) as real / SECOND as real == 20.0;
      assert TerminalSlope(terminal, SOURCE) == Some(Abs((b.sourceLevel - a.sourceLevel) / 20.0));
      assert TerminalSlope(terminal, RECEIVING) == Some(Abs((b.receivingLevel - a.receivingLevel) / 20.0));
      hide InventoryStagnant, Still, TerminalSlope;
      forall x, y | x in ordered && y in ordered && x.observedAt == end - 20_000_000 && y.observedAt == end
        ensures x == a && y == b
      {
        SameTime(terminal, x, a);
        SameTime(terminal, y, b);
      }
    }
  }

  lemma SpanCovers(s: seq<Sample>, x: Sample, y: Sample)
    requires Chronological(s) && x in s && y in s
    ensures Span(s) >= y.observedAt - x.observedAt
  {
    var i :| 0 <= i < |s| && s[i] == x;
    var j :| 0 <= j < |s| && s[j] == y;
  }

  lemma SameTime(s: seq<Sample>, x: Sample, y: Sample)
    requires Chronological(s) && x in s && y in s && x.observedAt == y.observedAt
    ensures x == y
  {
    var i :| 0 <= i < |s| && s[i] == x;
    var j :| 0 <= j < |s| && s[j] == y;
  }

  /** A pump that keeps running, a flow near zero, a raised pressure and still tanks. */
  ghost predicate S4Effects(base: seq<Sample>, effect: seq<Sample>, ordered: seq<Sample>, end: int)
    requires base != []
  {
    && Lasts(effect, Pumping(), 10)
    && Lasts(effect, FlowAtMost(0.1), 10)
    && Lasts(effect, PressureAtLeast(MeanPressure(base) + 0.5), 10)
    && Stagnant(ordered, end)
  }

  lemma S4MetExactly(w: Window, ordered: seq<Sample>, end: int)
    requires w.baseline != [] && w.effect != []
    requires
      InventoryStagnant(TerminalSlope(Terminal(w), SOURCE), TerminalSlope(Terminal(w), RECEIVING)) <==>
      Stagnant(ordered, end)
    ensures (forall o :: o in S4Observations(w) ==> o.met) <==> S4Effects(w.baseline, w.effect, ordered, end)
  {
    hide S4Observations, Persistence, Mean, Stagnant, Terminal, TerminalSlope, InventoryStagnant, Lasts, MeanPressure;
    MeansOf(w.baseline);
    var pressure := MeanPressure(w.baseline);
    PersistenceIsLasting(w.effect, RUNNING, Pumping(), 10);
    PersistenceIsLasting(w.effect, LOW, FlowAtMost(0.1), 10);
    PersistenceIsLasting(w.effect, PressureRose(pressure, S4_PRESSURE_INCREASE), PressureAtLeast(pressure + 0.5), 10);
    MetFlags(w);
  }

  lemma MetFlags(w: Window)
    requires w.baseline != [] && w.effect != []
    ensures (forall o :: o in S4Observations(w) ==> o.met) <==>
      && Persistence(w.effect, RUNNING) >= 10 && Persistence(w.effect, LOW) >= 10
      && Persistence(w.effect, PressureRose(Mean(w.baseline, PRESSURE), S4_PRESSURE_INCREASE)) >= 10
      && InventoryStagnant(TerminalSlope(Terminal(w), SOURCE), TerminalSlope(Terminal(w), RECEIVING))
  {
    hide Persistence, Mean, Representative, TerminalSlope, Terminal, InventoryStagnant, ClassifyDelta;
    var o := S4Observations(w);
    assert o[0] in o && o[1] in o && o[2] in o && o[3] in o && o[4] in o;
  }

  /** The reason once a drop anchors the window. */
  ghost function AfterDrop(ordered: seq<Sample>, anchor: int, available: set<Point>): Reason {
    var base, effect := BaselineOf(ordered, anchor), EffectOf(ordered, anchor, anchor + 60_000_000);
    if forall s :: s in ordered ==> s.observedAt < anchor + 60_000_000 then WindowNotFinalized
    else if !({PumpRunning, FlowRate, LinePressure, SourceLevel, ReceivingLevel} <= available) then MissingTelemetry
    else if |base| < 8 || |effect| < 50 then InsufficientSamples
    else if !Cadenced(base, 2) || !Cadenced(effect, 2) then TelemetryGapExceeded
    else if !SteadyFlow(base) || !SteadyPressure(base) || (exists s :: s in base && !s.pumpRunning) then
      BaselineNotStable
    else if S4Effects(base, effect, ordered, anchor + 60_000_000) then CorrelationMatch
    else ProcessEffectDirectionMismatch
  }

  lemma S4VerdictExactly(ordered: seq<Sample>, anchor: int, available: set<Point>)
    requires Chronological(ordered)
    ensures
      var v := S4Verdict(S4Window(ordered, anchor), available);
      && v.reason == AfterDrop(ordered, anchor, available)
      && v.minimumSet == if v.reason == CorrelationMatch then Some("S4_PROCESS_INCONSISTENCY") else None
  {
    hide SelectWindow, S4Observations, S4Effects, BaselineOf, EffectOf, ValueRange, Cadenced, SteadyFlow,
      SteadyPressure,
      Terminal, TerminalSlope, InventoryStagnant, Stagnant;
    WindowExactly(ordered, anchor, 60);
    TerminalExactly(ordered, anchor);
    var w := S4Window(ordered, anchor);
    if w.baseline != [] {
      RangesOf(w.baseline);
      if w.effect != [] { S4MetExactly(w, ordered, anchor + 60_000_000); }
    }
  }

  /** The reason of an S4 evaluation of consistent telemetry. */
  ghost predicate S4Explains(ordered: seq<Sample>, available: set<Point>, reason: Reason)
    requires ordered != []
  {
    && (NoDrop(ordered) ==>
          reason == if |ordered| < 58 || ordered[|ordered| - 1].observedAt - ordered[0].observedAt < 70_000_000
                    then InsufficientSamples else NoProcessChange)
    && (forall k :: FirstDrop(ordered, k) ==> reason == AfterDrop(ordered, ordered[k].observedAt, available))
  }

  lemma S4ReasonExactly(ordered: seq<Sample>, available: set<Point>, run: RunConsistency)
    requires ordered != [] && Chronological(ordered)
    ensures S4Explains(ordered, available, EvaluateS4(ordered, available, run).reason)
    ensures
      var d := EvaluateS4(ordered, available, run);
      d.minimumSet == if d.reason == CorrelationMatch then Some("S4_PROCESS_INCONSISTENCY") else None
  {
    AnchorExactly(ordered, 0);
    if FindAnchor(ordered, 0).Some? {
      S4VerdictExactly(ordered, FindAnchor(ordered, 0).value, available);
      var k :| FirstDrop(ordered, k) && ordered[k].observedAt == FindAnchor(ordered, 0).value;
      hide DropAt, AfterDrop, S4Verdict, FindAnchor;
      assert !NoDrop(ordered);
      forall j | FirstDrop(ordered, j)
        ensures j == k
      {
      }
    } else {
      hide DropAt, AfterDrop, FindAnchor;
      assert forall k :: !FirstDrop(ordered, k);
    }
  }

  // ---------------------------------------------------------------- S3

  ghost predicate ValveMoved(part: seq<Sample>, available: set<Point>) {
    ValvePosition in available && Lasts(part, ValveAtTarget(), 3)
  }

  ghost predicate FlowFell(base: seq<Sample>, part: seq<Sample>, available: set<Point>)
    requires base != []
  {
    FlowRate in available && Lasts(part, FlowAtMost(MeanFlow(base) - 0.5), 5)
  }

  ghost predicate PressureGrew(base: seq<Sample>, part: seq<Sample>, available: set<Point>)
    requires base != []
  {
    LinePressure in available && Lasts(part, PressureAtLeast(MeanPressure(base) + 0.1), 5)
  }

  /** With a valve reading, the valve and one downstream effect; without, both effects. */
  ghost predicate S3Effects(base: seq<Sample>, part: seq<Sample>, available: set<Point>)
    requires base != []
  {
    if ValvePosition in available
    then ValveMoved(part, available) && (FlowFell(base, part, available) || PressureGrew(base, part, available))
    else FlowFell(base, part, available) && PressureGrew(base, part, available)
  }

  lemma S3MatchedExactly(base: seq<Sample>, part: seq<Sample>, available: set<Point>)
    requires base != []
    ensures S3Matched(part, S3BaselineOf(base, available)) <==> S3Effects(base, part, available)
  {
    hide Persistence, Mean, Lasts, MeanFlow, MeanPressure, MeanValve;
    MeansOf(base);
    var flow, pressure := MeanFlow(base), MeanPressure(base);
    PersistenceIsLasting(part, AT_VALVE_TARGET, ValveAtTarget(), 3);
    PersistenceIsLasting(part, FlowDropped(flow), FlowAtMost(flow - 0.5), 5);
    PersistenceIsLasting(part, PressureRose(pressure, S3_PRESSURE_INCREASE), PressureAtLeast(pressure + 0.1), 5);
  }

  /** Every reading stayed within its deadband of the baseline mean. */
  ghost predicate Unmoved(base: seq<Sample>, effect: seq<Sample>, available: set<Point>)
    requires base != [] && effect != []
  {
    && (ValvePosition in available ==>
          Abs(Representative(effect, ValveOf(), ValveAtTarget(), 3) - MeanValve(base)) <= 0.5)
    && (FlowRate in available ==>
          Abs(Representative(effect, FlowOf(), FlowAtMost(MeanFlow(base) - 0.5), 5) - MeanFlow(base)) <= 0.1)
    && (LinePressure in available ==>
          Abs(Representative(effect, PressureOf(), PressureAtLeast(MeanPressure(base) + 0.1),
            5) - MeanPressure(base)) <= 0.05)
  }

  lemma RepresentativesOf(base: seq<Sample>, effect: seq<Sample>)
    requires base != [] && effect != []
    ensures Representative(effect, VALVE, AT_VALVE_TARGET, 3) == Representative(effect, ValveOf(), ValveAtTarget(), 3)
    ensures Representative(effect, FLOW, FlowDropped(MeanFlow(base)), 5) ==
      Representative(effect, FlowOf(), FlowAtMost(MeanFlow(base) - 0.5), 5)
    ensures Representative(effect, PRESSURE, PressureRose(MeanPressure(base), S3_PRESSURE_INCREASE), 5) ==
      Representative(effect, PressureOf(), PressureAtLeast(MeanPressure(base) + 0.1), 5)
  {
    hide Representative, Mean, MeanFlow, MeanPressure;
    RepresentativeSame(effect, VALVE, ValveOf(), AT_VALVE_TARGET, ValveAtTarget(), 3);
    RepresentativeSame(effect, FLOW, FlowOf(), FlowDropped(MeanFlow(base)), FlowAtMost(MeanFlow(base) - 0.5), 5);
    RepresentativeSame(effect, PRESSURE, PressureOf(), PressureRose(MeanPressure(base), S3_PRESSURE_INCREASE),
                       PressureAtLeast(MeanPressure(base) + 0.1), 5);
  }

  lemma NoChangeExactly(base: seq<Sample>, effect: seq<Sample>, available: set<Point>)
    requires base != [] && effect != [] && Chronological(base) && Chronological(effect)
    ensures NoChange(S3Observations(base, effect, S3BaselineOf(base, available))) <==> Unmoved(base, effect, available)
  {
    hide Persistence, Mean, Representative, EndpointSlope, MeanFlow, MeanPressure, MeanValve, Chronological;
    MeansOf(base);
    RepresentativesOf(base, effect);
    var b := S3BaselineOf(base, available);
    var valve := if b.valve.Some? then [ValveObservation(effect, b)] else [];
    var flow := if b.flow.Some? then [S3FlowObservation(effect, b)] else [];
    var pressure := if b.pressure.Some? then [S3PressureObservation(effect, b)] else [];
    var inventory := S3InventoryObservations(base, effect);
    assert forall o :: o in inventory ==> o.role != Required;
    NoChangeSplits(valve, flow, pressure, inventory);
    assert b.valve.Some? ==> valve[0] in valve;
    assert b.flow.Some? ==> flow[0] in flow;
    assert b.pressure.Some? ==> pressure[0] in pressure;
    hide NumericObservation, S3InventoryObservations, ValveMatch, FlowMatch, PressureMatch;
    DirectionsExactly(base, effect, available);
  }

  lemma NoChangeSplits(a: seq<Observation>, b: seq<Observation>, c: seq<Observation>, d: seq<Observation>)
    requires forall o :: o in d ==> o.role != Required
    ensures NoChange(a + b + c + d) <==> NoChange(a) && NoChange(b) && NoChange(c)
  {
    assert forall o :: o in a + b + c + d <==> o in a || o in b || o in c || o in d;
  }

  lemma DirectionsExactly(base: seq<Sample>, effect: seq<Sample>, available: set<Point>)
    requires base != [] && effect != []
    ensures
      var b := S3BaselineOf(base, available);
      && (b.valve.Some? ==>
            var o := ValveObservation(effect, b);
            o.role == Required &&
            (o.direction == Unchanged <==>
             Abs(Representative(effect, VALVE, AT_VALVE_TARGET, 3) - Mean(base, VALVE)) <= 0.5))
      && (b.flow.Some? ==>
            var o := S3FlowObservation(effect, b);
            o.role == Required &&
            (o.direction == Unchanged <==>
             Abs(Representative(effect, FLOW, FlowDropped(Mean(base, FLOW)), 5) - Mean(base, FLOW)) <= 0.1))
      && (b.pressure.Some? ==>
            var o := S3PressureObservation(effect, b);
            o.role == Required &&
            (o.direction == Unchanged <==>
             Abs(Representative(effect, PRESSURE, PressureRose(Mean(base, PRESSURE), S3_PRESSURE_INCREASE), 5) -
                 Mean(base, PRESSURE)) <= 0.05))
  {
    hide Persistence, Mean, Representative, ValveMatch, FlowMatch, PressureMatch;
  }

  /** The points a request offers cannot make up a minimum set. */
  predicate TooFewPoints(available: set<Point>) {
    if ValvePosition in available then FlowRate !in available && LinePressure !in available
    else FlowRate !in available || LinePressure !in available
  }

  ghost predicate SteadyPoints(base: seq<Sample>, available: set<Point>) {
    && (ValvePosition in available ==> SteadyValve(base))
    && (FlowRate in available ==> SteadyFlow(base))
    && (LinePressure in available ==> SteadyPressure(base))
  }

  /** The reason of an S3 evaluation of consistent telemetry around the command. */
  ghost function S3Reason(ordered: seq<Sample>, anchor: int, available: set<Point>): Reason {
    var end := anchor + 30_000_000;
    var base, effect := BaselineOf(ordered, anchor), EffectOf(ordered, anchor, end);
    if forall s :: s in ordered ==> s.observedAt < end then WindowNotFinalized
    else if TooFewPoints(available) then MissingTelemetry
    else if |base| < 8 || |effect| < 24 then InsufficientSamples
    else if !Cadenced(base, 2) || !Cadenced(effect, 2) then TelemetryGapExceeded
    else if !SteadyPoints(base, available) then BaselineNotStable
    else if S3Effects(base, effect, available) then CorrelationMatch
    else if S3Effects(base, LaterThan(ordered, end), available) then ProcessChangeOutsideWindow
    else if Unmoved(base, effect, available) then NoProcessChange
    else ProcessEffectDirectionMismatch
  }

  function S3MinimumSet(reason: Reason, available: set<Point>): Option<string> {
    if reason != CorrelationMatch then None
    else if ValvePosition in available then Some("VALVE_AND_DOWNSTREAM") else Some("DUAL_DOWNSTREAM_WITHOUT_VALVE")
  }

  lemma S3VerdictExactly(ordered: seq<Sample>, anchor: int, available: set<Point>, run: RunConsistency)
    requires Chronological(ordered)
    ensures
      var d := EvaluateS3(ordered, anchor, available, run);
      d.reason == S3Reason(ordered, anchor, available) && d.minimumSet == S3MinimumSet(d.reason, available)
  {
    hide SelectWindow, S3Observations, S3Effects, S3Matched, BaselineOf, EffectOf, LaterThan, ValueRange, Cadenced,
      Unmoved,
      NoChange, SteadyFlow, SteadyPressure, SteadyValve, Mean;
    WindowExactly(ordered, anchor, 30);
    WindowChronological(ordered, anchor, BASELINE_SECONDS, S3_EFFECT_SECONDS, MAX_GAP_SECONDS);
    var w := S3Window(ordered, anchor);
    if w.baseline != [] {
      RangesOf(w.baseline);
      S3MatchedExactly(w.baseline, w.effect, available);
      S3MatchedExactly(w.baseline, w.after, available);
      if w.effect != [] { NoChangeExactly(w.baseline, w.effect, available); }
    }
    hide Chronological, S3BaselineOf;
  }

  // ---------------------------------------------------------------- guards

  ghost predicate TwoRuns(samples: seq<Sample>) {
    exists a, b :: a in samples && b in samples && a.simulationId != b.simulationId
  }

  ghost predicate TwoConfigurations(samples: seq<Sample>) {
    exists a, b :: a in samples && b in samples && a.configurationHash != b.configurationHash
  }

  ghost predicate OtherSimulator(samples: seq<Sample>) {
    exists a :: a in samples && a.simulatorVersion != "3.0.0"
  }

  /** Two samples share a time or a sequence number, or disagree on when the run began. */
  ghost predicate BrokenClock(samples: seq<Sample>) {
    exists a, b :: a in samples && b in samples && a != b && ClocksClash(a, b)
  }

  predicate ClocksClash(a: Sample, b: Sample) {
    || a.observedAt == b.observedAt || a.sequence == b.sequence
    || a.observedAt - a.simulationSeconds * 1_000_000 != b.observedAt - b.simulationSeconds * 1_000_000
  }

  ghost function MismatchOf(samples: seq<Sample>): Option<Mismatch> {
    if TwoRuns(samples) then Some(RunIdMismatch)
    else if TwoConfigurations(samples) then Some(ConfigurationMismatch)
    else if OtherSimulator(samples) then Some(SimulatorVersionMismatch)
    else if BrokenClock(samples) then Some(ClockSequenceMismatch)
    else None
  }

  lemma MismatchExactly(ordered: seq<Sample>)
    requires Distinct(ordered)
    ensures ValidateRunConsistency(ordered).mismatch == MismatchOf(ordered)
  {
    if ordered != [] {
      var first := ordered[0];
      assert first in ordered;
      assert TwoRuns(ordered) <==> exists s :: s in ordered && s.simulationId != first.simulationId;
      assert TwoConfigurations(ordered) <==> exists s :: s in ordered && s.configurationHash != first.configurationHash;
      ClockExactly(ordered);
      hide TwoRuns, TwoConfigurations, BrokenClock, UniqueClock;
    }
  }

  lemma ClockExactly(ordered: seq<Sample>)
    requires Distinct(ordered) && ordered != []
    ensures BrokenClock(ordered) <==>
      !UniqueClock(ordered) || exists s :: s in ordered && Origin(s) != Origin(ordered[0])
  {
    var first := ordered[0];
    assert first in ordered;
    if !UniqueClock(ordered) {
      var i, j :| 0 <= i < j < |ordered| &&
        (ordered[i].observedAt == ordered[j].observedAt || ordered[i].sequence == ordered[j].sequence);
      assert ordered[i] in ordered && ordered[j] in ordered && ordered[i] != ordered[j];
      assert ClocksClash(ordered[i], ordered[j]);
    } else if s :| s in ordered && Origin(s) != Origin(first) {
      assert ClocksClash(s, first);
    } else {
      forall a, b | a in ordered && b in ordered && a != b
        ensures !ClocksClash(a, b)
      {
        var i :| 0 <= i < |ordered| && ordered[i] == a;
        var j :| 0 <= j < |ordered| && ordered[j] == b;
        assert Origin(a) == Origin(first) && Origin(b) == Origin(first);
        assert i < j || j < i;
      }
    }
  }

  /** The run identity is that of every sample, as far as the first inconsistency allows. */
  lemma RunReported(ordered: seq<Sample>, s: Sample)
    requires Distinct(ordered) && s in ordered
    ensures
      var run, mismatch := ValidateRunConsistency(ordered), MismatchOf(ordered);
      && run.simulationId == (if mismatch == Some(RunIdMismatch) then None else Some(s.simulationId))
      && run.configurationHash ==
           (if mismatch in {Some(RunIdMismatch), Some(ConfigurationMismatch)} then None else Some(s.configurationHash))
      && run.simulatorVersion == (if mismatch in {None, Some(ClockSequenceMismatch)} then Some("3.0.0") else None)
      && run.origin == (if mismatch == None then Some(s.observedAt - s.simulationSeconds * 1_000_000) else None)
  {
    MismatchExactly(ordered);
    hide UniqueClock, BrokenClock;
  }

  predicate CyberChain(q: Question) {
    q.cyber.Some? && q.cyber.value.raw.evidenceType == "synthetic_protocol_event" &&
    q.cyber.value.semantic.evidenceType == "protocol_semantic_event" &&
    q.cyber.value.assetContext.evidenceType == "asset_context_event" &&
    (q.cyber.value.policy.Some? ==> q.cyber.value.policy.value.evidenceType == "communication_policy_finding")
  }

  predicate IsS3(q: Question) { q.ruleId == "CPR-S3-CV-TRANSFER-001" }
  predicate IsS4(q: Question) { q.ruleId == "CPR-S4-PUMP-FLOW-001" }

  predicate ForeignPoint(q: Question) {
    exists p :: p in q.available && p !in {FlowRate, LinePressure, SourceLevel, ReceivingLevel} &&
      p != if IsS3(q) then ValvePosition else PumpRunning
  }

  /** Why a request is answered before its telemetry is evaluated. */
  ghost function Refusal(q: Question, sha256: string, samples: seq<Sample>): Option<Reason> {
    if q.profileId != "otsoc.correlation.oil_gas_transfer" || q.profileVersion != "1.0.0" then
      Some(ProfileVersionUnsupported)
    else if q.profileSha256 != sha256 then Some(ProfileDigestMismatch)
    else if (!IsS3(q) && !IsS4(q)) || q.ruleVersion != "1.0.0" then Some(UnsupportedCorrelationRule)
    else if IsS3(q) && !CyberChain(q) then Some(ParentEvidenceNotVerified)
    else if MismatchOf(samples).Some? then Some(RunMismatch(MismatchOf(samples).value))
    else if IsS3(q) && !(-0.000000000001 <= q.cyber.value.commandValue - 25.0 <= 0.000000000001) then
      Some(AssetRelationMismatch)
    else if IsS4(q) && q.cyber.Some? then Some(AssetRelationMismatch)
    else if ForeignPoint(q) then Some(PointRelationNotDefined)
    else if samples == [] then Some(MissingTelemetry)
    else None
  }

  lemma RuleIdsDiffer()
    ensures S3_RULE == "CPR-S3-CV-TRANSFER-001" && S4_RULE == "CPR-S4-PUMP-FLOW-001" && S3_RULE != S4_RULE
  {
    assert S3_RULE[5] == '3' && S4_RULE[5] == '4';
  }

  lemma PointsExactly(q: Question)
    ensures ForeignPoint(q) <==> !(q.available <= if IsS3(q) then S3_POINTS else S4_POINTS)
  {
  }

  lemma RefusalExactly(q: Question, sha256: string, ordered: seq<Sample>)
    requires Distinct(ordered)
    ensures GuardReason(q, sha256, ordered) == Refusal(q, sha256, ordered)
  {
    RuleIdsDiffer();
    MismatchExactly(ordered);
    PointsExactly(q);
    hide ValidateRunConsistency, MismatchOf, ForeignPoint;
  }

  // ---------------------------------------------------------------- the whole evaluation

  /** The reason a request must get, said on its canonical samples. */
  ghost predicate Explains(q: Question, sha256: string, ordered: seq<Sample>, reason: Reason) {
    match Refusal(q, sha256, ordered)
    case Some(refusal) => reason == refusal
    case None =>
      if IsS3(q) then q.cyber.Some? && reason == S3Reason(ordered, q.cyber.value.commandAt, q.available)
      else ordered != [] && S4Explains(ordered, q.available, reason)
  }

  predicate StatusFits(status: Status, reason: Reason) {
    && (status == Correlated <==> reason == CorrelationMatch)
    && (status == NotCorrelated <==>
          reason in {ProcessChangeOutsideWindow, ProcessEffectDirectionMismatch, NoProcessChange})
    && (status == InsufficientEvidence <==>
          reason in {WindowNotFinalized, MissingTelemetry, InsufficientSamples, TelemetryGapExceeded,
            BaselineNotStable})
  }

  lemma StatusExactly(reason: Reason)
    ensures StatusFits(StatusOf(reason), reason)
  {
  }

  function MinimumSet(q: Question, reason: Reason): Option<string> {
    if IsS3(q) then S3MinimumSet(reason, q.available)
    else if reason == CorrelationMatch then Some("S4_PROCESS_INCONSISTENCY") else None
  }

  /** The samples once each, in the order of time, sequence number and identity. */
  ghost predicate CanonicalOf(ordered: seq<Sample>, telemetry: seq<Sample>) {
    Sorted(ordered, SampleLe) && Distinct(ordered) && forall s :: s in ordered <==> s in telemetry
  }

  lemma DecisionExactly(q: Question, sha256: string, ordered: seq<Sample>)
    requires Sorted(ordered, SampleLe) && Distinct(ordered)
    ensures
      var d := Decide(q, sha256, ordered);
      Explains(q, sha256, ordered, d.reason) && StatusFits(d.status, d.reason) &&
        d.minimumSet == MinimumSet(q, d.reason)
  {
    hide SelectWindow, S3Verdict, S4Verdict, FindAnchor, ValidateRunConsistency, S3Reason, S4Explains, Refusal,
      GuardReason;
    RuleIdsDiffer();
    RefusalExactly(q, sha256, ordered);
    var d := Decide(q, sha256, ordered);
    StatusExactly(d.reason);
    GuardFacts(q, sha256, ordered);
    if GuardReason(q, sha256, ordered).None? {
      ConsistentIsChronological(ordered);
      var run := ValidateRunConsistency(ordered);
      if q.ruleId == S3_RULE {
        S3VerdictExactly(ordered, q.cyber.value.commandAt, q.available, run);
      } else {
        S4ReasonExactly(ordered, q.available, run);
      }
    }
    hide StatusFits;
  }

  lemma GuardFacts(q: Question, sha256: string, ordered: seq<Sample>)
    ensures
      var g := GuardReason(q, sha256, ordered);
      && (g.Some? ==> g.value != CorrelationMatch)
      && (g.None? ==>
            && ordered != [] && ValidateRunConsistency(ordered).mismatch.None?
            && (q.ruleId == S3_RULE || q.ruleId == S4_RULE) && (q.ruleId == S3_RULE ==> q.cyber.Some?))
  {
    hide ValidateRunConsistency;
  }

  /** Every finding carries the reason, status and minimum set that its samples call for. */
  lemma VerdictExactly(q: Question, telemetry: seq<Sample>, sha256: string, ordered: seq<Sample>)
    requires CanonicalOf(ordered, telemetry)
    ensures
      var r := EvaluateCorrelation(q, telemetry, sha256);
      r.Ok? ==>
        var d := r.value.decision;
        Explains(q, sha256, ordered, d.reason) && StatusFits(d.status, d.reason) &&
          d.minimumSet == MinimumSet(q, d.reason)
  {
    if EvaluateCorrelation(q, telemetry, sha256).Ok? {
      CanonicalIsUnique(telemetry, ordered);
      DecisionExactly(q, sha256, ordered);
      hide Decide, Explains, StatusFits, MinimumSet, Sorted;
    }
  }

  lemma CanonicalIsUnique(telemetry: seq<Sample>, ordered: seq<Sample>)
    requires CanonicalOf(ordered, telemetry) && CanonicalTelemetry(telemetry).Ok?
    ensures CanonicalTelemetry(telemetry).value == ordered
  {
    SampleOrder();
    CanonicalContent(telemetry, SAMPLE_ID, SampleLe);
    var c := CanonicalTelemetry(telemetry).value;
    DistinctSameMultiset(c, ordered);
    forall x, y | x in c && y in c && SampleLe(x, y) && SampleLe(y, x)
      ensures x == y
    {
      assert SAMPLE_ID(x) == SAMPLE_ID(y);
      var i :| 0 <= i < |c| && c[i] == x;
      var j :| 0 <= j < |c| && c[j] == y;
    }
    hide CanonicalTelemetry, Total, TiesById;
    SortedUnique(c, ordered, SampleLe);
  }

  /** A CORRELATED S4 finding, said once: the request is well-formed and consistent, and after the
      first drop the window is complete, sampled, unbroken and steady, with all four effects. */
  lemma S4CorrelatedExactly(q: Question, telemetry: seq<Sample>, sha256: string, ordered: seq<Sample>)
    requires CanonicalOf(ordered, telemetry) && IsS4(q)
    ensures
      var r := EvaluateCorrelation(q, telemetry, sha256);
      r.Ok? ==>
        (r.value.decision.status == Correlated <==>
         Refusal(q, sha256, ordered).None? &&
         exists k :: FirstDrop(ordered, k) && S4Correlates(ordered, ordered[k].observedAt, q.available))
  {
    hide EvaluateCorrelation, DropAt, Refusal, AfterDrop, S4Correlates, MinimumSet, CanonicalOf, S3Reason;
    VerdictExactly(q, telemetry, sha256, ordered);
    RuleIdsDiffer();
    RefusalIsNoMatch(q, sha256, ordered);
    if NoDrop(ordered) {
      assert forall k :: !FirstDrop(ordered, k);
    } else {
      FirstDropExists(ordered);
    }
    forall k | FirstDrop(ordered, k)
      ensures AfterDrop(ordered, ordered[k].observedAt, q.available) == CorrelationMatch <==>
        S4Correlates(ordered, ordered[k].observedAt, q.available)
    {
      AfterDropCorrelates(ordered, ordered[k].observedAt, q.available);
    }
  }

  lemma RefusalIsNoMatch(q: Question, sha256: string, ordered: seq<Sample>)
    ensures Refusal(q, sha256, ordered) != Some(CorrelationMatch)
    ensures Refusal(q, sha256, ordered).None? ==> ordered != []
  {
    hide MismatchOf, ForeignPoint, CyberChain;
  }

  lemma AfterDropCorrelates(ordered: seq<Sample>, anchor: int, available: set<Point>)
    ensures AfterDrop(ordered, anchor, available) == CorrelationMatch <==> S4Correlates(ordered, anchor, available)
  {
    hide BaselineOf, EffectOf, S4Effects, Cadenced, SteadyFlow, SteadyPressure;
  }

  ghost predicate S4Correlates(ordered: seq<Sample>, anchor: int, available: set<Point>) {
    var base, effect := BaselineOf(ordered, anchor), EffectOf(ordered, anchor, anchor + 60_000_000);
    && (exists s :: s in ordered && s.observedAt >= anchor + 60_000_000)
    && {PumpRunning, FlowRate, LinePressure, SourceLevel, ReceivingLevel} <= available
    && |base| >= 8 && |effect| >= 50 && Cadenced(base, 2) && Cadenced(effect, 2)
    && SteadyFlow(base) && SteadyPressure(base) && (forall s :: s in base ==> s.pumpRunning)
    && S4Effects(base, effect, ordered, anchor + 60_000_000)
  }

  lemma FirstDropExists(ordered: seq<Sample>)
    requires !NoDrop(ordered)
    ensures exists k :: FirstDrop(ordered, k)
  {
    AnchorExactly(ordered, 0);
  }

  // ---------------------------------------------------------------- what a decision reports

  ghost predicate LongestBlock(s: seq<Sample>, p: Sample -> bool, n: nat) {
    Lasts(s, p, n) && !Lasts(s, p, n + 1)
  }

  lemma PersistenceIsLongest(s: seq<Sample>, q: Sample -> bool, p: Sample -> bool)
    requires forall x: Sample :: p(x) == q(x)
    ensures LongestBlock(s, p, Persistence(s, q))
  {
    hide Lasts, Persistence;
    PersistenceIsLasting(s, q, p, Persistence(s, q));
    PersistenceIsLasting(s, q, p, Persistence(s, q) + 1);
  }

  /** A numeric observation says where the value was, where it went, by how much and which way. */
  predicate Reports(o: Observation, point: Point, baseline: real, observed: real, deadband: real) {
    && o.point == point && o.baseline == Number(baseline) && o.observed == Number(observed)
    && o.delta == Some(observed - baseline)
    && (o.direction == Increased <==> observed - baseline > deadband)
    && (o.direction == Decreased <==> baseline - observed > deadband)
    && (o.direction == Unchanged <==> -deadband <= observed - baseline <= deadband)
  }

  lemma ReportsNumeric(point: Point, baseline: real, observed: real, expected: Change, deadband: real, threshold: real,
                       required: nat, persistence: nat, role: Role, met: bool)
    requires deadband >= 0.0
    ensures
      var o := NumericObservation(point, baseline, observed, expected, deadband, threshold, required, persistence,
        role, met);
      && Reports(o, point, baseline, observed, deadband)
      && o.expected == expected && o.threshold == Some(threshold) && o.required == required
      && o.persistence == persistence && o.role == role && o.met == met
  {
  }

  lemma S4FlowExactly(w: Window)
    requires w.baseline != [] && w.effect != []
    ensures
      var o, flow := S4FlowObservation(w), MeanFlow(w.baseline);
      && Reports(o, FlowRate, flow, Representative(w.effect, FLOW, LOW, 10), 0.1)
      && o.threshold == Some(flow - 0.1) && o.required == 10 && o.role == Required && o.expected == Decreased
      && LongestBlock(w.effect, FlowAtMost(0.1), o.persistence) && (o.met <==> o.persistence >= 10)
  {
    hide Persistence, Mean, MeanFlow, Representative, Lasts;
    MeansOf(w.baseline);
    PersistenceIsLongest(w.effect, LOW, FlowAtMost(0.1));
  }

  lemma S4PressureExactly(w: Window)
    requires w.baseline != [] && w.effect != []
    ensures
      var o, pressure := S4PressureObservation(w), MeanPressure(w.baseline);
      && Reports(o, LinePressure, pressure, Representative(w.effect, PRESSURE, PressureRose(pressure, 0.5), 10), 0.05)
      && o.threshold == Some(0.5) && o.required == 10 && o.role == Required && o.expected == Increased
      && LongestBlock(w.effect, PressureAtLeast(pressure + 0.5), o.persistence) && (o.met <==> o.persistence >= 10)
  {
    hide Persistence, Mean, MeanPressure, Representative, Lasts;
    MeansOf(w.baseline);
    var pressure := MeanPressure(w.baseline);
    PersistenceIsLongest(w.effect, PressureRose(pressure, S4_PRESSURE_INCREASE), PressureAtLeast(pressure + 0.5));
  }

  lemma S4PumpExactly(w: Window)
    ensures
      var o := PumpObservation(w);
      && o.point == PumpRunning && o.baseline == Flag(true) && o.observed == Flag(o.met) && o.delta == None
      && o.direction == (if o.met then Unchanged else Unavailable) && o.required == 10 && o.role == Required
      && o.expected == Unchanged && o.threshold == None
      && LongestBlock(w.effect, Pumping(), o.persistence) && (o.met <==> o.persistence >= 10)
  {
    hide Persistence, Lasts;
    PersistenceIsLongest(w.effect, RUNNING, Pumping());
  }

  /** The S4 observations are pump, flow, pressure and the two tanks, the tanks met together. */
  lemma S4ObservationsExactly(w: Window)
    requires w.baseline != [] && w.effect != []
    ensures
      var o := S4Observations(w);
      var stagnant := InventoryStagnant(TerminalSlope(Terminal(w), SOURCE), TerminalSlope(Terminal(w), RECEIVING));
      && |o| == 5
      && o[0] == PumpObservation(w) && o[1] == S4FlowObservation(w) && o[2] == S4PressureObservation(w)
      && o[3].point == SourceLevel && o[4].point == ReceivingLevel
      && (forall i :: 3 <= i < 5 ==>
            var slope := TerminalSlope(Terminal(w), if i == 3 then SOURCE else RECEIVING);
            && o[i].met == stagnant && o[i].role == Required && o[i].required == 20
            && o[i].persistence == |Terminal(w)| && o[i].threshold == Some(0.00001)
            && o[i].baseline == Missing && o[i].delta == None && o[i].expected == Unchanged
            && o[i].observed == (if slope.None? then Missing else Number(slope.value))
            && (o[i].direction == Unchanged <==> slope.Some? && slope.value <= 0.00001)
            && (o[i].direction == Increased <==> slope.None? || slope.value > 0.00001))
  {
    hide PumpObservation, S4FlowObservation, S4PressureObservation, Terminal, TerminalSlope, InventoryStagnant;
  }

  lemma S3PointsReported(base: seq<Sample>, available: set<Point>)
    requires base != []
    ensures
      var b := S3BaselineOf(base, available);
      && b.valve == (if ValvePosition in available then Some(MeanValve(base)) else None)
      && b.flow == (if FlowRate in available then Some(MeanFlow(base)) else None)
      && b.pressure == (if LinePressure in available then Some(MeanPressure(base)) else None)
  {
    MeansOf(base);
    hide Mean, MeanFlow, MeanPressure, MeanValve;
  }

  lemma S3ValveExactly(effect: seq<Sample>, b: S3Baseline)
    requires effect != [] && b.valve.Some?
    ensures
      var o := ValveObservation(effect, b);
      && Reports(o, ValvePosition, b.valve.value, Representative(effect, VALVE, AT_VALVE_TARGET, 3), 0.5)
      && o.required == 3 && LongestBlock(effect, ValveAtTarget(), o.persistence) && (o.met <==> o.persistence >= 3)
      && o.expected == Decreased && o.threshold == Some(Abs(b.valve.value - 25.0)) && o.role == Required
  {
    hide Persistence, Representative, Lasts;
    PersistenceIsLongest(effect, AT_VALVE_TARGET, ValveAtTarget());
  }

  lemma S3FlowExactly(effect: seq<Sample>, b: S3Baseline)
    requires effect != [] && b.flow.Some?
    ensures
      var o, flow := S3FlowObservation(effect, b), b.flow.value;
      && Reports(o, FlowRate, flow, Representative(effect, FLOW, FlowDropped(flow), 5), 0.1)
      && o.required == 5 && LongestBlock(effect, FlowAtMost(flow - 0.5), o.persistence) &&
        (o.met <==> o.persistence >= 5)
      && o.expected == Decreased && o.threshold == Some(0.5) && o.role == Required
  {
    hide Persistence, Representative, Lasts;
    PersistenceIsLongest(effect, FlowDropped(b.flow.value), FlowAtMost(b.flow.value - 0.5));
  }

  lemma S3PressureExactly(effect: seq<Sample>, b: S3Baseline)
    requires effect != [] && b.pressure.Some?
    ensures
      var o, pressure := S3PressureObservation(effect, b), b.pressure.value;
      && Reports(o, LinePressure, pressure, Representative(effect, PRESSURE, PressureRose(pressure, 0.1), 5), 0.05)
      && o.required == 5 && LongestBlock(effect, PressureAtLeast(pressure + 0.1), o.persistence)
      && (o.met <==> o.persistence >= 5) && o.expected == Increased && o.threshold == Some(0.1) && o.role == Required
  {
    hide Persistence, Representative, Lasts;
    var pressure := b.pressure.value;
    PersistenceIsLongest(effect, PressureRose(pressure, S3_PRESSURE_INCREASE), PressureAtLeast(pressure + 0.1));
  }

  /** The slope times the seconds between the ends is the change between them. */
  lemma SlopeExactly(s: seq<Sample>, value: Sample -> real)
    requires Span(s) > 0
    ensures |s| >= 2 && Span(s) == s[|s| - 1].observedAt - s[0].observedAt
    ensures EndpointSlope(s, value) * (Span(s) as real / 1_000_000.0) == value(s[|s| - 1]) - value(s[0])
  {
    DivideMultiply(value(s[|s| - 1]) - value(s[0]), Span(s) as real / 1_000_000.0);
  }

  /** The two tank observations of S3: supporting when the rate fell by 0.00002 and both tanks agree,
      contradicting otherwise, and none without two samples on each side. */
  lemma S3InventoryExactly(base: seq<Sample>, effect: seq<Sample>)
    requires Chronological(base) && Chronological(effect)
    ensures
      var o := S3InventoryObservations(base, effect);
      && (|base| < 2 || |effect| < 2 ==> o == [])
      && (|base| >= 2 && |effect| >= 2 ==>
            var before, after := Abs(EndpointSlope(base, SOURCE)), Abs(EndpointSlope(effect, SOURCE));
            var filling, filled := Abs(EndpointSlope(base, RECEIVING)), Abs(EndpointSlope(effect, RECEIVING));
            && |o| == 2 && Reports(o[0], SourceLevel, before, after, 0.0) &&
              Reports(o[1], ReceivingLevel, filling, filled, 0.0)
            && (o[0].met <==> before - after >= 0.00002 && -0.000000001 <= after - filled <= 0.000000001)
            && (o[1].met <==> filling - filled >= 0.00002 && -0.000000001 <= after - filled <= 0.000000001)
            && (forall i :: 0 <= i < 2 ==>
                  && o[i].role == (if o[i].met then Supporting else Contradicting)
                  && o[i].persistence == o[i].required == |effect|))
  {
    hide EndpointSlope;
  }

  /** The window a decision reports. */
  ghost predicate ReportsWindow(d: Decision, ordered: seq<Sample>, anchor: int, end: int) {
    && d.anchor == Some(anchor) && d.start == Some(anchor - 10_000_000) && d.end == Some(end)
    && d.baselineCount == |BaselineOf(ordered, anchor)| && d.effectCount == |EffectOf(ordered, anchor, end)|
    && LargestGap(BaselineOf(ordered, anchor), EffectOf(ordered, anchor, end), d.maximumGap)
  }

  /** Without an evaluated window nothing is counted or observed. */
  predicate ReportsNothing(d: Decision) {
    && d.start == None && d.end == None && d.baselineCount == 0 && d.effectCount == 0
    && d.maximumGap == None && d.observations == []
  }

  lemma ReportedWindow(q: Question, sha256: string, ordered: seq<Sample>)
    requires Sorted(ordered, SampleLe) && Distinct(ordered)
    ensures
      var d := Decide(q, sha256, ordered);
      match Refusal(q, sha256, ordered)
      case Some(reason) =>
        ReportsNothing(d) &&
        d.anchor == if (IsS4(q) && reason == AssetRelationMismatch) || q.cyber.None? then
          None else Some(q.cyber.value.commandAt)
      case None =>
        if IsS3(q) then q.cyber.Some? && var at := q.cyber.value.commandAt; ReportsWindow(d, ordered, at,
          at + 30_000_000)
        else
          && (NoDrop(ordered) ==> ReportsNothing(d) && d.anchor == None)
          && (forall k :: FirstDrop(ordered, k) ==>
                ReportsWindow(d, ordered, ordered[k].observedAt, ordered[k].observedAt + 60_000_000))
  {
    hide EvaluateS3, EvaluateS4, ValidateRunConsistency, Refusal, GuardReason, ReportsWindow, DropAt, Chronological;
    RuleIdsDiffer();
    RefusalExactly(q, sha256, ordered);
    GuardFacts(q, sha256, ordered);
    if GuardReason(q, sha256, ordered).None? {
      ConsistentIsChronological(ordered);
      var run := ValidateRunConsistency(ordered);
      if q.ruleId == S3_RULE {
        S3ReportedWindow(ordered, q.cyber.value.commandAt, q.available, run);
      } else {
        S4ReportedWindow(ordered, q.available, run);
      }
    }
  }

  lemma S3ReportedWindow(ordered: seq<Sample>, anchor: int, available: set<Point>, run: RunConsistency)
    requires Chronological(ordered)
    ensures ReportsWindow(EvaluateS3(ordered, anchor, available, run), ordered, anchor, anchor + 30_000_000)
  {
    hide S3Verdict, SelectWindow, BaselineOf, EffectOf, LargestGap;
    WindowExactly(ordered, anchor, 30);
    LargestGapExactly(ordered, anchor, 30);
  }

  lemma S4ReportedWindow(ordered: seq<Sample>, available: set<Point>, run: RunConsistency)
    requires ordered != [] && Chronological(ordered)
    ensures
      var d := EvaluateS4(ordered, available, run);
      && (NoDrop(ordered) ==> ReportsNothing(d) && d.anchor == None)
      && (forall k :: FirstDrop(ordered, k) ==>
            ReportsWindow(d, ordered, ordered[k].observedAt, ordered[k].observedAt + 60_000_000))
  {
    hide S4Verdict, SelectWindow, BaselineOf, EffectOf, DropAt, FindAnchor, LargestGap;
    AnchorExactly(ordered, 0);
    if FindAnchor(ordered, 0).Some? {
      var k :| FirstDrop(ordered, k) && ordered[k].observedAt == FindAnchor(ordered, 0).value;
      WindowExactly(ordered, ordered[k].observedAt, 60);
      LargestGapExactly(ordered, ordered[k].observedAt, 60);
      assert forall j :: FirstDrop(ordered, j) ==> j == k;
    }
  }

  /** Every evaluated decision, and every refusal that looked at the run, reports the run; an earlier
      refusal reports none. */
  lemma ReportedRun(q: Question, sha256: string, ordered: seq<Sample>)
    requires Sorted(ordered, SampleLe) && Distinct(ordered)
    ensures
      var d, refusal := Decide(q, sha256, ordered), Refusal(q, sha256, ordered);
      d.run ==
        if refusal.None? || refusal.value.RunMismatch? || refusal.value in {AssetRelationMismatch,
          PointRelationNotDefined}
        then ValidateRunConsistency(ordered)
        else RunConsistency(None, None, None, None, None)
  {
    hide S3Verdict, S4Verdict, SelectWindow, FindAnchor, ValidateRunConsistency, Refusal, GuardReason;
    RefusalExactly(q, sha256, ordered);
    GuardFacts(q, sha256, ordered);
    if GuardReason(q, sha256, ordered).None? {
      ConsistentIsChronological(ordered);
    }
  }

  /** Observations are reported exactly for the reasons that judge the effect. */
  lemma ReportedObservations(q: Question, sha256: string, ordered: seq<Sample>)
    requires Sorted(ordered, SampleLe) && Distinct(ordered)
    ensures
      var d := Decide(q, sha256, ordered);
      var judged := Refusal(q, sha256, ordered).None? &&
        d.reason in {CorrelationMatch, ProcessEffectDirectionMismatch, ProcessChangeOutsideWindow, NoProcessChange};
      && (d.observations != [] ==> judged)
      && (judged && (IsS3(q) || d.reason != NoProcessChange) ==> d.observations != [])
  {
    hide SelectWindow, FindAnchor, ValidateRunConsistency, Refusal, GuardReason, S3Verdict, S4Verdict;
    RuleIdsDiffer();
    RefusalExactly(q, sha256, ordered);
    GuardFacts(q, sha256, ordered);
    if GuardReason(q, sha256, ordered).None? {
      ConsistentIsChronological(ordered);
      if q.ruleId == S3_RULE {
        var at := q.cyber.value.commandAt;
        WindowChronological(ordered, at, BASELINE_SECONDS, S3_EFFECT_SECONDS, MAX_GAP_SECONDS);
        S3Reports(S3Window(ordered, at), q.available);
      } else if FindAnchor(ordered, 0).Some? {
        S4Reports(S4Window(ordered, FindAnchor(ordered, 0).value), q.available);
      }
    }
  }

  lemma S3Reports(w: Window, available: set<Point>)
    requires Chronological(w.baseline) && Chronological(w.effect)
    ensures
      var v := S3Verdict(w, available);
      v.observations != [] <==>
        v.reason in {CorrelationMatch, ProcessEffectDirectionMismatch, ProcessChangeOutsideWindow, NoProcessChange}
  {
    hide S3Matched, S3Unstable, NoChange, ValveObservation, S3FlowObservation, S3PressureObservation,
      S3InventoryObservations, Mean;
  }

  lemma S4Reports(w: Window, available: set<Point>)
    ensures
      var v := S4Verdict(w, available);
      && (v.observations != [] <==> v.reason in {CorrelationMatch, ProcessEffectDirectionMismatch})
      && v.reason !in {ProcessChangeOutsideWindow, NoProcessChange}
  {
    hide S4Unstable, PumpObservation, S4FlowObservation, S4PressureObservation, InventoryObservation, Terminal,
      TerminalSlope;
  }

  /** A finding's identity is its rule, its run, its anchor and the set of its parents, and no more. */
  lemma IdentityExactly(q: Question, p: Question, a: seq<Sample>, b: seq<Sample>, sha256: string)
    ensures
      var f, g := EvaluateCorrelation(q, a, sha256), EvaluateCorrelation(p, b, sha256);
      f.Ok? && g.Ok? ==>
        (f.value.identity == g.value.identity <==>
         && q.ruleId == p.ruleId && q.ruleVersion == p.ruleVersion
         && f.value.decision.run.simulationId == g.value.decision.run.simulationId
         && f.value.decision.run.configurationHash == g.value.decision.run.configurationHash
         && f.value.decision.anchor == g.value.decision.anchor
         && forall x :: x in f.value.parents <==> x in g.value.parents)
  {
    var f, g := EvaluateCorrelation(q, a, sha256), EvaluateCorrelation(p, b, sha256);
    if f.Ok? && g.Ok? {
      ParentsAreCanonical(q, a, sha256);
      ParentsAreCanonical(p, b, sha256);
      if forall x :: x in f.value.parents <==> x in g.value.parents {
        SameParents(f.value.parents, g.value.parents);
      }
      IdentityParts(q, a, sha256);
      IdentityParts(p, b, sha256);
      hide EvaluateCorrelation;
    }
  }

  lemma IdentityParts(q: Question, telemetry: seq<Sample>, sha256: string)
    ensures
      var f := EvaluateCorrelation(q, telemetry, sha256);
      f.Ok? ==>
        f.value.identity ==
          FindingIdentity(q.ruleId, q.ruleVersion, f.value.decision.run.simulationId,
            f.value.decision.run.configurationHash,
                          f.value.decision.anchor, f.value.parents)
  {
    hide Decide, CanonicalParents, CanonicalTelemetry;
  }

  lemma ParentsAreCanonical(q: Question, telemetry: seq<Sample>, sha256: string)
    ensures
      var f := EvaluateCorrelation(q, telemetry, sha256);
      f.Ok? ==> Sorted(f.value.parents, ParentLe) && Distinct(f.value.parents) && !Conflicts(f.value.parents, PARENT_ID)
  {
    hide Decide, References, Sorted, Conflicts;
    var f := EvaluateCorrelation(q, telemetry, sha256);
    if f.Ok? {
      ParentOrder();
      var ordered := CanonicalTelemetry(telemetry).value;
      CanonicalContent(References(q, ordered), PARENT_ID, ParentLe);
    }
  }

  lemma SameParents(a: seq<Parent>, b: seq<Parent>)
    requires Sorted(a, ParentLe) && Sorted(b, ParentLe) && Distinct(a) && Distinct(b) && !Conflicts(a, PARENT_ID)
    requires forall x :: x in a <==> x in b
    ensures a == b
  {
    ParentOrder();
    DistinctSameMultiset(a, b);
    forall x, y | x in a && y in a && ParentLe(x, y) && ParentLe(y, x)
      ensures x == y
    {
      assert PARENT_ID(x) == PARENT_ID(y);
      var i :| 0 <= i < |a| && a[i] == x;
      var j :| 0 <= j < |a| && a[j] == y;
    }
    hide ParentLe, Total, TiesById;
    SortedUnique(a, b, ParentLe);
  }
}
