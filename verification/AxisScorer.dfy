/** Per-axis votes of two pods, the five-state diagnosis, and the cycle's status. */
module AxisScorer {
  import opened Wrappers
  import opened CyclePolicy

  datatype Axis = Correctness | Safety | Cost | Maintainability | Novelty | Pareto | Causality

  const BASE_AXES := [Correctness, Safety, Cost, Maintainability]

  predicate IsBase(x: Axis) { x == Correctness || x == Safety || x == Cost || x == Maintainability }

  function Rank(x: Axis): nat {
    match x
    case Correctness => 0
    case Safety => 1
    case Cost => 2
    case Maintainability => 3
    case _ => 4
  }

  /** The base axes are listed once each, in rank order. */
  lemma Listed(i: nat)
    requires i < 4
    ensures forall x :: Rank(x) == i <==> x == BASE_AXES[i]
  {
    assert BASE_AXES[0] == Correctness && BASE_AXES[1] == Safety;
    assert BASE_AXES[2] == Cost && BASE_AXES[3] == Maintainability;
  }

  datatype Band = Lo | Mid | Hi

  /** A word the text scan matched, or a band of the axis's own number. */
  datatype Token = Word(text: string) | InBand(band: Band)

  /** A weight as it stands in a block; a bool or any other value is not a number. */
  datatype Weight = Finite(value: real) | PlusInfinity | MinusInfinity | NaN | NotNumeric

  /** One pod's finding block: what the scan of its text matched, and its aggregated weights. */
  datatype Block = NotMapping | Mapping(scan: map<Axis, seq<Token>>, weights: map<Axis, Weight>)

  datatype Gates = Gates(numeric: bool, guard: bool, gapThreshold: real, causality: bool,
                         eligibility: bool, wired: bool)

  /** What one pod shows on each axis. */
  datatype Evidence = Evidence(tokens: map<Axis, seq<Token>>, causalChain: seq<Token>, raw: map<Axis, real>)

  function On(e: Evidence, x: Axis): seq<Token> { if x in e.tokens then e.tokens[x] else [] }

  // ------------------------------------------------------------------- bands

  const LO_MAX := 0.34
  const MID_MAX := 0.67
  const EDGE_TOL := 0.06
  const DEFAULT_GAP_THRESHOLD := 0.20

  function Abs(x: real): real { if x < 0.0 then -x else x }

  /** First occurrences, in order. */
  function Unique<T(==, !new)>(s: seq<T>): (r: seq<T>)
    ensures forall x :: x in r <==> x in s
  {
    if s == [] then []
    else
      var r := Unique(s[..|s| - 1]);
      assert s == s[..|s| - 1] + [s[|s| - 1]];
      if s[|s| - 1] in r then r else r + [s[|s| - 1]]
  }

  /** The band of a value, and near an edge the neighbouring band as well. */
  function Bands(v: real): seq<Band> {
    Unique((if v < LO_MAX then [Lo] else if v < MID_MAX then [Mid] else [Hi])
           + (if Abs(v - LO_MAX) <= EDGE_TOL then [Lo, Mid] else [])
           + (if Abs(v - MID_MAX) <= EDGE_TOL then [Mid, Hi] else []))
  }

  /** The bands are three overlapping closed intervals. */
  lemma BandMembership(v: real)
    ensures Lo in Bands(v) <==> v <= 0.40
    ensures Mid in Bands(v) <==> 0.28 <= v <= 0.73
    ensures Hi in Bands(v) <==> v >= 0.61
  {
  }

  predicate ShareBand(x: real, y: real) { exists b :: b in Bands(x) && b in Bands(y) }

  /** A small gap always shares a band, and a shared band bounds the gap. */
  lemma BandArithmetic(x: real, y: real)
    requires 0.0 <= x <= 1.0 && 0.0 <= y <= 1.0
    ensures Abs(x - y) <= 0.12 ==> ShareBand(x, y)
    ensures ShareBand(x, y) ==> Abs(x - y) <= 0.45
  {
    BandMembership(x);
    BandMembership(y);
    if Abs(x - y) <= 0.12 {
      var b := if x <= 0.40 && y <= 0.40 then Lo else if x >= 0.61 && y >= 0.61 then Hi else Mid;
      assert b in Bands(x) && b in Bands(y);
    }
  }

  /** Neither bound can be improved: 0.45 is reached, and just above 0.12 bands can be disjoint. */
  lemma BandBoundsAreTight(extra: real)
    requires 0.0 < extra <= 0.20
    ensures ShareBand(0.28, 0.73)
    ensures !ShareBand(0.28 - extra / 2.0, 0.40 + extra / 4.0)
    ensures Abs((0.28 - extra / 2.0) - (0.40 + extra / 4.0)) < 0.12 + extra
  {
    BandMembership(0.28);
    BandMembership(0.73);
    assert Mid in Bands(0.28) && Mid in Bands(0.73);
    BandMembership(0.28 - extra / 2.0);
    BandMembership(0.40 + extra / 4.0);
  }

  // -------------------------------------------------------------- extraction

  /** max(0.0, min(1.0, w)): a NaN compares false and comes out as 1.0. */
  function Clamp(w: Weight): (v: real)
    requires !w.NotNumeric?
    ensures 0.0 <= v <= 1.0
    ensures w.Finite? && 0.0 <= w.value <= 1.0 ==> v == w.value
  {
    match w
    case Finite(v) => if v < 0.0 then 0.0 else if v < 1.0 then v else 1.0
    case PlusInfinity => 1.0
    case MinusInfinity => 0.0
    case NaN => 1.0
  }

  predicate HasNumber(b: Block, x: Axis) {
    b.Mapping? && IsBase(x) && x in b.weights && !b.weights[x].NotNumeric?
  }

  function Numbers(b: Block): map<Axis, real> {
    map x | x in (if b.Mapping? then b.weights.Keys else {}) && HasNumber(b, x) :: Clamp(b.weights[x])
  }

  /** A missing or non-numeric weight leaves its axis out. */
  method NumericAxisValues(b: Block) returns (out: map<Axis, real>)
    ensures out == Numbers(b)
  {
    out := map[];
    if b.NotMapping? { return; }
    for i := 0 to 4
      invariant forall x :: x in out <==> HasNumber(b, x) && Rank(x) < i
      invariant forall x :: x in out ==> out[x] == Clamp(b.weights[x])
    {
      Listed(i);
      var x := BASE_AXES[i];
      if x in b.weights && !b.weights[x].NotNumeric? { out := out[x := Clamp(b.weights[x])]; }
    }
  }

  function BandTokens(v: real): (r: seq<Token>)
    ensures forall t :: t in r <==> t.InBand? && t.band in Bands(v)
  {
    var bs := Bands(v);
    var r := seq(|bs|, i requires 0 <= i < |bs| => InBand(bs[i]));
    assert forall t: Token :: t.InBand? && t.band in bs ==> t in r by {
      forall t: Token | t.InBand? && t.band in bs ensures t in r {
        var i :| 0 <= i < |bs| && bs[i] == t.band;
        assert r[i] == t;
      }
    }
    r
  }

  function ScanOn(b: Block, x: Axis): seq<Token> { if b.Mapping? && x in b.scan then b.scan[x] else [] }

  function TokensOn(g: Gates, b: Block, x: Axis): seq<Token> {
    if g.numeric && HasNumber(b, x) then Unique(ScanOn(b, x) + BandTokens(Clamp(b.weights[x]))) else ScanOn(b, x)
  }

  /** Only the four base axes are extracted from a block; the rest compare the two pods. */
  function Extracted(g: Gates, b: Block): Evidence {
    Evidence(map x: Axis | IsBase(x) :: TokensOn(g, b, x), [], if g.numeric && g.guard then Numbers(b) else map[])
  }

  method ExtractAxisEvidence(g: Gates, b: Block) returns (e: Evidence)
    ensures e == Extracted(g, b)
  {
    var merged: map<Axis, seq<Token>> := map x: Axis | IsBase(x) :: ScanOn(b, x);
    var raw: map<Axis, real> := map[];
    if g.numeric {
      var numeric := NumericAxisValues(b);
      merged := MergeBands(b, numeric, merged);
      if g.guard { raw := numeric; }
    }
    assert merged == (map x: Axis | IsBase(x) :: TokensOn(g, b, x));
    e := Evidence(merged, [], raw);
  }

  method MergeBands(b: Block, numeric: map<Axis, real>, start: map<Axis, seq<Token>>)
    returns (merged: map<Axis, seq<Token>>)
    requires numeric == Numbers(b) && forall x :: x in start <==> IsBase(x)
    ensures forall x :: x in merged <==> IsBase(x)
    ensures forall x :: x in merged ==>
              merged[x] == if x in numeric then Unique(start[x] + BandTokens(numeric[x])) else start[x]
  {
    merged := start;
    for i := 0 to 4
      invariant forall x :: x in merged <==> IsBase(x)
      invariant forall x :: x in merged ==>
                  merged[x] == if Rank(x) < i && x in numeric then Unique(start[x] + BandTokens(numeric[x]))
                               else start[x]
    {
      Listed(i);
      var x := BASE_AXES[i];
      if x in numeric { merged := merged[x := Unique(merged[x] + BandTokens(numeric[x]))]; }
    }
  }

  /** What extraction gives on a base axis: the scanned tokens, and the bands of its number when numbers are on. */
  lemma {:induction false} TokensSpelled(g: Gates, b: Block, x: Axis, t: Token)
    requires x == Correctness || x == Safety || x == Cost || x == Maintainability
    ensures t in On(Extracted(g, b), x) <==>
            || (b.Mapping? && x in b.scan && t in b.scan[x])
            || (g.numeric && Numbered(b, x) && InBandOf(t, NumberOf(b, x)))
  {
    assert On(Extracted(g, b), x) == TokensOn(g, b, x);
    if Numbered(b, x) {
      NumberIsClamped(b, x);
      BandTokenMeans(t, NumberOf(b, x));
    }
  }

  /** On no other axis, no chain, and the numbers themselves only for the guard. */
  lemma {:induction false} RestSpelled(g: Gates, b: Block, x: Axis)
    ensures Extracted(g, b).causalChain == []
    ensures x == Novelty || x == Pareto || x == Causality ==> On(Extracted(g, b), x) == []
    ensures x in Extracted(g, b).raw <==>
            g.numeric && g.guard && Numbered(b, x) && x != Novelty && x != Pareto && x != Causality
    ensures x in Extracted(g, b).raw ==> Extracted(g, b).raw[x] == NumberOf(b, x)
  {
    if Numbered(b, x) { NumberIsClamped(b, x); }
  }

  lemma NumberIsClamped(b: Block, x: Axis)
    requires Numbered(b, x)
    ensures Clamp(b.weights[x]) == NumberOf(b, x) && (IsBase(x) <==> HasNumber(b, x))
  {
  }

  lemma BandTokenMeans(t: Token, v: real)
    ensures t in BandTokens(v) <==> InBandOf(t, v)
  {
    BandMembership(v);
  }

  predicate Numbered(b: Block, x: Axis) { b.Mapping? && x in b.weights && b.weights[x] != NotNumeric }

  /** Cut to the unit interval; a NaN counts as one. */
  function NumberOf(b: Block, x: Axis): real
    requires Numbered(b, x)
  {
    match b.weights[x]
    case Finite(v) => if v >= 1.0 then 1.0 else if v >= 0.0 then v else 0.0
    case MinusInfinity => 0.0
    case _ => 1.0
  }

  predicate InBandOf(t: Token, v: real) {
    (t == InBand(Lo) && v <= 0.40) || (t == InBand(Mid) && 0.28 <= v <= 0.73) || (t == InBand(Hi) && v >= 0.61)
  }

  // -------------------------------------------------------------------- vote

  function Tokens(s: seq<Token>): set<Token> { set t | t in s }

  predicate Overlap(a: seq<Token>, b: seq<Token>) {
    (a == [] && b == []) || exists t :: t in a && t in b
  }

  method AxisAligned(a: seq<Token>, b: seq<Token>) returns (aligned: bool)
    ensures aligned == Overlap(a, b)
  {
    var both := Tokens(a) * Tokens(b);
    if a == [] && b == [] { return true; }
    if both != {} {
      var t :| t in both;
      assert t in a && t in b;
      return true;
    }
    forall t | t in a ensures t !in b { assert t in b ==> t in both; }
    aligned := false;
  }

  /** Both pods gave a number, and the numbers are too far apart. */
  predicate GapFired(g: Gates, a: Evidence, b: Evidence, x: Axis) {
    g.guard && x in a.raw && x in b.raw && Abs(a.raw[x] - b.raw[x]) > 0.0 && Abs(a.raw[x] - b.raw[x]) >= g.gapThreshold
  }

  predicate BaseAligned(g: Gates, a: Evidence, b: Evidence, x: Axis) {
    Overlap(On(a, x), On(b, x)) && !GapFired(g, a, b, x)
  }

  predicate SameTokens(a: Evidence, b: Evidence) {
    forall x :: IsBase(x) ==> Tokens(On(a, x)) == Tokens(On(b, x))
  }

  predicate AllBaseAligned(g: Gates, a: Evidence, b: Evidence) { forall x :: IsBase(x) ==> BaseAligned(g, a, b, x) }

  predicate Aligned(g: Gates, a: Evidence, b: Evidence, x: Axis) {
    match x
    case Novelty => SameTokens(a, b)
    case Pareto => AllBaseAligned(g, a, b)
    case Causality => Overlap(a.causalChain, b.causalChain)
    case _ => BaseAligned(g, a, b, x)
  }

  function Alignment(g: Gates, a: Evidence, b: Evidence): map<Axis, bool> {
    map x: Axis | x != Causality || g.causality :: Aligned(g, a, b, x)
  }

  /** Fill the alignment map axis by axis; the gap guard may turn an agreement over. */
  method VotePerAxis(g: Gates, a: Evidence, b: Evidence) returns (alignment: map<Axis, bool>)
    ensures alignment == Alignment(g, a, b)
  {
    alignment := VoteBase(g, a, b);
    var novel := Novel(a, b);
    ParetoIsAll(g, a, b, alignment);
    var pareto := alignment[Correctness] && alignment[Safety] && alignment[Cost] && alignment[Maintainability];
    ghost var base := alignment;
    alignment := alignment[Novelty := novel == {}][Pareto := pareto];
    if g.causality {
      var chain := AxisAligned(a.causalChain, b.causalChain);
      alignment := alignment[Causality := chain];
    }
    IsAlignment(g, a, b, base, alignment);
  }

  lemma IsAlignment(g: Gates, a: Evidence, b: Evidence, base: map<Axis, bool>, m: map<Axis, bool>)
    requires forall x :: x in base <==> IsBase(x)
    requires forall x :: x in base ==> base[x] == BaseAligned(g, a, b, x)
    requires m == (if g.causality
                   then base[Novelty := SameTokens(a, b)][Pareto := AllBaseAligned(g, a, b)]
                          [Causality := Overlap(a.causalChain, b.causalChain)]
                   else base[Novelty := SameTokens(a, b)][Pareto := AllBaseAligned(g, a, b)])
    ensures m == Alignment(g, a, b)
  {
    forall x ensures x in m <==> x != Causality || g.causality
             ensures x in m ==> m[x] == Aligned(g, a, b, x)
    {
      match x
      case Novelty =>
      case Pareto =>
      case Causality =>
      case _ => assert IsBase(x);
    }
  }

  lemma ParetoIsAll(g: Gates, a: Evidence, b: Evidence, m: map<Axis, bool>)
    requires forall x :: x in m <==> IsBase(x)
    requires forall x :: x in m ==> m[x] == BaseAligned(g, a, b, x)
    ensures Correctness in m && Safety in m && Cost in m && Maintainability in m
    ensures AllBaseAligned(g, a, b) <==> m[Correctness] && m[Safety] && m[Cost] && m[Maintainability]
  {
  }

  method VoteBase(g: Gates, a: Evidence, b: Evidence) returns (alignment: map<Axis, bool>)
    ensures forall x :: x in alignment <==> IsBase(x)
    ensures forall x :: x in alignment ==> alignment[x] == BaseAligned(g, a, b, x)
  {
    alignment := map[];
    for i := 0 to 4
      invariant forall x :: x in alignment <==> Rank(x) < i
      invariant forall x :: x in alignment ==> alignment[x] == Overlap(On(a, x), On(b, x))
    {
      Listed(i);
      var aligned := AxisAligned(On(a, BASE_AXES[i]), On(b, BASE_AXES[i]));
      alignment := alignment[BASE_AXES[i] := aligned];
    }
    if g.guard { alignment := GuardGaps(g, a, b, alignment); }
  }

  method GuardGaps(g: Gates, a: Evidence, b: Evidence, start: map<Axis, bool>) returns (alignment: map<Axis, bool>)
    requires g.guard && forall x :: x in start <==> IsBase(x)
    requires forall x :: x in start ==> start[x] == Overlap(On(a, x), On(b, x))
    ensures forall x :: x in alignment <==> IsBase(x)
    ensures forall x :: x in alignment ==> alignment[x] == BaseAligned(g, a, b, x)
  {
    alignment := start;
    for i := 0 to 4
      invariant forall x :: x in alignment <==> IsBase(x)
      invariant forall x :: x in alignment ==>
                  alignment[x] == if Rank(x) < i then BaseAligned(g, a, b, x) else start[x]
    {
      Listed(i);
      var x := BASE_AXES[i];
      if x !in a.raw || x !in b.raw { continue; }
      var gap := Abs(a.raw[x] - b.raw[x]);
      var fired := gap > 0.0 && gap >= g.gapThreshold;
      if fired && alignment[x] { alignment := alignment[x := false]; }
    }
  }

  /** The tokens that exactly one pod has, axis by axis. */
  method Novel(a: Evidence, b: Evidence) returns (novel: set<(Axis, Token)>)
    ensures novel == {} <==> SameTokens(a, b)
  {
    novel := {};
    for i := 0 to 4
      invariant novel == {} <==> forall x :: Rank(x) < i ==> Tokens(On(a, x)) == Tokens(On(b, x))
    {
      Listed(i);
      var x := BASE_AXES[i];
      var ta, tb := Tokens(On(a, x)), Tokens(On(b, x));
      var only := set t | t in (ta - tb) + (tb - ta) :: (x, t);
      if ta != tb {
        var t :| t in (ta - tb) + (tb - ta);
        assert (x, t) in only;
      }
      novel := novel + only;
    }
  }

  function One(b: bool): nat { if b then 1 else 0 }

  function Vote(m: map<Axis, bool>, x: Axis): nat { One(x in m && m[x]) }

  /** How many values of the map are true. */
  function Votes(m: map<Axis, bool>): nat {
    Vote(m, Correctness) + Vote(m, Safety) + Vote(m, Cost) + Vote(m, Maintainability)
    + Vote(m, Novelty) + Vote(m, Pareto) + Vote(m, Causality)
  }

  // -------------------------------------------------------- vote structure

  lemma OverlapSymmetric(a: seq<Token>, b: seq<Token>)
    ensures Overlap(a, b) == Overlap(b, a)
  {
  }

  /** Exchanging the pods changes no vote. */
  lemma VoteSymmetric(g: Gates, a: Evidence, b: Evidence)
    ensures Alignment(g, a, b) == Alignment(g, b, a)
  {
    OverlapSymmetric(a.causalChain, b.causalChain);
    forall x ensures BaseAligned(g, a, b, x) == BaseAligned(g, b, a, x) {
      OverlapSymmetric(On(a, x), On(b, x));
    }
    assert forall x :: x in Alignment(g, a, b) ==> Aligned(g, a, b, x) == Aligned(g, b, a, x);
  }

  function BaseVotes(g: Gates, a: Evidence, b: Evidence): nat {
    One(BaseAligned(g, a, b, Correctness)) + One(BaseAligned(g, a, b, Safety))
    + One(BaseAligned(g, a, b, Cost)) + One(BaseAligned(g, a, b, Maintainability))
  }

  /** The count, axis by axis. */
  lemma VotesAdd(g: Gates, a: Evidence, b: Evidence)
    ensures Votes(Alignment(g, a, b)) ==
            BaseVotes(g, a, b) + One(SameTokens(a, b)) + One(AllBaseAligned(g, a, b))
            + One(g.causality && Overlap(a.causalChain, b.causalChain))
  {
    VoteAt(g, a, b, Correctness);
    VoteAt(g, a, b, Safety);
    VoteAt(g, a, b, Cost);
    VoteAt(g, a, b, Maintainability);
    VoteAt(g, a, b, Novelty);
    VoteAt(g, a, b, Pareto);
    VoteAt(g, a, b, Causality);
  }

  lemma VoteAt(g: Gates, a: Evidence, b: Evidence, x: Axis)
    ensures Vote(Alignment(g, a, b), x) == One((x != Causality || g.causality) && Aligned(g, a, b, x))
  {
  }

  lemma AllFour(g: Gates, a: Evidence, b: Evidence)
    ensures AllBaseAligned(g, a, b) <==> BaseVotes(g, a, b) == 4
  {
  }

  /** Five votes mean that all four base axes align, with the gap guard or without it. */
  lemma FiveMeansAllBase(g: Gates, a: Evidence, b: Evidence)
    requires !g.causality
    ensures Votes(Alignment(g, a, b)) >= 5 <==> AllBaseAligned(g, a, b)
  {
    VotesAdd(g, a, b);
    AllFour(g, a, b);
  }

  lemma SameTokensOverlap(a: seq<Token>, b: seq<Token>)
    requires Tokens(a) == Tokens(b)
    ensures Overlap(a, b)
  {
    assert a != [] ==> a[0] in Tokens(a);
    assert b != [] ==> b[0] in Tokens(b);
  }

  /** Four votes come from the gap guard alone: identical tokens, and one axis whose numbers differ too much. */
  lemma FourNeedsTheGuard(g: Gates, a: Evidence, b: Evidence)
    requires !g.causality
    ensures Votes(Alignment(g, a, b)) == 4 <==> SameTokens(a, b) && BaseVotes(g, a, b) == 3
    ensures Votes(Alignment(g, a, b)) == 4 ==> exists x :: IsBase(x) && GapFired(g, a, b, x)
    ensures !g.guard ==> Votes(Alignment(g, a, b)) != 4
  {
    VotesAdd(g, a, b);
    AllFour(g, a, b);
    if SameTokens(a, b) {
      forall x | IsBase(x) ensures Overlap(On(a, x), On(b, x)) { SameTokensOverlap(On(a, x), On(b, x)); }
    }
  }

  lemma {:induction false} FourIsReachable(g: Gates, gap: real)
    requires g.numeric && g.guard && !g.causality && 0.0 < gap <= 0.06 && g.gapThreshold <= gap
    ensures Votes(Alignment(g, Extracted(g, CostOnly(0.0)), Extracted(g, CostOnly(gap)))) == 4
  {
    CostOnlyShows(g, 0.0);
    CostOnlyShows(g, gap);
    FourFromCosts(g, Extracted(g, CostOnly(0.0)), Extracted(g, CostOnly(gap)), 0.0, gap);
  }

  lemma SameBands(v: real, gap: real)
    requires v == 0.0 && 0.0 < gap <= 0.06
    ensures forall b :: b in Bands(v) <==> b in Bands(gap)
  {
    BandMembership(v);
    BandMembership(gap);
    forall b: Band ensures b in Bands(v) <==> b in Bands(gap) { assert b == Lo || b == Mid || b == Hi; }
  }

  function CostOnly(v: real): Block { Mapping(map[], map[Cost := Finite(v)]) }

  /** The bands of one cost, and nothing else. */
  ghost predicate ShowsCost(e: Evidence, v: real) {
    && e.raw == map[Cost := v]
    && (forall t :: t in On(e, Cost) <==> t.InBand? && t.band in Bands(v))
    && (forall x :: IsBase(x) && x != Cost ==> On(e, x) == [])
  }

  lemma CostOnlyShows(g: Gates, v: real)
    requires g.numeric && g.guard && 0.0 <= v <= 1.0
    ensures ShowsCost(Extracted(g, CostOnly(v)), v)
  {
    var b := CostOnly(v);
    assert Clamp(b.weights[Cost]) == v;
    NumericTokens(g, b, Cost);
    assert forall x :: IsBase(x) && x != Cost ==> !HasNumber(b, x);
    assert HasNumber(b, Cost) && Numbers(b) == map[Cost := v];
  }

  lemma FourFromCosts(g: Gates, a: Evidence, b: Evidence, v: real, gap: real)
    requires g.guard && !g.causality && v == 0.0 && 0.0 < gap <= 0.06 && g.gapThreshold <= gap
    requires ShowsCost(a, v) && ShowsCost(b, gap)
    ensures Votes(Alignment(g, a, b)) == 4
  {
    SameBands(v, gap);
    assert Abs(v - gap) == gap;
    FourFrom(g, a, b);
  }

  lemma FourFrom(g: Gates, a: Evidence, b: Evidence)
    requires g.guard && !g.causality && GapFired(g, a, b, Cost)
    requires forall t :: t in On(a, Cost) <==> t in On(b, Cost)
    requires forall x :: x in a.raw ==> x == Cost
    requires forall x :: IsBase(x) && x != Cost ==> On(a, x) == [] && On(b, x) == []
    ensures Votes(Alignment(g, a, b)) == 4
  {
    assert BaseAligned(g, a, b, Correctness) && BaseAligned(g, a, b, Safety) && BaseAligned(g, a, b, Maintainability);
    assert Tokens(On(a, Cost)) == Tokens(On(b, Cost));
    assert SameTokens(a, b);
    FourNeedsTheGuard(g, a, b);
  }

  /** An axis with numbers only: aligned when a band is shared and the guard lets the gap pass. */
  lemma {:induction false} NumericAxisVote(g: Gates, a: Block, b: Block, x: Axis)
    requires g.numeric && IsBase(x) && HasNumber(a, x) && HasNumber(b, x)
    requires ScanOn(a, x) == [] && ScanOn(b, x) == []
    ensures var u, v := Clamp(a.weights[x]), Clamp(b.weights[x]);
            Aligned(g, Extracted(g, a), Extracted(g, b), x) <==>
            ShareBand(u, v) && (!g.guard || u == v || Abs(u - v) < g.gapThreshold)
  {
    NumericTokens(g, a, x);
    NumericTokens(g, b, x);
    OverlapIsShare(On(Extracted(g, a), x), On(Extracted(g, b), x), Clamp(a.weights[x]), Clamp(b.weights[x]));
    RawNumber(g, a, x);
    RawNumber(g, b, x);
    VoteByNumbers(g, Extracted(g, a), Extracted(g, b), x, Clamp(a.weights[x]), Clamp(b.weights[x]));
  }

  lemma RawNumber(g: Gates, b: Block, x: Axis)
    requires g.numeric && IsBase(x) && HasNumber(b, x)
    ensures g.guard ==> x in Extracted(g, b).raw && Extracted(g, b).raw[x] == Clamp(b.weights[x])
  {
  }

  lemma VoteByNumbers(g: Gates, a: Evidence, b: Evidence, x: Axis, u: real, v: real)
    requires IsBase(x) && (Overlap(On(a, x), On(b, x)) <==> ShareBand(u, v))
    requires g.guard ==> x in a.raw && x in b.raw && a.raw[x] == u && b.raw[x] == v
    ensures Aligned(g, a, b, x) <==> ShareBand(u, v) && (!g.guard || u == v || Abs(u - v) < g.gapThreshold)
  {
  }

  lemma OverlapIsShare(s: seq<Token>, t: seq<Token>, u: real, v: real)
    requires s != [] && t != []
    requires forall k :: k in s <==> k.InBand? && k.band in Bands(u)
    requires forall k :: k in t <==> k.InBand? && k.band in Bands(v)
    ensures Overlap(s, t) <==> ShareBand(u, v)
  {
    if Overlap(s, t) {
      var k :| k in s && k in t;
      assert k.band in Bands(u) && k.band in Bands(v);
    }
    if ShareBand(u, v) {
      var band :| band in Bands(u) && band in Bands(v);
      assert InBand(band) in s && InBand(band) in t;
    }
  }

  /** At the default threshold a gap up to 0.12 always agrees, and one from 0.20 never does. */
  lemma {:induction false} DefaultGuard(g: Gates, a: Block, b: Block, x: Axis)
    requires g.numeric && IsBase(x) && HasNumber(a, x) && HasNumber(b, x)
    requires ScanOn(a, x) == [] && ScanOn(b, x) == []
    requires g.guard && g.gapThreshold == DEFAULT_GAP_THRESHOLD
    ensures var gap := Abs(Clamp(a.weights[x]) - Clamp(b.weights[x]));
            && (gap <= 0.12 ==> Aligned(g, Extracted(g, a), Extracted(g, b), x))
            && (gap >= 0.20 ==> !Aligned(g, Extracted(g, a), Extracted(g, b), x))
  {
    BandArithmetic(Clamp(a.weights[x]), Clamp(b.weights[x]));
    NumericAxisVote(g, a, b, x);
  }

  lemma NumericTokens(g: Gates, b: Block, x: Axis)
    requires g.numeric && IsBase(x) && HasNumber(b, x) && ScanOn(b, x) == []
    ensures forall t :: t in On(Extracted(g, b), x) <==> t.InBand? && t.band in Bands(Clamp(b.weights[x]))
    ensures On(Extracted(g, b), x) != []
  {
    var v := Clamp(b.weights[x]);
    BandMembership(v);
    var band := if v <= 0.40 then Lo else if v <= 0.73 then Mid else Hi;
    assert InBand(band) in BandTokens(v);
    assert [] + BandTokens(v) == BandTokens(v);
    assert InBand(band) in On(Extracted(g, b), x);
  }

  // --------------------------------------------------------------- diagnosis

  datatype DiagStatus = Pass | Fail | Unmeasured | Ineligible | EvaluatorError

  datatype Diagnosis = Diagnosis(status: DiagStatus, votes: nat, countA: int, countB: int)

  /** Tokens counted over the base and derived axes, and the causal chain when its gate is on. */
  function EvidenceCount(g: Gates, e: Evidence): nat {
    |On(e, Correctness)| + |On(e, Safety)| + |On(e, Cost)| + |On(e, Maintainability)|
    + |On(e, Novelty)| + |On(e, Pareto)| + (if g.causality then |e.causalChain| else 0)
  }

  function Diagnose(g: Gates, a: Evidence, b: Evidence, alignment: map<Axis, bool>, threshold: int): Diagnosis {
    var votes := Votes(alignment);
    var verdict := if votes >= threshold then Pass else Fail;
    if !g.eligibility then Diagnosis(verdict, votes, -1, -1)
    else
      var ca, cb := EvidenceCount(g, a), EvidenceCount(g, b);
      if ca == 0 && cb == 0 then Diagnosis(Unmeasured, votes, ca, cb)
      else if ca == 0 || cb == 0 then Diagnosis(Ineligible, votes, ca, cb)
      else Diagnosis(verdict, votes, ca, cb)
  }

  function DiagnoseBlocks(g: Gates, a: Block, b: Block, threshold: int): Diagnosis {
    if a.NotMapping? || b.NotMapping? then Diagnosis(EvaluatorError, 0, -1, -1)
    else
      var ea, eb := Extracted(g, a), Extracted(g, b);
      Diagnose(g, ea, eb, Alignment(g, ea, eb), threshold)
  }

  // ------------------------------------------------------------------ status

  const CONSENSUS_THRESHOLD := 5
  const SPLIT_THRESHOLD := 3

  /** The two pods' inputs of one cycle; a defaulted input is a stub and no real block. */
  datatype Inputs = Inputs(a: Block, b: Block, aDefaulted: bool, bDefaulted: bool)

  method DecideStatus(g: Gates, i: Inputs) returns (status: SiStatus)
    ensures status == StatusOf(g, i)
    ensures i.aDefaulted && i.bDefaulted ==> status == AdvisoryStub
    ensures i.aDefaulted != i.bDefaulted ==> status == Blocked
    ensures !i.aDefaulted && !i.bDefaulted ==>
              var ea, eb := Extracted(g, i.a), Extracted(g, i.b);
              var votes := Votes(Alignment(g, ea, eb));
              && (status == Consensus <==> votes >= 5 && (g.wired ==> DiagnoseBlocks(g, i.a, i.b, 5).status == Pass))
              && (status == Blocked <==> votes <= 2)
              && (status == Split <==> votes >= 3 && status != Consensus)
  {
    var ea := ExtractAxisEvidence(g, i.a);
    var eb := ExtractAxisEvidence(g, i.b);
    var alignment := VotePerAxis(g, ea, eb);
    var votes := Votes(alignment);
    var diagnosis: Option<Diagnosis> := None;
    if g.wired && !(i.aDefaulted || i.bDefaulted) {
      diagnosis := Some(DiagnoseBlocks(g, i.a, i.b, CONSENSUS_THRESHOLD));
    }
    var vetoed := diagnosis.Some? && diagnosis.value.status != Pass;
    if i.aDefaulted && i.bDefaulted {
      status := AdvisoryStub;
    } else if i.aDefaulted || i.bDefaulted {
      status := Blocked;
    } else if votes >= CONSENSUS_THRESHOLD && !vetoed {
      status := Consensus;
    } else if votes >= SPLIT_THRESHOLD {
      status := Split;
    } else {
      status := Blocked;
    }
  }

  function StatusOf(g: Gates, i: Inputs): SiStatus {
    var votes := Votes(Alignment(g, Extracted(g, i.a), Extracted(g, i.b)));
    if i.aDefaulted && i.bDefaulted then AdvisoryStub
    else if i.aDefaulted || i.bDefaulted then Blocked
    else if
      && votes >= CONSENSUS_THRESHOLD
      && (g.wired ==> DiagnoseBlocks(g, i.a, i.b, CONSENSUS_THRESHOLD).status == Pass)
    then Consensus
    else if votes >= SPLIT_THRESHOLD then Split
    else Blocked
  }

  /** Some base axis has a token that both pods show. */
  ghost predicate SharedSignal(g: Gates, a: Block, b: Block) {
    exists x, t :: IsBase(x) && t in On(Extracted(g, a), x) && t in On(Extracted(g, b), x)
  }

  lemma CountedOnBase(g: Gates, b: Block)
    ensures EvidenceCount(g, Extracted(g, b)) > 0 <==> exists x :: IsBase(x) && On(Extracted(g, b), x) != []
  {
    var e := Extracted(g, b);
    assert On(e, Novelty) == [] && On(e, Pareto) == [] && e.causalChain == [];
    if EvidenceCount(g, e) > 0 {
      var x := if On(e, Correctness) != [] then Correctness else if On(e, Safety) != [] then Safety
               else if On(e, Cost) != [] then Cost else Maintainability;
      assert IsBase(x) && On(e, x) != [];
    }
  }

  /** Counted evidence on one side, and five votes, put the same token on both sides. */
  lemma FiveVotesShare(g: Gates, a: Block, b: Block)
    requires Votes(Alignment(g, Extracted(g, a), Extracted(g, b))) >= 5
    requires EvidenceCount(g, Extracted(g, a)) > 0
    ensures SharedSignal(g, a, b)
  {
    CountedOnBase(g, a);
    FiveVotesShareExactly(g, Extracted(g, a), Extracted(g, b));
  }

  /** Whatever the evidence holds, five votes share a base token exactly when the first pod has any. */
  lemma {:induction false} FiveVotesShareExactly(g: Gates, a: Evidence, b: Evidence)
    requires Votes(Alignment(g, a, b)) >= 5
    ensures (exists x, t :: IsBase(x) && t in On(a, x) && t in On(b, x)) <==> exists x :: IsBase(x) && On(a, x) != []
  {
    VotesAdd(g, a, b);
    AllFour(g, a, b);
    if x :| IsBase(x) && On(a, x) != [] {
      assert AllBaseAligned(g, a, b) || SameTokens(a, b);
      if AllBaseAligned(g, a, b) {
        assert BaseAligned(g, a, b, x);
      } else {
        assert On(a, x)[0] in Tokens(On(a, x));
        assert Tokens(On(a, x)) == Tokens(On(b, x));
      }
    }
  }

  /**
   No consensus from silence: with the eligibility and diagnosis gates on, consensus
   puts some token of a base axis in both pods' evidence, whatever the other gates are.
   */
  lemma {:induction false} NoVacuousConsensus(g: Gates, i: Inputs)
    requires g.eligibility && g.wired && StatusOf(g, i).Consensus?
    ensures SharedSignal(g, i.a, i.b)
  {
    PassedWasCounted(g, i.a, i.b);
    FiveVotesShare(g, i.a, i.b);
  }

  lemma {:induction false} PassedWasCounted(g: Gates, a: Block, b: Block)
    requires g.eligibility && DiagnoseBlocks(g, a, b, CONSENSUS_THRESHOLD).status.Pass?
    ensures EvidenceCount(g, Extracted(g, a)) > 0 && EvidenceCount(g, Extracted(g, b)) > 0
  {
  }

  /** With the causality axis off, consensus is exactly this. */
  lemma {:induction false} ConsensusExactly(g: Gates, i: Inputs)
    requires g.eligibility && g.wired && !g.causality
    ensures StatusOf(g, i).Consensus? <==>
            && !i.aDefaulted && !i.bDefaulted && i.a.Mapping? && i.b.Mapping?
            && AllBaseAligned(g, Extracted(g, i.a), Extracted(g, i.b))
            && SharedSignal(g, i.a, i.b)
  {
    FiveMeansAllBase(g, Extracted(g, i.a), Extracted(g, i.b));
    if StatusOf(g, i).Consensus? { NoVacuousConsensus(g, i); }
    if SharedSignal(g, i.a, i.b) { SharedIsCounted(g, i.a, i.b); }
  }

  lemma SharedIsCounted(g: Gates, a: Block, b: Block)
    requires SharedSignal(g, a, b)
    ensures EvidenceCount(g, Extracted(g, a)) > 0 && EvidenceCount(g, Extracted(g, b)) > 0
  {
    CountedOnBase(g, a);
    CountedOnBase(g, b);
  }

  /** Without guard and causality axis, real inputs are blocked when at most two base axes align, and split at three. */
  lemma BlockedExactly(g: Gates, i: Inputs)
    requires !g.causality && !g.guard && !i.aDefaulted && !i.bDefaulted
    ensures var status, votes := StatusOf(g, i), BaseVotes(g, Extracted(g, i.a), Extracted(g, i.b));
            && (status.Blocked? <==> votes <= 2)
            && (status.Split? <==> votes == 3 || (votes == 4 && !status.Consensus?))
  {
    var a, b := Extracted(g, i.a), Extracted(g, i.b);
    VotesAdd(g, a, b);
    AllFour(g, a, b);
    if SameTokens(a, b) { SameTokensAlign(g, a, b); }
  }

  lemma SameTokensAlign(g: Gates, a: Evidence, b: Evidence)
    requires !g.guard && SameTokens(a, b)
    ensures AllBaseAligned(g, a, b)
  {
    forall x | IsBase(x) ensures BaseAligned(g, a, b, x) { SameTokensOverlap(On(a, x), On(b, x)); }
  }

  /** Two silent pods reach consensus unless both gates are on. */
  lemma SilenceNeedsBothGates(g: Gates)
    ensures StatusOf(g, Inputs(Mapping(map[], map[]), Mapping(map[], map[]), false, false)).Consensus? <==>
            !(g.eligibility && g.wired)
  {
    var b := Mapping(map[], map[]);
    var e := Extracted(g, b);
    assert forall x :: IsBase(x) ==> On(e, x) == [];
    assert SameTokens(e, e);
    assert forall x :: IsBase(x) ==> BaseAligned(g, e, e, x);
    VotesAdd(g, e, e);
    AllFour(g, e, e);
    CountedOnBase(g, b);
  }

  /**
   Below the block level the hole is open: evidence without any token on a base axis is
   diagnosed as passing exactly when both sides count something at all, be it a causal
   chain or a token on a derived axis.
   */
  lemma {:induction false} BaselessPassesExactly(g: Gates, a: Evidence, b: Evidence)
    requires g.eligibility
    requires forall x :: IsBase(x) ==> On(a, x) == [] && On(b, x) == [] && !GapFired(g, a, b, x)
    ensures Diagnose(g, a, b, Alignment(g, a, b), CONSENSUS_THRESHOLD).status == Pass <==>
            BesideBase(g, a) && BesideBase(g, b)
  {
    assert forall x :: IsBase(x) ==> BaseAligned(g, a, b, x);
    VotesAdd(g, a, b);
    AllFour(g, a, b);
  }

  /** Something that counts as evidence and stands on no base axis. */
  predicate BesideBase(g: Gates, e: Evidence) {
    On(e, Novelty) != [] || On(e, Pareto) != [] || (g.causality && e.causalChain != [])
  }

  /** For one, two pods that share a causal chain and nothing else. */
  lemma ChainAlonePasses(g: Gates, node: Token)
    requires g.causality && g.eligibility
    ensures var e := Evidence(map[], [node], map[]);
            && Diagnose(g, e, e, Alignment(g, e, e), CONSENSUS_THRESHOLD).status == Pass
            && forall x :: IsBase(x) ==> On(e, x) == []
  {
    var e := Evidence(map[], [node], map[]);
    BaselessPassesExactly(g, e, e);
  }
}
