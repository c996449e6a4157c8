/** The 0/1 solutions of the integer program are exactly the legal placements, and its objective is their
    communication cost. */
module PlacementIlp {
  import opened PlacementModel

  // ----- placements -----

  function Need(pr: Problem, place: seq<nat>, p: nat, r: Resource, m: nat): nat
    requires m < |pr.modules| == |place|
  {
    if place[m] == p && r in pr.modules[m].uses then pr.modules[m].uses[r] else 0
  }

  /** What a placement puts on platform p of resource r, among the first n modules that may be there. */
  function Load(pr: Problem, place: seq<nat>, p: nat, r: Resource, n: nat): nat
    requires n <= |pr.modules| == |place|
  {
    if n == 0 then 0 else Load(pr, place, p, r, n - 1) + Need(pr, place, p, r, n - 1)
  }

  /** Every module is where it was fixed or where it is compatible, and no budget is exceeded. */
  ghost predicate Legal(pr: Problem, place: seq<nat>) {
    && |place| == |pr.modules|
    && (forall m :: 0 <= m < |place| ==> Allowed(pr, m, place[m]))
    && (forall p, r :: 0 <= p < |pr.platforms| && r in pr.platforms[p].limits ==>
          Load(pr, place, p, r, |place|) <= pr.platforms[p].limits[r])
  }

  /** Activity times path length over all channels whose ends are on different platforms. */
  function Cost(pr: Problem, place: seq<nat>, n: nat): nat
    requires pr.Valid() && |place| == |pr.modules| && n <= |pr.channels|
  {
    if n == 0 then 0
    else
      var ch := pr.channels[n - 1];
      var p, q := place[ch.src], place[ch.dst];
      Cost(pr, place, n - 1) + if p == q then 0 else ch.activity * pr.pathLength(p, q)
  }

  /** The solution that stands for a placement: a pair variable is the product of its two choices. */
  function Chosen(pr: Problem, place: seq<nat>, v: Var): nat {
    match v
    case Color(m, p) => if m < |place| && place[m] == p then 1 else 0
    case Pair(e, p, q) =>
      if e < |pr.channels| && pr.channels[e].src < |place| && pr.channels[e].dst < |place|
         && place[pr.channels[e].src] == p && place[pr.channels[e].dst] == q then 1 else 0
  }

  /** x agrees with the placement on every variable that the program declares. */
  ghost predicate Represents(pr: Problem, x: Var -> nat, place: seq<nat>)
    requires pr.Valid()
  {
    && |place| == |pr.modules|
    && (forall m, p :: 0 <= m < |place| && p in Colors(pr, m) ==> x(Color(m, p)) == Chosen(pr, place, Color(m, p)))
    && (forall e, p, q :: 0 <= e < |pr.channels| && p in Sources(pr, e) && q in Dests(pr, e) ==>
          x(Pair(e, p, q)) == Chosen(pr, place, Pair(e, p, q)))
  }

  // ----- colours are distinct and are what is allowed -----

  ghost predicate Distinct(s: seq<nat>) {
    forall i, j :: 0 <= i < j < |s| ==> s[i] != s[j]
  }

  lemma {:induction false} ColorsAre(pr: Problem, m: nat, p: nat)
    requires m < |pr.modules|
    ensures Distinct(Colors(pr, m)) && (p in Colors(pr, m) <==> Allowed(pr, m, p))
  {
    if pr.modules[m].mapping.None? {
      CompatiblesAre(pr, m, |pr.platforms|, p);
    }
  }

  // ----- sums over distinct choices -----

  lemma {:induction false} ValueConcat(s: seq<Term>, t: seq<Term>, x: Var -> nat)
    ensures Value(s + t, x) == Value(s, x) + Value(t, x)
  {
    if s == [] {
      assert s + t == t;
    } else {
      assert (s + t)[1..] == s[1..] + t;
      ValueConcat(s[1..], t, x);
    }
  }

  lemma {:induction false} DistinctTail(s: seq<nat>)
    requires Distinct(s) && s != []
    ensures Distinct(s[1..]) && s[0] !in s[1..]
  {
  }

  /** If one of distinct choices is taken and the others are not, the sum is 1; if none is, it is 0. */
  lemma {:induction false} ColorSum(m: nat, colors: seq<nat>, x: Var -> nat, p: nat)
    requires Distinct(colors) && forall c :: c in colors ==> x(Color(m, c)) == if c == p then 1 else 0
    ensures Value(ColorTerms(m, colors), x) == if p in colors then 1 else 0
  {
    if colors != [] {
      DistinctTail(colors);
      ColorSum(m, colors[1..], x, p);
    }
  }

  lemma {:induction false} FromSum(coef: nat -> nat, e: nat, p: nat, dests: seq<nat>, x: Var -> nat, q: nat, on: bool)
    requires Distinct(dests) && forall c :: c in dests ==> x(Pair(e, p, c)) == if on && c == q then 1 else 0
    ensures Value(FromTerms(coef, e, p, dests), x) == if on && q in dests then coef(q) else 0
  {
    if dests != [] {
      DistinctTail(dests);
      FromSum(coef, e, p, dests[1..], x, q, on);
      assert coef(dests[0]) * x(Pair(e, p, dests[0])) == if on && dests[0] == q then coef(q) else 0;
    }
  }

  lemma {:induction false} ToSum(e: nat, sources: seq<nat>, q: nat, x: Var -> nat, p: nat, on: bool)
    requires Distinct(sources) && forall c :: c in sources ==> x(Pair(e, c, q)) == if on && c == p then 1 else 0
    ensures Value(ToTerms(e, sources, q), x) == if on && p in sources then 1 else 0
  {
    if sources != [] {
      DistinctTail(sources);
      ToSum(e, sources[1..], q, x, p, on);
    }
  }

  lemma {:induction false} PairSum(coef: (nat, nat) -> nat, e: nat, sources: seq<nat>, dests: seq<nat>,
                                   x: Var -> nat, p: nat, q: nat)
    requires Distinct(sources) && Distinct(dests)
    requires forall c, d :: c in sources && d in dests ==> x(Pair(e, c, d)) == if c == p && d == q then 1 else 0
    ensures Value(PairTerms(coef, e, sources, dests), x) == if p in sources && q in dests then coef(p, q) else 0
  {
    if sources != [] {
      DistinctTail(sources);
      PairSum(coef, e, sources[1..], dests, x, p, q);
      var from := FromTerms(d => coef(sources[0], d), e, sources[0], dests);
      FromSum(d => coef(sources[0], d), e, sources[0], dests, x, q, sources[0] == p);
      ValueConcat(from, PairTerms(coef, e, sources[1..], dests), x);
    }
  }

  /** Values 0 and 1 that add up to 1: exactly one of them is 1. */
  lemma {:induction false} OneHot(m: nat, colors: seq<nat>, x: Var -> nat) returns (p: nat)
    requires Distinct(colors) && Value(ColorTerms(m, colors), x) == 1
    ensures p in colors && forall c :: c in colors ==> x(Color(m, c)) == if c == p then 1 else 0
  {
    DistinctTail(colors);
    if x(Color(m, colors[0])) == 1 {
      p := colors[0];
      AllZero(m, colors[1..], x);
    } else {
      p := OneHot(m, colors[1..], x);
    }
  }

  lemma {:induction false} AllZero(m: nat, colors: seq<nat>, x: Var -> nat)
    requires Value(ColorTerms(m, colors), x) == 0
    ensures forall c :: c in colors ==> x(Color(m, c)) == 0
  {
    if colors != [] {
      AllZero(m, colors[1..], x);
    }
  }

  /** No summand exceeds a sum with coefficients 1. */
  lemma {:induction false} FromBound(e: nat, p: nat, dests: seq<nat>, x: Var -> nat, q: nat)
    requires q in dests
    ensures x(Pair(e, p, q)) <= Value(FromTerms(AllOnes(), e, p, dests), x)
  {
    if q != dests[0] {
      FromBound(e, p, dests[1..], x, q);
    }
  }

  lemma {:induction false} ToBound(e: nat, sources: seq<nat>, q: nat, x: Var -> nat, p: nat)
    requires p in sources
    ensures x(Pair(e, p, q)) <= Value(ToTerms(e, sources, q), x)
  {
    if p != sources[0] {
      ToBound(e, sources[1..], q, x, p);
    }
  }

  /** If only one summand can differ from 0, it is the sum. */
  lemma {:induction false} FromOnly(e: nat, p: nat, dests: seq<nat>, x: Var -> nat, q: nat)
    requires Distinct(dests) && q in dests && forall d :: d in dests && d != q ==> x(Pair(e, p, d)) == 0
    ensures Value(FromTerms(AllOnes(), e, p, dests), x) == x(Pair(e, p, q))
  {
    DistinctTail(dests);
    if q == dests[0] {
      FromNone(e, p, dests[1..], x);
    } else {
      FromOnly(e, p, dests[1..], x, q);
    }
  }

  lemma {:induction false} FromNone(e: nat, p: nat, dests: seq<nat>, x: Var -> nat)
    requires forall d :: d in dests ==> x(Pair(e, p, d)) == 0
    ensures Value(FromTerms(AllOnes(), e, p, dests), x) == 0
  {
    if dests != [] {
      FromNone(e, p, dests[1..], x);
    }
  }

  // ----- what the rows and declarations say together -----

  ghost predicate ModuleDeclared(pr: Problem, x: Var -> nat, m: nat)
    requires m < |pr.modules|
  {
    forall p :: p in Colors(pr, m) ==> Declares(Decl(Color(m, p), pr.modules[m].mapping.Some?), x)
  }

  ghost predicate ColorsDeclared(pr: Problem, x: Var -> nat, n: nat)
    requires n <= |pr.modules|
  {
    forall m :: 0 <= m < n ==> ModuleDeclared(pr, x, m)
  }

  predicate Single(pr: Problem, e: nat)
    requires pr.Valid() && e < |pr.channels|
  {
    |Sources(pr, e)| == 1 && |Dests(pr, e)| == 1
  }

  ghost predicate EdgeDeclared(pr: Problem, x: Var -> nat, e: nat)
    requires pr.Valid() && e < |pr.channels|
  {
    forall p, q :: p in Sources(pr, e) && q in Dests(pr, e) ==> Declares(Decl(Pair(e, p, q), Single(pr, e)), x)
  }

  ghost predicate PairsDeclared(pr: Problem, x: Var -> nat, n: nat)
    requires pr.Valid() && n <= |pr.channels|
  {
    forall e :: 0 <= e < n ==> EdgeDeclared(pr, x, e)
  }

  ghost predicate ColorsHold(pr: Problem, x: Var -> nat, n: nat)
    requires n <= |pr.modules|
  {
    forall m :: 0 <= m < n ==> Holds(OneColor(pr, m), x)
  }

  ghost predicate PairHolds(pr: Problem, x: Var -> nat, e: nat)
    requires pr.Valid() && e < |pr.channels|
  {
    Holds(OnePair(pr, e), x)
  }

  ghost predicate PairsHold(pr: Problem, x: Var -> nat, n: nat)
    requires pr.Valid() && n <= |pr.channels|
  {
    forall e :: 0 <= e < n ==> PairHolds(pr, x, e)
  }

  ghost predicate ModuleEdgeHolds(pr: Problem, x: Var -> nat, m: nat, e: nat)
    requires pr.Valid() && m < |pr.modules| && e < |pr.channels|
  {
    Touches(pr, m, e) ==> forall c :: c in Colors(pr, m) ==> Holds(ColorsEdge(pr, m, e, c), x)
  }

  ghost predicate ModuleEdgesHold(pr: Problem, x: Var -> nat, m: nat, n: nat)
    requires pr.Valid() && m < |pr.modules| && n <= |pr.channels|
  {
    forall e :: 0 <= e < n ==> ModuleEdgeHolds(pr, x, m, e)
  }

  ghost predicate EdgesHold(pr: Problem, x: Var -> nat, n: nat)
    requires pr.Valid() && n <= |pr.modules|
  {
    forall m :: 0 <= m < n ==> ModuleEdgesHold(pr, x, m, |pr.channels|)
  }

  ghost predicate BudgetHolds(pr: Problem, x: Var -> nat, p: nat, r: Resource)
    requires p < |pr.platforms|
  {
    r in pr.platforms[p].limits ==> Value(ResourceTerms(pr, p, r, |pr.modules|), x) <= pr.platforms[p].limits[r]
  }

  ghost predicate PlatformHolds(pr: Problem, x: Var -> nat, p: nat)
    requires p < |pr.platforms|
  {
    BudgetHolds(pr, x, p, Lut) && BudgetHolds(pr, x, p, Reg) && BudgetHolds(pr, x, p, Bram)
  }

  ghost predicate BudgetsHold(pr: Problem, x: Var -> nat, n: nat)
    requires n <= |pr.platforms|
  {
    forall p :: 0 <= p < n ==> PlatformHolds(pr, x, p)
  }

  /** A solution, row by row and variable by variable */
  ghost predicate Constraints(pr: Problem, x: Var -> nat)
    requires pr.Valid()
  {
    && ColorsDeclared(pr, x, |pr.modules|) && PairsDeclared(pr, x, |pr.channels|)
    && ColorsHold(pr, x, |pr.modules|) && PairsHold(pr, x, |pr.channels|)
    && EdgesHold(pr, x, |pr.modules|) && BudgetsHold(pr, x, |pr.platforms|)
  }

  lemma {:induction false} AllHoldConcat(s: seq<Row>, t: seq<Row>, x: Var -> nat)
    ensures AllHold(s + t, x) <==> AllHold(s, x) && AllHold(t, x)
  {
  }

  lemma {:induction false} NoRows(x: Var -> nat)
    ensures AllHold([], x)
  {
  }

  lemma {:induction false} AllHoldOne(row: Row, x: Var -> nat)
    ensures AllHold([row], x) <==> Holds(row, x)
  {
    hide Holds;
    assert row in [row];
  }

  lemma {:induction false} AllDeclaredConcat(s: seq<Decl>, t: seq<Decl>, x: Var -> nat)
    ensures AllDeclared(s + t, x) <==> AllDeclared(s, x) && AllDeclared(t, x)
  {
  }

  lemma {:induction false} ColorDeclsMean(m: nat, colors: seq<nat>, fixed: bool, x: Var -> nat)
    ensures AllDeclared(ColorDecls(m, colors, fixed), x)
            <==> forall p :: p in colors ==> Declares(Decl(Color(m, p), fixed), x)
  {
    if colors != [] {
      ColorDeclsMean(m, colors[1..], fixed, x);
      AllDeclaredConcat([Decl(Color(m, colors[0]), fixed)], ColorDecls(m, colors[1..], fixed), x);
      hide Declares;
      assert colors == [colors[0]] + colors[1..];
    }
  }

  /** Rows written block by block hold exactly if those of every block do. */
  lemma {:induction false} JoinedRows(prefixes: seq<seq<Row>>, blocks: seq<seq<Row>>, x: Var -> nat)
    requires |prefixes| == |blocks| + 1 && prefixes[0] == []
    requires forall i :: 0 <= i < |blocks| ==> prefixes[i + 1] == prefixes[i] + blocks[i]
    ensures AllHold(prefixes[|blocks|], x) <==> forall i :: 0 <= i < |blocks| ==> AllHold(blocks[i], x)
  {
    hide AllHold;
    var n := |blocks|;
    if n == 0 {
      NoRows(x);
    } else {
      JoinedRows(prefixes[..n], blocks[..n - 1], x);
      AllHoldConcat(prefixes[n - 1], blocks[n - 1], x);
    }
  }

  /** The same for declarations */
  lemma {:induction false} JoinedDecls(prefixes: seq<seq<Decl>>, blocks: seq<seq<Decl>>, x: Var -> nat)
    requires |prefixes| == |blocks| + 1 && prefixes[0] == []
    requires forall i :: 0 <= i < |blocks| ==> prefixes[i + 1] == prefixes[i] + blocks[i]
    ensures AllDeclared(prefixes[|blocks|], x) <==> forall i :: 0 <= i < |blocks| ==> AllDeclared(blocks[i], x)
  {
    hide AllDeclared;
    var n := |blocks|;
    if n == 0 {
      NoDecls(x);
    } else {
      JoinedDecls(prefixes[..n], blocks[..n - 1], x);
      AllDeclaredConcat(prefixes[n - 1], blocks[n - 1], x);
    }
  }

  lemma {:induction false} NoDecls(x: Var -> nat)
    ensures AllDeclared([], x)
  {
  }

  lemma {:induction false} ModuleDeclsMean(pr: Problem, x: Var -> nat, n: nat)
    requires n <= |pr.modules|
    ensures AllDeclared(ModuleDecls(pr, n), x) <==> ColorsDeclared(pr, x, n)
  {
    hide AllDeclared, ColorDecls, Colors, ModuleDeclared;
    var blocks := seq(n, m requires 0 <= m < n => ColorDecls(m, Colors(pr, m), pr.modules[m].mapping.Some?));
    JoinedDecls(seq(n + 1, m requires 0 <= m <= n => ModuleDecls(pr, m)), blocks, x);
    forall m | 0 <= m < n
      ensures AllDeclared(blocks[m], x) <==> ModuleDeclared(pr, x, m)
    {
      ModuleDeclsOne(pr, x, m);
    }
  }

  lemma {:induction false} ModuleDeclsOne(pr: Problem, x: Var -> nat, m: nat)
    requires m < |pr.modules|
    ensures AllDeclared(ColorDecls(m, Colors(pr, m), pr.modules[m].mapping.Some?), x) <==> ModuleDeclared(pr, x, m)
  {
    hide ColorDecls, Colors, AllDeclared;
    ColorDeclsMean(m, Colors(pr, m), pr.modules[m].mapping.Some?, x);
  }

  lemma {:induction false} DeclsFromMean(e: nat, p: nat, dests: seq<nat>, fixed: bool, x: Var -> nat)
    ensures AllDeclared(DeclsFrom(e, p, dests, fixed), x)
            <==> forall q :: q in dests ==> Declares(Decl(Pair(e, p, q), fixed), x)
  {
    if dests != [] {
      DeclsFromMean(e, p, dests[1..], fixed, x);
      AllDeclaredConcat([Decl(Pair(e, p, dests[0]), fixed)], DeclsFrom(e, p, dests[1..], fixed), x);
      hide Declares;
      assert dests == [dests[0]] + dests[1..];
    }
  }

  lemma {:induction false} PairDeclsMean(e: nat, sources: seq<nat>, dests: seq<nat>, fixed: bool, x: Var -> nat)
    ensures AllDeclared(PairDecls(e, sources, dests, fixed), x)
            <==> forall p, q :: p in sources && q in dests ==> Declares(Decl(Pair(e, p, q), fixed), x)
  {
    if sources != [] {
      PairDeclsMean(e, sources[1..], dests, fixed, x);
      DeclsFromMean(e, sources[0], dests, fixed, x);
      AllDeclaredConcat(DeclsFrom(e, sources[0], dests, fixed), PairDecls(e, sources[1..], dests, fixed), x);
      hide Declares, AllDeclared;
      assert sources == [sources[0]] + sources[1..];
    }
  }

  lemma {:induction false} EdgeDeclsMean(pr: Problem, x: Var -> nat, n: nat)
    requires pr.Valid() && n <= |pr.channels|
    ensures AllDeclared(EdgeDecls(pr, n), x) <==> PairsDeclared(pr, x, n)
  {
    hide AllDeclared, PairDecls, Colors, EdgeDeclared;
    var blocks := seq(n, e requires 0 <= e < n => PairDecls(e, Sources(pr, e), Dests(pr, e), Single(pr, e)));
    JoinedDecls(seq(n + 1, e requires 0 <= e <= n => EdgeDecls(pr, e)), blocks, x);
    forall e | 0 <= e < n
      ensures AllDeclared(blocks[e], x) <==> EdgeDeclared(pr, x, e)
    {
      EdgeDeclsOne(pr, x, e);
    }
  }

  lemma {:induction false} EdgeDeclsOne(pr: Problem, x: Var -> nat, e: nat)
    requires pr.Valid() && e < |pr.channels|
    ensures AllDeclared(PairDecls(e, Sources(pr, e), Dests(pr, e), Single(pr, e)), x) <==> EdgeDeclared(pr, x, e)
  {
    hide PairDecls, Sources, Dests, AllDeclared;
    PairDeclsMean(e, Sources(pr, e), Dests(pr, e), Single(pr, e), x);
  }

  lemma {:induction false} ColorRowsMean(pr: Problem, x: Var -> nat, n: nat)
    requires n <= |pr.modules|
    ensures AllHold(OneColorRows(pr, n), x) <==> ColorsHold(pr, x, n)
  {
    hide AllHold, OneColor, Holds;
    var blocks := seq(n, m requires 0 <= m < n => [OneColor(pr, m)]);
    JoinedRows(seq(n + 1, m requires 0 <= m <= n => OneColorRows(pr, m)), blocks, x);
    forall m | 0 <= m < n
      ensures AllHold(blocks[m], x) <==> Holds(OneColor(pr, m), x)
    {
      AllHoldOne(OneColor(pr, m), x);
    }
  }

  lemma {:induction false} PairRowsMean(pr: Problem, x: Var -> nat, n: nat)
    requires pr.Valid() && n <= |pr.channels|
    ensures AllHold(OnePairRows(pr, n), x) <==> PairsHold(pr, x, n)
  {
    hide AllHold, OnePair, Holds;
    var blocks := seq(n, e requires 0 <= e < n => [OnePair(pr, e)]);
    JoinedRows(seq(n + 1, e requires 0 <= e <= n => OnePairRows(pr, e)), blocks, x);
    forall e | 0 <= e < n
      ensures AllHold(blocks[e], x) <==> PairHolds(pr, x, e)
    {
      AllHoldOne(OnePair(pr, e), x);
    }
  }

  lemma {:induction false} ColorsEdgeRowsMean(pr: Problem, m: nat, e: nat, colors: seq<nat>, x: Var -> nat)
    requires pr.Valid() && e < |pr.channels|
    ensures AllHold(ColorsEdgeRows(pr, m, e, colors), x)
            <==> forall c :: c in colors ==> Holds(ColorsEdge(pr, m, e, c), x)
  {
    if colors != [] {
      ColorsEdgeRowsMean(pr, m, e, colors[1..], x);
      AllHoldConcat([ColorsEdge(pr, m, e, colors[0])], ColorsEdgeRows(pr, m, e, colors[1..]), x);
      hide Holds, ColorsEdge;
      assert colors == [colors[0]] + colors[1..];
    }
  }

  lemma {:induction false} EndRowsMean(pr: Problem, x: Var -> nat, m: nat, e: nat)
    requires pr.Valid() && m < |pr.modules| && e < |pr.channels|
    ensures AllHold(EndRows(pr, m, e), x) <==> ModuleEdgeHolds(pr, x, m, e)
  {
    hide ColorsEdgeRows, ColorsEdge, Colors, AllHold, Holds;
    ColorsEdgeRowsMean(pr, m, e, Colors(pr, m), x);
    NoRows(x);
  }

  lemma {:induction false} ModuleEdgeRowsMean(pr: Problem, x: Var -> nat, m: nat, n: nat)
    requires pr.Valid() && m < |pr.modules| && n <= |pr.channels|
    ensures AllHold(ModuleEdgeRows(pr, m, n), x) <==> ModuleEdgesHold(pr, x, m, n)
  {
    hide AllHold, EndRows, ModuleEdgeHolds;
    var blocks := seq(n, e requires 0 <= e < n => EndRows(pr, m, e));
    JoinedRows(seq(n + 1, e requires 0 <= e <= n => ModuleEdgeRows(pr, m, e)), blocks, x);
    forall e | 0 <= e < n
      ensures AllHold(blocks[e], x) <==> ModuleEdgeHolds(pr, x, m, e)
    {
      EndRowsMean(pr, x, m, e);
    }
  }

  lemma {:induction false} EdgeRowsMean(pr: Problem, x: Var -> nat, n: nat)
    requires pr.Valid() && n <= |pr.modules|
    ensures AllHold(AllEdgeRows(pr, n), x) <==> EdgesHold(pr, x, n)
  {
    hide AllHold, ModuleEdgeRows, ModuleEdgesHold;
    var blocks := seq(n, m requires 0 <= m < n => ModuleEdgeRows(pr, m, |pr.channels|));
    JoinedRows(seq(n + 1, m requires 0 <= m <= n => AllEdgeRows(pr, m)), blocks, x);
    forall m | 0 <= m < n
      ensures AllHold(blocks[m], x) <==> ModuleEdgesHold(pr, x, m, |pr.channels|)
    {
      ModuleEdgeRowsMean(pr, x, m, |pr.channels|);
    }
  }

  lemma {:induction false} ResourceRowMeans(pr: Problem, x: Var -> nat, p: nat, r: Resource)
    requires p < |pr.platforms|
    ensures AllHold(ResourceRow(pr, p, r), x) <==> BudgetHolds(pr, x, p, r)
  {
    var terms := ResourceTerms(pr, p, r, |pr.modules|);
    hide ResourceTerms;
    if r in pr.platforms[p].limits && |terms| > 0 {
      AllHoldOne(Row(terms, false, Constant(pr.platforms[p].limits[r])), x);
    }
  }

  lemma {:induction false} PlatformRowsMean(pr: Problem, x: Var -> nat, p: nat)
    requires p < |pr.platforms|
    ensures AllHold(PlatformRows(pr, p), x) <==> PlatformHolds(pr, x, p)
  {
    hide AllHold, ResourceRow, BudgetHolds;
    var lut, reg, bram := ResourceRow(pr, p, Lut), ResourceRow(pr, p, Reg), ResourceRow(pr, p, Bram);
    AllHoldConcat(lut, reg, x);
    AllHoldConcat(lut + reg, bram, x);
    ResourceRowMeans(pr, x, p, Lut);
    ResourceRowMeans(pr, x, p, Reg);
    ResourceRowMeans(pr, x, p, Bram);
  }

  lemma {:induction false} ResourceRowsMean(pr: Problem, x: Var -> nat, n: nat)
    requires n <= |pr.platforms|
    ensures AllHold(ResourceRows(pr, n), x) <==> BudgetsHold(pr, x, n)
  {
    hide AllHold, PlatformRows, PlatformHolds;
    var blocks := seq(n, p requires 0 <= p < n => PlatformRows(pr, p));
    JoinedRows(seq(n + 1, p requires 0 <= p <= n => ResourceRows(pr, p)), blocks, x);
    forall p | 0 <= p < n
      ensures AllHold(blocks[p], x) <==> PlatformHolds(pr, x, p)
    {
      PlatformRowsMean(pr, x, p);
    }
  }

  lemma {:induction false} SolvesMeans(pr: Problem, x: Var -> nat)
    requires pr.Valid()
    ensures Solves(ModelOf(pr), x) <==> Constraints(pr, x)
  {
    ModuleDeclsMean(pr, x, |pr.modules|);
    EdgeDeclsMean(pr, x, |pr.channels|);
    AllDeclaredConcat(ModuleDecls(pr, |pr.modules|), EdgeDecls(pr, |pr.channels|), x);
    ColorRowsMean(pr, x, |pr.modules|);
    PairRowsMean(pr, x, |pr.channels|);
    EdgeRowsMean(pr, x, |pr.modules|);
    ResourceRowsMean(pr, x, |pr.platforms|);
    var a, b, c := OneColorRows(pr, |pr.modules|), OnePairRows(pr, |pr.channels|), AllEdgeRows(pr, |pr.modules|);
    AllHoldConcat(a, b, x);
    AllHoldConcat(a + b, c, x);
    AllHoldConcat(a + b + c, ResourceRows(pr, |pr.platforms|), x);
    hide AllHold, AllDeclared, ColorsDeclared, PairsDeclared, ColorsHold, PairsHold, EdgesHold, BudgetsHold;
  }

  // ----- exactly which variables are declared -----

  lemma {:induction false} ColorDeclsIn(m: nat, colors: seq<nat>, fixed: bool, d: Decl)
    ensures d in ColorDecls(m, colors, fixed) <==> d.v.Color? && d.v.m == m && d.v.p in colors && d.fixed == fixed
  {
    if colors != [] {
      ColorDeclsIn(m, colors[1..], fixed, d);
    }
  }

  lemma {:induction false} ModuleDeclsIn(pr: Problem, n: nat, d: Decl)
    requires n <= |pr.modules|
    ensures d in ModuleDecls(pr, n)
            <==> d.v.Color? && d.v.m < n && d.v.p in Colors(pr, d.v.m) && d.fixed == pr.modules[d.v.m].mapping.Some?
  {
    hide Colors, ColorDecls;
    if n > 0 {
      ModuleDeclsIn(pr, n - 1, d);
      ColorDeclsIn(n - 1, Colors(pr, n - 1), pr.modules[n - 1].mapping.Some?, d);
    }
  }

  lemma {:induction false} DeclsFromIn(e: nat, p: nat, dests: seq<nat>, fixed: bool, d: Decl)
    ensures d in DeclsFrom(e, p, dests, fixed)
            <==> d.v.Pair? && d.v.e == e && d.v.p == p && d.v.q in dests && d.fixed == fixed
  {
    if dests != [] {
      DeclsFromIn(e, p, dests[1..], fixed, d);
    }
  }

  lemma {:induction false} PairDeclsIn(e: nat, sources: seq<nat>, dests: seq<nat>, fixed: bool, d: Decl)
    ensures d in PairDecls(e, sources, dests, fixed)
            <==> d.v.Pair? && d.v.e == e && d.v.p in sources && d.v.q in dests && d.fixed == fixed
  {
    hide DeclsFrom;
    if sources != [] {
      PairDeclsIn(e, sources[1..], dests, fixed, d);
      DeclsFromIn(e, sources[0], dests, fixed, d);
    }
  }

  lemma {:induction false} EdgeDeclsIn(pr: Problem, n: nat, d: Decl)
    requires pr.Valid() && n <= |pr.channels|
    ensures d in EdgeDecls(pr, n)
            <==> d.v.Pair? && d.v.e < n && d.v.p in Sources(pr, d.v.e) && d.v.q in Dests(pr, d.v.e)
                 && d.fixed == Single(pr, d.v.e)
  {
    hide Colors, PairDecls;
    if n > 0 {
      EdgeDeclsIn(pr, n - 1, d);
      PairDeclsIn(n - 1, Sources(pr, n - 1), Dests(pr, n - 1), Single(pr, n - 1), d);
    }
  }

  /** A module's variables are those of its allowed platforms, fixed if the placement was given; a channel's are
      those of all allowed pairs, fixed if there is only one. */
  ghost predicate Declared(pr: Problem, d: Decl)
    requires pr.Valid()
  {
    match d.v
    case Color(m, p) => m < |pr.modules| && Allowed(pr, m, p) && d.fixed == pr.modules[m].mapping.Some?
    case Pair(e, p, q) =>
      && e < |pr.channels| && Allowed(pr, pr.channels[e].src, p) && Allowed(pr, pr.channels[e].dst, q)
      && (d.fixed <==> forall p', q' :: Allowed(pr, pr.channels[e].src, p') && Allowed(pr, pr.channels[e].dst, q') ==>
                                        p' == p && q' == q)
  }

  lemma {:induction false} DeclsExactly(pr: Problem, d: Decl)
    requires pr.Valid()
    ensures d in ModelOf(pr).decls <==> Declared(pr, d)
  {
    ModuleDeclsIn(pr, |pr.modules|, d);
    EdgeDeclsIn(pr, |pr.channels|, d);
    hide Colors, ModuleDecls, EdgeDecls, Allowed;
    match d.v
    case Color(m, p) =>
      if m < |pr.modules| {
        ColorsAre(pr, m, p);
      }
    case Pair(e, p, q) =>
      if e < |pr.channels| {
        ColorsAre(pr, pr.channels[e].src, p);
        ColorsAre(pr, pr.channels[e].dst, q);
        SingleExactly(pr, e, p, q);
      }
  }

  lemma {:induction false} SingleExactly(pr: Problem, e: nat, p: nat, q: nat)
    requires pr.Valid() && e < |pr.channels|
    ensures Allowed(pr, pr.channels[e].src, p) && Allowed(pr, pr.channels[e].dst, q) ==>
              (Single(pr, e) <==>
               forall p', q' :: Allowed(pr, pr.channels[e].src, p') && Allowed(pr, pr.channels[e].dst, q') ==>
                                  p' == p && q' == q)
  {
    hide Colors, Allowed;
    if Allowed(pr, pr.channels[e].src, p) && Allowed(pr, pr.channels[e].dst, q) {
      OneAllowed(pr, pr.channels[e].src, p);
      OneAllowed(pr, pr.channels[e].dst, q);
    }
  }

  lemma {:induction false} OneAllowed(pr: Problem, m: nat, p: nat)
    requires m < |pr.modules| && Allowed(pr, m, p)
    ensures |Colors(pr, m)| == 1 <==> forall p' :: Allowed(pr, m, p') ==> p' == p
  {
    hide Colors, Allowed;
    var colors := Colors(pr, m);
    forall p': nat
      ensures p' in colors <==> Allowed(pr, m, p')
    {
      ColorsAre(pr, m, p');
    }
    ColorsAre(pr, m, p);
    if |colors| > 1 {
      assert colors[0] in colors && colors[1] in colors && colors[0] != colors[1];
    }
  }

  // ----- a solution is a placement -----

  /** x makes exactly the placement's choice for module m. */
  ghost predicate Chooses(pr: Problem, x: Var -> nat, m: nat, p: nat)
    requires m < |pr.modules|
  {
    p in Colors(pr, m) && forall c :: c in Colors(pr, m) ==> x(Color(m, c)) == if c == p then 1 else 0
  }

  lemma {:induction false} ModuleChooses(pr: Problem, x: Var -> nat, m: nat) returns (p: nat)
    requires pr.Valid() && Constraints(pr, x) && m < |pr.modules|
    ensures Chooses(pr, x, m, p)
  {
    ColorsAre(pr, m, 0);
    assert Holds(OneColor(pr, m), x);
    hide Colors, Constraints;
    p := OneHot(m, Colors(pr, m), x);
  }

  lemma {:induction false} Decode(pr: Problem, x: Var -> nat, n: nat) returns (place: seq<nat>)
    requires pr.Valid() && Constraints(pr, x) && n <= |pr.modules|
    ensures |place| == n && forall m :: 0 <= m < n ==> Chooses(pr, x, m, place[m])
  {
    hide Constraints, Chooses, Problem.Valid;
    if n == 0 {
      place := [];
    } else {
      place := Decode(pr, x, n - 1);
      var p := ModuleChooses(pr, x, n - 1);
      place := place + [p];
    }
  }

  /** Both ends' rows force a pair variable to be the product of its two choices. */
  lemma {:induction false} PairForced(pr: Problem, x: Var -> nat, e: nat, p0: nat, q0: nat, p: nat, q: nat)
    requires pr.Valid() && e < |pr.channels| && p in Sources(pr, e) && q in Dests(pr, e)
    requires ModuleEdgeHolds(pr, x, pr.channels[e].src, e) && ModuleEdgeHolds(pr, x, pr.channels[e].dst, e)
    requires Chooses(pr, x, pr.channels[e].src, p0) && Chooses(pr, x, pr.channels[e].dst, q0)
    ensures x(Pair(e, p, q)) == if p == p0 && q == q0 then 1 else 0
  {
    if p != p0 {
      SourceZero(pr, x, e, p0, p, q);
    } else if q != q0 {
      DestZero(pr, x, e, q0, p, q);
    } else {
      forall d | d in Dests(pr, e) && d != q0
        ensures x(Pair(e, p0, d)) == 0
      {
        DestZero(pr, x, e, q0, p0, d);
      }
      ColorsAre(pr, pr.channels[e].dst, q0);
      SourceRow(pr, x, e, p0);
      hide Colors;
      FromOnly(e, p0, Dests(pr, e), x, q0);
    }
  }

  lemma {:induction false} SourceRow(pr: Problem, x: Var -> nat, e: nat, p: nat)
    requires pr.Valid() && e < |pr.channels| && p in Sources(pr, e)
    requires ModuleEdgeHolds(pr, x, pr.channels[e].src, e)
    ensures Value(FromTerms(AllOnes(), e, p, Dests(pr, e)), x) == x(Color(pr.channels[e].src, p))
  {
    hide Colors;
    assert Holds(ColorsEdge(pr, pr.channels[e].src, e, p), x);
  }

  lemma {:induction false} DestRow(pr: Problem, x: Var -> nat, e: nat, q: nat)
    requires pr.Valid() && e < |pr.channels| && q in Dests(pr, e)
    requires ModuleEdgeHolds(pr, x, pr.channels[e].dst, e)
    ensures Value(ToTerms(e, Sources(pr, e), q), x) == x(Color(pr.channels[e].dst, q))
  {
    hide Colors;
    assert Holds(ColorsEdge(pr, pr.channels[e].dst, e, q), x);
  }

  lemma {:induction false} SourceZero(pr: Problem, x: Var -> nat, e: nat, p0: nat, p: nat, q: nat)
    requires pr.Valid() && e < |pr.channels| && p in Sources(pr, e) && q in Dests(pr, e) && p != p0
    requires ModuleEdgeHolds(pr, x, pr.channels[e].src, e) && Chooses(pr, x, pr.channels[e].src, p0)
    ensures x(Pair(e, p, q)) == 0
  {
    hide Colors;
    SourceRow(pr, x, e, p);
    FromBound(e, p, Dests(pr, e), x, q);
  }

  lemma {:induction false} DestZero(pr: Problem, x: Var -> nat, e: nat, q0: nat, p: nat, q: nat)
    requires pr.Valid() && e < |pr.channels| && p in Sources(pr, e) && q in Dests(pr, e) && q != q0
    requires ModuleEdgeHolds(pr, x, pr.channels[e].dst, e) && Chooses(pr, x, pr.channels[e].dst, q0)
    ensures x(Pair(e, p, q)) == 0
  {
    hide Colors;
    DestRow(pr, x, e, q);
    ToBound(e, Sources(pr, e), q, x, p);
  }

  lemma {:induction false} NeedIsTerm(pr: Problem, x: Var -> nat, place: seq<nat>, p: nat, r: Resource, m: nat)
    requires m < |pr.modules| == |place| && Chooses(pr, x, m, place[m])
    ensures Value(NeedTerms(pr, p, r, m), x) == Need(pr, place, p, r, m)
  {
    hide Colors;
    if p in Colors(pr, m) && r in pr.modules[m].uses {
      var term := Term(pr.modules[m].uses[r], Color(m, p));
      assert [term][1..] == [];
      assert Value([term], x) == term.coef * x(term.v);
    }
  }

  lemma {:induction false} NoValue(x: Var -> nat)
    ensures Value([], x) == 0
  {
  }

  /** A budget row weighs exactly what the placement puts on the platform. */
  lemma {:induction false} BudgetIsLoad(pr: Problem, x: Var -> nat, place: seq<nat>, p: nat, r: Resource, n: nat)
    requires n <= |pr.modules| == |place|
    requires forall m :: 0 <= m < |place| ==> Chooses(pr, x, m, place[m])
    ensures Value(ResourceTerms(pr, p, r, n), x) == Load(pr, place, p, r, n)
  {
    hide Chooses, NeedTerms, Need, Value;
    if n == 0 {
      NoValue(x);
    } else {
      BudgetIsLoad(pr, x, place, p, r, n - 1);
      NeedIsTerm(pr, x, place, p, r, n - 1);
      ValueConcat(ResourceTerms(pr, p, r, n - 1), NeedTerms(pr, p, r, n - 1), x);
    }
  }

  ghost predicate ChoosesAll(pr: Problem, x: Var -> nat, place: seq<nat>) {
    |place| == |pr.modules| && forall m :: 0 <= m < |place| ==> Chooses(pr, x, m, place[m])
  }

  lemma {:induction false} ChoosesAllowed(pr: Problem, x: Var -> nat, place: seq<nat>)
    requires ChoosesAll(pr, x, place)
    ensures forall m :: 0 <= m < |place| ==> Allowed(pr, m, place[m])
  {
    forall m | 0 <= m < |place|
      ensures Allowed(pr, m, place[m])
    {
      ColorsAre(pr, m, place[m]);
      assert Chooses(pr, x, m, place[m]);
    }
  }

  lemma {:induction false} BudgetKept(pr: Problem, x: Var -> nat, place: seq<nat>, p: nat, r: Resource)
    requires pr.Valid() && ChoosesAll(pr, x, place) && BudgetsHold(pr, x, |pr.platforms|)
    requires p < |pr.platforms| && r in pr.platforms[p].limits
    ensures Load(pr, place, p, r, |place|) <= pr.platforms[p].limits[r]
  {
    BudgetIsLoad(pr, x, place, p, r, |place|);
    hide Chooses, ResourceTerms, Load;
    assert PlatformHolds(pr, x, p);
    assert BudgetHolds(pr, x, p, r);
  }

  /** Every 0/1 solution is a legal placement, spelled out. */
  lemma {:induction false} SolutionIsPlacement(pr: Problem, x: Var -> nat) returns (place: seq<nat>)
    requires pr.Valid() && Solves(ModelOf(pr), x)
    ensures Legal(pr, place) && Represents(pr, x, place)
  {
    SolvesMeans(pr, x);
    place := Decode(pr, x, |pr.modules|);
    hide ModelOf, Solves, Chooses, Load, ModuleEdgeHolds, Colors, PlatformHolds;
    assert ChoosesAll(pr, x, place);
    ChoosesAllowed(pr, x, place);
    forall p, r | 0 <= p < |pr.platforms| && r in pr.platforms[p].limits
      ensures Load(pr, place, p, r, |place|) <= pr.platforms[p].limits[r]
    {
      BudgetKept(pr, x, place, p, r);
    }
    RepresentsChosen(pr, x, place);
  }

  lemma {:induction false} RepresentsChosen(pr: Problem, x: Var -> nat, place: seq<nat>)
    requires pr.Valid() && ChoosesAll(pr, x, place) && EdgesHold(pr, x, |pr.modules|)
    ensures Represents(pr, x, place)
  {
    hide Colors, ModuleEdgeHolds;
    forall e, p, q | 0 <= e < |pr.channels| && p in Sources(pr, e) && q in Dests(pr, e)
      ensures x(Pair(e, p, q)) == Chosen(pr, place, Pair(e, p, q))
    {
      var ch := pr.channels[e];
      assert ModuleEdgesHold(pr, x, ch.src, |pr.channels|) && ModuleEdgesHold(pr, x, ch.dst, |pr.channels|);
      assert Chooses(pr, x, ch.src, place[ch.src]) && Chooses(pr, x, ch.dst, place[ch.dst]);
      PairForced(pr, x, e, place[ch.src], place[ch.dst], p, q);
    }
  }

  // ----- a placement is a solution -----

  lemma {:induction false} RepresentsChooses(pr: Problem, x: Var -> nat, place: seq<nat>)
    requires pr.Valid() && Legal(pr, place) && Represents(pr, x, place)
    ensures ChoosesAll(pr, x, place)
  {
    hide Colors, Load, Problem.Valid;
    forall m | 0 <= m < |place|
      ensures Chooses(pr, x, m, place[m])
    {
      assert Allowed(pr, m, place[m]);
      ColorsAre(pr, m, place[m]);
    }
  }

  /** A pair variable is the product of the placement's two choices. */
  ghost predicate EdgeChosen(pr: Problem, x: Var -> nat, place: seq<nat>, e: nat)
    requires pr.Valid() && e < |pr.channels| && |place| == |pr.modules|
  {
    forall p, q :: p in Sources(pr, e) && q in Dests(pr, e) ==>
      x(Pair(e, p, q)) == if p == place[pr.channels[e].src] && q == place[pr.channels[e].dst] then 1 else 0
  }

  lemma {:induction false} RepresentsEdge(pr: Problem, x: Var -> nat, place: seq<nat>, e: nat)
    requires pr.Valid() && Represents(pr, x, place) && e < |pr.channels|
    ensures EdgeChosen(pr, x, place, e)
  {
    hide Colors;
  }

  lemma {:induction false} ModuleRow(pr: Problem, x: Var -> nat, m: nat, p: nat)
    requires m < |pr.modules| && Chooses(pr, x, m, p)
    ensures ModuleDeclared(pr, x, m) && Holds(OneColor(pr, m), x)
  {
    ColorsAre(pr, m, p);
    ColorSum(m, Colors(pr, m), x, p);
  }

  lemma {:induction false} EdgeVars(pr: Problem, x: Var -> nat, place: seq<nat>, e: nat)
    requires pr.Valid() && e < |pr.channels| && ChoosesAll(pr, x, place) && EdgeChosen(pr, x, place, e)
    ensures EdgeDeclared(pr, x, e)
  {
    hide Colors;
    var ch := pr.channels[e];
    assert Chooses(pr, x, ch.src, place[ch.src]) && Chooses(pr, x, ch.dst, place[ch.dst]);
  }

  lemma {:induction false} EdgeRow(pr: Problem, x: Var -> nat, place: seq<nat>, e: nat)
    requires pr.Valid() && e < |pr.channels| && ChoosesAll(pr, x, place) && EdgeChosen(pr, x, place, e)
    ensures PairHolds(pr, x, e)
  {
    hide Colors;
    var ch := pr.channels[e];
    assert Chooses(pr, x, ch.src, place[ch.src]) && Chooses(pr, x, ch.dst, place[ch.dst]);
    ColorsAre(pr, ch.src, 0);
    ColorsAre(pr, ch.dst, 0);
    PairSum(Ones(), e, Sources(pr, e), Dests(pr, e), x, place[ch.src], place[ch.dst]);
  }

  lemma {:induction false} EndRow(pr: Problem, x: Var -> nat, place: seq<nat>, m: nat, e: nat)
    requires pr.Valid() && e < |pr.channels| && m < |pr.modules|
    requires ChoosesAll(pr, x, place) && EdgeChosen(pr, x, place, e)
    ensures ModuleEdgeHolds(pr, x, m, e)
  {
    hide Colors;
    var ch := pr.channels[e];
    var p, q := place[ch.src], place[ch.dst];
    assert Chooses(pr, x, ch.src, p) && Chooses(pr, x, ch.dst, q) && Chooses(pr, x, m, place[m]);
    ColorsAre(pr, ch.src, 0);
    ColorsAre(pr, ch.dst, 0);
    forall c | c in Colors(pr, m) && Touches(pr, m, e)
      ensures Holds(ColorsEdge(pr, m, e, c), x)
    {
      if ch.src == m {
        FromSum(AllOnes(), e, c, Dests(pr, e), x, q, c == p);
      } else {
        ToSum(e, Sources(pr, e), c, x, p, c == q);
      }
    }
  }

  lemma {:induction false} PlatformKept(pr: Problem, x: Var -> nat, place: seq<nat>, p: nat, r: Resource)
    requires pr.Valid() && ChoosesAll(pr, x, place) && Legal(pr, place) && p < |pr.platforms|
    ensures BudgetHolds(pr, x, p, r)
  {
    hide Chooses, ResourceTerms, Load;
    BudgetIsLoad(pr, x, place, p, r, |place|);
  }

  /** Every function that represents a legal placement is a solution. */
  lemma {:induction false} PlacementIsSolution(pr: Problem, x: Var -> nat, place: seq<nat>)
    requires pr.Valid() && Legal(pr, place) && Represents(pr, x, place)
    ensures Solves(ModelOf(pr), x)
  {
    hide ModelOf, Solves, Chooses, Legal, Represents, EdgeChosen, Colors, Holds, ModuleDeclared, EdgeDeclared,
        PairHolds,
         ModuleEdgeHolds, BudgetHolds;
    RepresentsChooses(pr, x, place);
    forall m | 0 <= m < |pr.modules|
      ensures ModuleDeclared(pr, x, m) && Holds(OneColor(pr, m), x)
    {
      ModuleRow(pr, x, m, place[m]);
    }
    forall e | 0 <= e < |pr.channels|
      ensures EdgeChosen(pr, x, place, e) && EdgeDeclared(pr, x, e) && PairHolds(pr, x, e)
    {
      RepresentsEdge(pr, x, place, e);
      EdgeVars(pr, x, place, e);
      EdgeRow(pr, x, place, e);
    }
    forall m, e | 0 <= m < |pr.modules| && 0 <= e < |pr.channels|
      ensures ModuleEdgeHolds(pr, x, m, e)
    {
      EndRow(pr, x, place, m, e);
    }
    forall p, r | 0 <= p < |pr.platforms|
      ensures BudgetHolds(pr, x, p, r)
    {
      PlatformKept(pr, x, place, p, r);
    }
    SolvesMeans(pr, x);
  }

  /** The 0/1 solutions are exactly the legal placements. */
  lemma {:induction false} SolutionsArePlacements(pr: Problem, x: Var -> nat)
    requires pr.Valid()
    ensures Solves(ModelOf(pr), x) <==> exists place :: Legal(pr, place) && Represents(pr, x, place)
  {
    hide Solves, ModelOf, Legal, Represents, Problem.Valid;
    if Solves(ModelOf(pr), x) {
      var place := SolutionIsPlacement(pr, x);
    }
    if place :| Legal(pr, place) && Represents(pr, x, place) {
      PlacementIsSolution(pr, x, place);
    }
  }

  // ----- the objective -----

  function EdgeTerms(pr: Problem, e: nat): seq<Term>
    requires pr.Valid() && e < |pr.channels|
  {
    PairTerms(EdgeCosts(pr, e), e, Sources(pr, e), Dests(pr, e))
  }

  lemma {:induction false} ObjectiveUnfold(pr: Problem, place: seq<nat>, n: nat)
    requires pr.Valid() && 0 < n <= |pr.channels| && |place| == |pr.modules|
    ensures Objective(pr, n) == Objective(pr, n - 1) + EdgeTerms(pr, n - 1)
    ensures var ch := pr.channels[n - 1];
            Cost(pr, place, n) == Cost(pr, place, n - 1) + EdgeCost(pr, ch.activity, place[ch.src], place[ch.dst])
  {
    hide EdgeCost, PairTerms, Colors;
    var ch := pr.channels[n - 1];
    EdgeCostIs(pr, ch.activity, place[ch.src], place[ch.dst]);
  }

  lemma {:induction false} EdgeCostIs(pr: Problem, activity: nat, p: nat, q: nat)
    ensures EdgeCost(pr, activity, p, q) == if p == q then 0 else activity * pr.pathLength(p, q)
  {
  }

  lemma {:induction false} ObjectiveNone(pr: Problem, x: Var -> nat, place: seq<nat>)
    requires pr.Valid() && |place| == |pr.modules|
    ensures Value(Objective(pr, 0), x) == Cost(pr, place, 0)
  {
  }

  /** The objective of a solution is the communication cost of its placement. */
  lemma {:induction false} ObjectiveIsCost(pr: Problem, x: Var -> nat, place: seq<nat>, n: nat)
    requires pr.Valid() && n <= |pr.channels| && Legal(pr, place) && Represents(pr, x, place)
    ensures |place| == |pr.modules| && Value(Objective(pr, n), x) == Cost(pr, place, n)
  {
    hide Legal, Represents, Value, Objective, Cost, EdgeTerms, EdgeCost;
    SamePlaces(pr, place);
    if n == 0 {
      ObjectiveNone(pr, x, place);
    } else {
      ObjectiveIsCost(pr, x, place, n - 1);
      EdgeValue(pr, x, place, n - 1);
      ObjectiveUnfold(pr, place, n);
      ValueConcat(Objective(pr, n - 1), EdgeTerms(pr, n - 1), x);
    }
  }

  lemma {:induction false} SamePlaces(pr: Problem, place: seq<nat>)
    requires Legal(pr, place)
    ensures |place| == |pr.modules|
  {
  }

  lemma {:induction false} EdgeValue(pr: Problem, x: Var -> nat, place: seq<nat>, e: nat)
    requires pr.Valid() && e < |pr.channels| && Legal(pr, place) && Represents(pr, x, place)
    ensures var ch := pr.channels[e];
            |place| == |pr.modules|
            && Value(EdgeTerms(pr, e), x)
               == EdgeCost(pr, ch.activity, place[ch.src], place[ch.dst])
  {
    hide Legal, Represents, Colors, EdgeChosen, Chooses;
    RepresentsChooses(pr, x, place);
    RepresentsEdge(pr, x, place, e);
    PairValue(pr, x, place, e, EdgeCosts(pr, e));
  }

  lemma {:induction false} PairValue(pr: Problem, x: Var -> nat, place: seq<nat>, e: nat, coef: (nat, nat) -> nat)
    requires pr.Valid() && e < |pr.channels| && ChoosesAll(pr, x, place) && EdgeChosen(pr, x, place, e)
    ensures var ch := pr.channels[e];
            Value(PairTerms(coef, e, Sources(pr, e), Dests(pr, e)), x) == coef(place[ch.src], place[ch.dst])
  {
    hide Colors;
    var ch := pr.channels[e];
    assert Chooses(pr, x, ch.src, place[ch.src]) && Chooses(pr, x, ch.dst, place[ch.dst]);
    ColorsAre(pr, ch.src, 0);
    ColorsAre(pr, ch.dst, 0);
    PairSum(coef, e, Sources(pr, e), Dests(pr, e), x, place[ch.src], place[ch.dst]);
  }

  lemma {:induction false} ChosenRepresents(pr: Problem, place: seq<nat>)
    requires pr.Valid() && |place| == |pr.modules|
    ensures Represents(pr, v => Chosen(pr, place, v), place)
  {
  }

  /** A solution of least objective stands for a legal placement of least communication cost. */
  lemma {:induction false} OptimumIsOptimal(pr: Problem, x: Var -> nat, place: seq<nat>, other: seq<nat>)
    requires pr.Valid() && Solves(ModelOf(pr), x) && Represents(pr, x, place) && Legal(pr, place)
    requires forall y :: Solves(ModelOf(pr), y) ==> Value(ModelOf(pr).objective, x) <= Value(ModelOf(pr).objective, y)
    requires Legal(pr, other)
    ensures |place| == |other| == |pr.modules|
    ensures Cost(pr, place, |pr.channels|) <= Cost(pr, other, |pr.channels|)
  {
    hide Solves, Legal, Represents, Problem.Valid, Value, Cost, Objective;
    SamePlaces(pr, place);
    SamePlaces(pr, other);
    var y := v => Chosen(pr, other, v);
    ChosenRepresents(pr, other);
    PlacementIsSolution(pr, y, other);
    assert Value(ModelOf(pr).objective, x) <= Value(ModelOf(pr).objective, y);
    ObjectiveIsCost(pr, x, place, |pr.channels|);
    ObjectiveIsCost(pr, y, other, |pr.channels|);
  }

  /** Reading the solution back: every module gets the platform whose variable is positive. */
  method ReadBack(pr: Problem, x: Var -> nat) returns (place: seq<nat>)
    requires pr.Valid() && Solves(ModelOf(pr), x)
    ensures Legal(pr, place) && Represents(pr, x, place)
  {
    hide Solves, ModelOf, Represents, Legal, Problem.Valid, Colors;
    ghost var chosen := SolutionIsPlacement(pr, x);
    SamePlaces(pr, chosen);
    RepresentsChooses(pr, x, chosen);
    place := [];
    for m := 0 to |pr.modules|
      invariant |place| == m && forall i :: 0 <= i < m ==> place[i] == chosen[i]
    {
      var colors := Colors(pr, m);
      assert Chooses(pr, x, m, chosen[m]);
      var mapping := 0;
      for c := 0 to |colors|
        invariant chosen[m] in colors[..c] ==> mapping == chosen[m]
      {
        if x(Color(m, colors[c])) > 0 {
          mapping := colors[c];
        }
      }
      assert colors[..|colors|] == colors;
      place := place + [mapping];
    }
    assert place == chosen;
  }
}
