/** The integer program that places modules on platforms, as the data that the generator writes: variables,
    rows and an objective. Modules, platforms and channels are numbered; a channel's number is its name. */
module PlacementModel {
  import opened Wrappers

  datatype Execution = Software | Rtl | Other

  datatype PlatformKind = Cpu | Fpga | Bluesim

  datatype Resource = Lut | Reg | Bram

  /** mapping is a placement given in advance; uses holds the resource needs that are known. */
  datatype Module = Module(mapping: Option<nat>, execution: Execution, uses: map<Resource, nat>)

  /** limits holds the resource budgets that are known, each already scaled by the utilisation threshold. */
  datatype Platform = Platform(kind: PlatformKind, limits: map<Resource, nat>)

  datatype Channel = Channel(src: nat, dst: nat, activity: nat)

  datatype Problem = Problem(modules: seq<Module>, platforms: seq<Platform>, channels: seq<Channel>,
                             pathLength: (nat, nat) -> nat) {
    /** Given placements name platforms, and channels join different modules. */
    ghost predicate Valid() {
      && (forall m :: 0 <= m < |modules| && modules[m].mapping.Some? ==> modules[m].mapping.value < |platforms|)
      && (forall e :: 0 <= e < |channels| ==>
            channels[e].src < |modules| && channels[e].dst < |modules| && channels[e].src != channels[e].dst)
    }
  }

  predicate Compatible(execution: Execution, kind: PlatformKind) {
    match kind
    case Cpu => execution == Software
    case Fpga => execution == Rtl
    case Bluesim => execution == Rtl
  }

  datatype Var = Color(m: nat, p: nat) | Pair(e: nat, p: nat, q: nat)

  datatype Term = Term(coef: nat, v: Var)

  datatype Rhs = Constant(c: nat) | Variable(v: Var)

  datatype Decl = Decl(v: Var, fixed: bool)

  datatype Row = Row(terms: seq<Term>, exact: bool, rhs: Rhs)

  datatype Model = Model(decls: seq<Decl>, objective: seq<Term>, rows: seq<Row>)

  // ----- what a program means -----

  function Value(terms: seq<Term>, x: Var -> nat): nat {
    if terms == [] then 0 else terms[0].coef * x(terms[0].v) + Value(terms[1..], x)
  }

  predicate Holds(row: Row, x: Var -> nat) {
    var rhs := match row.rhs case Constant(c) => c case Variable(v) => x(v);
    if row.exact then Value(row.terms, x) == rhs else Value(row.terms, x) <= rhs
  }

  predicate Declares(d: Decl, x: Var -> nat) {
    if d.fixed then x(d.v) == 1 else x(d.v) <= 1
  }

  ghost predicate AllHold(rows: seq<Row>, x: Var -> nat) {
    forall r :: r in rows ==> Holds(r, x)
  }

  ghost predicate AllDeclared(decls: seq<Decl>, x: Var -> nat) {
    forall d :: d in decls ==> Declares(d, x)
  }

  /** A 0/1 solution of the program */
  ghost predicate Solves(model: Model, x: Var -> nat) {
    AllDeclared(model.decls, x) && AllHold(model.rows, x)
  }

  // ----- what the generator writes -----

  function Compatibles(pr: Problem, m: nat, n: nat): (r: seq<nat>)
    requires m < |pr.modules| && n <= |pr.platforms|
    ensures forall i :: 0 <= i < |r| ==> r[i] < n
  {
    if n == 0 then []
    else
      Compatibles(pr, m, n - 1)
      + if Compatible(pr.modules[m].execution, pr.platforms[n - 1].kind) then [n - 1] else []
  }

  /** moduleColors: the platforms that the module may be placed on */
  function Colors(pr: Problem, m: nat): seq<nat>
    requires m < |pr.modules|
  {
    match pr.modules[m].mapping
    case Some(p) => [p]
    case None => Compatibles(pr, m, |pr.platforms|)
  }

  function ColorDecls(m: nat, colors: seq<nat>, fixed: bool): seq<Decl> {
    if colors == [] then [] else [Decl(Color(m, colors[0]), fixed)] + ColorDecls(m, colors[1..], fixed)
  }

  function ColorTerms(m: nat, colors: seq<nat>): seq<Term> {
    if colors == [] then [] else [Term(1, Color(m, colors[0]))] + ColorTerms(m, colors[1..])
  }

  /** Channel e from platform p to each of the platforms */
  function FromTerms(coef: nat -> nat, e: nat, p: nat, dests: seq<nat>): seq<Term> {
    if dests == [] then [] else [Term(coef(dests[0]), Pair(e, p, dests[0]))] + FromTerms(coef, e, p, dests[1..])
  }

  /** Channel e from each of the platforms to platform q */
  function ToTerms(e: nat, sources: seq<nat>, q: nat): seq<Term> {
    if sources == [] then [] else [Term(1, Pair(e, sources[0], q))] + ToTerms(e, sources[1..], q)
  }

  function PairTerms(coef: (nat, nat) -> nat, e: nat, sources: seq<nat>, dests: seq<nat>): seq<Term> {
    if sources == [] then []
    else FromTerms(q => coef(sources[0], q), e, sources[0], dests) + PairTerms(coef, e, sources[1..], dests)
  }

  function PairDecls(e: nat, sources: seq<nat>, dests: seq<nat>, fixed: bool): seq<Decl> {
    if sources == [] then []
    else DeclsFrom(e, sources[0], dests, fixed) + PairDecls(e, sources[1..], dests, fixed)
  }

  function DeclsFrom(e: nat, p: nat, dests: seq<nat>, fixed: bool): seq<Decl> {
    if dests == [] then [] else [Decl(Pair(e, p, dests[0]), fixed)] + DeclsFrom(e, p, dests[1..], fixed)
  }

  function Sources(pr: Problem, e: nat): seq<nat>
    requires e < |pr.channels| && pr.channels[e].src < |pr.modules|
  {
    Colors(pr, pr.channels[e].src)
  }

  function Dests(pr: Problem, e: nat): seq<nat>
    requires e < |pr.channels| && pr.channels[e].dst < |pr.modules|
  {
    Colors(pr, pr.channels[e].dst)
  }

  function ModuleDecls(pr: Problem, n: nat): seq<Decl>
    requires n <= |pr.modules|
  {
    if n == 0 then []
    else ModuleDecls(pr, n - 1) + ColorDecls(n - 1, Colors(pr, n - 1), pr.modules[n - 1].mapping.Some?)
  }

  /** A channel between two modules with one choice each is fixed. */
  function EdgeDecls(pr: Problem, n: nat): seq<Decl>
    requires pr.Valid() && n <= |pr.channels|
  {
    if n == 0 then []
    else
      var sources, dests := Sources(pr, n - 1), Dests(pr, n - 1);
      EdgeDecls(pr, n - 1) + PairDecls(n - 1, sources, dests, |sources| == 1 && |dests| == 1)
  }

  function Hops(pr: Problem, p: nat, q: nat): nat {
    if p != q then pr.pathLength(p, q) else 0
  }

  function EdgeCost(pr: Problem, activity: nat, p: nat, q: nat): nat {
    Hops(pr, p, q) * activity
  }

  function EdgeCosts(pr: Problem, e: nat): (nat, nat) -> nat
    requires e < |pr.channels|
  {
    var activity := pr.channels[e].activity;
    (p, q) => EdgeCost(pr, activity, p, q)
  }

  function Objective(pr: Problem, n: nat): seq<Term>
    requires pr.Valid() && n <= |pr.channels|
  {
    if n == 0 then []
    else
      Objective(pr, n - 1)
      + PairTerms(EdgeCosts(pr, n - 1), n - 1, Sources(pr, n - 1), Dests(pr, n - 1))
  }

  function Ones(): (nat, nat) -> nat {
    (p, q) => 1
  }

  function AllOnes(): nat -> nat {
    q => 1
  }

  /** boundaryone_color */
  function OneColor(pr: Problem, m: nat): Row
    requires m < |pr.modules|
  {
    Row(ColorTerms(m, Colors(pr, m)), true, Constant(1))
  }

  /** edge_one_color */
  function OnePair(pr: Problem, e: nat): Row
    requires pr.Valid() && e < |pr.channels|
  {
    Row(PairTerms(Ones(), e, Sources(pr, e), Dests(pr, e)), true, Constant(1))
  }

  /** boundarymust_color_edge, at the channel's source or at its sink */
  function ColorsEdge(pr: Problem, m: nat, e: nat, color: nat): Row
    requires pr.Valid() && e < |pr.channels|
  {
    if pr.channels[e].src == m then Row(FromTerms(AllOnes(), e, color, Dests(pr, e)), true, Variable(Color(m, color)))
    else Row(ToTerms(e, Sources(pr, e), color), true, Variable(Color(m, color)))
  }

  predicate Touches(pr: Problem, m: nat, e: nat)
    requires e < |pr.channels|
  {
    pr.channels[e].src == m || pr.channels[e].dst == m
  }

  function OneColorRows(pr: Problem, n: nat): seq<Row>
    requires n <= |pr.modules|
  {
    if n == 0 then [] else OneColorRows(pr, n - 1) + [OneColor(pr, n - 1)]
  }

  function OnePairRows(pr: Problem, n: nat): seq<Row>
    requires pr.Valid() && n <= |pr.channels|
  {
    if n == 0 then [] else OnePairRows(pr, n - 1) + [OnePair(pr, n - 1)]
  }

  function ColorsEdgeRows(pr: Problem, m: nat, e: nat, colors: seq<nat>): seq<Row>
    requires pr.Valid() && e < |pr.channels|
  {
    if colors == [] then [] else [ColorsEdge(pr, m, e, colors[0])] + ColorsEdgeRows(pr, m, e, colors[1..])
  }

  /** A channel's rows at one of its ends */
  function EndRows(pr: Problem, m: nat, e: nat): seq<Row>
    requires pr.Valid() && m < |pr.modules| && e < |pr.channels|
  {
    if Touches(pr, m, e) then ColorsEdgeRows(pr, m, e, Colors(pr, m)) else []
  }

  /** For one module, the rows of its first n channels */
  function ModuleEdgeRows(pr: Problem, m: nat, n: nat): seq<Row>
    requires pr.Valid() && m < |pr.modules| && n <= |pr.channels|
  {
    if n == 0 then [] else ModuleEdgeRows(pr, m, n - 1) + EndRows(pr, m, n - 1)
  }

  function AllEdgeRows(pr: Problem, n: nat): seq<Row>
    requires pr.Valid() && n <= |pr.modules|
  {
    if n == 0 then [] else AllEdgeRows(pr, n - 1) + ModuleEdgeRows(pr, n - 1, |pr.channels|)
  }

  /** A module's term in a resource row: none if it cannot be there or if its need is not known */
  function NeedTerms(pr: Problem, p: nat, r: Resource, m: nat): seq<Term>
    requires m < |pr.modules|
  {
    if p in Colors(pr, m) && r in pr.modules[m].uses then [Term(pr.modules[m].uses[r], Color(m, p))] else []
  }

  /** The needs of the first n modules for one resource of one platform */
  function ResourceTerms(pr: Problem, p: nat, r: Resource, n: nat): seq<Term>
    requires n <= |pr.modules|
  {
    if n == 0 then [] else ResourceTerms(pr, p, r, n - 1) + NeedTerms(pr, p, r, n - 1)
  }

  /** No row for a resource without a budget or without any need */
  function ResourceRow(pr: Problem, p: nat, r: Resource): seq<Row>
    requires p < |pr.platforms|
  {
    var terms := ResourceTerms(pr, p, r, |pr.modules|);
    if r in pr.platforms[p].limits && |terms| > 0 then [Row(terms, false, Constant(pr.platforms[p].limits[r]))] else []
  }

  /** The rows of one platform */
  function PlatformRows(pr: Problem, p: nat): seq<Row>
    requires p < |pr.platforms|
  {
    ResourceRow(pr, p, Lut) + ResourceRow(pr, p, Reg) + ResourceRow(pr, p, Bram)
  }

  function ResourceRows(pr: Problem, n: nat): seq<Row>
    requires n <= |pr.platforms|
  {
    if n == 0 then [] else ResourceRows(pr, n - 1) + PlatformRows(pr, n - 1)
  }

  function ModelOf(pr: Problem): Model
    requires pr.Valid()
  {
    Model(ModuleDecls(pr, |pr.modules|) + EdgeDecls(pr, |pr.channels|),
          Objective(pr, |pr.channels|),
          OneColorRows(pr, |pr.modules|) + OnePairRows(pr, |pr.channels|)
          + AllEdgeRows(pr, |pr.modules|) + ResourceRows(pr, |pr.platforms|))
  }

  /** The platforms that a module may be on: the one that was given for it, or else any CPU for software and any
      FPGA or simulated FPGA for hardware; a module of neither kind has none. */
  predicate Allowed(pr: Problem, m: nat, p: nat)
    requires m < |pr.modules|
  {
    var boundary := pr.modules[m];
    if boundary.mapping.Some? then p == boundary.mapping.value
    else
      && p < |pr.platforms|
      && (pr.platforms[p].kind == Cpu ==> boundary.execution == Software)
      && (pr.platforms[p].kind == Fpga || pr.platforms[p].kind == Bluesim ==> boundary.execution == Rtl)
  }

  lemma {:induction false} CompatiblesAre(pr: Problem, m: nat, n: nat, p: nat)
    requires m < |pr.modules| && n <= |pr.platforms| && pr.modules[m].mapping.None?
    ensures p in Compatibles(pr, m, n) <==> p < n && Allowed(pr, m, p)
    ensures forall i, j :: 0 <= i < j < |Compatibles(pr, m, n)| ==> Compatibles(pr, m, n)[i] < Compatibles(pr, m, n)[j]
  {
    if n > 0 {
      CompatiblesAre(pr, m, n - 1, p);
    }
  }

  // ----- the generator's loops, in the order in which it writes -----

  method ChooseColors(pr: Problem, m: nat) returns (colors: seq<nat>)
    requires m < |pr.modules|
    ensures colors == Colors(pr, m)
    ensures forall p: nat :: p in colors <==> Allowed(pr, m, p)
    ensures forall i, j :: 0 <= i < j < |colors| ==> colors[i] < colors[j]
  {
    forall p: nat | pr.modules[m].mapping.None?
      ensures p in Compatibles(pr, m, |pr.platforms|) <==> Allowed(pr, m, p)
    {
      CompatiblesAre(pr, m, |pr.platforms|, p);
    }
    if pr.modules[m].mapping.None? {
      CompatiblesAre(pr, m, |pr.platforms|, 0);
    }
    colors := [];
    match pr.modules[m].mapping {
      case Some(p) => colors := [p];
      case None =>
        for p := 0 to |pr.platforms|
          invariant colors == Compatibles(pr, m, p)
        {
          if Compatible(pr.modules[m].execution, pr.platforms[p].kind) {
            colors := colors + [p];
          }
        }
    }
  }

  method WriteModuleVars(pr: Problem) returns (moduleColors: seq<seq<nat>>, decls: seq<Decl>)
    ensures |moduleColors| == |pr.modules| && forall m :: 0 <= m < |pr.modules| ==> moduleColors[m] == Colors(pr, m)
    ensures decls == ModuleDecls(pr, |pr.modules|)
  {
    hide Colors, ColorDecls;
    moduleColors, decls := [], [];
    for m := 0 to |pr.modules|
      invariant |moduleColors| == m && forall i :: 0 <= i < m ==> moduleColors[i] == Colors(pr, i)
      invariant decls == ModuleDecls(pr, m)
    {
      var colors := ChooseColors(pr, m);
      decls := decls + ColorDecls(m, colors, pr.modules[m].mapping.Some?);
      moduleColors := moduleColors + [colors];
    }
  }

  method WriteEdgeVars(pr: Problem, moduleColors: seq<seq<nat>>) returns (decls: seq<Decl>, objective: seq<Term>)
    requires pr.Valid()
    requires |moduleColors| == |pr.modules| && forall m :: 0 <= m < |pr.modules| ==> moduleColors[m] == Colors(pr, m)
    ensures decls == EdgeDecls(pr, |pr.channels|) && objective == Objective(pr, |pr.channels|)
  {
    decls, objective := [], [];
    hide Colors;
    for e := 0 to |pr.channels|
      invariant decls == EdgeDecls(pr, e) && objective == Objective(pr, e)
    {
      var sources, dests := moduleColors[pr.channels[e].src], moduleColors[pr.channels[e].dst];
      decls := decls + PairDecls(e, sources, dests, |sources| == 1 && |dests| == 1);
      objective := objective + PairTerms(EdgeCosts(pr, e), e, sources, dests);
    }
  }

  method WriteColorRows(pr: Problem) returns (rows: seq<Row>)
    ensures rows == OneColorRows(pr, |pr.modules|)
  {
    rows := [];
    for m := 0 to |pr.modules|
      invariant rows == OneColorRows(pr, m)
    {
      rows := rows + [OneColor(pr, m)];
    }
  }

  method WritePairRows(pr: Problem) returns (rows: seq<Row>)
    requires pr.Valid()
    ensures rows == OnePairRows(pr, |pr.channels|)
  {
    rows := [];
    for e := 0 to |pr.channels|
      invariant rows == OnePairRows(pr, e)
    {
      rows := rows + [OnePair(pr, e)];
    }
  }

  method WriteModuleEdgeRows(pr: Problem, m: nat) returns (rows: seq<Row>)
    requires pr.Valid() && m < |pr.modules|
    ensures rows == ModuleEdgeRows(pr, m, |pr.channels|)
  {
    rows := [];
    for e := 0 to |pr.channels|
      invariant rows == ModuleEdgeRows(pr, m, e)
    {
      if Touches(pr, m, e) {
        rows := rows + ColorsEdgeRows(pr, m, e, Colors(pr, m));
      }
    }
  }

  method WriteEdgeRows(pr: Problem) returns (rows: seq<Row>)
    requires pr.Valid()
    ensures rows == AllEdgeRows(pr, |pr.modules|)
  {
    rows := [];
    for m := 0 to |pr.modules|
      invariant rows == AllEdgeRows(pr, m)
    {
      var more := WriteModuleEdgeRows(pr, m);
      rows := rows + more;
    }
  }

  method WriteResourceRows(pr: Problem) returns (rows: seq<Row>)
    ensures rows == ResourceRows(pr, |pr.platforms|)
  {
    rows := [];
    for p := 0 to |pr.platforms|
      invariant rows == ResourceRows(pr, p)
    {
      rows := rows + PlatformRows(pr, p);
    }
  }

  method Generate(pr: Problem) returns (model: Model)
    requires pr.Valid()
    ensures model == ModelOf(pr)
  {
    var moduleColors, moduleDecls := WriteModuleVars(pr);
    var edgeDecls, objective := WriteEdgeVars(pr, moduleColors);
    var colorRows := WriteColorRows(pr);
    var pairRows := WritePairRows(pr);
    var edgeRows := WriteEdgeRows(pr);
    var resourceRows := WriteResourceRows(pr);
    model := Model(moduleDecls + edgeDecls, objective, colorRows + pairRows + edgeRows + resourceRows);
  }
}
