/** From clients to a numbered tree: the topology chosen by the dynamic program or the flat special case,
    and the tree built from it level by level. */
module ScratchpadTrees {
  import opened Wrappers
  import opened Arith
  import opened Sums
  import opened Sorting
  import opened Trees
  import opened LeastLatency
  import opened TopologyDP
  import opened TopologyOptimality
  import opened TreeBuilder
  import opened TreeRouting

  /** The number of trees at level d: leaves and, above the last level, nodes with children. */
  function LevelSize(ls: seq<nat>, ni: seq<nat>, d: nat): nat
    requires d < |ls| == |ni| + 1
  {
    ls[d] + if d < |ni| then ni[d] else 0
  }

  /** Each level finds room under the nodes above it. */
  ghost predicate Fits(k: nat, ls: seq<nat>, ni: seq<nat>) {
    && |ls| == |ni| + 1
    && forall d :: 0 < d < |ls| ==> LevelSize(ls, ni, d) <= Slots(k, ni[d - 1])
  }

  /** Each level fills its room, except for `pad` free places on the last one. */
  ghost predicate Exact(k: nat, ls: seq<nat>, ni: seq<nat>, pad: nat) {
    && |ls| == |ni| + 1 >= 2 && pad + 2 <= k
    && (forall d :: 0 <= d < |ni| ==> ni[d] >= 1)
    && (forall d :: 0 <= d < |ls| ==> LevelSize(ls, ni, d) + (if d == |ni| then pad else 0)
                                      == Slots(k, if d == 0 then 1 else ni[d - 1]))
  }

  lemma {:induction false} ExactFits(k: nat, ls: seq<nat>, ni: seq<nat>, pad: nat)
    requires Exact(k, ls, ni, pad)
    ensures Fits(k, ls, ni)
  {
    hide Slots, LevelSize;
  }

  /** What a forest at level d must be: the clients from r on, in order, at the levels the counts say. */
  ghost predicate Holds(f: seq<Tree>, a: seq<nat>, ls: seq<nat>, d: nat, r: nat, first: int) {
    && r <= |a| && Sum(ls) == |a| - r
    && Layered(f, ls, r)
    && Clients(f) == Range(r, |a| - r)
    && Cost(a, f, d) == ProfileCost(a[r..], ls, d)
    && Labelled(f, first)
  }

  lemma {:induction false} RangeConcat(r: nat, m: nat, n: nat)
    ensures Range(r, m) + Range(r + m, n) == Range(r, m + n)
  {
  }

  lemma {:induction false} NodesKeep(f: seq<Tree>, t: Tree, c: Tree)
    requires AllNodes(f) && t in f && c in t.children
    ensures c in NextLevel(f)
  {
    if f[0] == t {
    } else {
      NodesKeep(f[1..], t, c);
    }
  }

  /** Grouping under new nodes keeps the labels below. */
  lemma {:induction false} GroupsLabelled(g: seq<Tree>, first: int)
    requires AllNodes(g) && Labelled(NextLevel(g), first)
    ensures Labelled(g, first)
  {
    forall t | t in g
      ensures Labelled(t.children, first)
    {
      forall c | c in t.children
        ensures c in NextLevel(g)
      {
        NodesKeep(g, t, c);
      }
    }
  }

  lemma {:induction false} GroupsArity(g: seq<Tree>, lo: nat, hi: nat)
    requires AllNodes(g) && Arity(NextLevel(g), lo, hi)
    requires forall i :: 0 <= i < |g| ==> lo <= |g[i].children| <= hi
    ensures Arity(g, lo, hi)
  {
    forall t | t in g
      ensures lo <= |t.children| <= hi && Arity(t.children, lo, hi)
    {
      forall c | c in t.children
        ensures c in NextLevel(g)
      {
        NodesKeep(g, t, c);
      }
    }
  }

  /** The leaves of one level alone. */
  lemma {:induction false} LeavesHold(a: seq<nat>, clients: seq<Client>, r: nat, first: int, d: nat)
    requires r + |clients| == |a|
    requires forall i :: 0 <= i < |clients| ==> a[r + i] == clients[i].latency
    ensures Holds(LeafRow(clients, r, first), a, [|clients|], d, r, first)
  {
    hide LeafRow, Range, Cost, Clients, Labelled, ProfileCost;
    LeafRowIsLevel(clients, r, first);
    LeafRowCost(a, clients, r, first, d);
    ProfileCostSingle(a[r..], d);
    assert a[r..] == a[r..r + |clients|];
    assert [|clients|][1..] == [];
    assert Layered([], [], r + |clients|);
  }

  /** One level up: this level's leaves in front, the old forest grouped under new nodes behind them. */
  lemma {:induction false} LevelHolds(a: seq<nat>, clients: seq<Client>, r: nat, g: seq<Tree>, ls: seq<nat>,
                                      d: nat, first: int)
    requires AllNodes(g) && r + |clients| <= |a|
    requires Holds(NextLevel(g), a, ls, d + 1, r + |clients|, first)
    requires forall i :: 0 <= i < |clients| ==> a[r + i] == clients[i].latency
    ensures Holds(LeafRow(clients, r, first) + g, a, [|clients|] + ls, d, r, first)
  {
    hide LeafRow, Range, Cost, Clients, ProfileCost, Layered, Labelled, Sum, AllNodes;
    var row, x := LeafRow(clients, r, first), |clients|;
    LeafRowIsLevel(clients, r, first);
    NodesOnly(a, g, d);
    LevelLayered(row, g, ls, r, x);
    assert Clients(row + g) == Range(r, |a| - r) by {
      ClientsConcat(row, g);
      RangeConcat(r, x, |a| - r - x);
    }
    assert Cost(a, row + g, d) == ProfileCost(a[r..], [x] + ls, d) && Sum([x] + ls) == |a| - r by {
      CostConcat(a, row, g, d);
      LeafRowCost(a, clients, r, first, d);
      ProfileCostCons(a[r..], x, ls, d);
      assert a[r..][..x] == a[r..r + x] && a[r..][x..] == a[r + x..];
    }
    GroupsLabelled(g, first);
    LabelledConcat(row, g, first);
  }

  lemma {:induction false} LabelledConcat(f: seq<Tree>, g: seq<Tree>, first: int)
    requires Labelled(f, first) && Labelled(g, first)
    ensures Labelled(f + g, first)
  {
  }

  lemma {:induction false} LevelLayered(row: seq<Tree>, g: seq<Tree>, ls: seq<nat>, r: nat, x: nat)
    requires TopClients(row) == Range(r, x) && NextLevel(row) == [] && TopClients(g) == []
    requires Layered(NextLevel(g), ls, r + x)
    ensures Layered(row + g, [x] + ls, r)
  {
    hide Range;
    NextLevelConcat(row, g);
    TopClientsConcat(row, g);
    assert ([x] + ls)[1..] == ls;
    assert NextLevel(row + g) == NextLevel(g);
  }

  /** Whatever the counts are: no level of the forest has more trees, or more leaves, than its counts say, and
      nothing lies below the last. */
  ghost predicate Within(f: seq<Tree>, ls: seq<nat>, ni: seq<nat>)
    requires |ls| == |ni| + 1
    decreases |ls|
  {
    && |f| <= LevelSize(ls, ni, 0) && TopLeaves(f) <= ls[0]
    && if ni == [] then NextLevel(f) == [] else Within(NextLevel(f), ls[1..], ni[1..])
  }

  lemma {:induction false} TopLeavesConcat(f: seq<Tree>, g: seq<Tree>)
    ensures TopLeaves(f + g) == TopLeaves(f) + TopLeaves(g)
  {
    if f == [] {
      assert f + g == g;
    } else {
      assert (f + g)[1..] == f[1..] + g;
      TopLeavesConcat(f[1..], g);
    }
  }

  lemma {:induction false} TopLeavesAtMost(f: seq<Tree>)
    ensures TopLeaves(f) <= |f| && (AllNodes(f) ==> TopLeaves(f) == 0)
  {
    if f != [] {
      TopLeavesAtMost(f[1..]);
    }
  }

  /** Leaving out trees at the end keeps every level within its counts. */
  lemma {:induction false} WithinPrefix(g: seq<Tree>, f: seq<Tree>, ls: seq<nat>, ni: seq<nat>)
    requires |ls| == |ni| + 1 && g <= f && Within(f, ls, ni)
    ensures Within(g, ls, ni)
    decreases |ls|
  {
    var rest := f[|g|..];
    assert f == g + rest;
    TopLeavesConcat(g, rest);
    NextLevelConcat(g, rest);
    hide TopLeaves, NextLevel;
    if ni != [] {
      WithinPrefix(NextLevel(g), NextLevel(f), ls[1..], ni[1..]);
    }
  }

  lemma {:induction false} WithinStart(clients: seq<Client>, r: nat, first: int, ls: seq<nat>, ni: seq<nat>, k: nat)
    requires |ls| == |ni| + 1 && |clients| == ls[|ni|]
    ensures var row := LeafRow(clients, r, first);
            Within(row, ls[|ni|..], ni[|ni|..]) && Kary(row, k)
  {
    hide LeafRow, TopLeaves;
    LeafRowIsLevel(clients, r, first);
    TopLeavesAtMost(LeafRow(clients, r, first));
    assert ls[|ni|..] == [ls[|ni|]] && ni[|ni|..] == [];
  }

  /** One turn of the loop: this level's leaves, and new nodes over the trees that they have room for. */
  lemma {:induction false} WithinUp(leaves: seq<Client>, r: nat, first: int, groups: seq<Tree>, below: seq<Tree>,
                                    ls: seq<nat>, ni: seq<nat>, d: nat, k: nat)
    requires |ls| == |ni| + 1 && d < |ni| && |leaves| == ls[d] && |groups| == ni[d] && AllNodes(groups)
    requires NextLevel(groups) <= below && Within(below, ls[d + 1..], ni[d + 1..]) && Kary(below, k)
    requires forall i :: 0 <= i < |groups| ==> |groups[i].children| <= k
    ensures var f := LeafRow(leaves, r, first) + groups;
            Within(f, ls[d..], ni[d..]) && Kary(f, k)
  {
    hide LeafRow, TopLeaves, NextLevel, Arity;
    var row := LeafRow(leaves, r, first);
    LeafRowIsLevel(leaves, r, first);
    TopLeavesAtMost(row);
    TopLeavesAtMost(groups);
    TopLeavesConcat(row, groups);
    NextLevelConcat(row, groups);
    assert NextLevel(row + groups) == NextLevel(groups);
    WithinPrefix(NextLevel(groups), below, ls[d + 1..], ni[d + 1..]);
    assert ls[d..][1..] == ls[d + 1..] && ni[d..][1..] == ni[d + 1..];
    ArityPrefix(NextLevel(groups), below, k);
    GroupsArity(groups, 0, k);
    ArityConcat(row, groups, 0, k);
  }

  lemma {:induction false} ArityPrefix(g: seq<Tree>, f: seq<Tree>, k: nat)
    requires g <= f && Arity(f, 0, k)
    ensures Arity(g, 0, k)
  {
    forall t | t in g
      ensures t in f
    {
    }
  }

  /** Every leaf weighs its client's bandwidth, but at least 1. */
  ghost predicate Weighted(f: seq<Tree>, clients: seq<Client>)
    decreases f
  {
    forall t :: t in f ==>
                  match t
                  case Leaf(c, _, b) => c < |clients| && b >= 1 && (b > 1 || clients[c].bandwidth > 0 ==>
                                                                    b == clients[c].bandwidth)
                  case Node(cs) => Weighted(cs, clients)
  }

  lemma {:induction false} WeightedRow(clients: seq<Client>, from: nat, to: nat, first: int)
    requires from <= to <= |clients|
    ensures Weighted(LeafRow(clients[from..to], from, first), clients)
  {
  }

  lemma {:induction false} WeightedConcat(f: seq<Tree>, g: seq<Tree>, clients: seq<Client>)
    requires Weighted(f, clients) && Weighted(g, clients)
    ensures Weighted(f + g, clients)
  {
  }

  lemma {:induction false} WeightedUp(clients: seq<Client>, from: nat, to: nat, first: int, groups: seq<Tree>,
                                      below: seq<Tree>)
    requires from <= to <= |clients| && AllNodes(groups) && NextLevel(groups) <= below && Weighted(below, clients)
    ensures Weighted(LeafRow(clients[from..to], from, first) + groups, clients)
  {
    WeightedRow(clients, from, to, first);
    forall t | t in groups
      ensures Weighted(t.children, clients)
    {
      forall c | c in t.children
        ensures c in below
      {
        NodesKeep(groups, t, c);
      }
    }
    WeightedConcat(LeafRow(clients[from..to], from, first), groups, clients);
  }

  /** What n clients from r on weigh together */
  function WeightFrom(clients: seq<Client>, r: nat, n: nat): nat
    requires r + n <= |clients|
  {
    if n == 0 then 0
    else WeightFrom(clients, r, n - 1) + if clients[r + n - 1].bandwidth > 1 then clients[r + n - 1].bandwidth else 1
  }

  lemma {:induction false} WeightSplit(clients: seq<Client>, r: nat, m: nat, n: nat)
    requires r + m + n <= |clients|
    ensures WeightFrom(clients, r, m + n) == WeightFrom(clients, r, m) + WeightFrom(clients, r + m, n)
  {
    if n > 0 {
      WeightSplit(clients, r, m, n - 1);
    }
  }

  /** The bandwidth that a node sums up is that of all leaves below it. */
  lemma {:induction false} BandwidthAddsUp(f: seq<Tree>, clients: seq<Client>, r: nat, n: nat)
    requires Weighted(f, clients) && Clients(f) == Range(r, n) && r + n <= |clients|
    ensures Bandwidth(f) == WeightFrom(clients, r, n)
    decreases f
  {
    hide Clients, Range, Weighted, WeightFrom, Bandwidth;
    if f == [] {
      NoBandwidth(clients, r, n);
    } else {
      var k := |f| - 1;
      var m := SplitLast(f, clients, r, n);
      BandwidthAddsUp(f[..k], clients, r, m);
      LastBandwidth(f, clients, r + m, n - m);
      WeightSplit(clients, r, m, n - m);
      BandwidthOfLast(f);
    }
  }

  lemma {:induction false} NoBandwidth(clients: seq<Client>, r: nat, n: nat)
    requires Clients([]) == Range(r, n) && r + n <= |clients|
    ensures Bandwidth([]) == WeightFrom(clients, r, n)
  {
    assert |Range(r, n)| == 0;
  }

  lemma {:induction false} BandwidthOfLast(f: seq<Tree>)
    requires f != []
    ensures Bandwidth(f) == Bandwidth(f[..|f| - 1]) + match f[|f| - 1]
                                                      case Leaf(_, _, b) => b
                                                      case Node(cs) => Bandwidth(cs)
  {
  }

  lemma {:induction false} WeightedPrefix(g: seq<Tree>, f: seq<Tree>, clients: seq<Client>)
    requires g <= f && Weighted(f, clients)
    ensures Weighted(g, clients)
  {
    forall t | t in g
      ensures t in f
    {
    }
  }

  /** The last tree of a forest of numbered clients, and those before it. */
  lemma {:induction false} SplitLast(f: seq<Tree>, clients: seq<Client>, r: nat, n: nat) returns (m: nat)
    requires f != [] && Weighted(f, clients) && Clients(f) == Range(r, n)
    ensures m <= n && Clients(f[..|f| - 1]) == Range(r, m) && Clients([f[|f| - 1]]) == Range(r + m, n - m)
    ensures Weighted(f[..|f| - 1], clients)
  {
    hide Clients, Range, Weighted;
    var k := |f| - 1;
    var front, last := f[..k], f[k];
    m := |Clients(front)|;
    WeightedPrefix(front, f, clients);
    assert f == front + [last];
    ClientsConcat(front, [last]);
    assert |Clients(f)| == n;
    assert Clients(front) == Range(r, n)[0..0 + m] && Clients([last]) == Range(r, n)[m..m + (n - m)];
    RangeSlice(r, n, 0, m);
    RangeSlice(r, n, m, n - m);
  }

  lemma {:induction false} LastBandwidth(f: seq<Tree>, clients: seq<Client>, r: nat, n: nat)
    requires f != [] && Weighted(f, clients) && r + n <= |clients|
    requires Clients([f[|f| - 1]]) == Range(r, n)
    ensures (match f[|f| - 1]
             case Leaf(_, _, b) => b
             case Node(cs) => Bandwidth(cs)) == WeightFrom(clients, r, n)
    decreases f, 0
  {
    var last := f[|f| - 1];
    assert last in f;
    match last
    case Leaf(c, id, b) =>
      assert [last][1..] == [];
      assert Clients([last]) == [c];
      assert n == 1 && Range(r, n)[0] == r;
      assert WeightFrom(clients, r, 0) == 0;
    case Node(cs) =>
      SingleNode([], cs, 0);
      BandwidthAddsUp(cs, clients, r, n);
  }

  /** The tree built for one controller, from the client order, the counts per level and the first free id. */
  method BuildTree(clients: seq<Client>, ls: seq<nat>, ni: seq<nat>, k: nat, first: int, ghost pad: nat)
    returns (root: Tree)
    requires k > 0 && |ls| == |ni| + 1 && Sum(ls) == |clients|
    ensures root.Node? && |root.children| == LevelSize(ls, ni, 0)
    ensures Fits(k, ls, ni) ==> Holds(root.children, Latencies(clients), ls, 1, 0, first)
    ensures Exact(k, ls, ni, pad) ==> Arity(root.children, 2, k)
    ensures ni == [] ==> root.children == LeafRow(clients, 0, first)
    ensures Within(root.children, ls, ni) && Kary(root.children, k)
    ensures Weighted(root.children, clients)
  {
    ghost var a := Latencies(clients);
    hide Fits, Exact, Holds, Arity, LeafRow, Slots, Latencies, Sum, Sized, Within, Weighted;
    var d, sorted := |ni|, clients;
    SumTake(ls, d);
    assert ls[..|ls|] == ls;
    var childNodes := LeafRow(sorted[|sorted| - ls[d]..], |sorted| - ls[d], first);
    sorted := sorted[..|sorted| - ls[d]];
    StartLevel(a, clients, |sorted|, ls, first);
    WithinStart(clients[|sorted|..], |sorted|, first, ls, ni, k);
    WeightedRow(clients, |sorted|, |clients|, first);
    assert clients[|sorted|..|clients|] == clients[|sorted|..];
    if ni == [] {
      assert Sum(ls[..0]) == 0 && clients[0..] == clients;
    }
    while d > 0
      invariant 0 <= d <= |ni|
      invariant |sorted| <= |clients| && sorted == clients[..|sorted|] && |sorted| == Sum(ls[..d])
      invariant |childNodes| == LevelSize(ls, ni, d)
      invariant Fits(k, ls, ni) ==> Holds(childNodes, a, ls[d..], d + 1, |sorted|, first)
      invariant Exact(k, ls, ni, pad) ==> Arity(childNodes, 2, k)
      invariant ni == [] ==> childNodes == LeafRow(clients, 0, first)
      invariant Within(childNodes, ls[d..], ni[d..]) && Kary(childNodes, k)
      invariant Weighted(childNodes, clients)
    {
      ghost var below := childNodes;
      var currentNodes := GroupChildren(childNodes, ni[d - 1], k);
      d := d - 1;
      SumTake(ls, d);
      var leaves := sorted[|sorted| - ls[d]..];
      sorted := sorted[..|sorted| - ls[d]];
      assert leaves == clients[|sorted|..|sorted| + ls[d]];
      LevelUp(k, a, clients, |sorted|, ls, ni, d, childNodes, currentNodes, first, pad);
      childNodes := LeafRow(leaves, |sorted|, first) + currentNodes;
      WithinUp(leaves, |sorted|, first, currentNodes, below, ls, ni, d, k);
      WeightedUp(clients, |sorted|, |sorted| + ls[d], first, currentNodes, below);
    }
    assert ls[0..] == ls && ni[0..] == ni;
    SumTake(ls, 0);
    var node := new ScratchpadTreeNode();
    node.AddChildren(childNodes);
    assert node.children == childNodes;
    root := Node(node.children);
  }

  lemma {:induction false} SumTake(ls: seq<nat>, d: nat)
    requires d < |ls|
    ensures Sum(ls[..d + 1]) == Sum(ls[..d]) + ls[d] && Sum(ls[..0]) == 0
  {
    SumPrefix(ls, d);
  }

  lemma {:induction false} StartLevel(a: seq<nat>, clients: seq<Client>, r: nat, ls: seq<nat>, first: int)
    requires a == Latencies(clients) && ls != [] && r + ls[|ls| - 1] == |clients|
    ensures var row := LeafRow(clients[r..], r, first);
            && Holds(row, a, ls[|ls| - 1..], |ls|, r, first)
            && (forall lo, hi :: Arity(row, lo, hi))
  {
    hide Holds, LeafRow;
    LeavesHold(a, clients[r..], r, first, |ls|);
    LeafRowIsLevel(clients[r..], r, first);
    assert ls[|ls| - 1..] == [ls[|ls| - 1]];
  }

  /** One turn of the builder's loop, from level d + 1 to level d. */
  lemma {:induction false} LevelUp(k: nat, a: seq<nat>, clients: seq<Client>, r: nat, ls: seq<nat>, ni: seq<nat>,
                                   d: nat,
                below: seq<Tree>, groups: seq<Tree>, first: int, pad: nat)
    requires a == Latencies(clients) && |ls| == |ni| + 1 && d < |ni| && r + ls[d] <= |clients|
    requires |below| == LevelSize(ls, ni, d + 1) && AllNodes(groups)
    requires |below| <= Slots(k, ni[d]) ==> NextLevel(groups) == below
    requires 0 <= Slots(k, ni[d]) - |below| < k ==> Sized(groups, k, Slots(k, ni[d]) - |below|)
    requires Fits(k, ls, ni) ==> Holds(below, a, ls[d + 1..], d + 2, r + ls[d], first)
    requires Exact(k, ls, ni, pad) ==> Arity(below, 2, k)
    ensures var f := LeafRow(clients[r..r + ls[d]], r, first) + groups;
            && (Fits(k, ls, ni) ==> Holds(f, a, ls[d..], d + 1, r, first))
            && (Exact(k, ls, ni, pad) ==> Arity(f, 2, k))
  {
    var leaves := clients[r..r + ls[d]];
    if Fits(k, ls, ni) {
      assert |below| <= Slots(k, ni[d]);
      hide Holds, LeafRow, Fits, Exact;
      LevelHolds(a, leaves, r, groups, ls[d + 1..], d + 1, first);
      assert ls[d..] == [ls[d]] + ls[d + 1..];
    }
    if Exact(k, ls, ni, pad) {
      assert NextLevel(groups) == below && Sized(groups, k, Slots(k, ni[d]) - |below|) by {
        assert ni[d] >= 1;
        hide Slots;
      }
      assert k - (Slots(k, ni[d]) - |below|) >= 2;
      hide Holds, Fits, Exact, LeafRow, Slots;
      GroupsArity(groups, 2, k);
      LeafRowIsLevel(leaves, r, first);
      ArityConcat(LeafRow(leaves, r, first), groups, 2, k);
    }
  }

  // ----- the topology -----

  /** The nodes with children per level, from the top: what the slots of a full level have left. */
  ghost function Parents(k: nat, ls: seq<nat>, i: nat): seq<nat>
    decreases |ls|
  {
    if |ls| <= 1 || ls[0] > Slots(k, i) then []
    else [Slots(k, i) - ls[0]] + Parents(k, ls[1..], Slots(k, i) - ls[0])
  }

  ghost function Above(c: seq<nat>, i: nat, d: nat): nat
    requires d <= |c|
  {
    if d == 0 then i else c[d - 1]
  }

  lemma {:induction false} ParentsLevels(k: nat, ls: seq<nat>, i: nat)
    requires FullProfile(k, ls, i)
    ensures var c := Parents(k, ls, i);
            && |c| == |ls| - 1
            && (forall d :: 0 <= d < |c| ==> c[d] >= 1)
            && (forall d :: 0 <= d <= |c| ==> LevelSize(ls, c, d) == Slots(k, Above(c, i, d)))
    decreases |ls|
  {
    hide Slots;
    var c := Parents(k, ls, i);
    if |ls| > 1 {
      var j := Slots(k, i) - ls[0];
      ParentsLevels(k, ls[1..], j);
      var c' := Parents(k, ls[1..], j);
      forall d | 0 <= d <= |c|
        ensures LevelSize(ls, c, d) == Slots(k, Above(c, i, d))
      {
        if d > 0 {
          assert LevelSize(ls[1..], c', d - 1) == Slots(k, Above(c', j, d - 1));
        }
      }
    }
  }

  /** num_internals from num_leaves: bottom up, each level's nodes shared out k to a parent. All the
      divisions are exact. */
  method CountInternals(k: nat, ls: seq<nat>) returns (ni: seq<nat>)
    requires k > 0 && FullProfile(k, ls, 1)
    ensures ni == Parents(k, ls, 1)
  {
    ghost var c := Parents(k, ls, 1);
    ParentsLevels(k, ls, 1);
    hide Slots, FullProfile, Parents;
    ni := seq(|ls| - 1, _ => 0);
    var treeNodes := ls[|ls| - 1];
    var d := |ls| - 1;
    assert LevelSize(ls, c, d) == treeNodes;
    while d > 0
      invariant 0 <= d < |ls| && |ni| == |c|
      invariant treeNodes == Slots(k, Above(c, 1, d))
      invariant forall e :: d <= e < |c| ==> ni[e] == c[e]
    {
      SlotsDivide(k, c[d - 1]);
      ni := ni[d - 1 := treeNodes / k];
      treeNodes := ni[d - 1] + ls[d - 1];
      assert LevelSize(ls, c, d - 1) == treeNodes;
      d := d - 1;
    }
  }

  lemma {:induction false} SlotsDivide(k: nat, i: nat)
    requires k > 0
    ensures Slots(k, i) / k == i
  {
    DivModUnique(Slots(k, i), i, 0, k);
  }

  /** The latencies with the dummies behind them. */
  function Padded(a: seq<nat>, pad: nat): seq<nat> {
    a + seq(pad, _ => 0)
  }

  lemma {:induction false} CostPadded(a: seq<nat>, pad: nat, f: seq<Tree>, d: nat)
    ensures Cost(Padded(a, pad), f, d) == Cost(a, f, d)
    ensures TotalLatency(Padded(a, pad), f) == TotalLatency(a, f)
    decreases f
  {
    if f != [] {
      if f[0].Node? {
        CostPadded(a, pad, f[0].children, d + 1);
      } else {
        assert Latency(Padded(a, pad), f[0].client) == Latency(a, f[0].client);
      }
      CostPadded(a, pad, f[1..], d);
    }
  }

  /** num_leaves[-1] -= P */
  function WithoutDummies(ls: seq<nat>, pad: nat): seq<nat>
    requires ls != [] && pad <= ls[|ls| - 1]
  {
    ls[..|ls| - 1] + [ls[|ls| - 1] - pad]
  }

  /** Taking the dummies off the last level changes no cost. */
  lemma {:induction false} ProfileCostPadded(a: seq<nat>, pad: nat, ls: seq<nat>, d: nat)
    requires ls != [] && pad <= ls[|ls| - 1] && Sum(ls) == |a| + pad
    ensures Sum(WithoutDummies(ls, pad)) == |a|
    ensures ProfileCost(a, WithoutDummies(ls, pad), d) == ProfileCost(Padded(a, pad), ls, d)
    decreases |ls|
  {
    var own := WithoutDummies(ls, pad);
    if |ls| == 1 {
      assert ls == [|a| + pad] && own == [|a|];
      ProfileCostSingle(a, d);
      ProfileCostSingle(Padded(a, pad), d);
      SumConcat(a, seq(pad, _ => 0));
      SumZeros(seq(pad, _ => 0));
    } else {
      var x := ls[0];
      LastWithin(ls);
      assert own == [x] + WithoutDummies(ls[1..], pad) && ls == [x] + ls[1..];
      PaddedSplit(a, pad, x);
      hide Padded, ProfileCost, WithoutDummies, Sum;
      ProfileCostPadded(a[x..], pad, ls[1..], d + 1);
      ProfileCostCons(a, x, WithoutDummies(ls[1..], pad), d);
      ProfileCostCons(Padded(a, pad), x, ls[1..], d);
    }
  }

  lemma {:induction false} PaddedSplit(a: seq<nat>, pad: nat, x: nat)
    requires x <= |a|
    ensures |Padded(a, pad)| == |a| + pad
    ensures Padded(a, pad)[x..] == Padded(a[x..], pad) && Padded(a, pad)[..x] == a[..x]
  {
  }

  lemma {:induction false} LastWithin(ls: seq<nat>)
    requires |ls| > 1
    ensures ls[0] + ls[|ls| - 1] <= Sum(ls)
  {
    SumElement(ls[1..], |ls| - 2);
  }

  /** The leaves of t carry each of n clients exactly once. */
  ghost predicate HoldsAll(t: Tree, n: nat) {
    multiset(Clients([t])) == multiset(Range(0, n))
  }

  lemma {:induction false} RangeOnce(n: nat, x: nat)
    ensures multiset(Range(0, n))[x] == if x < n then 1 else 0
  {
    if n > 0 {
      RangeOnce(n - 1, x);
      assert Range(0, n) == Range(0, n - 1) + [n - 1];
    }
  }

  lemma {:induction false} AllOccupy(p: Instance, pad: nat, t: Tree, a: seq<nat>)
    requires p.a == Padded(a, pad) && pad < p.k - 1 && HoldsAll(t, |a|)
    ensures Occupies(p, pad, [t]) && |Clients([t])| == |a|
  {
    hide Clients;
    forall x | x in multiset(Clients([t]))
      ensures x < |a| && multiset(Clients([t]))[x] == 1
    {
      RangeOnce(|a|, x);
    }
    assert |multiset(Clients([t]))| == |multiset(Range(0, |a|))|;
  }

  /** No k-ary tree over the clients costs less than these counts. */
  ghost predicate LeastCost(a: seq<nat>, k: nat, cost: nat) {
    forall t: Tree :: t.Node? && Kary([t], k) && HoldsAll(t, |a|) ==> cost <= Cost(a, [t], 0)
  }

  function MaxDepth(n: nat, k: nat): nat
    requires k >= 2 && n > k
  {
    (n - 2) / (k - 1) + 1
  }

  /** The padded leaf count is one more than a multiple of k - 1. */
  lemma {:induction false} Padding(n: nat, k: nat)
    requires k >= 2 && n > k
    ensures MaxDepth(n, k) >= 2
    ensures 0 <= MaxDepth(n, k) * (k - 1) + 1 - n <= k - 2
  {
    var q, r := (n - 2) / (k - 1), (n - 2) % (k - 1);
    assert n - 2 == q * (k - 1) + r;
    Distribute(q, 1, k - 1);
    if q < 1 {
      MulMonotone(q, 0, k - 1);
      assert false;
    }
  }

  /** The instance of the table for a sorted list, and its number of dummies. */
  method PadInstance(a: seq<nat>, k: nat) returns (p: Instance, dummies: nat)
    requires k >= 2 && |a| > k && Descending(a)
    ensures p.Valid() && p.k == k && p.a == Padded(a, dummies) && dummies + 2 <= k && p.d >= 2
  {
    Padding(|a|, k);
    var depth := MaxDepth(|a|, k);
    dummies := depth * (k - 1) + 1 - |a|;
    p := Instance(k, depth, Padded(a, dummies));
  }

  /** The sort key: descending latency. */
  function HeaviestFirst(c: Client): int {
    -(c.latency as int)
  }

  method ConstructTreeTopologyUsingDP(clients: seq<Client>, k: nat)
    returns (sorted: seq<Client>, numLeaves: seq<nat>, numInternals: seq<nat>, ghost pad: nat)
    requires k >= 2 && |clients| > k
    ensures multiset(sorted) == multiset(clients) && Descending(Latencies(sorted))
    ensures Sum(numLeaves) == |sorted| && Exact(k, numLeaves, numInternals, pad)
    ensures LeastCost(Latencies(sorted), k, ProfileCost(Latencies(sorted), numLeaves, 1))
  {
    hide Exact, LeastCost, ProfileCost, Sum, Best, Profile, Padded, Reachable, Slots, FullProfile;
    sorted := SortBy(HeaviestFirst, clients);
    SortedDescending(clients);
    SameSize(sorted, clients);
    var p, dummies := PadInstance(Latencies(sorted), k);
    pad := dummies;
    RootReachable(p);
    var price, profile := SolveTable(p);
    ProfileFull(p, 1, 1, p.N(), p.d - 1);
    numInternals := CountInternals(k, profile);
    numLeaves := WithoutDummies(profile, dummies);
    ParentsLevels(k, profile, 1);
    AnswerExact(k, profile, dummies, numInternals);
    AnswerLeast(p, Latencies(sorted), dummies, profile);
  }

  lemma {:induction false} SameSize<T>(s: seq<T>, t: seq<T>)
    requires multiset(s) == multiset(t)
    ensures |s| == |t|
  {
    assert |multiset(s)| == |multiset(t)|;
  }

  lemma {:induction false} SortedDescending(clients: seq<Client>)
    ensures var sorted := SortBy(HeaviestFirst, clients);
            multiset(sorted) == multiset(clients) && Descending(Latencies(sorted))
  {
    SortBySorts(HeaviestFirst, clients);
    var sorted := SortBy(HeaviestFirst, clients);
    forall i, j | 0 <= i < j < |sorted|
      ensures Latencies(sorted)[i] >= Latencies(sorted)[j]
    {
      assert HeaviestFirst(sorted[i]) <= HeaviestFirst(sorted[j]);
    }
  }

  lemma {:induction false} AnswerExact(k: nat, profile: seq<nat>, pad: nat, ni: seq<nat>)
    requires |profile| >= 2 && profile[|profile| - 1] >= k && pad + 2 <= k
    requires |ni| == |profile| - 1 && (forall d :: 0 <= d < |ni| ==> ni[d] >= 1)
    requires forall d :: 0 <= d <= |ni| ==> LevelSize(profile, ni, d) == Slots(k, Above(ni, 1, d))
    ensures Exact(k, WithoutDummies(profile, pad), ni, pad)
  {
    hide Slots;
    var ls := WithoutDummies(profile, pad);
    forall d | 0 <= d < |ls|
      ensures LevelSize(ls, ni, d) + (if d == |ni| then pad else 0) == Slots(k, if d == 0 then 1 else ni[d - 1])
    {
      assert LevelSize(profile, ni, d) == Slots(k, Above(ni, 1, d));
    }
  }

  lemma {:induction false} AnswerLeast(p: Instance, a: seq<nat>, pad: nat, profile: seq<nat>)
    requires p.Valid() && p.a == Padded(a, pad) && pad + 2 <= p.k && |a| > 1
    requires profile == Profile(p, 1, 1, p.N()) && profile != [] && profile[|profile| - 1] >= pad
    ensures var ls := WithoutDummies(profile, pad);
            Sum(ls) == |a| && LeastCost(a, p.k, ProfileCost(a, ls, 1))
  {
    hide Best, Profile, Sum, ProfileCost, Cost, Reachable, Slots, Kary, HoldsAll, Occupies;
    RootReachable(p);
    BestIsProfileCost(p, 1, 1, p.N(), p.d - 1);
    assert p.a[p.N() - p.N()..] == p.a;
    ProfileCostPadded(a, pad, profile, 1);
    var ls := WithoutDummies(profile, pad);
    forall t: Tree | t.Node? && Kary([t], p.k) && HoldsAll(t, |a|)
      ensures ProfileCost(a, ls, 1) <= Cost(a, [t], 0)
    {
      AllOccupy(p, pad, t, a);
      TreeNotCheaper(p, pad, t);
      CostPadded(a, pad, [t], 0);
    }
  }

  /** The flat special case, or the dynamic program. */
  method ConstructScratchpadTreeTopology(clients: seq<Client>, k: nat)
    returns (sorted: seq<Client>, numLeaves: seq<nat>, numInternals: seq<nat>, ghost pad: nat)
    requires k >= 2
    ensures multiset(sorted) == multiset(clients) && Sum(numLeaves) == |sorted|
    ensures if |clients| <= k then sorted == clients && numLeaves == [|clients|] && numInternals == []
            else Exact(k, numLeaves, numInternals, pad) && Descending(Latencies(sorted))
    ensures LeastCost(Latencies(sorted), k, ProfileCost(Latencies(sorted), numLeaves, 1))
  {
    if |clients| <= k {
      sorted, numLeaves, numInternals, pad := clients, [|clients|], [], 0;
      ProfileCostSingle(Latencies(sorted), 1);
      FlatLeast(Latencies(sorted), k);
    } else {
      sorted, numLeaves, numInternals, pad := ConstructTreeTopologyUsingDP(clients, k);
    }
  }

  /** No leaf can be closer than the root's children. */
  lemma {:induction false} FlatLeast(a: seq<nat>, k: nat)
    ensures LeastCost(a, k, Sum(a))
  {
    hide Sum, Cost, Kary, HoldsAll;
    forall t: Tree | t.Node? && Kary([t], k) && HoldsAll(t, |a|)
      ensures Sum(a) <= Cost(a, [t], 0)
    {
      FlatLeastAt(a, t);
    }
  }

  lemma {:induction false} FlatLeastAt(a: seq<nat>, t: Tree)
    requires t.Node? && HoldsAll(t, |a|)
    ensures Sum(a) <= Cost(a, [t], 0)
  {
    hide Sum, Cost, Clients, TotalLatency, Weight, Range;
    SingleNode(a, t.children, 0);
    CostAtLeast(a, t.children, 1);
    TotalLatencyIsWeight(a, t.children);
    AllWeigh(a, multiset(Clients(t.children)), |a|);
    assert a[..|a|] == a;
  }

  lemma {:induction false} AllWeigh(a: seq<nat>, m: multiset<nat>, c: nat)
    requires c <= |a| && m == multiset(Range(0, |a|))
    ensures Weight(a, m, c) == Sum(a[..c])
  {
    if c > 0 {
      AllWeigh(a, m, c - 1);
      RangeOnce(|a|, c - 1);
      SumPrefix(a, c - 1);
      assert m[c - 1] * a[c - 1] == a[c - 1];
    } else {
      assert a[..0] == [];
    }
    assert a[..|a|] == a;
  }

  /** The whole construction for one controller. The tree's leaves are the clients in sorted order, numbered
      from `first`; no k-ary tree over the same clients has a smaller sum of latency times depth; and in a
      tree that is not flat the root has k children and every other node 2 to k. */
  method BuildScratchpadTree(clients: seq<Client>, k: nat, first: int) returns (sorted: seq<Client>, root: Tree)
    requires k >= 2
    ensures multiset(sorted) == multiset(clients)
    ensures root.Node? && Kary([root], k)
    ensures Clients([root]) == Range(0, |sorted|) && Labelled([root], first)
    ensures LeastCost(Latencies(sorted), k, Cost(Latencies(sorted), [root], 0))
    ensures |clients| > k ==> |root.children| == k && Arity(root.children, 2, k)
    ensures |clients| <= k ==> sorted == clients && root.children == LeafRow(clients, 0, first)
    ensures AllRouted(root, first, |sorted|) && Weighted(root.children, sorted)
  {
    hide Holds, Arity, Exact, LeastCost, ProfileCost, Cost, Clients, Range, Labelled, LeafRow, Sum, Weighted;
    var ls, ni;
    ghost var pad;
    sorted, ls, ni, pad := ConstructScratchpadTreeTopology(clients, k);
    root := BuildTree(sorted, ls, ni, k, first, pad);
    if |clients| > k {
      ExactFits(k, ls, ni, pad);
      RootFull(k, ls, ni, pad);
      ArityWidens(root.children, 2, 1, k);
      ArityWidens(root.children, 1, 0, k);
    } else {
      LeafRowIsLevel(clients, 0, first);
    }
    RootHolds(k, Latencies(sorted), ls, root, first);
    if clients != [] {
      RootRoutes(k, |sorted|, root, first);
    } else {
      EmptyRoutes(root, first);
    }
  }

  lemma {:induction false} RootRoutes(k: nat, n: nat, root: Tree, first: int)
    requires root.Node? && 1 <= |root.children| <= k && Arity(root.children, 1, k)
    requires Clients([root]) == Range(0, n) && Labelled([root], first)
    ensures AllRouted(root, first, n)
  {
    forall id: int
      ensures if first <= id < first + n then RoutesTo(root, id, first) else Route(root, id) == None
    {
      RouteOne(k, n, root, first, id);
    }
  }

  lemma {:induction false} RouteOne(k: nat, n: nat, root: Tree, first: int, id: int)
    requires root.Node? && 1 <= |root.children| <= k && Arity(root.children, 1, k)
    requires Clients([root]) == Range(0, n) && Labelled([root], first)
    ensures if first <= id < first + n then RoutesTo(root, id, first) else Route(root, id) == None
  {
    hide Route, Clients, Range, Labelled;
    if first <= id < first + n {
      RouteFinds(root, 0, n, first, k, id - first);
    } else {
      RouteRejects(root, 0, n, first, k, id);
    }
  }

  lemma {:induction false} EmptyRoutes(root: Tree, first: int)
    requires root == Node([])
    ensures AllRouted(root, first, 0)
  {
  }

  /** Every id handed out reaches its own client's leaf, and no other id reaches any. */
  ghost predicate AllRouted(root: Tree, first: int, n: nat) {
    forall id: int :: if first <= id < first + n then RoutesTo(root, id, first) else Route(root, id) == None
  }

  lemma {:induction false} RootFull(k: nat, ls: seq<nat>, ni: seq<nat>, pad: nat)
    requires Exact(k, ls, ni, pad)
    ensures LevelSize(ls, ni, 0) == k
  {
    OneRootSlots(k);
    hide Slots, LevelSize;
  }

  lemma {:induction false} RootHolds(k: nat, a: seq<nat>, ls: seq<nat>, root: Tree, first: int)
    requires root.Node? && Holds(root.children, a, ls, 1, 0, first)
    requires |root.children| <= k && Kary(root.children, k)
    ensures Kary([root], k) && Labelled([root], first)
    ensures Clients([root]) == Range(0, |a|) && Cost(a, [root], 0) == ProfileCost(a, ls, 1)
  {
    hide Clients, Cost, ProfileCost, Layered, Sum, Range;
    SingleNode(a, root.children, 0);
    assert a[0..] == a;
  }
}
