/** Scratchpad tree nodes and the bottom-up builder of buildScratchpadTrees. */
module TreeBuilder {
  import opened Arith
  import opened Sums
  import opened Trees
  import opened TopologyDP
  import opened TopologyOptimality

  /** latency and bandwidth as read from the statistics; the bandwidth is this controller's share, and `shared`
      says whether other controllers serve the client as well. */
  datatype Client = Client(name: nat, latency: nat, bandwidth: nat, shared: bool)

  function Latencies(clients: seq<Client>): (r: seq<nat>)
    ensures |r| == |clients|
  {
    seq(|clients|, i requires 0 <= i < |clients| => clients[i].latency)
  }

  /** The idRange of a tree: its leaves' smallest and largest id. A node without children has (0, 0). */
  function IdRange(t: Tree): (int, int)
    decreases t
  {
    match t
    case Leaf(_, id, _) => (id, id)
    case Node(cs) => RangeOf(cs)
  }

  function RangeOf(f: seq<Tree>): (int, int)
    decreases f
  {
    if f == [] then (0, 0)
    else if |f| == 1 then IdRange(f[0])
    else
      var before, last := RangeOf(f[..|f| - 1]), IdRange(f[|f| - 1]);
      (Min(before.0, last.0), Max(before.1, last.1))
  }

  function Bandwidth(f: seq<Tree>): nat
    decreases f
  {
    if f == [] then 0
    else Bandwidth(f[..|f| - 1])
         + match f[|f| - 1]
           case Leaf(_, _, b) => b
           case Node(cs) => Bandwidth(cs)
  }

  class ScratchpadTreeNode {
    var children: seq<Tree>
    var idRange: (int, int)
    var bandwidth: nat

    /** The two summaries agree with the children. */
    ghost predicate Valid()
      reads this
    {
      idRange == RangeOf(children) && bandwidth == Bandwidth(children)
    }

    constructor ()
      ensures Valid() && children == []
    {
      children, idRange, bandwidth := [], (0, 0), 0;
    }

    method AddChild(child: Tree)
      requires Valid()
      modifies this
      ensures Valid() && children == old(children) + [child]
    {
      var range := IdRange(child);
      if |children| == 0 {
        idRange := range;
      } else {
        idRange := (Min(idRange.0, range.0), Max(idRange.1, range.1));
      }
      bandwidth := bandwidth + match child case Leaf(_, _, b) => b case Node(cs) => Bandwidth(cs);
      children := children + [child];
      assert children[..|children| - 1] == old(children);
    }

    method AddChildren(more: seq<Tree>)
      requires Valid()
      modifies this
      ensures Valid() && children == old(children) + more
    {
      for i := 0 to |more|
        invariant Valid() && children == old(children) + more[..i]
      {
        AddChild(more[i]);
        assert more[..i] + [more[i]] == more[..i + 1];
      }
      assert more[..|more|] == more;
    }
  }

  ghost predicate AllNodes(f: seq<Tree>) {
    forall i :: 0 <= i < |f| ==> f[i].Node?
  }

  /** Every leaf's remapped id is its position in the sorted client list, counted from `first`. */
  ghost predicate Labelled(f: seq<Tree>, first: int)
    decreases f
  {
    forall t :: t in f ==>
                  match t
                  case Leaf(c, id, _) => id == first + c
                  case Node(cs) => Labelled(cs, first)
  }

  function Range(from: nat, n: nat): (r: seq<nat>)
    ensures |r| == n
  {
    seq(n, i requires 0 <= i < n => from + i)
  }

  function TopClients(f: seq<Tree>): seq<nat> {
    if f == [] then []
    else if f[0].Leaf? then [f[0].client] + TopClients(f[1..])
    else TopClients(f[1..])
  }

  /** Level by level, the leaves of the forest are the next ls[0], ls[1], ... clients from r on, and nothing
      lies below the last level. */
  ghost predicate Layered(f: seq<Tree>, ls: seq<nat>, r: nat)
    decreases |ls|
  {
    if ls == [] then f == []
    else TopClients(f) == Range(r, ls[0]) && Layered(NextLevel(f), ls[1..], r + ls[0])
  }

  lemma {:induction false} NextLevelConcat(f: seq<Tree>, g: seq<Tree>)
    ensures NextLevel(f + g) == NextLevel(f) + NextLevel(g)
  {
    if f == [] {
      assert f + g == g;
    } else {
      assert (f + g)[1..] == f[1..] + g;
      NextLevelConcat(f[1..], g);
    }
  }

  lemma {:induction false} TopClientsConcat(f: seq<Tree>, g: seq<Tree>)
    ensures TopClients(f + g) == TopClients(f) + TopClients(g)
  {
    if f == [] {
      assert f + g == g;
    } else {
      assert (f + g)[1..] == f[1..] + g;
      TopClientsConcat(f[1..], g);
    }
  }

  /** A level of nodes only: everything is one level further down. */
  lemma {:induction false} NodesOnly(a: seq<nat>, f: seq<Tree>, d: nat)
    requires AllNodes(f)
    ensures TopClients(f) == [] && Clients(f) == Clients(NextLevel(f))
    ensures Cost(a, f, d) == Cost(a, NextLevel(f), d + 1)
  {
    if f != [] {
      NodesOnly(a, f[1..], d);
      ClientsConcat(f[0].children, NextLevel(f[1..]));
      CostConcat(a, f[0].children, NextLevel(f[1..]), d + 1);
    }
  }

  /** The leaves that the builder makes for the clients from position r on. */
  function LeafRow(clients: seq<Client>, r: nat, first: int): (f: seq<Tree>)
    ensures |f| == |clients|
  {
    seq(|clients|, i requires 0 <= i < |clients| => Leaf(r + i, first + r + i, Max(clients[i].bandwidth, 1)))
  }

  lemma {:induction false} LeafRowTail(clients: seq<Client>, r: nat, first: int)
    requires clients != []
    ensures LeafRow(clients, r, first)[1..] == LeafRow(clients[1..], r + 1, first)
    ensures Range(r, |clients|) == [r] + Range(r + 1, |clients| - 1)
  {
  }

  lemma {:induction false} LeafRowIsLevel(clients: seq<Client>, r: nat, first: int)
    ensures var f := LeafRow(clients, r, first);
            && TopClients(f) == Clients(f) == Range(r, |clients|) && NextLevel(f) == []
            && Labelled(f, first) && (forall lo, hi :: Arity(f, lo, hi))
  {
    if clients != [] {
      LeafRowTail(clients, r, first);
      LeafRowIsLevel(clients[1..], r + 1, first);
      hide LeafRow, Range;
    }
  }

  lemma {:induction false} LeafRowCost(a: seq<nat>, clients: seq<Client>, r: nat, first: int, d: nat)
    requires r + |clients| <= |a|
    requires forall i :: 0 <= i < |clients| ==> a[r + i] == clients[i].latency
    ensures Cost(a, LeafRow(clients, r, first), d) == Sum(a[r..r + |clients|]) * d
  {
    if clients == [] {
      assert a[r..r] == [];
    } else {
      LeafRowTail(clients, r, first);
      LeafRowCost(a, clients[1..], r + 1, first, d);
      var s := a[r..r + |clients|];
      assert s[1..] == a[r + 1..r + |clients|];
      Distribute(s[0], Sum(s[1..]), d);
    }
  }

  /** Python's s[:n] and s[n:], which clamp n to the length. */
  function Take<T>(s: seq<T>, n: nat): seq<T> {
    if n <= |s| then s[..n] else s
  }

  function Drop<T>(s: seq<T>, n: nat): seq<T> {
    if n <= |s| then s[n..] else []
  }

  lemma {:induction false} OneNode(cs: seq<Tree>)
    ensures NextLevel([Node(cs)]) == cs
  {
    assert [Node(cs)][1..] == [];
    assert NextLevel([Node(cs)]) == cs + [];
  }

  lemma {:induction false} OneMoreSlots(k: nat, i: nat)
    ensures Slots(k, i + 1) == Slots(k, i) + k
  {
    Distribute(i, 1, k);
  }

  /** The children that one step of the grouping loop takes: only the remainder first, so that the rest
      divides by k. */
  function GroupSize(n: nat, k: nat): nat
    requires k > 0
  {
    if n % k > 0 then n % k else k
  }

  /** If c nodes have room for n children, the other c - 1 have room for what one step leaves. */
  lemma {:induction false} GroupFits(n: nat, k: nat, c: nat)
    requires k > 0 && n <= Slots(k, c + 1)
    ensures GroupSize(n, k) <= k
    ensures n - GroupSize(n, k) <= Slots(k, c)
  {
    var q, r := n / k, n % k;
    assert n == q * k + r;
    OneMoreSlots(k, c);
    if r > 0 && q > c {
      MulMonotone(c + 1, q, k);
      assert false;
    }
    if r > 0 {
      MulMonotone(q, c, k);
    }
  }

  /** With `pad` free places over c + 1 nodes, one step takes k - pad children and leaves full nodes. */
  lemma {:induction false} GroupExact(n: nat, k: nat, c: nat, pad: nat)
    requires pad < k && n + pad == Slots(k, c + 1)
    ensures GroupSize(n, k) == k - pad
    ensures n - GroupSize(n, k) == Slots(k, c)
  {
    OneMoreSlots(k, c);
    if pad == 0 {
      DivModUnique(n, c + 1, 0, k);
    } else {
      DivModUnique(n, c, k - pad, k);
    }
  }

  /** One new node: takes the next group of children. */
  method TakeGroup(rest: seq<Tree>, k: nat) returns (group: Tree, rest': seq<Tree>)
    requires k > 0
    ensures group.Node? && group.children + rest' == rest
    ensures |group.children| == Min(|rest|, GroupSize(|rest|, k))
  {
    var size := GroupSize(|rest|, k);
    var n := new ScratchpadTreeNode();
    n.AddChildren(Take(rest, size));
    group := Node(n.children);
    rest' := Drop(rest, size);
  }

  /** The group sizes so far: the first node leaves the free places unused, the others are full. */
  ghost predicate Sized(groups: seq<Tree>, k: nat, pad: nat) {
    AllNodes(groups) && forall i :: 0 <= i < |groups| ==> |groups[i].children| == if i == 0 then k - pad else k
  }

  lemma {:induction false} GroupStep(groups: seq<Tree>, group: Tree, rest: seq<Tree>, rest': seq<Tree>, c: nat, k: nat)
    requires k > 0 && AllNodes(groups) && group.Node? && group.children + rest' == rest
    requires |group.children| == Min(|rest|, GroupSize(|rest|, k))
    ensures NextLevel(groups + [group]) + rest' == NextLevel(groups) + rest
    ensures |rest| <= Slots(k, c + 1) ==> |rest'| <= Slots(k, c)
  {
    NextLevelConcat(groups, [group]);
    OneNode(group.children);
    if |rest| <= Slots(k, c + 1) {
      GroupFits(|rest|, k, c);
    }
  }

  lemma {:induction false} GroupStepSized(groups: seq<Tree>, group: Tree, rest: seq<Tree>, rest': seq<Tree>,
                                        c: nat, k: nat, pad: nat)
    requires Sized(groups, k, pad) && group.Node? && group.children + rest' == rest && pad < k
    requires |group.children| == Min(|rest|, GroupSize(|rest|, k))
    requires |rest| + (if groups == [] then pad else 0) == Slots(k, c + 1)
    ensures Sized(groups + [group], k, pad) && |rest'| == Slots(k, c)
  {
    GroupExact(|rest|, k, c, if groups == [] then pad else 0);
  }

  /** The inner loop: `count` new nodes take the children in order. Nothing is dropped if they have room
      for all, and otherwise the last children are; with fewer than k places too many, the first node leaves
      them free and the others are full. */
  method GroupChildren(children: seq<Tree>, count: nat, k: nat) returns (groups: seq<Tree>)
    requires k > 0
    ensures |groups| == count && AllNodes(groups)
    ensures |children| <= Slots(k, count) ==> NextLevel(groups) == children
    ensures NextLevel(groups) <= children
    ensures forall i :: 0 <= i < count ==> |groups[i].children| <= k
    ensures 0 <= Slots(k, count) - |children| < k ==> Sized(groups, k, Slots(k, count) - |children|)
  {
    hide GroupSize;
    assert Slots(k, 0) == 0;
    hide Slots;
    groups := [];
    var rest := children;
    ghost var fits := |children| <= Slots(k, count);
    ghost var pad := Slots(k, count) - |children|;
    for i := 0 to count
      invariant |groups| == i && AllNodes(groups)
      invariant forall j :: 0 <= j < i ==> |groups[j].children| <= k
      invariant NextLevel(groups) + rest == children && (fits ==> |rest| <= Slots(k, count - i))
      invariant 0 <= pad < k ==> Sized(groups, k, pad) && |rest| + (if i == 0 then pad else 0) == Slots(k, count - i)
    {
      var group, rest' := TakeGroup(rest, k);
      GroupStep(groups, group, rest, rest', count - i - 1, k);
      if 0 <= pad < k {
        GroupStepSized(groups, group, rest, rest', count - i - 1, k, pad);
      }
      GroupSizeBound(|rest|, k);
      groups, rest := groups + [group], rest';
    }
  }

  lemma {:induction false} GroupSizeBound(n: nat, k: nat)
    requires k > 0
    ensures GroupSize(n, k) <= k
  {
  }
}
