/** Scratchpad trees as values: what a finished ScratchpadTreeNode or ScratchpadTreeLeaf holds, and
    the measures the topology code is about (depth cost, arity, client set). */
module Trees {
  import opened Arith
  import opened Sums

  /** A leaf carries the position of its client in the sorted client list, its remapped id and its bandwidth. */
  datatype Tree =
    | Leaf(client: nat, id: int, bandwidth: nat)
    | Node(children: seq<Tree>)

  /** The latency of client c; the padding dummies and everything beyond the list have latency 0. */
  function Latency(a: seq<nat>, c: nat): nat {
    if c < |a| then a[c] else 0
  }

  /** The sum over the leaves of a forest of latency times depth, its roots being at depth d. */
  function Cost(a: seq<nat>, f: seq<Tree>, d: nat): nat
    decreases f
  {
    if f == [] then 0
    else (match f[0]
          case Leaf(c, _, _) => Latency(a, c) * d
          case Node(cs) => Cost(a, cs, d + 1)) + Cost(a, f[1..], d)
  }

  function TotalLatency(a: seq<nat>, f: seq<Tree>): nat
    decreases f
  {
    if f == [] then 0
    else (match f[0]
          case Leaf(c, _, _) => Latency(a, c)
          case Node(cs) => TotalLatency(a, cs)) + TotalLatency(a, f[1..])
  }

  /** The clients at the leaves, from left to right. */
  function Clients(f: seq<Tree>): seq<nat>
    decreases f
  {
    if f == [] then []
    else (match f[0]
          case Leaf(c, _, _) => [c]
          case Node(cs) => Clients(cs)) + Clients(f[1..])
  }

  /** Every node of the forest has between lo and hi children. */
  ghost predicate Arity(f: seq<Tree>, lo: nat, hi: nat)
    decreases f
  {
    forall t :: t in f ==>
                  match t
                  case Leaf(_, _, _) => true
                  case Node(cs) => lo <= |cs| <= hi && Arity(cs, lo, hi)
  }

  /** Every node of the forest has at most k children. */
  ghost predicate Kary(f: seq<Tree>, k: nat) {
    Arity(f, 0, k)
  }

  /** The number of roots that are leaves. */
  function TopLeaves(f: seq<Tree>): nat {
    if f == [] then 0 else (if f[0].Leaf? then 1 else 0) + TopLeaves(f[1..])
  }

  /** The forest one level further down. */
  function NextLevel(f: seq<Tree>): seq<Tree> {
    if f == [] then []
    else (match f[0]
          case Leaf(_, _, _) => []
          case Node(cs) => cs) + NextLevel(f[1..])
  }

  lemma {:induction false} CostConcat(a: seq<nat>, f: seq<Tree>, g: seq<Tree>, d: nat)
    ensures Cost(a, f + g, d) == Cost(a, f, d) + Cost(a, g, d)
    ensures TotalLatency(a, f + g) == TotalLatency(a, f) + TotalLatency(a, g)
  {
    if f == [] {
      assert f + g == g;
    } else {
      assert (f + g)[1..] == f[1..] + g;
      CostConcat(a, f[1..], g, d);
    }
  }

  lemma {:induction false} ClientsConcat(f: seq<Tree>, g: seq<Tree>)
    ensures Clients(f + g) == Clients(f) + Clients(g)
  {
    if f == [] {
      assert f + g == g;
    } else {
      assert (f + g)[1..] == f[1..] + g;
      ClientsConcat(f[1..], g);
    }
  }

  lemma {:induction false} ArityParts(f: seq<Tree>, lo: nat, hi: nat)
    requires Arity(f, lo, hi) && f != []
    ensures Arity(f[1..], lo, hi)
    ensures f[0].Node? ==> lo <= |f[0].children| <= hi && Arity(f[0].children, lo, hi)
  {
    assert f[0] in f;
    forall t | t in f[1..]
      ensures t in f
    {
    }
  }

  lemma {:induction false} ArityConcat(f: seq<Tree>, g: seq<Tree>, lo: nat, hi: nat)
    requires Arity(f, lo, hi) && Arity(g, lo, hi)
    ensures Arity(f + g, lo, hi)
  {
  }

  lemma {:induction false} ArityWidens(f: seq<Tree>, lo: nat, lo': nat, hi: nat)
    requires Arity(f, lo, hi) && lo' <= lo
    ensures Arity(f, lo', hi)
    decreases f
  {
    forall t | t in f && t.Node?
      ensures lo' <= |t.children| <= hi && Arity(t.children, lo', hi)
    {
      ArityWidens(t.children, lo, lo', hi);
    }
  }

  lemma {:induction false} SingleNode(a: seq<nat>, cs: seq<Tree>, d: nat)
    ensures Clients([Node(cs)]) == Clients(cs)
    ensures Cost(a, [Node(cs)], d) == Cost(a, cs, d + 1)
  {
    assert [Node(cs)][1..] == [];
    assert Clients([Node(cs)]) == Clients(cs) + [];
  }

  lemma {:induction false} SingleLeaf(t: Tree)
    ensures t.Leaf? ==> |Clients([t])| == 1
  {
    assert [t][1..] == [];
  }

  /** Pushing a forest one level down costs its total latency once. */
  lemma {:induction false} CostOneDeeper(a: seq<nat>, f: seq<Tree>, d: nat)
    ensures Cost(a, f, d + 1) == Cost(a, f, d) + TotalLatency(a, f)
    decreases f
  {
    if f != [] {
      if f[0].Node? {
        CostOneDeeper(a, f[0].children, d + 1);
      }
      CostOneDeeper(a, f[1..], d);
    }
  }

  /** The cost of a forest at depth d, taken apart level by level. */
  lemma {:induction false} CostByLevel(a: seq<nat>, f: seq<Tree>, d: nat)
    ensures TotalLatency(a, f) >= TotalLatency(a, NextLevel(f))
    ensures Cost(a, f, d) == (TotalLatency(a, f) - TotalLatency(a, NextLevel(f))) * d + Cost(a, NextLevel(f), d + 1)
  {
    if f != [] {
      CostByLevel(a, f[1..], d);
      var above := TotalLatency(a, f[1..]) - TotalLatency(a, NextLevel(f[1..]));
      if f[0].Node? {
        CostConcat(a, f[0].children, NextLevel(f[1..]), d + 1);
        assert TotalLatency(a, f) - TotalLatency(a, NextLevel(f)) == above;
      } else {
        assert NextLevel(f) == NextLevel(f[1..]);
        Distribute(Latency(a, f[0].client), above, d);
      }
    }
  }

  /** A level with x leaves among its roots is followed by at most k trees for each of the others, all k-ary. */
  lemma {:induction false} NextLevelWidth(f: seq<Tree>, k: nat)
    requires Kary(f, k)
    ensures TopLeaves(f) <= |f| && |NextLevel(f)| <= (|f| - TopLeaves(f)) * k
    ensures Kary(NextLevel(f), k)
  {
    if f == [] {
    } else {
      ArityParts(f, 0, k);
      hide Arity;
      NextLevelWidth(f[1..], k);
      if f[0].Node? {
        ArityConcat(f[0].children, NextLevel(f[1..]), 0, k);
        Distribute(|f[1..]| - TopLeaves(f[1..]), 1, k);
      } else {
        assert NextLevel(f) == NextLevel(f[1..]);
      }
    }
  }

  /** The next level lacks exactly the clients at the roots, and has no new ones. */
  lemma {:induction false} NextLevelClients(f: seq<Tree>)
    ensures TopLeaves(f) <= |f| && (TopLeaves(f) == |f| ==> NextLevel(f) == [])
    ensures |Clients(f)| == TopLeaves(f) + |Clients(NextLevel(f))|
    ensures multiset(Clients(NextLevel(f))) <= multiset(Clients(f))
  {
    if f != [] {
      NextLevelClients(f[1..]);
      if f[0].Node? {
        ClientsConcat(f[0].children, NextLevel(f[1..]));
      } else {
        assert NextLevel(f) == NextLevel(f[1..]);
      }
    }
  }
}
