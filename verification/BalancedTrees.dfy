/** The whole balanced topology and what the builder makes of it: the upper levels have K nodes each, which is
    too few from the fourth level on. */
module BalancedTrees {
  import opened Arith
  import opened Sums
  import opened Sorting
  import opened Trees
  import opened LeastLatency
  import opened TopologyDP
  import opened TreeBuilder
  import opened ScratchpadTrees
  import opened BalancedTopology

  /** The ceiling of the logarithm of n to the base k */
  function CeilLog(k: nat, n: nat): (e: nat)
    requires k > 1 && n > 0
    ensures Pow(k, e) >= n
    ensures e > 0 ==> Pow(k, e - 1) < n
    decreases n
  {
    if n == 1 then 0
    else
      CeilDivSmaller(n, k);
      var e := CeilLog(k, CeilDiv(n, k));
      LogStep(k, n, Pow(k, e), if e > 0 then Pow(k, e - 1) else 0);
      1 + e
  }

  lemma {:induction false} CeilDivSmaller(n: nat, k: nat)
    requires k > 1 && n > 1
    ensures 0 < CeilDiv(n, k) < n
  {
    CeilDivBounds(n, k);
    MulMonotone(2, k, n - 1);
    CeilDivLeast(n, k, n - 1);
  }

  lemma {:induction false} LogStep(k: nat, n: nat, high: nat, low: nat)
    requires k > 0 && low < CeilDiv(n, k) <= high
    ensures k * high >= n && k * low < n
  {
    CeilDivBounds(n, k);
    hide CeilDiv;
    MulMonotone(CeilDiv(n, k), high, k);
    MulMonotone(low, CeilDiv(n, k) - 1, k);
  }

  /** The counts: leaves on the two lowest levels only, K nodes on every level above them. */
  function LeafCounts(depth: nat, upper: nat, lower: nat): (ls: seq<nat>)
    requires depth >= 2
    ensures |ls| == depth
  {
    seq(depth - 2, _ => 0) + [upper, lower]
  }

  function NodeCounts(k: nat, depth: nat, internals: nat): (ni: seq<nat>)
    requires depth >= 2
    ensures |ni| == depth - 1
  {
    seq(depth - 2, _ => k) + [internals]
  }

  lemma {:induction false} CountsAddUp(depth: nat, upper: nat, lower: nat)
    requires depth >= 2
    ensures Sum(LeafCounts(depth, upper, lower)) == upper + lower
  {
    var zeros: seq<nat> := seq(depth - 2, _ => 0);
    SumZeros(zeros);
    SumConcat(zeros, [upper, lower]);
    assert LeafCounts(depth, upper, lower) == zeros + [upper, lower];
    assert [upper, lower][1..] == [lower] && [lower][1..] == [];
    assert Sum([lower]) == lower;
  }

  method ConstructBalancedTreeTopology(clients: seq<Client>, k: nat)
    returns (sorted: seq<Client>, numLeaves: seq<nat>, numInternals: seq<nat>)
    requires 1 < k < |clients|
    ensures multiset(sorted) == multiset(clients) && Descending(Latencies(sorted)) && |sorted| == |clients|
    ensures var depth := CeilLog(k, |clients|);
            && depth >= 2 && Balanced(k, |clients|, depth, numLeaves, numInternals)
  {
    hide CeilLog, Sum, LeafCounts, NodeCounts;
    sorted := SortBy(HeaviestFirst, clients);
    SortedDescending(clients);
    SameSize(sorted, clients);
    var depth := CeilLog(k, |clients|);
    TwoLevels(k, |clients|, depth);
    var upper, lower, internals := LowestLevels(|clients|, k, Pow(k, depth - 1));
    numLeaves := LeafCounts(depth, upper, lower);
    numInternals := NodeCounts(k, depth, internals);
    assert CountsFor(k, |clients|, depth, numLeaves, numInternals, upper, lower, internals);
  }

  lemma {:induction false} TwoLevels(k: nat, n: nat, depth: nat)
    requires 1 < k < n && Pow(k, depth) >= n && (depth > 0 ==> Pow(k, depth - 1) < n)
    ensures depth >= 2 && Pow(k, depth - 1) < n <= Pow(k, depth - 1) * k
  {
    assert Pow(k, 0) == 1 && Pow(k, 1) == k * Pow(k, 0);
  }

  /** The counts that the topology gives for n clients. */
  ghost predicate Balanced(k: nat, n: nat, depth: nat, ls: seq<nat>, ni: seq<nat>)
    requires depth >= 2
  {
    exists upper: nat, lower: nat, internals: nat :: CountsFor(k, n, depth, ls, ni, upper, lower, internals)
  }

  predicate CountsFor(k: nat, n: nat, depth: nat, ls: seq<nat>, ni: seq<nat>, upper: nat, lower: nat, internals: nat)
    requires depth >= 2
  {
    && upper + lower == n && upper + internals == Pow(k, depth - 1) && lower <= internals * k
    && internals > 0 && (internals - 1) * k + (Pow(k, depth - 1) - (internals - 1)) < n
    && ls == LeafCounts(depth, upper, lower) && ni == NodeCounts(k, depth, internals)
  }

  /** Up to three levels there is room for everything. */
  lemma {:induction false} BalancedFits(k: nat, n: nat, depth: nat, ls: seq<nat>, ni: seq<nat>)
    requires 2 <= depth <= 3 && Balanced(k, n, depth, ls, ni)
    ensures Fits(k, ls, ni)
  {
    assert Pow(k, 0) == 1 && Pow(k, 1) == k * Pow(k, 0) && Pow(k, 2) == k * Pow(k, 1);
    hide Pow;
  }

  /** With K nodes on every level above the two lowest, the tree has room for k^3 clients, however deep. */
  lemma {:induction false} RoomForCube(f: seq<Tree>, ls: seq<nat>, ni: seq<nat>, k: nat)
    requires |ls| == |ni| + 1 >= 3 && k > 0 && Within(f, ls, ni) && Kary(f, k)
    requires forall d :: 0 <= d < |ls| - 2 ==> ls[d] == 0 && ni[d] == k
    ensures |Clients(f)| <= Pow(k, 3)
    decreases |ls|
  {
    hide Clients, Arity, TopLeaves, NextLevel, Pow;
    NextLevelClients(f);
    NextLevelWidth(f, k);
    var g := NextLevel(f);
    if |ls| > 3 {
      RoomForCube(g, ls[1..], ni[1..], k);
    } else {
      LastTwoLevels(g, ls[1..], ni[1..], k);
      Cube(k, |f|, |g|, TopLeaves(g));
    }
  }

  lemma {:induction false} LastTwoLevels(g: seq<Tree>, ls: seq<nat>, ni: seq<nat>, k: nat)
    requires |ls| == |ni| + 1 == 2 && Within(g, ls, ni) && Kary(g, k)
    ensures TopLeaves(g) <= |g| && |Clients(g)| <= TopLeaves(g) + (|g| - TopLeaves(g)) * k
  {
    var h := NextLevel(g);
    assert NextLevel(h) == [];
    NoClients();
    hide Clients, Arity, TopLeaves, NextLevel;
    NextLevelClients(g);
    NextLevelWidth(g, k);
    NextLevelClients(h);
  }

  lemma {:induction false} NoClients()
    ensures Clients([]) == []
  {
  }

  lemma {:induction false} Cube(k: nat, f: nat, g: nat, leaves: nat)
    requires k > 0 && f <= k && g <= f * k && leaves <= g
    ensures leaves + (g - leaves) * k <= Pow(k, 3)
  {
    assert Pow(k, 0) == 1 && Pow(k, 1) == k * Pow(k, 0) && Pow(k, 2) == k * Pow(k, 1) && Pow(k, 3) == k * Pow(k, 2);
    hide Pow;
    MulMonotone(1, k, leaves);
    Distribute(leaves, g - leaves, k);
    MulMonotone(f, k, k);
    MulMonotone(g, k * k, k);
  }

  /** A list that has all the numbers below n has at least n elements. */
  lemma {:induction false} CoverNeeds(s: seq<nat>, n: nat)
    requires forall c :: 0 <= c < n ==> c in s
    ensures |s| >= n
  {
    if n > 0 {
      assert n - 1 in s;
      var i :| 0 <= i < |s| && s[i] == n - 1;
      var rest := s[..i] + s[i + 1..];
      forall c | 0 <= c < n - 1
        ensures c in rest
      {
        assert c in s;
        var j :| 0 <= j < |s| && s[j] == c;
        assert rest[if j < i then j else j - 1] == c;
      }
      CoverNeeds(rest, n - 1);
    }
  }

  /** Every client is a leaf of the tree. */
  ghost predicate PlacesAll(root: Tree, n: nat) {
    forall c :: 0 <= c < n ==> c in Clients([root])
  }

  /** The depth decides: at most three levels exactly up to k^3 clients. */
  lemma {:induction false} ThreeLevels(k: nat, n: nat)
    requires 1 < k < n
    ensures CeilLog(k, n) <= 3 <==> n <= Pow(k, 3)
  {
    hide CeilLog, Pow;
    var depth := CeilLog(k, n);
    if depth <= 3 {
      PowMonotone(k, depth, 3);
    } else {
      PowMonotone(k, 3, depth - 1);
    }
  }

  /** The balanced tree for one controller: it has all of the clients, each once and in order, exactly if there
      are at most k^3; from then on the builder drops clients. */
  method BuildBalancedTree(clients: seq<Client>, k: nat, first: int) returns (sorted: seq<Client>, root: Tree)
    requires 1 < k < |clients|
    ensures multiset(sorted) == multiset(clients) && Descending(Latencies(sorted)) && |sorted| == |clients|
    ensures root.Node? && Kary(root.children, k)
    ensures PlacesAll(root, |clients|) <==> |clients| <= Pow(k, 3)
    ensures |clients| <= Pow(k, 3) ==> Clients([root]) == Range(0, |clients|) && Labelled(root.children, first)
    ensures |clients| > Pow(k, 3) ==> |Clients([root])| <= Pow(k, 3)
  {
    hide Balanced, Fits, Exact, Holds, Within, Arity, Clients, Labelled, Range, Sum, Pow, CeilLog, PlacesAll;
    var ls, ni;
    sorted, ls, ni := ConstructBalancedTreeTopology(clients, k);
    BalancedAddsUp(k, |clients|, CeilLog(k, |clients|), ls, ni);
    root := BuildTree(sorted, ls, ni, k, first, 0);
    BalancedPlaces(k, sorted, ls, ni, root, first);
  }

  lemma {:induction false} BalancedAddsUp(k: nat, n: nat, depth: nat, ls: seq<nat>, ni: seq<nat>)
    requires depth >= 2 && Balanced(k, n, depth, ls, ni)
    ensures |ls| == |ni| + 1 == depth && Sum(ls) == n
    ensures forall d :: 0 <= d < |ls| - 2 ==> ls[d] == 0 && ni[d] == k
  {
    hide Sum;
    var upper: nat, lower: nat, internals: nat :| CountsFor(k, n, depth, ls, ni, upper, lower, internals);
    CountsAddUp(depth, upper, lower);
  }

  lemma {:induction false} BalancedPlaces(k: nat, sorted: seq<Client>, ls: seq<nat>, ni: seq<nat>, root: Tree,
                                          first: int)
    requires 1 < k < |sorted| && |ls| == |ni| + 1 && root.Node?
    requires var depth := CeilLog(k, |sorted|); depth >= 2 && Balanced(k, |sorted|, depth, ls, ni)
    requires Fits(k, ls, ni) ==> Holds(root.children, Latencies(sorted), ls, 1, 0, first)
    requires Within(root.children, ls, ni) && Kary(root.children, k)
    ensures PlacesAll(root, |sorted|) <==> |sorted| <= Pow(k, 3)
    ensures |sorted| <= Pow(k, 3) ==> Clients([root]) == Range(0, |sorted|) && Labelled(root.children, first)
    ensures |sorted| > Pow(k, 3) ==> |Clients([root])| <= Pow(k, 3)
  {
    hide Balanced, Fits, Within, Arity, Clients, Labelled, Range, Sum, Pow, CeilLog, Layered, Cost;
    var n, depth := |sorted|, CeilLog(k, |sorted|);
    ThreeLevels(k, n);
    BalancedAddsUp(k, n, depth, ls, ni);
    SingleNode([], root.children, 0);
    if n <= Pow(k, 3) {
      BalancedFits(k, n, depth, ls, ni);
      RangeHasAll(n);
    } else {
      RoomForCube(root.children, ls, ni, k);
      if PlacesAll(root, n) {
        CoverNeeds(Clients([root]), n);
      }
    }
  }

  lemma {:induction false} RangeHasAll(n: nat)
    ensures forall c :: 0 <= c < n ==> c in Range(0, n)
  {
    forall c | 0 <= c < n
      ensures c in Range(0, n)
    {
      assert Range(0, n)[c] == c;
    }
  }
}
