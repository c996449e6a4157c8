/** What the dynamic program's answer means: its root cell is finite, its path ends in an exactly full
    level, and no k-ary tree over the clients is cheaper. */
module TopologyOptimality {
  import opened Arith
  import opened Sums
  import opened Trees
  import opened LeastLatency
  import opened TopologyDP

  ghost function Surplus(k: nat, q: int): int {
    q * (k - 1)
  }

  /** The cells the chosen path can visit. The leaves exceed the slots of the i nodes above by a multiple
      q of k - 1, and q is at most the number of levels still below: this is what keeps every cell finite. */
  ghost predicate Reachable(p: Instance, d: nat, i: nat, n: nat, q: int) {
    && p.Valid()
    && 1 <= d <= p.d && q <= p.d - d
    && 1 <= i < n <= p.N()
    && n == Slots(p.k, i) + Surplus(p.k, q)
  }

  lemma {:induction false} RootReachable(p: Instance)
    requires p.Valid()
    ensures Reachable(p, 1, 1, p.N(), p.d - 1)
  {
    Distribute(p.d, 1, p.k - 1);
    MulMonotone(1, p.d, p.k - 1);
  }

  /** Slots suffice exactly when the surplus is gone; otherwise at least k - 1 are missing. */
  lemma {:induction false} SlotsSuffice(p: Instance, d: nat, i: nat, n: nat, q: int)
    requires Reachable(p, d, i, n, q)
    ensures Slots(p.k, i) >= n <==> q <= 0
    ensures Slots(p.k, i) >= p.k
    ensures q > 0 ==> n >= Slots(p.k, i) + p.k - 1
  {
    MulMonotone(1, i, p.k);
    if q > 0 {
      MulMonotone(1, q, p.k - 1);
    } else {
      MulMonotone(q, 0, p.k - 1);
    }
  }

  lemma {:induction false} SurplusStep(i: int, k: int, q: int, x: int)
    ensures i * k + q * (k - 1) - x == (i * k - x) * k + (q - (i * k - x)) * (k - 1)
  {
    var j := i * k - x;
    Distribute(q, j, k - 1);
    assert j * (k - 1) == j * k - j;
  }

  /** Keeping x leaves at this depth uses up as much of the surplus as there are nodes with children. */
  lemma {:induction false} ReachableStep(p: Instance, d: nat, i: nat, n: nat, q: int, x: nat)
    requires Reachable(p, d, i, n, q) && q > 0 && x < Slots(p.k, i)
    ensures d < p.d && x < n
    ensures Reachable(p, d + 1, Slots(p.k, i) - x, n - x, q - (Slots(p.k, i) - x))
  {
    SlotsSuffice(p, d, i, n, q);
    SurplusStep(i, p.k, q, x);
  }

  lemma {:induction false} CellBounds(p: Instance, d: nat, i: nat, n: nat, q: int)
    requires Reachable(p, d, i, n, q)
    ensures p.Valid() && n <= p.N() && d <= p.d && i < n
  {
    hide Slots, Surplus, Instance.Valid;
  }

  lemma {:induction false} LastMinBest(p: Instance, d: nat, i: nat, n: nat, x: nat)
    requires n <= p.N() && d < p.d && x < Slots(p.k, i) < n
    ensures Best(p, d, i, n) == Candidate(p, d, i, n, Choice(p, d, i, n))
    ensures Best(p, d, i, n).LessEqual(Candidate(p, d, i, n, x))
  {
    hide Slots, Candidate;
    var c := Candidates(p, d, i, n);
    assert c[x] == Candidate(p, d, i, n, x);
  }

  /** Without a surplus everything stays at this depth. */
  lemma {:induction false} PathEnd(p: Instance, d: nat, i: nat, n: nat, q: int)
    requires Reachable(p, d, i, n, q) && q <= 0
    ensures n <= p.N()
    ensures Best(p, d, i, n) == Fin(AllAt(p, d, n)) && Profile(p, d, i, n) == [n]
  {
    CellBounds(p, d, i, n, q);
    SlotsSuffice(p, d, i, n, q);
    hide Slots, Reachable, AllAt, Candidates, Choice;
  }

  /** What a split costs: the x heaviest leaves here, the rest priced as if one level down. */
  lemma {:induction false} CandidateIsSplit(p: Instance, d: nat, i: nat, n: nat, q: int, x: nat)
    requires Reachable(p, d, i, n, q) && q > 0 && x < Slots(p.k, i) < n <= p.N() && d < p.d
    ensures Candidate(p, d, i, n, x) == Best(p, d + 1, Slots(p.k, i) - x, n - x).Plus(HeadAt(p, d, n, x))
  {
    hide Reachable, Slots, HeadAt, AllAt, Best;
    var internals := Slots(p.k, i) - x;
    ReachableStep(p, d, i, n, q, x);
    if q <= internals {
      PathEnd(p, d + 1, internals, n - x, q - internals);
    }
    SlotsSuffice(p, d + 1, internals, n - x, q - internals);
  }

  /** Every cell on a path has a finite price. */
  lemma {:induction false} BestFinite(p: Instance, d: nat, i: nat, n: nat, q: int)
    requires Reachable(p, d, i, n, q)
    ensures n <= p.N() && Best(p, d, i, n).Fin?
    decreases p.d - d
  {
    hide Reachable, Slots, HeadAt, AllAt, Best, Candidate, Choice;
    CellBounds(p, d, i, n, q);
    if q <= 0 {
      PathEnd(p, d, i, n, q);
    } else {
      SlotsSuffice(p, d, i, n, q);
      var x := Slots(p.k, i) - 1;
      ReachableStep(p, d, i, n, q, x);
      LastMinBest(p, d, i, n, x);
      CandidateIsSplit(p, d, i, n, q, x);
      BestFinite(p, d + 1, 1, n - x, q - 1);
    }
  }

  /** Moving the heaviest of the deeper leaves one level up never costs more. */
  lemma {:induction false} OneMoreHere(p: Instance, d: nat, n: nat, x: nat)
    requires x < n <= p.N()
    ensures HeadAt(p, d, n, x + 1) + AllAt(p, d + 1, n - x - 1) <= HeadAt(p, d, n, x) + AllAt(p, d + 1, n - x)
  {
    var s := p.N() - n;
    var head, w := Sum(p.a[s..s + x]), p.a[s + x];
    var rest := Sum(p.a[s + x + 1..]);
    assert Sum(p.a[s..s + x + 1]) == head + w by {
      assert p.a[s..s + x + 1] == p.a[s..s + x] + [w];
      SumAppend(p.a[s..s + x], w);
    }
    assert Sum(p.a[s + x..]) == rest + w by {
      assert p.a[s + x..][1..] == p.a[s + x + 1..];
    }
    hide Sum;
    assert p.N() - (n - x) == s + x;
    Raise(head, w, rest, d);
  }

  lemma {:induction false} Raise(head: nat, w: nat, rest: nat, d: nat)
    ensures (head + w) * d + rest * (d + 1) <= head * d + (rest + w) * (d + 1)
  {
    Distribute(head, w, d);
    Distribute(rest, w, d + 1);
    MulMonotone(d, d + 1, w);
  }

  /** If all the rest fits one level down with a whole node to spare, one more leaf may stay here for free. */
  lemma {:induction false} MoreHereNotDearer(p: Instance, d: nat, i: nat, n: nat, q: int, x: nat)
    requires Reachable(p, d, i, n, q) && q > 0 && x < Slots(p.k, i) < n <= p.N() && d < p.d
    requires Slots(p.k, i) - x > q
    ensures x + 1 < Slots(p.k, i)
    ensures Candidate(p, d, i, n, x + 1).LessEqual(Candidate(p, d, i, n, x))
  {
    hide Reachable, Slots, HeadAt, AllAt, Best, Candidate;
    var internals := Slots(p.k, i) - x;
    CandidateIsSplit(p, d, i, n, q, x);
    CandidateIsSplit(p, d, i, n, q, x + 1);
    ReachableStep(p, d, i, n, q, x);
    ReachableStep(p, d, i, n, q, x + 1);
    PathEnd(p, d + 1, internals, n - x, q - internals);
    PathEnd(p, d + 1, internals - 1, n - x - 1, q - internals + 1);
    OneMoreHere(p, d, n, x);
  }

  lemma {:induction false} LaterIsDearer(p: Instance, d: nat, i: nat, n: nat, x: nat)
    requires n <= p.N() && d < p.d && x < Slots(p.k, i) < n && Choice(p, d, i, n) < x
    ensures !Candidate(p, d, i, n, x).LessEqual(Candidate(p, d, i, n, Choice(p, d, i, n)))
  {
    hide Slots, Best, Candidate;
    var c := Candidates(p, d, i, n);
    assert c[x] == Candidate(p, d, i, n, x);
  }

  /** The tie-break towards more leaves at the smaller depth: a path never leaves slots free. */
  lemma {:induction false} LastStepFull(p: Instance, d: nat, i: nat, n: nat, q: int)
    requires Reachable(p, d, i, n, q) && q > 0 && 0 < Slots(p.k, i) < n <= p.N() && d < p.d
    ensures Slots(p.k, i) - Choice(p, d, i, n) <= q
  {
    hide Reachable, Slots, Best, Candidate, Choice;
    var x := Choice(p, d, i, n);
    if Slots(p.k, i) - x > q {
      MoreHereNotDearer(p, d, i, n, q, x);
      LaterIsDearer(p, d, i, n, x + 1);
      assert false;
    }
  }

  lemma {:induction false} ProfileUnfold(p: Instance, d: nat, i: nat, n: nat)
    requires n <= p.N() && d < p.d && 0 < Slots(p.k, i) < n
    ensures var x := Choice(p, d, i, n);
            Profile(p, d, i, n)
            == [x] + if Slots(p.k, Slots(p.k, i) - x) >= n - x then [n - x]
                     else Profile(p, d + 1, Slots(p.k, i) - x, n - x)
  {
    hide Slots, Best, Choice;
  }

  /** One step along the path, in prices and in leaf counts: x leaves stay, `internals` nodes have children,
      and the surplus does not become negative. */
  lemma {:induction false} PathStep(p: Instance, d: nat, i: nat, n: nat, q: int) returns (x: nat, internals: nat)
    requires Reachable(p, d, i, n, q) && q > 0
    ensures d < p.d && 1 <= internals <= q && x <= n <= p.N()
    ensures x + internals == Slots(p.k, i)
    ensures Reachable(p, d + 1, internals, n - x, q - internals)
    ensures Best(p, d, i, n) == Best(p, d + 1, internals, n - x).Plus(HeadAt(p, d, n, x))
    ensures Profile(p, d, i, n) == [x] + Profile(p, d + 1, internals, n - x)
  {
    hide Reachable, Slots, Choice, Best, Candidate, HeadAt, Profile;
    CellBounds(p, d, i, n, q);
    SlotsSuffice(p, d, i, n, q);
    ReachableStep(p, d, i, n, q, 0);
    x := Choice(p, d, i, n);
    internals := Slots(p.k, i) - x;
    ReachableStep(p, d, i, n, q, x);
    LastMinBest(p, d, i, n, x);
    CandidateIsSplit(p, d, i, n, q, x);
    LastStepFull(p, d, i, n, q);
    ProfileUnfold(p, d, i, n);
    SlotsSuffice(p, d + 1, internals, n - x, q - internals);
    if q == internals {
      PathEnd(p, d + 1, internals, n - x, 0);
    }
  }

  /** The leaf counts per depth fill the slots exactly: below every level that has nodes with children,
      the next level holds k times as many nodes, and the last level has no free slot. */
  ghost predicate FullProfile(k: nat, ls: seq<nat>, i: nat)
    decreases |ls|
  {
    && ls != [] && ls[0] <= Slots(k, i)
    && if |ls| == 1 then ls[0] == Slots(k, i)
       else Slots(k, i) - ls[0] >= 1 && FullProfile(k, ls[1..], Slots(k, i) - ls[0])
  }

  /** The leaf counts from one level on, for n leaves below i nodes that have children. */
  ghost predicate FullFor(k: nat, ls: seq<nat>, i: nat, n: nat) {
    && FullProfile(k, ls, i)
    && Sum(ls) == n
    && ls[|ls| - 1] >= k
  }

  lemma {:induction false} FullCons(k: nat, x: nat, ls: seq<nat>, i: nat, n: nat)
    requires x < Slots(k, i) && x <= n && FullFor(k, ls, Slots(k, i) - x, n - x)
    ensures FullFor(k, [x] + ls, i, n) && |[x] + ls| >= 2
  {
    hide Slots;
    assert ([x] + ls)[1..] == ls;
  }

  lemma {:induction false} FullSingle(k: nat, i: nat, n: nat)
    requires n == Slots(k, i) >= k
    ensures FullFor(k, [n], i, n)
  {
    assert [n][1..] == [];
  }

  /** The congruence modulo k - 1 at work: the chosen profile is full, and holds all leaves. */
  lemma {:induction false} ProfileFull(p: Instance, d: nat, i: nat, n: nat, q: int)
    requires Reachable(p, d, i, n, q) && q >= 0
    ensures n <= p.N() && d <= p.d && FullFor(p.k, Profile(p, d, i, n), i, n)
    ensures q > 0 ==> |Profile(p, d, i, n)| >= 2
    decreases p.d - d
  {
    hide Best, Choice, Profile, FullFor, Slots, Reachable, HeadAt;
    CellBounds(p, d, i, n, q);
    if q == 0 {
      PathEnd(p, d, i, n, q);
      SlotsSuffice(p, d, i, n, q);
      NoSurplus(p, d, i, n);
      FullSingle(p.k, i, n);
    } else {
      var x, internals := PathStep(p, d, i, n, q);
      ProfileFull(p, d + 1, internals, n - x, q - internals);
      FullCons(p.k, x, Profile(p, d + 1, internals, n - x), i, n);
    }
  }

  lemma {:induction false} NoSurplus(p: Instance, d: nat, i: nat, n: nat)
    requires Reachable(p, d, i, n, 0)
    ensures n == Slots(p.k, i)
  {
    hide Slots;
  }

  /** The cost of placing a in order: the first ls[0] leaves at depth d, the next ls[1] at d + 1, and so on. */
  ghost function ProfileCost(a: seq<nat>, ls: seq<nat>, d: nat): nat
    requires Sum(ls) <= |a|
    decreases |ls|
  {
    if ls == [] then 0
    else Sum(a[..ls[0]]) * d + ProfileCost(a[ls[0]..], ls[1..], d + 1)
  }

  lemma {:induction false} ProfileCostSingle(a: seq<nat>, d: nat)
    ensures Sum([|a|]) == |a| && ProfileCost(a, [|a|], d) == Sum(a) * d
  {
    assert [|a|][1..] == [] && a[..|a|] == a;
  }

  lemma {:induction false} ProfileCostCons(a: seq<nat>, x: nat, ls: seq<nat>, d: nat)
    requires x <= |a| && Sum(ls) == |a| - x
    ensures Sum([x] + ls) == |a|
    ensures ProfileCost(a, [x] + ls, d) == Sum(a[..x]) * d + ProfileCost(a[x..], ls, d + 1)
  {
    assert ([x] + ls)[1..] == ls;
  }

  /** Putting x leaves in front of a profile adds their cost to its price. */
  lemma {:induction false} ProfileCostStep(p: Instance, d: nat, n: nat, x: nat, ls: seq<nat>)
    requires x <= n <= p.N() && Sum(ls) == n - x
    ensures Sum([x] + ls) == n
    ensures ProfileCost(p.a[p.N() - n..], [x] + ls, d)
            == ProfileCost(p.a[p.N() - (n - x)..], ls, d + 1) + HeadAt(p, d, n, x)
  {
    hide ProfileCost, Sum;
    var rest := p.a[p.N() - n..];
    ProfileCostCons(rest, x, ls, d);
    assert rest[..x] == p.a[p.N() - n..p.N() - n + x];
    assert rest[x..] == p.a[p.N() - (n - x)..];
  }

  /** The price of a cell is the cost of its profile. */
  lemma {:induction false} BestIsProfileCost(p: Instance, d: nat, i: nat, n: nat, q: int)
    requires Reachable(p, d, i, n, q)
    ensures Sum(Profile(p, d, i, n)) == n
    ensures Best(p, d, i, n) == Fin(ProfileCost(p.a[p.N() - n..], Profile(p, d, i, n), d))
    decreases p.d - d
  {
    hide Best, Profile, ProfileCost, Reachable, Sum, HeadAt, Slots;
    CellBounds(p, d, i, n, q);
    if q <= 0 {
      PathEnd(p, d, i, n, q);
      ProfileCostSingle(p.a[p.N() - n..], d);
    } else {
      var x, internals := PathStep(p, d, i, n, q);
      BestIsProfileCost(p, d + 1, internals, n - x, q - internals);
      ProfileCostStep(p, d, n, x, Profile(p, d + 1, internals, n - x));
    }
  }

  /** The clients of a forest are distinct clients of the list, and its last `pad` entries are dummies. */
  ghost predicate Occupies(p: Instance, pad: nat, f: seq<Tree>) {
    && pad < p.k - 1 && pad <= p.N()
    && (forall x :: p.N() - pad <= x < p.N() ==> p.a[x] == 0)
    && (forall x :: x in multiset(Clients(f)) ==> x < p.N() - pad && multiset(Clients(f))[x] == 1)
  }

  /** Any set of m distinct clients weighs at least as much as the last m clients and the dummies. */
  lemma {:induction false} LastLightest(p: Instance, pad: nat, f: seq<Tree>)
    requires p.Valid() && Occupies(p, pad, f)
    ensures |Clients(f)| + pad <= p.N()
    ensures Sum(p.a[p.N() - (|Clients(f)| + pad)..]) <= TotalLatency(p.a, f)
  {
    hide Clients, TotalLatency, Weight, Sum;
    var m, c := multiset(Clients(f)), p.N() - pad;
    LastAreLeast(p.a, m, c);
    TotalLatencyIsWeight(p.a, f);
    WeightAbove(p.a, m, c, p.N());
    SumSplit(p.a, c - |m|, c);
    SumZeros(p.a[c..]);
  }

  lemma {:induction false} WeightAbove(a: seq<nat>, m: multiset<nat>, c: nat, c': nat)
    requires c <= c' <= |a|
    ensures Weight(a, m, c) <= Weight(a, m, c')
  {
    if c < c' {
      WeightAbove(a, m, c, c' - 1);
    }
  }

  lemma {:induction false} Together(x: nat, y: nat, d: nat, c: nat, c': nat)
    requires x * d <= c && y * d <= c'
    ensures (x + y) * d <= c + c'
  {
  }

  lemma {:induction false} CostAtLeast(a: seq<nat>, f: seq<Tree>, d: nat)
    ensures TotalLatency(a, f) * d <= Cost(a, f, d)
    decreases f
  {
    if f != [] {
      CostAtLeast(a, f[1..], d);
      if f[0].Leaf? {
        var lat := Latency(a, f[0].client);
        Together(lat, TotalLatency(a, f[1..]), d, lat * d, Cost(a, f[1..], d));
      } else {
        var cs := f[0].children;
        CostOneDeeper(a, cs, d);
        CostAtLeast(a, cs, d);
        Together(TotalLatency(a, cs), TotalLatency(a, f[1..]), d, Cost(a, cs, d + 1), Cost(a, f[1..], d));
      }
    }
  }

  /** The exchange step: moving the lightest leaves down instead of those the forest moves down. */
  lemma {:induction false} Exchange(d: nat, all: nat, deeper: nat, sumAll: nat, sumDeeper: nat, below: nat,
                                    costBelow: nat)
    requires below + (d + 1) * deeper <= costBelow + (d + 1) * sumDeeper
    requires sumDeeper <= deeper
    ensures below + (sumAll - sumDeeper) * d + d * all <= (all - deeper) * d + costBelow + d * sumAll
  {
    Distribute(sumAll, sumDeeper, d);
    Distribute(all, deeper, d);
    Distribute(d, 1, deeper);
    Distribute(d, 1, sumDeeper);
  }

  /** The table's price is at most that of any split, with the upper part as a difference of suffix sums. */
  lemma {:induction false} SplitPrice(p: Instance, d: nat, i: nat, n: nat, q: int, x: nat)
    requires Reachable(p, d, i, n, q) && q > 0 && x < Slots(p.k, i) < n <= p.N() && d < p.d
    ensures Best(p, d, i, n).Fin? && Best(p, d + 1, Slots(p.k, i) - x, n - x).Fin?
    ensures Sum(p.a[p.N() - n..]) >= Sum(p.a[p.N() - n + x..])
    ensures Best(p, d, i, n).value <= Best(p, d + 1, Slots(p.k, i) - x, n - x).value
                                      + (Sum(p.a[p.N() - n..]) - Sum(p.a[p.N() - n + x..])) * d
  {
    hide Best, Choice, Candidate, Sum, Slots, Reachable;
    ReachableStep(p, d, i, n, q, x);
    BestFinite(p, d, i, n, q);
    BestFinite(p, d + 1, Slots(p.k, i) - x, n - x, q - (Slots(p.k, i) - x));
    LastMinBest(p, d, i, n, x);
    CandidateIsSplit(p, d, i, n, q, x);
    SumSplit(p.a, p.N() - n, p.N() - n + x);
  }

  /** While leaves are still to come, not every slot can hold a leaf: the dummies alone are too few. */
  lemma {:induction false} TopLeavesLeaveRoom(p: Instance, d: nat, i: nat, n: nat, q: int, pad: nat, f: seq<Tree>)
    requires Reachable(p, d, i, n, q) && q > 0
    requires Kary(f, p.k) && |f| <= Slots(p.k, i) && pad < p.k - 1
    requires |Clients(f)| + pad == n
    ensures TopLeaves(f) < Slots(p.k, i)
  {
    hide Kary, TopLeaves, NextLevel, Reachable, Slots;
    NextLevelClients(f);
    SlotsSuffice(p, d, i, n, q);
  }

  /** A forest that i nodes with at most k children each can carry, holding all clients down to the n-th last. */
  ghost predicate Carries(p: Instance, i: nat, n: nat, pad: nat, f: seq<Tree>) {
    && Kary(f, p.k) && |f| <= Slots(p.k, i)
    && Occupies(p, pad, f) && |Clients(f)| + pad == n
  }

  lemma {:induction false} SlotsMonotone(k: nat, i: nat, j: nat)
    requires i <= j
    ensures i * k == Slots(k, i) <= Slots(k, j)
  {
    MulMonotone(i, j, k);
  }

  /** One level down, the forest is still within what a split of the table allows. */
  lemma {:induction false} Descend(p: Instance, d: nat, i: nat, n: nat, q: int, pad: nat, f: seq<Tree>)
    returns (x: nat, internals: nat)
    requires Reachable(p, d, i, n, q) && q > 0 && Carries(p, i, n, pad, f)
    ensures x <= n <= p.N() && d < p.d && 1 <= internals
    ensures Reachable(p, d + 1, internals, n - x, q - internals)
    ensures Carries(p, internals, n - x, pad, NextLevel(f))
    ensures Best(p, d, i, n).Fin? && Best(p, d + 1, internals, n - x).Fin?
    ensures Sum(p.a[p.N() - n..]) >= Sum(p.a[p.N() - n + x..])
    ensures Best(p, d, i, n).value <= Best(p, d + 1, internals, n - x).value
                                      + (Sum(p.a[p.N() - n..]) - Sum(p.a[p.N() - n + x..])) * d
  {
    hide Best, Sum, Kary, TopLeaves, NextLevel, Clients, Reachable, Slots;
    CellBounds(p, d, i, n, q);
    SlotsSuffice(p, d, i, n, q);
    x := TopLeaves(f);
    TopLeavesLeaveRoom(p, d, i, n, q, pad, f);
    ReachableStep(p, d, i, n, q, x);
    internals := Slots(p.k, i) - x;
    SplitPrice(p, d, i, n, q, x);
    NextLevelWidth(f, p.k);
    NextLevelClients(f);
    SlotsMonotone(p.k, |f| - x, internals);
  }

  /** A forest costs, beyond its own total latency at this depth, no less than the table says. */
  lemma {:induction false} ForestNotCheaper(p: Instance, d: nat, i: nat, n: nat, q: int, pad: nat, f: seq<Tree>)
    requires Reachable(p, d, i, n, q) && Carries(p, i, n, pad, f)
    ensures Best(p, d, i, n).Fin?
    ensures Best(p, d, i, n).value + d * TotalLatency(p.a, f) <= Cost(p.a, f, d) + d * Sum(p.a[p.N() - n..])
    decreases p.d - d
  {
    hide Best, Cost, TotalLatency, Sum, NextLevel, Reachable, Carries, Instance.Valid;
    CellBounds(p, d, i, n, q);
    if q <= 0 {
      PathEnd(p, d, i, n, q);
      CostAtLeast(p.a, f, d);
    } else {
      var x, internals := Descend(p, d, i, n, q, pad, f);
      var g := NextLevel(f);
      ForestNotCheaper(p, d + 1, internals, n - x, q - internals, pad, g);
      CarriedLightest(p, internals, n - x, pad, g);
      CostByLevel(p.a, f, d);
      Exchange(d, TotalLatency(p.a, f), TotalLatency(p.a, g), Sum(p.a[p.N() - n..]), Sum(p.a[p.N() - n + x..]),
               Best(p, d + 1, internals, n - x).value, Cost(p.a, g, d + 1));
    }
  }

  lemma {:induction false} CarriedLightest(p: Instance, i: nat, n: nat, pad: nat, f: seq<Tree>)
    requires p.Valid() && Carries(p, i, n, pad, f)
    ensures n <= p.N() && Sum(p.a[p.N() - n..]) <= TotalLatency(p.a, f)
  {
    LastLightest(p, pad, f);
  }

  lemma {:induction false} OneRootSlots(k: nat)
    ensures Slots(k, 1) == k
  {
  }

  /** All clients below a root: its children carry everything, and weigh the whole list. */
  lemma {:induction false} RootCarries(p: Instance, pad: nat, t: Tree)
    requires p.Valid() && Kary([t], p.k) && Occupies(p, pad, [t])
    requires |Clients([t])| == p.N() - pad > 1
    ensures t.Node? && Carries(p, 1, p.N(), pad, t.children)
    ensures Cost(p.a, [t], 0) == Cost(p.a, t.children, 1)
  {
    hide Slots, Clients, Cost, Instance.Valid;
    ArityParts([t], 0, p.k);
    SingleLeaf(t);
    SingleNode(p.a, t.children, 0);
    OneRootSlots(p.k);
  }

  /** The main theorem about the table: a k-ary tree over all clients costs at least the root cell. */
  lemma {:induction false} TreeNotCheaper(p: Instance, pad: nat, t: Tree)
    requires p.Valid() && Kary([t], p.k) && Occupies(p, pad, [t])
    requires |Clients([t])| == p.N() - pad > 1
    ensures Best(p, 1, 1, p.N()).Fin?
    ensures Best(p, 1, 1, p.N()).value <= Cost(p.a, [t], 0)
  {
    hide Best, Slots, Kary, Clients, Cost, Carries, TotalLatency, Reachable, Instance.Valid, Sum, Occupies;
    RootCarries(p, pad, t);
    RootReachable(p);
    ForestNotCheaper(p, 1, 1, p.N(), p.d - 1, pad, t.children);
    CarriedLightest(p, 1, p.N(), pad, t.children);
  }
}
