/** Cutting one physical connection into lanes: a lane is carved off the base lane for each of the next links
    that fit, and the number of lanes whose allocation has the least maximum load is kept. */
module LaneCarving {
  import opened Arith
  import opened Sums
  import opened Sorting
  import opened LaneAllocation
  import opened LaneAllotment
  import opened LaneAllocator

  const HEADER := 12

  // ----- one attempt, told without its loops -----

  ghost predicate LinkNumbers(links: seq<Link>, taken: seq<nat>) {
    forall t :: 0 <= t < |taken| ==> taken[t] < |links|
  }

  /** What is left for the base lane when these links have got lanes of their own: the base lane gives up one bit
      for itself, and for each link its width, a header of twelve and one bit. */
  function Left(total: nat, links: seq<Link>, taken: seq<nat>): int
    requires LinkNumbers(links, taken)
  {
    if taken == [] then total - 1
    else Left(total, links, taken[..|taken| - 1]) - (links[taken[|taken| - 1]].bitwidth + 13)
  }

  /** Link i has had no lane, and beside it the base lane keeps room for two headers and their bits. */
  predicate MayTake(links: seq<Link>, used: seq<bool>, taken: seq<nat>, left: int, i: nat)
    requires i < |links| == |used|
  {
    !used[i] && i !in taken && left > links[i].bitwidth + 26
  }

  /** Each link taken is the first that may be taken at its turn. */
  ghost predicate TakenInTurn(total: nat, links: seq<Link>, used: seq<bool>, taken: seq<nat>) {
    && |used| == |links| && LinkNumbers(links, taken)
    && forall t :: 0 <= t < |taken| ==>
         var left := Left(total, links, taken[..t]);
         && MayTake(links, used, taken[..t], left, taken[t])
         && forall i :: 0 <= i < taken[t] ==> !MayTake(links, used, taken[..t], left, i)
  }

  ghost predicate NoneLeft(total: nat, links: seq<Link>, used: seq<bool>, taken: seq<nat>) {
    && |used| == |links| && LinkNumbers(links, taken)
    && forall i :: 0 <= i < |links| ==> !MayTake(links, used, taken, Left(total, links, taken), i)
  }

  /** The base lane, and a lane of each link's width and a header of twelve */
  function LaneWidths(total: nat, links: seq<Link>, taken: seq<nat>): (r: seq<int>)
    requires LinkNumbers(links, taken)
    ensures |r| == 1 + |taken|
  {
    [if taken == [] then total else Left(total, links, taken)] + OwnLanes(links, taken)
  }

  function OwnLanes(links: seq<Link>, taken: seq<nat>): (r: seq<int>)
    requires LinkNumbers(links, taken)
    ensures |r| == |taken|
  {
    seq(|taken|, t requires 0 <= t < |taken| => links[taken[t]].bitwidth + 12)
  }

  function UsedAfter(used: seq<bool>, taken: seq<nat>): (r: seq<bool>)
    ensures |r| == |used|
  {
    seq(|used|, i requires 0 <= i < |used| => used[i] || i in taken)
  }

  // ----- what an attempt leaves -----

  /** Every lane but the base takes one link that had none, in this attempt and in those before it. */
  lemma {:induction false} LanesUseLinks(total: nat, links: seq<Link>, used: seq<bool>, taken: seq<nat>)
    requires TakenInTurn(total, links, used, taken)
    ensures CountFree(UsedAfter(used, taken)) + |taken| == CountFree(used)
    ensures forall i :: 0 <= i < |used| && used[i] ==> UsedAfter(used, taken)[i]
    decreases |taken|
  {
    hide CountFree, Left;
    if taken == [] {
      assert UsedAfter(used, taken) == used;
    } else {
      var k := |taken| - 1;
      TakenPrefix(total, links, used, taken);
      LanesUseLinks(total, links, used, taken[..k]);
      var before := UsedAfter(used, taken[..k]);
      assert MayTake(links, used, taken[..k], Left(total, links, taken[..k]), taken[k]);
      assert taken == taken[..k] + [taken[k]];
      assert UsedAfter(used, taken) == before[taken[k] := true];
      MarkUsed(before, taken[k]);
    }
  }

  lemma {:induction false} TakenPrefix(total: nat, links: seq<Link>, used: seq<bool>, taken: seq<nat>)
    requires TakenInTurn(total, links, used, taken) && taken != []
    ensures TakenInTurn(total, links, used, taken[..|taken| - 1])
  {
    hide Left, MayTake;
    var shorter := taken[..|taken| - 1];
    forall t | 0 <= t < |shorter|
      ensures shorter[..t] == taken[..t]
    {
    }
  }

  function CountFree(used: seq<bool>): nat {
    if used == [] then 0 else CountFree(used[1..]) + if used[0] then 0 else 1
  }

  lemma {:induction false} MarkUsed(used: seq<bool>, i: nat)
    requires i < |used| && !used[i]
    ensures CountFree(used[i := true]) == CountFree(used) - 1
  {
    if i == 0 {
      assert used[0 := true][1..] == used[1..];
    } else {
      assert used[i := true][1..] == used[1..][i - 1 := true];
      MarkUsed(used[1..], i - 1);
    }
  }

  function SumInts(s: seq<int>): int {
    if s == [] then 0 else SumInts(s[..|s| - 1]) + s[|s| - 1]
  }

  lemma {:induction false} SumIntsFront(x: int, s: seq<int>)
    ensures SumInts([x] + s) == x + SumInts(s)
  {
    var t := [x] + s;
    if s == [] {
      assert t == [x] && t[..0] == [];
    } else {
      SumIntsFront(x, s[..|s| - 1]);
      assert t[..|t| - 1] == [x] + s[..|s| - 1];
    }
  }

  /** What the base lane has lost is in the other lanes, but for a bit of each. */
  lemma {:induction false} LeftAndOwn(total: nat, links: seq<Link>, taken: seq<nat>)
    requires LinkNumbers(links, taken)
    ensures Left(total, links, taken) + SumInts(OwnLanes(links, taken)) + |taken| == total - 1
    decreases |taken|
  {
    if taken != [] {
      var k := |taken| - 1;
      LeftAndOwn(total, links, taken[..k]);
      assert OwnLanes(links, taken)[..k] == OwnLanes(links, taken[..k]);
    }
  }

  /** The widths add up to the connection's, less one valid bit per lane when there are several. */
  lemma {:induction false} WidthsAddUp(total: nat, links: seq<Link>, taken: seq<nat>)
    requires LinkNumbers(links, taken)
    ensures SumInts(LaneWidths(total, links, taken)) + (if taken == [] then 0 else 1 + |taken|) == total
  {
    LeftAndOwn(total, links, taken);
    SumIntsFront(if taken == [] then total else Left(total, links, taken), OwnLanes(links, taken));
    if taken == [] {
      assert OwnLanes(links, taken) == [];
    }
  }

  /** With several lanes the base lane keeps more than a header and its bit; all lanes have room. */
  lemma {:induction false} CarveBalanced(total: nat, links: seq<Link>, used: seq<bool>, taken: seq<nat>)
    requires TakenInTurn(total, links, used, taken)
    ensures var w := LaneWidths(total, links, taken);
            && SumInts(w) + (if taken == [] then 0 else |w|) == total
            && (taken != [] ==> w[0] > 13) && (forall v :: 1 <= v < |w| ==> w[v] >= 12)
  {
    hide SumInts;
    WidthsAddUp(total, links, taken);
    if taken != [] {
      var k := |taken| - 1;
      assert MayTake(links, used, taken[..k], Left(total, links, taken[..k]), taken[k]);
    }
  }

  // ----- the loops of one attempt -----

  /** The first link from the front that has had no lane and fits. */
  method FindLink(links: seq<Link>, used: seq<bool>, base: int) returns (linkIdx: nat)
    requires |used| == |links|
    ensures linkIdx <= |links|
    ensures linkIdx < |links| ==> !used[linkIdx] && base > links[linkIdx].bitwidth + 26
    ensures forall i :: 0 <= i < linkIdx ==> used[i] || base <= links[i].bitwidth + 26
  {
    linkIdx := 0;
    while linkIdx < |links| && (used[linkIdx] || !(base > links[linkIdx].bitwidth + 2 * (HEADER + 1)))
      invariant linkIdx <= |links|
      invariant forall i :: 0 <= i < linkIdx ==> used[i] || base <= links[i].bitwidth + 26
    {
      linkIdx := linkIdx + 1;
    }
  }

  /** The lanes' loop for one number of lanes, as written: after the first failure it goes on, and fails again. */
  method CarveLanes(total: nat, links: seq<Link>, numberOfVias: nat, used: seq<bool>)
    returns (viaWidths: seq<nat>, usedLinks: seq<bool>, noViasRemaining: bool, ghost taken: seq<nat>)
    requires numberOfVias > 0 && |used| == |links|
    ensures TakenInTurn(total, links, used, taken) && |taken| < numberOfVias
    ensures viaWidths == LaneWidths(total, links, taken) && usedLinks == UsedAfter(used, taken)
    ensures noViasRemaining <==> |viaWidths| < numberOfVias
    ensures noViasRemaining ==> NoneLeft(total, links, used, taken)
  {
    hide TakenInTurn, NoneLeft, LaneWidths, Left, UsedAfter, LinkNumbers;
    viaWidths, usedLinks, noViasRemaining, taken := [total], used, false, [];
    NothingTaken(total, links, used);
    for via := 1 to numberOfVias
      invariant TakenInTurn(total, links, used, taken) && |taken| < via
      invariant LinkNumbers(links, taken) && |viaWidths| == 1 + |taken| && viaWidths == LaneWidths(total, links, taken)
      invariant usedLinks == UsedAfter(used, taken)
      invariant noViasRemaining <==> |viaWidths| < via
      invariant noViasRemaining ==> NoneLeft(total, links, used, taken)
    {
      TurnNumbers(total, links, used, taken);
      var base: int := viaWidths[0];
      if |viaWidths| == 1 {
        base := base - 1;
      }
      BaseIs(total, links, taken);
      noViasRemaining := true;
      var linkIdx := FindLink(links, usedLinks, base);
      if linkIdx < |links| {
        NextTaken(total, links, used, taken, linkIdx);
        NextWidths(total, links, taken, linkIdx);
        NextUsed(used, taken, linkIdx);
        SomethingFits(total, links, used, taken, linkIdx);
        noViasRemaining := false;
        usedLinks := usedLinks[linkIdx := true];
        viaWidths := viaWidths[0 := base - (links[linkIdx].bitwidth + HEADER + 1)]
                     + [links[linkIdx].bitwidth + HEADER];
        taken := taken + [linkIdx];
      } else {
        NothingFits(total, links, used, taken, base);
      }
    }
  }

  lemma {:induction false} NothingTaken(total: nat, links: seq<Link>, used: seq<bool>)
    requires |used| == |links|
    ensures LinkNumbers(links, []) && TakenInTurn(total, links, used, [])
    ensures LaneWidths(total, links, []) == [total] && UsedAfter(used, []) == used
  {
  }

  lemma {:induction false} TurnNumbers(total: nat, links: seq<Link>, used: seq<bool>, taken: seq<nat>)
    requires TakenInTurn(total, links, used, taken)
    ensures LinkNumbers(links, taken)
  {
  }

  lemma {:induction false} BaseIs(total: nat, links: seq<Link>, taken: seq<nat>)
    requires LinkNumbers(links, taken)
    ensures var w := LaneWidths(total, links, taken);
            Left(total, links, taken) == if taken == [] then w[0] - 1 else w[0]
  {
  }

  lemma {:induction false} NextTaken(total: nat, links: seq<Link>, used: seq<bool>, taken: seq<nat>, i: nat)
    requires TakenInTurn(total, links, used, taken) && i < |links| && LinkNumbers(links, taken)
    requires var base := Left(total, links, taken);
             && !UsedAfter(used, taken)[i] && base > links[i].bitwidth + 26
             && forall k :: 0 <= k < i ==> UsedAfter(used, taken)[k] || base <= links[k].bitwidth + 26
    ensures TakenInTurn(total, links, used, taken + [i])
  {
    hide Left;
    var more := taken + [i];
    assert more[..|taken|] == taken;
    forall k | 0 <= k < i
      ensures !MayTake(links, used, taken, Left(total, links, taken), k)
    {
      assert UsedAfter(used, taken)[k] <==> used[k] || k in taken;
    }
    hide MayTake;
    forall t | 0 <= t < |taken|
      ensures more[..t] == taken[..t]
    {
    }
  }

  lemma {:induction false} NextWidths(total: nat, links: seq<Link>, taken: seq<nat>, i: nat)
    requires LinkNumbers(links, taken) && i < |links| && Left(total, links, taken) > links[i].bitwidth + 26
    ensures LinkNumbers(links, taken + [i])
    ensures var left := Left(total, links, taken) - (links[i].bitwidth + 13);
            left >= 0 && LaneWidths(total, links, taken + [i])
                         == LaneWidths(total, links, taken)[0 := left] + [links[i].bitwidth + 12]
  {
    assert (taken + [i])[..|taken|] == taken;
    assert OwnLanes(links, taken + [i]) == OwnLanes(links, taken) + [links[i].bitwidth + 12];
  }

  lemma {:induction false} NextUsed(used: seq<bool>, taken: seq<nat>, i: nat)
    requires i < |used|
    ensures UsedAfter(used, taken + [i]) == UsedAfter(used, taken)[i := true]
  {
  }

  lemma {:induction false} SomethingFits(total: nat, links: seq<Link>, used: seq<bool>, taken: seq<nat>, i: nat)
    requires |used| == |links| && LinkNumbers(links, taken) && i < |links|
    requires !UsedAfter(used, taken)[i] && Left(total, links, taken) > links[i].bitwidth + 26
    ensures !NoneLeft(total, links, used, taken)
  {
    hide Left;
    assert MayTake(links, used, taken, Left(total, links, taken), i);
  }

  lemma {:induction false} NothingFits(total: nat, links: seq<Link>, used: seq<bool>, taken: seq<nat>, base: int)
    requires |used| == |links| && LinkNumbers(links, taken) && base == Left(total, links, taken)
    requires forall k :: 0 <= k < |links| ==> UsedAfter(used, taken)[k] || base <= links[k].bitwidth + 26
    ensures NoneLeft(total, links, used, taken)
  {
    hide Left;
    forall k | 0 <= k < |links|
      ensures !MayTake(links, used, taken, base, k)
    {
      assert UsedAfter(used, taken)[k] <==> used[k] || k in taken;
    }
  }

  // ----- trying one number of lanes after the other -----

  datatype Connection = Connection(total: nat, links: seq<Link>, mode: Mode, unit: nat)

  /** The links that got lanes of their own, and the lanes as they were allocated */
  datatype Attempt = Attempt(taken: seq<nat>, vias: seq<Via>)

  /** The links that have had a lane in some attempt; they are not released between attempts. */
  function UsedBy(n: nat, tries: seq<Attempt>): (r: seq<bool>)
    ensures |r| == n
  {
    if tries == [] then seq(n, _ => false)
    else UsedAfter(UsedBy(n, tries[..|tries| - 1]), tries[|tries| - 1].taken)
  }

  /** The same links by name */
  ghost predicate InNameOrder(links: seq<Link>, named: seq<Link>) {
    && (exists perm :: Rearranges(named, links, perm))
    && forall i, j :: 0 <= i < j < |named| ==> named[i].name <= named[j].name
  }

  /** The lanes are an allotment of the links, handed over by name. */
  ghost predicate LanesFor(p: Connection, sorted: seq<Link>, widths: seq<int>, vias: seq<Via>) {
    exists named, nats: seq<nat>, r, headers, perm ::
      && InNameOrder(sorted, named) && nats == widths
      && Allotted(p.mode, p.unit, named, nats, r, headers, perm) && r.vias == vias
  }

  /** The attempts with least, least + 1, ... lanes, each successful: as many links as it needs are taken, and their
      lanes and the base lane share all links. */
  ghost predicate AllTried(p: Connection, sorted: seq<Link>, least: nat, tries: seq<Attempt>) {
    forall k :: 0 <= k < |tries| ==> Tried(p, sorted, UsedBy(|sorted|, tries[..k]), least + k, tries[k])
  }

  ghost predicate Tried(p: Connection, sorted: seq<Link>, used: seq<bool>, lanes: nat, a: Attempt) {
    && TakenInTurn(p.total, sorted, used, a.taken) && 1 + |a.taken| == lanes
    && a.vias != [] && LanesFor(p, sorted, LaneWidths(p.total, sorted, a.taken), a.vias)
  }

  /** The next number of lanes cannot be had: too few links are left that fit. */
  ghost predicate TooMany(p: Connection, sorted: seq<Link>, used: seq<bool>, lanes: nat) {
    exists taken ::
      TakenInTurn(p.total, sorted, used, taken) && 1 + |taken| < lanes && NoneLeft(p.total, sorted, used, taken)
  }

  function MaxLoad(vias: seq<Via>): (r: nat)
    requires vias != []
    ensures forall v :: 0 <= v < |vias| ==> vias[v].load <= r
    ensures exists v :: 0 <= v < |vias| && vias[v].load == r
  {
    var last := |vias| - 1;
    if last == 0 then vias[0].load
    else
      var r := MaxLoad(vias[..last]);
      if r < vias[last].load then vias[last].load else
        var v :| 0 <= v < last && vias[..last][v].load == r;
        assert vias[v].load == r;
        r
  }

  function ByName(links: seq<Link>): seq<Link> {
    SortBy((l: Link) => l.name as int, links)
  }

  lemma {:induction false} NamedOrder(links: seq<Link>)
    ensures InNameOrder(links, ByName(links))
  {
    var key := (l: Link) => l.name as int;
    var perm := SortPositions(key, links);
    SortBySorts(key, links);
    hide Rearranges;
    var named := ByName(links);
    forall i, j | 0 <= i < j < |named|
      ensures named[i].name <= named[j].name
    {
      assert key(named[i]) <= key(named[j]);
    }
  }

  /** One attempt: the lanes, their allocation and the load of the busiest. */
  method TryLanes(p: Connection, sorted: seq<Link>, n: nat, used: seq<bool>)
    returns (found: bool, vias: seq<Via>, load: nat, usedLinks: seq<bool>, ghost taken: seq<nat>)
    requires p.total > 0 && n > 0 && |used| == |sorted|
    ensures usedLinks == UsedAfter(used, taken)
    ensures found ==> Tried(p, sorted, used, n, Attempt(taken, vias)) && vias != [] && load == MaxLoad(vias)
    ensures !found ==> TooMany(p, sorted, used, n)
  {
    hide TakenInTurn, NoneLeft, LaneWidths, UsedAfter, MaxLoad, Allotted, InNameOrder, Allocate;
    var viaWidths, noViasRemaining;
    viaWidths, usedLinks, noViasRemaining, taken := CarveLanes(p.total, sorted, n, used);
    TurnNumbers(p.total, sorted, used, taken);
    found, vias, load := !noViasRemaining, [], 0;
    if found {
      PositiveLanes(p.total, sorted, used, taken);
      NamedOrder(sorted);
      var lanes, made, widest := AllocateLJF(p.mode, p.unit, viaWidths, ByName(sorted));
      vias := Values(lanes);
      ghost var headers, perm :|
        FromOneBit(p.mode, p.unit, viaWidths, ByName(sorted), Pass(vias, made, widest), headers, perm);
      AllottedLanes(p.mode, p.unit, ByName(sorted), viaWidths, Pass(vias, made, widest), headers, perm);
      assert Allotted(p.mode, p.unit, ByName(sorted), viaWidths, Pass(vias, made, widest), headers, perm);
      load := MaxLoad(vias);
    }
  }

  lemma {:induction false} PositiveLanes(total: nat, links: seq<Link>, used: seq<bool>, taken: seq<nat>)
    requires total > 0 && TakenInTurn(total, links, used, taken)
    ensures forall v :: 0 <= v < |LaneWidths(total, links, taken)| ==> LaneWidths(total, links, taken)[v] > 0
  {
    CarveBalanced(total, links, used, taken);
    hide SumInts, Left, MayTake;
  }

  lemma {:induction false} AllottedLanes(mode: Mode, unit: nat, links: seq<Link>, widths: seq<nat>, r: Pass,
                                         headers: seq<nat>, perm: seq<nat>)
    requires Allotted(mode, unit, links, widths, r, headers, perm)
    ensures |r.vias| == |widths|
  {
  }

  /** What the outer loop keeps: sorted are the links in order of priority, tries the successful attempts, the next of
      which would have had too many lanes or one more than the most; kept are the lanes of the first attempt whose
      busiest lane carries least. */
  ghost predicate Keeps(p: Connection, least: nat, most: nat, viasFinal: seq<Via>, sorted: seq<Link>, order: seq<nat>,
                        tries: seq<Attempt>, best: nat)
  {
    && Rearranges(sorted, p.links, order) && InPriority(p.unit, p.links, order)
    && AllTried(p, sorted, least, tries) && least + |tries| <= most + 1
    && (least + |tries| < most + 1 ==> TooMany(p, sorted, UsedBy(|sorted|, tries), least + |tries|))
    && (viasFinal == [] <==> tries == [])
    && (tries != [] ==>
          && best < |tries| && viasFinal == tries[best].vias
          && (forall k :: 0 <= k < |tries| ==> tries[k].vias != [])
          && (forall k :: 0 <= k < |tries| ==> MaxLoad(viasFinal) <= MaxLoad(tries[k].vias))
          && (forall k :: 0 <= k < best ==> MaxLoad(viasFinal) < MaxLoad(tries[k].vias)))
  }

  ghost predicate BestLanes(p: Connection, least: nat, most: nat, viasFinal: seq<Via>) {
    exists sorted, order, tries, best: nat :: Keeps(p, least, most, viasFinal, sorted, order, tries, best)
  }

  /** The outer loop: it stops at the first number of lanes that cannot be carved, and keeps the first of the
      attempts whose busiest lane carries least. */
  method GenerateViaLJF(p: Connection, least: nat, most: nat)
    returns (viasFinal: seq<Via>)
    requires p.total > 0 && 0 < least <= most
    ensures BestLanes(p, least, most, viasFinal)
  {
    hide Tried, TooMany, MaxLoad, UsedBy, InPriority, Rearranges;
    var sortedLinks := Sorted(p.unit, p.links);
    ghost var order := PriorityOrder(p.unit, p.links);
    ghost var sorted, tries := sortedLinks, [];
    ghost var best: nat := 0;
    NoneUsed(|sortedLinks|);
    var used := seq(|sortedLinks|, _ => false);
    var maxLoad := 0;
    viasFinal := [];
    var numberOfVias, found := least, true;
    while found && numberOfVias <= most
      invariant least <= numberOfVias <= most + 1 && numberOfVias == least + |tries|
      invariant used == UsedBy(|sorted|, tries) && AllTried(p, sorted, least, tries)
      invariant viasFinal == [] <==> tries == []
      invariant forall k :: 0 <= k < |tries| ==> tries[k].vias != [] && maxLoad <= MaxLoad(tries[k].vias)
      invariant tries != [] ==> best < |tries| && viasFinal == tries[best].vias && maxLoad == MaxLoad(viasFinal)
      invariant forall k :: 0 <= k < |tries| && k < best ==> maxLoad < MaxLoad(tries[k].vias)
      invariant found || TooMany(p, sorted, used, numberOfVias)
      decreases most + 1 - numberOfVias, found
    {
      var vias, load, usedLinks;
      ghost var taken;
      found, vias, load, usedLinks, taken := TryLanes(p, sortedLinks, numberOfVias, used);
      if found {
        if load < maxLoad || viasFinal == [] {
          maxLoad, viasFinal, best := load, vias, |tries|;
        }
        OneMoreTry(p, sorted, least, tries, Attempt(taken, vias));
        used := usedLinks;
        numberOfVias := numberOfVias + 1;
        tries := tries + [Attempt(taken, vias)];
      }
    }
    assert Keeps(p, least, most, viasFinal, sorted, order, tries, best);
  }

  lemma {:induction false} NoneUsed(n: nat)
    ensures UsedBy(n, []) == seq(n, _ => false)
  {
  }

  lemma {:induction false} OneMoreTry(p: Connection, sorted: seq<Link>, least: nat, tries: seq<Attempt>, a: Attempt)
    requires AllTried(p, sorted, least, tries)
    requires Tried(p, sorted, UsedBy(|sorted|, tries), least + |tries|, a)
    ensures AllTried(p, sorted, least, tries + [a])
    ensures UsedBy(|sorted|, tries + [a]) == UsedAfter(UsedBy(|sorted|, tries), a.taken)
  {
    hide Tried;
    var more := tries + [a];
    assert more[..|tries|] == tries;
    forall k | 0 <= k < |tries|
      ensures more[..k] == tries[..k]
    {
    }
  }
}
