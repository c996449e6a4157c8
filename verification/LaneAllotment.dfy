/** What an allocation of links to lanes is, told over the links as they were given: their order, lanes, slots
    and loads, and the header that each lane has room for. */
module LaneAllotment {
  import opened Arith
  import opened Sorting
  import opened LaneAllocation
  import RouterTypes
  import Sums

  /** The words that a link's messages put on a lane, with a header on each */
  function Weight(l: Link, width: nat, header: nat): nat
    requires width > 0
  {
    l.activity * ((l.bitwidth + header + width - 1) / width)
  }

  /** Link i comes before link j: it is more active, or as active and narrower, in one common measure; or the two
      are equal in it and were given in this order. */
  predicate Earlier(unit: nat, links: seq<Link>, i: nat, j: nat)
    requires i < |links| && j < |links|
  {
    var a := 2048 * links[i].activity - unit * links[i].bitwidth;
    var b := 2048 * links[j].activity - unit * links[j].bitwidth;
    a > b || (a == b && i < j)
  }

  /** perm[i] is the link that was assigned as number i. */
  ghost predicate InPriority(unit: nat, links: seq<Link>, perm: seq<nat>) {
    Permutation(perm, |links|) && forall i, j :: 0 <= i < j < |perm| ==> Earlier(unit, links, perm[i], perm[j])
  }

  ghost predicate Assigned(links: seq<Link>, perm: seq<nat>, made: seq<Assignment>) {
    && |made| == |links| && Permutation(perm, |links|)
    && forall i :: 0 <= i < |made| ==>
         made[i].name == links[perm[i]].name && made[i].partner == links[perm[i]].partner
  }

  /** What the first n assignments put on lane v. */
  function Carried(links: seq<Link>, perm: seq<nat>, made: seq<Assignment>, v: nat, width: nat, header: nat,
                   n: nat): nat
    requires n <= |made| == |perm| && width > 0 && forall i :: 0 <= i < |perm| ==> perm[i] < |links|
  {
    if n == 0 then 0
    else
      Carried(links, perm, made, v, width, header, n - 1)
      + if made[n - 1].via == v then Weight(links[perm[n - 1]], width, header) else 0
  }

  /** How many of the first n assignments are to lane v. */
  function SlotsGiven(made: seq<Assignment>, v: nat, n: nat): nat
    requires n <= |made|
  {
    if n == 0 then 0 else SlotsGiven(made, v, n - 1) + if made[n - 1].via == v then 1 else 0
  }

  /** The widest of the links among the first n assignments to lane v; -1 if there is none. */
  function WidestOn(links: seq<Link>, perm: seq<nat>, made: seq<Assignment>, v: nat, n: nat): int
    requires n <= |made| == |perm| && forall i :: 0 <= i < |perm| ==> perm[i] < |links|
  {
    if n == 0 then -1
    else
      var before := WidestOn(links, perm, made, v, n - 1);
      if made[n - 1].via == v && links[perm[n - 1]].bitwidth > before then links[perm[n - 1]].bitwidth else before
  }

  /** The load of lane v if it also took the link of assignment i, after those before it. */
  function LoadIf(links: seq<Link>, perm: seq<nat>, made: seq<Assignment>, widths: seq<nat>, headers: seq<nat>,
                  i: nat, v: nat): nat
    requires i < |made| == |perm| && v < |widths| == |headers| && widths[v] > 0
    requires forall i :: 0 <= i < |perm| ==> perm[i] < |links|
  {
    Carried(links, perm, made, v, widths[v], headers[v], i) + Weight(links[perm[i]], widths[v], headers[v])
  }

  /** The header that a lane needs for its links: the given one, or all but the filler of the header that fits the
      lane and whose filler is nearest to 0 on either side. */
  ghost predicate NeedsHeader(mode: Mode, width: nat, links: nat, widest: int, h: nat) {
    match mode
    case Default(header) => h == header
    case Computed(aggressive) =>
      exists t ::
        && RouterTypes.Consistent(RouterTypes.Params(aggressive, width, links, widest), t) && h == width - t.filler
        && forall t' :: RouterTypes.Consistent(RouterTypes.Params(aggressive, width, links, widest), t') ==>
                          (t'.filler >= 0 ==> t.filler <= t'.filler) && (t'.filler <= 0 ==> t'.filler <= t.filler)
  }

  /** The reservation is at least the header that the lane needs. */
  ghost predicate Covers(mode: Mode, width: nat, links: nat, widest: int, reserved: nat) {
    exists h: nat :: NeedsHeader(mode, width, links, widest, h) && h <= reserved
  }

  /** The lane of assignment i is the first whose load would be least with its link. */
  ghost predicate LaneLeast(links: seq<Link>, perm: seq<nat>, made: seq<Assignment>, widths: seq<nat>,
                            headers: seq<nat>, i: nat)
    requires i < |made| == |perm| && |widths| == |headers| && forall v :: 0 <= v < |widths| ==> widths[v] > 0
    requires forall i :: 0 <= i < |perm| ==> perm[i] < |links|
  {
    var c := made[i].via;
    && c < |widths|
    && (forall v :: 0 <= v < |widths| ==>
          LoadIf(links, perm, made, widths, headers, i, c) <= LoadIf(links, perm, made, widths, headers, i, v))
    && (forall v :: 0 <= v < c ==>
          LoadIf(links, perm, made, widths, headers, i, c) < LoadIf(links, perm, made, widths, headers, i, v))
  }

  /** A finished allocation: every given link is assigned once, in the order of priority, to the first lane whose
      load would be least with it, at that lane's next slot; the lanes hold just these links, and each has
      reserved at least the header that it needs. */
  ghost predicate Allotted(mode: Mode, unit: nat, links: seq<Link>, widths: seq<nat>, r: Pass, headers: seq<nat>,
                           perm: seq<nat>)
  {
    && (forall v :: 0 <= v < |widths| ==> widths[v] > 0)
    && |r.vias| == |r.maxWidths| == |headers| == |widths|
    && InPriority(unit, links, perm) && Assigned(links, perm, r.made)
    && (forall i :: 0 <= i < |links| ==>
          && LaneLeast(links, perm, r.made, widths, headers, i)
          && r.made[i].link == SlotsGiven(r.made, r.made[i].via, i))
    && (forall v :: 0 <= v < |widths| ==>
          && r.vias[v] == Via(widths[v], Carried(links, perm, r.made, v, widths[v], headers[v], |links|),
                              SlotsGiven(r.made, v, |links|))
          && r.maxWidths[v] == WidestOn(links, perm, r.made, v, |links|)
          && Covers(mode, widths[v], r.vias[v].links, r.maxWidths[v], headers[v]))
  }

  // ----- the computed allocation is one -----

  lemma {:induction false} WeightIsCost(l: Link, width: nat, header: nat)
    requires width > 0
    ensures Weight(l, width, header) == Cost(l, width, header)
  {
    var x := l.bitwidth + header;
    var c := CeilDiv(x, width);
    CeilDivBounds(x, width);
    hide CeilDiv;
    if x == 0 {
      CeilDivLeast(0, width, 0);
    }
    Distribute(c, 1, width);
    DivModUnique(x + width - 1, c, x + width - 1 - c * width, width);
  }

  lemma {:induction false} PriorityOrder(unit: nat, links: seq<Link>) returns (perm: seq<nat>)
    ensures InPriority(unit, links, perm) && Rearranges(Sorted(unit, links), links, perm)
  {
    hide Priority, Earlier, SortBy, Permutation;
    var key := l => Priority(unit, l);
    perm := SortPositions(key, links);
    PermutationBounds(perm, |links|);
    forall i, j | 0 <= i < j < |perm|
      ensures Earlier(unit, links, perm[i], perm[j])
    {
      assert key(links[perm[i]]) == Priority(unit, links[perm[i]]);
      assert key(links[perm[j]]) == Priority(unit, links[perm[j]]);
      EarlierBy(unit, links, perm[i], perm[j]);
    }
  }

  lemma {:induction false} PermutationBounds(perm: seq<nat>, n: nat)
    requires Permutation(perm, n)
    ensures |perm| == n && forall i :: 0 <= i < n ==> perm[i] < n
  {
  }

  lemma {:induction false} EarlierBy(unit: nat, links: seq<Link>, i: nat, j: nat)
    requires i < |links| && j < |links|
    requires var a, b := Priority(unit, links[i]), Priority(unit, links[j]); a < b || (a == b && i < j)
    ensures Earlier(unit, links, i, j)
  {
    assert Priority(unit, links[i]) == -(2048 * links[i].activity - unit * links[i].bitwidth);
    assert Priority(unit, links[j]) == -(2048 * links[j].activity - unit * links[j].bitwidth);
  }

  lemma {:induction false} RunPrefix(vias: seq<Via>, headers: seq<nat>, links: seq<Link>, n: nat, k: nat)
    requires Legal(vias, headers) && n <= k <= |links|
    ensures Run(vias, headers, links, n).made == Run(vias, headers, links, k).made[..n]
    decreases k
  {
    hide Run, Legal;
    if n < k {
      RunPrefix(vias, headers, links, n, k - 1);
      RunAppends(vias, headers, links, k);
    }
  }

  lemma {:induction false} RunAppends(vias: seq<Via>, headers: seq<nat>, links: seq<Link>, n: nat)
    requires Legal(vias, headers) && 0 < n <= |links|
    ensures Run(vias, headers, links, n).made[..n - 1] == Run(vias, headers, links, n - 1).made
  {
    hide Choice, Take, Legal;
  }

  lemma {:induction false} TakenLoad(v: Via, header: nat, l: Link)
    requires v.width > 0
    ensures LoadWith(v, header, l) == v.load + Cost(l, v.width, header)
  {
  }

  /** One step of the pass, lane by lane. */
  lemma {:induction false} RunStep(vias: seq<Via>, headers: seq<nat>, links: seq<Link>, n: nat, v: nat)
    requires Legal(vias, headers) && 0 < n <= |links| && v < |vias|
    ensures var before, r, l := Run(vias, headers, links, n - 1), Run(vias, headers, links, n), links[n - 1];
            var a := r.made[n - 1];
            && a.name == l.name && a.partner == l.partner && a.via < |vias| && a.link == before.vias[a.via].links
            && FirstLeast(before.vias, headers, l, |vias|, a.via)
            && r.vias[v].width == before.vias[v].width
            && (a.via != v ==> r.vias[v] == before.vias[v] && r.maxWidths[v] == before.maxWidths[v])
            && (a.via == v ==>
                  && r.vias[v].load == before.vias[v].load + Cost(l, vias[v].width, headers[v])
                  && r.vias[v].links == before.vias[v].links + 1
                  && r.maxWidths[v] == Max(before.maxWidths[v], l.bitwidth))
  {
    hide Cost, LoadWith;
    TakenLoad(Run(vias, headers, links, n - 1).vias[Run(vias, headers, links, n).made[n - 1].via],
              headers[Run(vias, headers, links, n).made[n - 1].via], links[n - 1]);
  }

  /** What the pass knows of lane v after n links. */
  ghost predicate LaneIs(vias: seq<Via>, headers: seq<nat>, links: seq<Link>, perm: seq<nat>, made: seq<Assignment>,
                         r: Pass, n: nat, v: nat)
    requires Legal(vias, headers) && v < |vias| && |r.vias| == |r.maxWidths| == |vias|
    requires n <= |made| == |perm| && forall i :: 0 <= i < |perm| ==> perm[i] < |links|
  {
    && r.vias[v] == Via(vias[v].width, Carried(links, perm, made, v, vias[v].width, headers[v], n),
                        SlotsGiven(made, v, n))
    && r.maxWidths[v] == WidestOn(links, perm, made, v, n)
  }

  /** sorted is the list that the pass goes through. */
  ghost predicate Ready(vias: seq<Via>, headers: seq<nat>, links: seq<Link>, sorted: seq<Link>, perm: seq<nat>) {
    Legal(vias, headers) && Fresh(vias) && Rearranges(sorted, links, perm)
  }

  lemma {:induction false} RunLanes(vias: seq<Via>, headers: seq<nat>, links: seq<Link>, sorted: seq<Link>,
                                    perm: seq<nat>, n: nat, v: nat)
    requires Ready(vias, headers, links, sorted, perm) && n <= |sorted| && v < |vias|
    ensures LaneIs(vias, headers, links, perm, Run(vias, headers, sorted, |sorted|).made,
                   Run(vias, headers, sorted, n), n, v)
  {
    hide Run, Cost, Weight, Legal, FirstLeast;
    if n > 0 {
      RunLanes(vias, headers, links, sorted, perm, n - 1, v);
      RunStep(vias, headers, sorted, n, v);
      RunPrefix(vias, headers, sorted, n, |sorted|);
      LegalWidth(vias, headers, v);
      WeightIsCost(sorted[n - 1], vias[v].width, headers[v]);
    } else {
      RunNone(vias, headers, sorted, v);
    }
  }

  lemma {:induction false} LegalWidth(vias: seq<Via>, headers: seq<nat>, v: nat)
    requires Legal(vias, headers) && v < |vias|
    ensures |headers| == |vias| && vias[v].width > 0
  {
  }

  function WidthsOf(vias: seq<Via>): (r: seq<nat>)
    ensures |r| == |vias|
  {
    seq(|vias|, v requires 0 <= v < |vias| => vias[v].width)
  }

  lemma {:induction false} LoadsIf(vias: seq<Via>, headers: seq<nat>, links: seq<Link>, sorted: seq<Link>,
                                   perm: seq<nat>, i: nat, v: nat)
    requires Ready(vias, headers, links, sorted, perm) && i < |sorted| && v < |vias|
    ensures var before := Run(vias, headers, sorted, i);
            && |headers| == |vias| == |before.vias| && WidthsOf(vias)[v] > 0 && before.vias[v].width == vias[v].width
            && LoadIf(links, perm, Run(vias, headers, sorted, |sorted|).made, WidthsOf(vias), headers, i, v)
               == LoadWith(before.vias[v], headers[v], sorted[i])
  {
    hide Run, Cost, Weight, Carried;
    RunLanes(vias, headers, links, sorted, perm, i, v);
    LegalWidth(vias, headers, v);
    WeightIsCost(sorted[i], vias[v].width, headers[v]);
  }

  lemma {:induction false} AssignmentIs(vias: seq<Via>, headers: seq<nat>, links: seq<Link>, sorted: seq<Link>,
                                        perm: seq<nat>, i: nat)
    requires Ready(vias, headers, links, sorted, perm) && i < |sorted|
    ensures var made := Run(vias, headers, sorted, |sorted|).made;
            && made[i].name == links[perm[i]].name && made[i].partner == links[perm[i]].partner
            && (forall v :: 0 <= v < |vias| ==> WidthsOf(vias)[v] > 0)
            && LaneLeast(links, perm, made, WidthsOf(vias), headers, i)
            && made[i].link == SlotsGiven(made, made[i].via, i)
  {
    hide Run, Cost, Weight, Carried, LoadIf, LoadWith, FirstLeast;
    RunStep(vias, headers, sorted, i + 1, 0);
    RunPrefix(vias, headers, sorted, i + 1, |sorted|);
    var c := Run(vias, headers, sorted, |sorted|).made[i].via;
    RunLanes(vias, headers, links, sorted, perm, i, c);
    forall v | 0 <= v < |vias|
      ensures WidthsOf(vias)[v] > 0
      ensures LoadIf(links, perm, Run(vias, headers, sorted, |sorted|).made, WidthsOf(vias), headers, i, v)
              == LoadWith(Run(vias, headers, sorted, i).vias[v], headers[v], sorted[i])
    {
      LoadsIf(vias, headers, links, sorted, perm, i, v);
    }
    LeastBy(Run(vias, headers, sorted, i).vias, headers, sorted[i], links, perm,
            Run(vias, headers, sorted, |sorted|).made, WidthsOf(vias), i);
  }

  /** The choice of the pass, in terms of what the assignments so far carry. */
  lemma {:induction false} LeastBy(lanes: seq<Via>, headers: seq<nat>, l: Link, links: seq<Link>, perm: seq<nat>,
                                   made: seq<Assignment>, widths: seq<nat>, i: nat)
    requires Legal(lanes, headers) && i < |made| == |perm| && |widths| == |lanes|
    requires (forall v :: 0 <= v < |widths| ==> widths[v] > 0) && forall i :: 0 <= i < |perm| ==> perm[i] < |links|
    requires FirstLeast(lanes, headers, l, |lanes|, made[i].via)
    requires forall v :: 0 <= v < |widths| ==>
               LoadIf(links, perm, made, widths, headers, i, v) == LoadWith(lanes[v], headers[v], l)
    ensures LaneLeast(links, perm, made, widths, headers, i)
  {
    hide LoadIf, LoadWith;
  }

  lemma {:induction false} HeaderNeeded(mode: Mode, width: nat, links: nat, widest: int)
    requires width > 0
    ensures NeedsHeader(mode, width, links, widest, ActualHeader(mode, width, links, widest))
  {
    if mode.Computed? {
      hide RouterTypes.Consistent;
      var p := RouterTypes.Params(mode.aggressive, width, links, widest);
      RouterTypes.RouterTypeConsistent(p);
      forall t' | RouterTypes.Consistent(p, t')
        ensures t'.filler >= 0 ==> RouterTypes.RouterType(p).filler <= t'.filler
        ensures t'.filler <= 0 ==> t'.filler <= RouterTypes.RouterType(p).filler
      {
        RouterTypes.NearestConsistent(p, t');
      }
      assert ActualHeader(mode, width, links, widest) == width - RouterTypes.RouterType(p).filler;
    }
  }

  /** The allocation of the sorted links under the reservations that were finally made. */
  lemma {:induction false} AllocateAllots(mode: Mode, unit: nat, links: seq<Link>, vias: seq<Via>, headers: seq<nat>)
    returns (perm: seq<nat>)
    requires Legal(vias, headers) && Fresh(vias)
    ensures var r := Allocate(mode, vias, headers, Sorted(unit, links));
            Allotted(mode, unit, links, WidthsOf(vias), r.pass, r.headers, perm)
  {
    hide Run, Cost, Weight, Carried, LaneLeast, SlotsGiven, WidestOn, NeedsHeader, ActualHeader, Sorted, Allocate,
        Covers, Allotted, InPriority;
    perm := PriorityOrder(unit, links);
    var sorted := Sorted(unit, links);
    var r := Allocate(mode, vias, headers, sorted);
    forall i | 0 <= i < |links|
      ensures var made := r.pass.made;
              && made[i].name == links[perm[i]].name && made[i].partner == links[perm[i]].partner
              && LaneLeast(links, perm, made, WidthsOf(vias), r.headers, i)
              && made[i].link == SlotsGiven(made, made[i].via, i)
    {
      AssignmentIs(vias, r.headers, links, sorted, perm, i);
    }
    forall v | 0 <= v < |vias|
      ensures LaneIs(vias, r.headers, links, perm, r.pass.made, r.pass, |links|, v)
      ensures Covers(mode, vias[v].width, r.pass.vias[v].links, r.pass.maxWidths[v], r.headers[v])
    {
      RunLanes(vias, r.headers, links, sorted, perm, |sorted|, v);
      LegalWidth(vias, r.headers, v);
      assert RealHeader(mode, r.pass, v) <= r.headers[v];
      HeaderCovered(mode, r.pass, v, r.headers[v]);
    }
    assert Assigned(links, perm, r.pass.made);
    AllottedBy(mode, unit, links, WidthsOf(vias), r.pass, r.headers, perm);
  }

  lemma {:induction false} HeaderCovered(mode: Mode, r: Pass, v: nat, reserved: nat)
    requires v < |r.vias| == |r.maxWidths| && r.vias[v].width > 0 && RealHeader(mode, r, v) <= reserved
    ensures Covers(mode, r.vias[v].width, r.vias[v].links, r.maxWidths[v], reserved)
  {
    hide NeedsHeader, ActualHeader;
    HeaderNeeded(mode, r.vias[v].width, r.vias[v].links, r.maxWidths[v]);
  }

  /** The parts put together */
  lemma {:induction false} AllottedBy(mode: Mode, unit: nat, links: seq<Link>, widths: seq<nat>, r: Pass,
                                      headers: seq<nat>, perm: seq<nat>)
    requires forall v :: 0 <= v < |widths| ==> widths[v] > 0
    requires |r.vias| == |r.maxWidths| == |headers| == |widths|
    requires InPriority(unit, links, perm) && Assigned(links, perm, r.made)
    requires forall i :: 0 <= i < |links| ==>
               && LaneLeast(links, perm, r.made, widths, headers, i)
               && r.made[i].link == SlotsGiven(r.made, r.made[i].via, i)
    requires forall v :: 0 <= v < |widths| ==>
               && r.vias[v] == Via(widths[v], Carried(links, perm, r.made, v, widths[v], headers[v], |links|),
                                   SlotsGiven(r.made, v, |links|))
               && r.maxWidths[v] == WidestOn(links, perm, r.made, v, |links|)
               && Covers(mode, widths[v], r.vias[v].links, r.maxWidths[v], headers[v])
    ensures Allotted(mode, unit, links, widths, r, headers, perm)
  {
    hide LaneLeast, SlotsGiven, Carried, WidestOn, Covers;
  }

  // ----- how the reservations grew -----

  /** From one pass to the next every reservation becomes the header that its lane needed there, if that is more;
      only passes in which some reservation was too small are repeated. */
  ghost predicate Climb(mode: Mode, vias: seq<Via>, links: seq<Link>, tried: seq<seq<nat>>)
  {
    && tried != [] && (forall k :: 0 <= k < |tried| ==> Legal(vias, tried[k]))
    && forall k :: 0 <= k < |tried| - 1 ==> Grows(mode, Run(vias, tried[k], links, |links|), tried[k], tried[k + 1])
  }

  ghost predicate Grows(mode: Mode, r: Pass, headers: seq<nat>, next: seq<nat>)
    requires Legal(r.vias, headers) && |r.maxWidths| == |r.vias|
  {
    && |next| == |headers|
    && (forall v :: 0 <= v < |headers| ==>
          next[v] == if RealHeader(mode, r, v) > headers[v] then RealHeader(mode, r, v) else headers[v])
    && exists v :: 0 <= v < |headers| && RealHeader(mode, r, v) > headers[v]
  }

  lemma {:induction false} AllocationClimbs(mode: Mode, vias: seq<Via>, headers: seq<nat>, links: seq<Link>)
    returns (tried: seq<seq<nat>>)
    requires Legal(vias, headers) && Fresh(vias)
    ensures Climb(mode, vias, links, tried) && tried[0] == headers
    ensures tried[|tried| - 1] == Allocate(mode, vias, headers, links).headers
    decreases Sums.Sum(Slack(mode, vias, links, headers))
  {
    hide Run, RealHeader, Slack, Sums.Sum;
    var pass := Run(vias, headers, links, |links|);
    if Covered(mode, pass, headers) {
      tried := [headers];
    } else {
      SlackFalls(mode, vias, headers, links);
      var next := GrownHeaders(mode, pass, headers);
      var later := AllocationClimbs(mode, vias, next, links);
      tried := [headers] + later;
      assert Grows(mode, pass, headers, next);
    }
  }
}
