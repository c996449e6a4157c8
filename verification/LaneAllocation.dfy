/** The longest-job-first allocation of links to the lanes of a connection: each link goes to the lane
    whose load would be least with it, and the whole pass is repeated with larger header reservations
    until every reservation covers the header that the lane really needs.

    Activities and loads are exact: an activity is a number of units, `unit` units being one message. */
module LaneAllocation {
  import opened Arith
  import opened Sums
  import opened Sorting
  import RouterTypes

  /** name and partner are the two ends of the connection. */
  datatype Link = Link(name: nat, partner: nat, activity: nat, bitwidth: nat)

  datatype Via = Via(width: nat, load: nat, links: nat)

  /** Both ends of a connection get the same lane and slot. */
  datatype Assignment = Assignment(name: nat, partner: nat, via: nat, link: nat)

  /** Either all headers are given, or they are computed per lane. */
  datatype Mode = Default(header: nat) | Computed(aggressive: bool)

  ghost predicate Legal(vias: seq<Via>, headers: seq<nat>) {
    && |vias| == |headers| > 0
    && forall v :: 0 <= v < |vias| ==> vias[v].width > 0
  }

  function Priority(unit: nat, l: Link): int {
    l.activity * -2048 + l.bitwidth * unit
  }

  function Sorted(unit: nat, links: seq<Link>): (r: seq<Link>)
    ensures |r| == |links|
  {
    SortBy(l => Priority(unit, l), links)
  }

  // ----- one pass -----

  function Cost(l: Link, width: nat, header: nat): nat
    requires width > 0
  {
    l.activity * CeilDiv(l.bitwidth + header, width)
  }

  /** The lane's load if it took the link. */
  function LoadWith(v: Via, header: nat, l: Link): nat
    requires v.width > 0
  {
    v.load + Cost(l, v.width, header)
  }

  /** Lane c is the first of the first n lanes whose load with the link is least. */
  ghost predicate FirstLeast(vias: seq<Via>, headers: seq<nat>, l: Link, n: nat, c: nat)
    requires Legal(vias, headers) && n <= |vias|
  {
    && c < n
    && (forall v :: 0 <= v < n ==> LoadWith(vias[c], headers[c], l) <= LoadWith(vias[v], headers[v], l))
    && (forall v :: 0 <= v < c ==> LoadWith(vias[c], headers[c], l) < LoadWith(vias[v], headers[v], l))
  }

  function Choice(vias: seq<Via>, headers: seq<nat>, l: Link, n: nat): (c: nat)
    requires Legal(vias, headers) && 0 < n <= |vias|
    ensures FirstLeast(vias, headers, l, n, c)
  {
    if n == 1 then 0
    else
      var c := Choice(vias, headers, l, n - 1);
      if LoadWith(vias[n - 1], headers[n - 1], l) < LoadWith(vias[c], headers[c], l) then n - 1 else c
  }

  /** The lanes, the assignments in order, and the widest link of each lane (-1 without links). */
  datatype Pass = Pass(vias: seq<Via>, made: seq<Assignment>, maxWidths: seq<int>)

  function Take(v: Via, header: nat, l: Link): Via
    requires v.width > 0
  {
    Via(v.width, LoadWith(v, header, l), v.links + 1)
  }

  /** The state of the pass after the first n links. */
  function Run(vias: seq<Via>, headers: seq<nat>, links: seq<Link>, n: nat): (r: Pass)
    requires Legal(vias, headers) && n <= |links|
    ensures Legal(r.vias, headers) && |r.made| == n && |r.maxWidths| == |r.vias|
    ensures forall v :: 0 <= v < |vias| ==> r.vias[v].width == vias[v].width
  {
    if n == 0 then Pass(vias, [], seq(|vias|, _ => -1))
    else
      var before := Run(vias, headers, links, n - 1);
      var l := links[n - 1];
      var c := Choice(before.vias, headers, l, |vias|);
      Pass(before.vias[c := Take(before.vias[c], headers[c], l)],
           before.made + [Assignment(l.name, l.partner, c, before.vias[c].links)],
           before.maxWidths[c := Max(before.maxWidths[c], l.bitwidth)])
  }

  // ----- the load of a lane, and how it compares with any other assignment -----

  /** What lane v carries under an assignment of links to lanes. */
  function LaneLoad(links: seq<Link>, lanes: seq<nat>, v: nat, width: nat, header: nat): nat
    requires |lanes| == |links| && width > 0
  {
    if links == [] then 0
    else
      var last := |links| - 1;
      LaneLoad(links[..last], lanes[..last], v, width, header)
      + if lanes[last] == v then Cost(links[last], width, header) else 0
  }

  function LanesOf(made: seq<Assignment>): (r: seq<nat>)
    ensures |r| == |made|
  {
    seq(|made|, i requires 0 <= i < |made| => made[i].via)
  }

  /** One more link adds its cost to the load of its lane. */
  lemma {:induction false} LoadAdds(vias: seq<Via>, headers: seq<nat>, links: seq<Link>, n: nat, v: nat)
    requires Legal(vias, headers) && 0 < n <= |links| && v < |vias|
    ensures var before, r := Run(vias, headers, links, n - 1), Run(vias, headers, links, n);
            && r.vias[v].load == before.vias[v].load
                                 + (if r.made[n - 1].via == v then Cost(links[n - 1], vias[v].width, headers[v]) else 0)
            && LanesOf(r.made)[..n - 1] == LanesOf(before.made)
  {
    hide Cost, Choice;
  }

  lemma {:induction false} LaneLoadPrefix(links: seq<Link>, n: nat, lanes: seq<nat>, v: nat, width: nat, header: nat)
    requires 0 < n <= |links| && |lanes| == n && width > 0
    ensures LaneLoad(links[..n], lanes, v, width, header)
            == LaneLoad(links[..n - 1], lanes[..n - 1], v, width, header)
               + if lanes[n - 1] == v then Cost(links[n - 1], width, header) else 0
  {
    hide Cost;
    assert links[..n][..n - 1] == links[..n - 1];
  }

  /** A lane's load is what it had plus the sum of its links' activity times chunks. */
  lemma {:induction false} LoadIsSum(vias: seq<Via>, headers: seq<nat>, links: seq<Link>, n: nat, v: nat)
    requires Legal(vias, headers) && n <= |links| && v < |vias|
    ensures var r := Run(vias, headers, links, n);
            r.vias[v].load == vias[v].load + LaneLoad(links[..n], LanesOf(r.made), v, vias[v].width, headers[v])
  {
    if n > 0 {
      LoadIsSum(vias, headers, links, n - 1, v);
      LoadAdds(vias, headers, links, n, v);
      hide Cost, Run, LaneLoad, LanesOf;
      LaneLoadPrefix(links, n, LanesOf(Run(vias, headers, links, n).made), v, vias[v].width, headers[v]);
    } else {
      assert LanesOf(Run(vias, headers, links, 0).made) == [];
    }
  }

  function LeastCost(vias: seq<Via>, headers: seq<nat>, l: Link, n: nat): nat
    requires Legal(vias, headers) && 0 < n <= |vias|
  {
    var here := Cost(l, vias[n - 1].width, headers[n - 1]);
    if n == 1 then here else Min(here, LeastCost(vias, headers, l, n - 1))
  }

  lemma {:induction false} LeastCostBound(vias: seq<Via>, headers: seq<nat>, l: Link, n: nat) returns (c: nat)
    requires Legal(vias, headers) && 0 < n <= |vias|
    ensures forall v :: 0 <= v < n ==> LeastCost(vias, headers, l, n) <= Cost(l, vias[v].width, headers[v])
    ensures c < n && LeastCost(vias, headers, l, n) == Cost(l, vias[c].width, headers[c])
  {
    hide Cost;
    if n == 1 {
      c := 0;
    } else {
      c := LeastCostBound(vias, headers, l, n - 1);
      if Cost(l, vias[n - 1].width, headers[n - 1]) < Cost(l, vias[c].width, headers[c]) {
        c := n - 1;
      }
    }
  }

  /** What the links would cost if each had the lane that is cheapest for it alone. */
  function Cheapest(vias: seq<Via>, headers: seq<nat>, links: seq<Link>): nat
    requires Legal(vias, headers)
  {
    if links == [] then 0
    else Cheapest(vias, headers, links[..|links| - 1]) + LeastCost(vias, headers, links[|links| - 1], |vias|)
  }

  lemma {:induction false} LeastCostFrame(vias: seq<Via>, vias': seq<Via>, headers: seq<nat>, l: Link, n: nat)
    requires Legal(vias, headers) && Legal(vias', headers) && 0 < n <= |vias|
    requires forall v :: 0 <= v < |vias| ==> vias[v].width == vias'[v].width
    ensures LeastCost(vias, headers, l, n) == LeastCost(vias', headers, l, n)
  {
    if n > 1 {
      LeastCostFrame(vias, vias', headers, l, n - 1);
    }
  }

  /** No lane ends up with more than the cheapest costs together. */
  lemma {:induction false} GreedyLoad(vias: seq<Via>, headers: seq<nat>, links: seq<Link>, n: nat)
    requires Legal(vias, headers) && n <= |links|
    requires forall v :: 0 <= v < |vias| ==> vias[v].load == 0
    ensures forall v :: 0 <= v < |vias| ==>
                          Run(vias, headers, links, n).vias[v].load <= Cheapest(vias, headers, links[..n])
  {
    hide Run, Cheapest, Legal;
    if n > 0 {
      GreedyLoad(vias, headers, links, n - 1);
      GreedyStep(vias, headers, links, n, Run(vias, headers, links, n - 1), Cheapest(vias, headers, links[..n - 1]));
      CheapestNext(vias, headers, links, n);
    } else {
      RunFirst(vias, headers, links);
    }
  }

  lemma {:induction false} RunFirst(vias: seq<Via>, headers: seq<nat>, links: seq<Link>)
    requires Legal(vias, headers)
    ensures Run(vias, headers, links, 0).vias == vias
  {
  }

  lemma {:induction false} CheapestNext(vias: seq<Via>, headers: seq<nat>, links: seq<Link>, n: nat)
    requires Legal(vias, headers) && 0 < n <= |links|
    ensures Cheapest(vias, headers, links[..n])
            == Cheapest(vias, headers, links[..n - 1]) + LeastCost(vias, headers, links[n - 1], |vias|)
  {
    hide LeastCost;
    assert links[..n][..n - 1] == links[..n - 1];
  }

  /** The lane that takes the next link is no heavier than the lane that is cheapest for it would be. */
  lemma {:induction false} GreedyStep(vias: seq<Via>, headers: seq<nat>, links: seq<Link>, n: nat, before: Pass,
                                     most: nat)
    requires Legal(vias, headers) && 0 < n <= |links| && before == Run(vias, headers, links, n - 1)
    requires forall v :: 0 <= v < |vias| ==> before.vias[v].load <= most
    ensures forall v :: 0 <= v < |vias| ==>
                          Run(vias, headers, links, n).vias[v].load
                          <= most + LeastCost(vias, headers, links[n - 1], |vias|)
  {
    hide Cost, LeastCost, Choice;
    var l := links[n - 1];
    LeastCostFrame(vias, before.vias, headers, l, |vias|);
    var _ := LeastCostBound(before.vias, headers, l, |vias|);
  }

  /** What an assignment's lanes carry together. */
  function LoadsUpTo(vias: seq<Via>, headers: seq<nat>, links: seq<Link>, lanes: seq<nat>, n: nat): nat
    requires Legal(vias, headers) && |lanes| == |links| && n <= |vias|
  {
    if n == 0 then 0
    else LoadsUpTo(vias, headers, links, lanes, n - 1)
         + LaneLoad(links, lanes, n - 1, vias[n - 1].width, headers[n - 1])
  }

  lemma {:induction false} LoadsAddLink(vias: seq<Via>, headers: seq<nat>, links: seq<Link>, lanes: seq<nat>, n: nat)
    requires Legal(vias, headers) && |lanes| == |links| > 0 && n <= |vias|
    requires lanes[|lanes| - 1] < |vias|
    ensures var k := |links| - 1;
            var c := lanes[k];
            LoadsUpTo(vias, headers, links, lanes, n)
            == LoadsUpTo(vias, headers, links[..k], lanes[..k], n)
               + if c < n then Cost(links[k], vias[c].width, headers[c]) else 0
  {
    hide Cost;
    if n > 0 {
      LoadsAddLink(vias, headers, links, lanes, n - 1);
    }
  }

  /** Every assignment pays at least the cheapest cost of every link. */
  lemma {:induction false} CheapestIsLeast(vias: seq<Via>, headers: seq<nat>, links: seq<Link>, lanes: seq<nat>)
    requires Legal(vias, headers) && |lanes| == |links|
    requires forall i :: 0 <= i < |lanes| ==> lanes[i] < |vias|
    ensures Cheapest(vias, headers, links) <= LoadsUpTo(vias, headers, links, lanes, |vias|)
  {
    if links != [] {
      var k := |links| - 1;
      CheapestIsLeast(vias, headers, links[..k], lanes[..k]);
      var _ := LeastCostBound(vias, headers, links[k], |vias|);
      LoadsAddLink(vias, headers, links, lanes, |vias|);
      hide Cost, LeastCost, LoadsUpTo;
    }
  }

  lemma {:induction false} LoadsBounded(vias: seq<Via>, headers: seq<nat>, links: seq<Link>, lanes: seq<nat>,
                                        n: nat, most: nat)
    requires Legal(vias, headers) && |lanes| == |links| && n <= |vias|
    requires forall v :: 0 <= v < |vias| ==> LaneLoad(links, lanes, v, vias[v].width, headers[v]) <= most
    ensures LoadsUpTo(vias, headers, links, lanes, n) <= n * most
  {
    hide LaneLoad;
    if n > 0 {
      LoadsBounded(vias, headers, links, lanes, n - 1, most);
      Distribute(n - 1, 1, most);
    }
  }

  /** The busiest lane carries at most the number of lanes times what the busiest lane of any other
      assignment carries under the same headers. */
  lemma {:induction false} GreedyAgainstAny(vias: seq<Via>, headers: seq<nat>, links: seq<Link>, lanes: seq<nat>,
                                        most: nat, v: nat)
    requires Legal(vias, headers) && |lanes| == |links| && v < |vias|
    requires forall u :: 0 <= u < |vias| ==> vias[u].load == 0
    requires forall i :: 0 <= i < |lanes| ==> lanes[i] < |vias|
    requires forall u :: 0 <= u < |vias| ==> LaneLoad(links, lanes, u, vias[u].width, headers[u]) <= most
    ensures Run(vias, headers, links, |links|).vias[v].load <= |vias| * most
  {
    GreedyLoad(vias, headers, links, |links|);
    CheapestIsLeast(vias, headers, links, lanes);
    LoadsBounded(vias, headers, links, lanes, |vias|, most);
    assert links[..|links|] == links;
    hide Run, Cheapest, LoadsUpTo, LaneLoad, Legal;
  }

  // ----- slots -----

  /** Each lane's slots 0, 1, ... are given out once each, in order. */
  ghost predicate SlotsFilled(r: Pass) {
    && (forall i :: 0 <= i < |r.made| ==> r.made[i].via < |r.vias| && r.made[i].link < r.vias[r.made[i].via].links)
    && (forall i, j :: 0 <= i < j < |r.made| && r.made[i].via == r.made[j].via ==> r.made[i].link < r.made[j].link)
    && (forall v, k: nat :: 0 <= v < |r.vias| && k < r.vias[v].links ==> Holder(r, v, k))
  }

  ghost predicate Holder(r: Pass, v: nat, k: nat) {
    exists i :: 0 <= i < |r.made| && r.made[i].via == v && r.made[i].link == k
  }

  /** Giving the next slot of lane c to a new link. */
  ghost predicate NextSlot(before: Pass, r: Pass, c: nat) {
    && c < |before.vias| == |r.vias|
    && |r.made| == |before.made| + 1 && r.made[..|before.made|] == before.made
    && r.made[|before.made|].via == c && r.made[|before.made|].link == before.vias[c].links
    && r.vias[c].links == before.vias[c].links + 1
    && forall v :: 0 <= v < |r.vias| && v != c ==> r.vias[v] == before.vias[v]
  }

  lemma {:induction false} NextSlotHolder(before: Pass, r: Pass, c: nat, v: nat, k: nat)
    requires NextSlot(before, r, c) && SlotsFilled(before) && v < |r.vias| && k < r.vias[v].links
    ensures Holder(r, v, k)
  {
    if v == c && k == before.vias[c].links {
      assert r.made[|before.made|].link == k;
    } else {
      assert Holder(before, v, k);
      var i :| 0 <= i < |before.made| && before.made[i].via == v && before.made[i].link == k;
      assert r.made[i] == r.made[..|before.made|][i];
    }
  }

  lemma {:induction false} NextSlotKeeps(before: Pass, r: Pass, c: nat)
    requires NextSlot(before, r, c) && SlotsFilled(before)
    ensures SlotsFilled(r)
  {
    forall v, k: nat | 0 <= v < |r.vias| && k < r.vias[v].links
      ensures Holder(r, v, k)
    {
      NextSlotHolder(before, r, c, v, k);
    }
    hide Holder;
    forall i | 0 <= i < |before.made|
      ensures r.made[i] == before.made[i]
    {
      assert r.made[i] == r.made[..|before.made|][i];
    }
  }

  lemma {:induction false} RunFillsSlots(vias: seq<Via>, headers: seq<nat>, links: seq<Link>, n: nat)
    requires Legal(vias, headers) && n <= |links|
    requires forall v :: 0 <= v < |vias| ==> vias[v].links == 0
    ensures SlotsFilled(Run(vias, headers, links, n))
  {
    hide Run, SlotsFilled, NextSlot;
    if n > 0 {
      RunFillsSlots(vias, headers, links, n - 1);
      var c := RunGivesSlot(vias, headers, links, n);
      NextSlotKeeps(Run(vias, headers, links, n - 1), Run(vias, headers, links, n), c);
    } else {
      RunStartsEmpty(vias, headers, links);
    }
  }

  lemma {:induction false} RunStartsEmpty(vias: seq<Via>, headers: seq<nat>, links: seq<Link>)
    requires Legal(vias, headers) && forall v :: 0 <= v < |vias| ==> vias[v].links == 0
    ensures SlotsFilled(Run(vias, headers, links, 0))
  {
  }

  lemma {:induction false} RunGivesSlot(vias: seq<Via>, headers: seq<nat>, links: seq<Link>, n: nat) returns (c: nat)
    requires Legal(vias, headers) && 0 < n <= |links|
    ensures NextSlot(Run(vias, headers, links, n - 1), Run(vias, headers, links, n), c)
  {
    hide Choice, LoadWith, Max;
    var before := Run(vias, headers, links, n - 1);
    c := Choice(before.vias, headers, links[n - 1], |vias|);
    assert Run(vias, headers, links, n).made[..n - 1] == before.made;
  }

  // ----- header growth -----

  /** The header that a lane with these links really needs */
  function ActualHeader(mode: Mode, width: nat, links: nat, maxWidth: int): (h: nat)
    requires width > 0
  {
    match mode
    case Default(header) => header
    case Computed(aggressive) =>
      var p := RouterTypes.Params(aggressive, width, links, maxWidth);
      RouterTypes.HeaderBounds(p);
      width - RouterTypes.Filler(p)
  }

  function Widest(links: seq<Link>): nat {
    if links == [] then 0 else Max(Widest(links[..|links| - 1]), links[|links| - 1].bitwidth)
  }

  /** No lane's header can outgrow this. */
  function HeaderLimit(mode: Mode, width: nat, links: seq<Link>): nat {
    match mode
    case Default(header) => header
    case Computed(_) => width + 2 * (|links| + Widest(links) + 13)
  }

  lemma {:induction false} WidestPrefix(links: seq<Link>, n: nat)
    requires 0 < n <= |links|
    ensures Widest(links[..n]) == Max(Widest(links[..n - 1]), links[n - 1].bitwidth)
  {
    assert links[..n][..n - 1] == links[..n - 1];
  }

  /** One more link adds at most one slot to a lane, and its width counts only there. */
  lemma {:induction false} RunNext(vias: seq<Via>, headers: seq<nat>, links: seq<Link>, n: nat, v: nat)
    requires Legal(vias, headers) && 0 < n <= |links| && v < |vias|
    ensures var before, r := Run(vias, headers, links, n - 1), Run(vias, headers, links, n);
            && r.vias[v].links <= before.vias[v].links + 1
            && (|| r.maxWidths[v] == before.maxWidths[v]
                || r.maxWidths[v] == Max(before.maxWidths[v], links[n - 1].bitwidth))
  {
    hide Cost, Choice;
  }

  lemma {:induction false} RunNone(vias: seq<Via>, headers: seq<nat>, links: seq<Link>, v: nat)
    requires Legal(vias, headers) && v < |vias|
    ensures var r := Run(vias, headers, links, 0); r.vias[v] == vias[v] && r.maxWidths[v] == -1
  {
  }

  lemma {:induction false} RunBounds(vias: seq<Via>, headers: seq<nat>, links: seq<Link>, n: nat, v: nat)
    requires Legal(vias, headers) && n <= |links| && v < |vias| && vias[v].links == 0
    ensures var r := Run(vias, headers, links, n);
            r.vias[v].links <= n && -1 <= r.maxWidths[v] <= Widest(links[..n])
  {
    hide Run, Widest, Legal;
    if n == 0 {
      RunNone(vias, headers, links, v);
    } else {
      RunBounds(vias, headers, links, n - 1, v);
      WidestPrefix(links, n);
      RunNext(vias, headers, links, n, v);
    }
  }

  function RealHeader(mode: Mode, r: Pass, v: nat): nat
    requires v < |r.vias| == |r.maxWidths| && r.vias[v].width > 0
  {
    ActualHeader(mode, r.vias[v].width, r.vias[v].links, r.maxWidths[v])
  }

  lemma {:induction false} RealHeaderBounded(mode: Mode, vias: seq<Via>, headers: seq<nat>, links: seq<Link>, v: nat)
    requires Legal(vias, headers) && v < |vias| && vias[v].links == 0
    ensures RealHeader(mode, Run(vias, headers, links, |links|), v) <= HeaderLimit(mode, vias[v].width, links)
  {
    RunBounds(vias, headers, links, |links|, v);
    assert links[..|links|] == links;
    var r := Run(vias, headers, links, |links|);
    if mode.Computed? {
      RouterTypes.HeaderBounds(RouterTypes.Params(mode.aggressive, vias[v].width, r.vias[v].links, r.maxWidths[v]));
    }
  }

  /** Reservations never shrink. */
  function GrownHeaders(mode: Mode, r: Pass, headers: seq<nat>): (next: seq<nat>)
    requires Legal(r.vias, headers) && |r.maxWidths| == |r.vias|
    ensures |next| == |headers|
    ensures forall v :: 0 <= v < |next| ==> next[v] == Max(RealHeader(mode, r, v), headers[v])
  {
    seq(|headers|, v requires 0 <= v < |headers| => Max(RealHeader(mode, r, v), headers[v]))
  }

  /** Every reservation covers its lane's real header. */
  predicate Covered(mode: Mode, r: Pass, headers: seq<nat>)
    requires |r.vias| == |headers| == |r.maxWidths|
    requires forall v :: 0 <= v < |r.vias| ==> r.vias[v].width > 0
  {
    forall v :: 0 <= v < |headers| ==> RealHeader(mode, r, v) <= headers[v]
  }

  /** What the reservations can still grow. */
  function Slack(mode: Mode, vias: seq<Via>, links: seq<Link>, headers: seq<nat>): (r: seq<nat>)
    requires |vias| == |headers|
  {
    seq(|vias|, v requires 0 <= v < |vias| =>
      if headers[v] < HeaderLimit(mode, vias[v].width, links) then HeaderLimit(mode, vias[v].width, links) - headers[v]
      else 0)
  }

  ghost predicate Fresh(vias: seq<Via>) {
    forall v :: 0 <= v < |vias| ==> vias[v].load == 0 && vias[v].links == 0
  }

  /** If some reservation is too small and every real header is within its limit, growing the reservations
      leaves them less to grow. */
  lemma {:induction false} GrowthUsesSlack(mode: Mode, vias: seq<Via>, headers: seq<nat>, links: seq<Link>, r: Pass)
    requires Legal(r.vias, headers) && |r.maxWidths| == |r.vias| == |vias|
    requires forall v :: 0 <= v < |vias| ==> RealHeader(mode, r, v) <= HeaderLimit(mode, vias[v].width, links)
    requires !Covered(mode, r, headers)
    ensures Sum(Slack(mode, vias, links, GrownHeaders(mode, r, headers))) < Sum(Slack(mode, vias, links, headers))
  {
    hide RealHeader, HeaderLimit, Sum;
    var next := GrownHeaders(mode, r, headers);
    var k :| 0 <= k < |headers| && RealHeader(mode, r, k) > headers[k];
    SumStrict(Slack(mode, vias, links, next), Slack(mode, vias, links, headers), k);
  }

  lemma {:induction false} SlackFalls(mode: Mode, vias: seq<Via>, headers: seq<nat>, links: seq<Link>)
    requires Legal(vias, headers) && Fresh(vias)
    requires !Covered(mode, Run(vias, headers, links, |links|), headers)
    ensures var next := GrownHeaders(mode, Run(vias, headers, links, |links|), headers);
            Sum(Slack(mode, vias, links, next)) < Sum(Slack(mode, vias, links, headers))
  {
    hide Run, RealHeader, HeaderLimit, Sum, Slack, Covered;
    var r := Run(vias, headers, links, |links|);
    forall v | 0 <= v < |vias|
      ensures RealHeader(mode, r, v) <= HeaderLimit(mode, vias[v].width, links)
    {
      RealHeaderBounded(mode, vias, headers, links, v);
    }
    GrowthUsesSlack(mode, vias, headers, links, r);
  }

  /** The pass that is kept, and the reservations under which it was made. */
  datatype Result = Result(pass: Pass, headers: seq<nat>)

  function Allocate(mode: Mode, vias: seq<Via>, headers: seq<nat>, links: seq<Link>): (r: Result)
    requires Legal(vias, headers) && Fresh(vias)
    ensures Legal(vias, r.headers) && r.pass == Run(vias, r.headers, links, |links|)
    ensures Covered(mode, r.pass, r.headers)
    ensures forall v :: 0 <= v < |vias| ==> headers[v] <= r.headers[v]
    decreases Sum(Slack(mode, vias, links, headers))
  {
    var pass := Run(vias, headers, links, |links|);
    if Covered(mode, pass, headers) then Result(pass, headers)
    else
      SlackFalls(mode, vias, headers, links);
      Allocate(mode, vias, GrownHeaders(mode, pass, headers), links)
  }

  /** What the returned allocation guarantees: every reservation covers its lane's real header, every link
      has one slot of one lane and every slot one link, and a lane's load is the sum of its links'
      activity times their chunks under the reservation that was finally made. */
  lemma {:induction false} AllocationSound(mode: Mode, vias: seq<Via>, headers: seq<nat>, links: seq<Link>)
    requires Legal(vias, headers) && Fresh(vias)
    ensures var r := Allocate(mode, vias, headers, links);
            && SlotsFilled(r.pass)
            && forall v :: 0 <= v < |vias| ==>
                 && RealHeader(mode, r.pass, v) <= r.headers[v]
                 && r.pass.vias[v].load == LaneLoad(links, LanesOf(r.pass.made), v, vias[v].width, r.headers[v])
  {
    hide Run, Allocate, RealHeader, SlotsFilled, LaneLoad;
    var r := Allocate(mode, vias, headers, links);
    RunFillsSlots(vias, r.headers, links, |links|);
    forall v | 0 <= v < |vias|
      ensures r.pass.vias[v].load == LaneLoad(links, LanesOf(r.pass.made), v, vias[v].width, r.headers[v])
    {
      LoadIsSum(vias, r.headers, links, |links|, v);
      assert links[..|links|] == links;
    }
  }
}
