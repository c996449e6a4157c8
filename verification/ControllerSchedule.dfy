/** The assignment of clients to controllers as the program runs it, and what it does told without its helpers:
    which client goes where, in what order, and what stands in each controller's ring. */
module ControllerSchedule {
  import opened Arith
  import opened Sums
  import opened Sorting
  import opened ControllerBalance

  // ----- the outcome, told client by client -----

  /** The client is spread over several controllers. */
  predicate Spreads(m: nat, c: Client) {
    m > 1 && |c.partition| > 0
  }

  function Parts(m: nat, c: Client): nat {
    if Spreads(m, c) then |c.partition| else 1
  }

  /** The traffic that the client brings to the controller of its part i */
  function PartTraffic(m: nat, c: Client, i: nat): nat
    requires i < Parts(m, c)
  {
    if !Spreads(m, c) then c.traffic
    else if Sum(c.partition) == 0 then 0
    else c.partition[i] * c.traffic / Sum(c.partition)
  }

  /** The client's stops at controller v, its first n parts being at the controllers of `place`. */
  function StopsOf(m: nat, c: Client, place: seq<nat>, v: nat, n: nat): seq<Stop>
    requires n <= |place| == Parts(m, c)
  {
    if n == 0 then []
    else
      StopsOf(m, c, place, v, n - 1) + if place[n - 1] == v then [Stop(c.id, PartTraffic(m, c, n - 1))] else []
  }

  ghost predicate Matching(m: nat, order: seq<Client>, places: seq<seq<nat>>) {
    |places| == |order| && forall j :: 0 <= j < |order| ==> |places[j]| == Parts(m, order[j])
  }

  /** All stops at controller v, client by client */
  function Ring(m: nat, order: seq<Client>, places: seq<seq<nat>>, v: nat): seq<Stop>
    requires Matching(m, order, places)
  {
    if order == [] then []
    else
      var last := |order| - 1;
      Ring(m, order[..last], places[..last], v) + StopsOf(m, order[last], places[last], v, |places[last]|)
  }

  function RingsAfter(m: nat, order: seq<Client>, places: seq<seq<nat>>): (r: seq<seq<Stop>>)
    requires Matching(m, order, places)
    ensures |r| == m
  {
    seq(m, v requires 0 <= v < m => Ring(m, order, places, v))
  }

  function Totals(rings: seq<seq<Stop>>): (r: seq<nat>)
    ensures |r| == |rings|
  {
    seq(|rings|, v requires 0 <= v < |rings| => RingTraffic(rings[v]))
  }

  /** Where the next client goes, given what stands in the rings: a client that is spread to as many distinct
      controllers as it has parts, the least loaded first and none of the others less loaded; any other client to
      the least loaded controller, or without traffic to the one with the fewest stops. Smaller numbers go
      first. */
  ghost predicate WellPlaced(m: nat, rings: seq<seq<Stop>>, c: Client, place: seq<nat>)
    requires |rings| == m
  {
    && |place| == Parts(m, c) && (forall i :: 0 <= i < |place| ==> place[i] < m)
    && (Spreads(m, c) ==>
          && (forall i, j :: 0 <= i < j < |place| ==> Before(Totals(rings), place[i], place[j]))
          && (forall v, i :: 0 <= v < m && v !in place && 0 <= i < |place| ==> Before(Totals(rings), place[i], v)))
    && (!Spreads(m, c) && c.traffic > 0 ==>
          forall v :: 0 <= v < m && v != place[0] ==> Before(Totals(rings), place[0], v))
    && (!Spreads(m, c) && c.traffic == 0 ==>
          && (forall v :: 0 <= v < m ==> |rings[place[0]]| <= |rings[v]|)
          && (forall v :: 0 <= v < place[0] ==> |rings[place[0]]| < |rings[v]|))
  }

  /** Client after client, each is placed by what those before it have left in the rings. */
  ghost predicate Scheduled(m: nat, order: seq<Client>, places: seq<seq<nat>>) {
    && Matching(m, order, places)
    && forall j :: 0 <= j < |order| ==>
         WellPlaced(m, RingsAfter(m, order[..j], places[..j]), order[j], places[j])
  }

  /** The clients that are spread come first, and among either kind the traffic descends. */
  ghost predicate InTurn(m: nat, order: seq<Client>) {
    forall i, j :: 0 <= i < j < |order| ==>
                     && (Spreads(m, order[j]) ==> Spreads(m, order[i]))
                     && (Spreads(m, order[i]) == Spreads(m, order[j]) ==> order[i].traffic >= order[j].traffic)
  }

  /** The source stops with an exception on such a client. */
  predicate Unusable(m: nat, c: Client) {
    Spreads(m, c) && (Sum(c.partition) == 0 || |c.partition| > m)
  }

  lemma {:induction false} ScheduleGrows(m: nat, order: seq<Client>, places: seq<seq<nat>>, c: Client, place: seq<nat>)
    requires Scheduled(m, order, places) && WellPlaced(m, RingsAfter(m, order, places), c, place)
    ensures Scheduled(m, order + [c], places + [place])
    ensures forall v :: 0 <= v < m ==>
              RingsAfter(m, order + [c], places + [place])[v]
              == RingsAfter(m, order, places)[v] + StopsOf(m, c, place, v, |place|)
  {
    hide WellPlaced, StopsOf;
    PlacedParts(m, RingsAfter(m, order, places), c, place);
    var longer, at := order + [c], places + [place];
    assert longer[..|order|] == order && at[..|order|] == places;
    forall j | 0 <= j < |longer|
      ensures WellPlaced(m, RingsAfter(m, longer[..j], at[..j]), longer[j], at[j])
    {
      if j < |order| {
        assert longer[..j] == order[..j] && at[..j] == places[..j];
      }
    }
  }

  lemma {:induction false} PlacedParts(m: nat, rings: seq<seq<Stop>>, c: Client, place: seq<nat>)
    requires |rings| == m && WellPlaced(m, rings, c, place)
    ensures |place| == Parts(m, c)
  {
  }

  // ----- the two kinds of clients -----

  lemma {:induction false} AccountedTotals(net: Network)
    requires Accounted(net)
    ensures net.total == Totals(net.rings)
  {
  }

  /** Each share stands in the ring of the controller that was picked for it. */
  lemma {:induction false} SharesInRings(m: nat, net: Network, c: Client, picks: seq<nat>, n: nat, v: nat)
    requires Spreads(m, c) && Sum(c.partition) > 0 && n <= |picks| == |c.partition|
    requires |net.total| == |net.rings| == m && v < m && forall i :: 0 <= i < |picks| ==> picks[i] < m
    ensures AddShares(net, c.id, Shares(c), picks, n).rings[v] == net.rings[v] + StopsOf(m, c, picks, v, n)
  {
    hide Sum;
    if n > 0 {
      SharesInRings(m, net, c, picks, n - 1, v);
    }
  }

  lemma {:induction false} SpreadPlaces(m: nat, net: Network, c: Client) returns (place: seq<nat>)
    requires Spreads(m, c) && Accounted(net) && |net.total| == |net.rings| == m && Spread(net, c).Done?
    ensures WellPlaced(m, net.rings, c, place) && place == LeastLoaded(net.total, |c.partition|)
    ensures var after := Spread(net, c).network;
            && Accounted(after) && |after.rings| == m
            && forall v :: 0 <= v < m ==> after.rings[v] == net.rings[v] + StopsOf(m, c, place, v, |place|)
  {
    SpreadAccounted(net, c);
    AccountedTotals(net);
    place := LeastLoaded(net.total, |c.partition|);
    LeastLoadedFirst(net.total, |c.partition|);
    hide LeastLoaded, Sum, Accounted, AddShares, StopsOf;
    forall v | 0 <= v < m
      ensures Spread(net, c).network.rings[v] == net.rings[v] + StopsOf(m, c, place, v, |place|)
    {
      SharesInRings(m, net, c, place, |place|, v);
    }
  }

  lemma {:induction false} RestPlaces(m: nat, net: Network, c: Client)
    requires !Spreads(m, c) && Accounted(net) && |net.total| == |net.rings| == m > 0
    ensures var place := [RestIndex(net, c.traffic)];
            && WellPlaced(m, net.rings, c, place)
            && Accounted(PlaceRest(net, c))
            && forall v :: 0 <= v < m ==> PlaceRest(net, c).rings[v] == net.rings[v] + StopsOf(m, c, place, v, 1)
  {
    hide Accounted, RestIndex, Totals, Before;
    AccountedTotals(net);
    RestFirst(net, c.traffic);
    AddStopAccounted(net, RestIndex(net, c.traffic), Stop(c.id, c.traffic));
    StopsWhole(m, c, RestIndex(net, c.traffic));
  }

  lemma {:induction false} RestFirst(net: Network, traffic: nat)
    requires |net.total| == |net.rings| > 0
    ensures var idx := RestIndex(net, traffic);
            && (traffic > 0 ==> forall v :: 0 <= v < |net.total| && v != idx ==> Before(net.total, idx, v))
            && (traffic == 0 ==>
                  && (forall v :: 0 <= v < |net.rings| ==> |net.rings[idx]| <= |net.rings[v]|)
                  && (forall v :: 0 <= v < idx ==> |net.rings[idx]| < |net.rings[v]|))
  {
    hide IndexOfMin;
    var counts := RingLengths(net);
    assert forall v :: 0 <= v < |net.rings| ==> counts[v] == |net.rings[v]|;
  }

  lemma {:induction false} StopsWhole(m: nat, c: Client, idx: nat)
    requires !Spreads(m, c)
    ensures forall v :: StopsOf(m, c, [idx], v, 1) == if v == idx then [Stop(c.id, c.traffic)] else []
  {
    forall v
      ensures StopsOf(m, c, [idx], v, 1) == if v == idx then [Stop(c.id, c.traffic)] else []
    {
      assert StopsOf(m, c, [idx], v, 0) == [];
    }
  }

  // ----- the loops -----

  lemma {:induction false} AddSharesNext(net: Network, id: nat, shares: seq<nat>, picks: seq<nat>, n: nat,
                                        total: seq<nat>, rings: seq<seq<Stop>>)
    requires n < |shares| == |picks| && |net.total| == |net.rings| == |total| == |rings|
    requires forall i :: 0 <= i < |picks| ==> picks[i] < |net.total|
    requires Network(total, rings) == AddShares(net, id, shares, picks, n)
    ensures var idx := picks[n];
            Network(total[idx := total[idx] + shares[n]], rings[idx := rings[idx] + [Stop(id, shares[n])]])
            == AddShares(net, id, shares, picks, n + 1)
  {
  }

  /** The controller for share i, and the list with that controller marked. */
  method NextPick(tmp: seq<int>, mins: seq<nat>, i: nat, ghost picks: seq<nat>) returns (idx: nat, marked: seq<int>)
    requires i < |mins| == |picks| && Available(tmp, mins[i..]) && Picks(tmp, mins[i..]) == picks[i..]
    ensures idx == picks[i] && idx < |tmp| == |marked|
    ensures Available(marked, mins[i + 1..]) && Picks(marked, mins[i + 1..]) == picks[i + 1..]
  {
    FirstAvailable(tmp, mins[i..]);
    assert mins[i..][1..] == mins[i + 1..];
    idx := IndexOf(tmp, mins[i]);
    marked := tmp[idx := -1];
    hide IndexOf, Available;
    assert picks[i..][0] == picks[i] && picks[i..][1..] == picks[i + 1..];
  }

  /** The least loaded controllers take one client's shares, the largest load first met for each value. */
  method SpreadClient(net: Network, c: Client) returns (r: Outcome, controllerIdx: seq<nat>)
    requires |net.total| == |net.rings|
    ensures r == Spread(net, c)
    ensures r.Done? ==> |c.partition| <= |net.total| && controllerIdx == LeastLoaded(net.total, |c.partition|)
  {
    if Sum(c.partition) == 0 {
      return Raises, [];
    }
    var bandwidth := Shares(c);
    var tmp := AsInts(net.total);
    if |bandwidth| > |net.total| {
      return Raises, [];
    }
    var mins := Ascending(net.total)[..|bandwidth|];
    LeastAvailable(net.total, |bandwidth|);
    LeastLoadedLeast(net.total, |bandwidth|);
    hide Ascending, Shares, Sum, AddShares, Available, Picks, AsInts;
    ghost var picks := LeastLoaded(net.total, |bandwidth|);
    assert picks == Picks(tmp, mins);
    var after;
    after, controllerIdx := GiveShares(net, c.id, bandwidth, tmp, mins, picks);
    r := Done(after);
  }

  /** The loop over the shares. */
  method GiveShares(net: Network, id: nat, bandwidth: seq<nat>, marks: seq<int>, mins: seq<nat>, ghost picks: seq<nat>)
    returns (after: Network, controllerIdx: seq<nat>)
    requires |net.total| == |net.rings| == |marks| && |bandwidth| == |mins| == |picks|
    requires forall i :: 0 <= i < |picks| ==> picks[i] < |net.total|
    requires Available(marks, mins) && Picks(marks, mins) == picks
    ensures after == AddShares(net, id, bandwidth, picks, |bandwidth|) && controllerIdx == picks
  {
    hide AddShares, Available, Picks;
    AddNoShares(net, id, bandwidth, picks);
    var total: seq<nat>, rings := net.total, net.rings;
    var tmp := marks;
    controllerIdx := [];
    assert mins[0..] == mins && picks[0..] == picks;
    for i := 0 to |bandwidth|
      invariant |total| == |rings| == |net.total| && |tmp| == |total|
      invariant Network(total, rings) == AddShares(net, id, bandwidth, picks, i)
      invariant Available(tmp, mins[i..]) && Picks(tmp, mins[i..]) == picks[i..]
      invariant controllerIdx == picks[..i]
    {
      AddSharesNext(net, id, bandwidth, picks, i, total, rings);
      var idx;
      idx, tmp := NextPick(tmp, mins, i, picks);
      controllerIdx := controllerIdx + [idx];
      rings := rings[idx := rings[idx] + [Stop(id, bandwidth[i])]];
      total := total[idx := total[idx] + bandwidth[i]];
    }
    after := Network(total, rings);
  }

  lemma {:induction false} AddNoShares(net: Network, id: nat, shares: seq<nat>, picks: seq<nat>)
    requires |shares| == |picks| && |net.total| == |net.rings|
    requires forall i :: 0 <= i < |picks| ==> picks[i] < |net.total|
    ensures AddShares(net, id, shares, picks, 0) == net
  {
  }

  /** Picking the clients of one kind keeps their order. */
  lemma {:induction false} SelectKeeps(m: nat, clients: seq<Client>, kind: bool)
    requires ByTraffic(clients)
    ensures var r := Select(m, clients, kind);
            ByTraffic(r) && forall c :: c in r ==> Spreads(m, c) == kind && c in clients
  {
    if clients != [] {
      var k := |clients| - 1;
      SelectKeeps(m, clients[..k], kind);
      var r, rest := Select(m, clients, kind), Select(m, clients[..k], kind);
      forall i, j | 0 <= i < j < |r|
        ensures r[i].traffic >= r[j].traffic
      {
        if j == |rest| {
          assert r[i] == rest[i] && rest[i] in clients[..k];
        }
      }
    }
  }

  /** The two kinds are all. */
  lemma {:induction false} SelectAll(m: nat, clients: seq<Client>)
    ensures multiset(Select(m, clients, true)) + multiset(Select(m, clients, false)) == multiset(clients)
  {
    if clients != [] {
      var k := |clients| - 1;
      SelectAll(m, clients[..k]);
      assert clients == clients[..k] + [clients[k]];
    }
  }

  /** Those that are spread, and then the others, are all clients in turn. */
  lemma {:induction false} OrderInTurn(m: nat, clients: seq<Client>)
    ensures var sorted := Descending(clients);
            var spread, rest := Select(m, sorted, true), Select(m, sorted, false);
            && multiset(spread + rest) == multiset(clients) && InTurn(m, spread + rest)
            && (forall i :: 0 <= i < |spread| ==> Spreads(m, spread[i]))
            && (forall i :: 0 <= i < |rest| ==> !Spreads(m, rest[i]))
  {
    hide Select, Descending, Spreads, ByTraffic, InTurn;
    var sorted := Descending(clients);
    DescendingSorted(clients);
    SelectKeeps(m, sorted, true);
    SelectKeeps(m, sorted, false);
    SelectAll(m, sorted);
    var spread, rest := Select(m, sorted, true), Select(m, sorted, false);
    forall i | 0 <= i < |spread|
      ensures Spreads(m, spread[i])
    {
      assert spread[i] in spread;
    }
    forall i | 0 <= i < |rest|
      ensures !Spreads(m, rest[i])
    {
      assert rest[i] in rest;
    }
    JoinedInTurn(m, spread, rest);
  }

  lemma {:induction false} JoinedInTurn(m: nat, spread: seq<Client>, rest: seq<Client>)
    requires ByTraffic(spread) && ByTraffic(rest)
    requires forall i :: 0 <= i < |spread| ==> Spreads(m, spread[i])
    requires forall i :: 0 <= i < |rest| ==> !Spreads(m, rest[i])
    ensures InTurn(m, spread + rest)
  {
    hide Spreads;
    var order, n := spread + rest, |spread|;
    forall i, j | 0 <= i < j < |order|
      ensures Spreads(m, order[j]) ==> Spreads(m, order[i])
      ensures Spreads(m, order[i]) == Spreads(m, order[j]) ==> order[i].traffic >= order[j].traffic
    {
      assert order[i] == (if i < n then spread[i] else rest[i - n]);
      assert order[j] == (if j < n then spread[j] else rest[j - n]);
    }
  }

  /** Both loops over the sorted clients. The outcome, told without the functions that compute it: an exception
      exactly if some client cannot be spread; otherwise all clients in turn, each with its controllers, every
      ring holding exactly the stops of the clients that have it among theirs, and the totals of those stops. */
  method BandwidthPartition(m: nat, clients: seq<Client>)
    returns (r: Outcome, order: seq<Client>, controllerIdx: seq<seq<nat>>)
    requires m > 0
    ensures r == Partition(m, clients)
    ensures r.Raises? <==> exists c :: c in clients && Unusable(m, c)
    ensures r.Done? ==>
              && multiset(order) == multiset(clients) && InTurn(m, order) && Scheduled(m, order, controllerIdx)
              && r.network.rings == RingsAfter(m, order, controllerIdx)
              && r.network.total == Totals(r.network.rings)
  {
    hide Select, Descending, Unusable, WellPlaced, Scheduled, Accounted, RingsAfter, Spreads,
        SpreadAll, PlaceAllRest, InTurn;
    var sorted := Descending(clients);
    var spread, rest := Select(m, sorted, true), Select(m, sorted, false);
    OrderInTurn(m, clients);
    r, controllerIdx := SpreadClients(m, spread);
    AllUnusable(m, clients, spread, rest);
    if r.Raises? {
      return Raises, [], [];
    }
    r, controllerIdx := PlaceClients(m, spread, controllerIdx, r.network, rest);
    AccountedTotals(r.network);
    order := spread + rest;
  }

  lemma {:induction false} AllUnusable(m: nat, clients: seq<Client>, spread: seq<Client>, rest: seq<Client>)
    requires multiset(spread + rest) == multiset(clients) && forall i :: 0 <= i < |rest| ==> !Spreads(m, rest[i])
    ensures (exists c :: c in clients && Unusable(m, c)) <==> exists c :: c in spread && Unusable(m, c)
  {
    forall c | c in clients && Unusable(m, c)
      ensures c in spread
    {
      assert c in multiset(spread + rest);
    }
    forall c | c in spread
      ensures c in clients
    {
      assert c in spread + rest;
      assert c in multiset(clients);
    }
  }

  /** The first loop: clients that are spread. */
  method SpreadClients(m: nat, spread: seq<Client>) returns (r: Outcome, controllerIdx: seq<seq<nat>>)
    requires m > 0 && forall i :: 0 <= i < |spread| ==> Spreads(m, spread[i])
    ensures r == SpreadAll(Empty(m), spread, |spread|)
    ensures r.Raises? <==> exists c :: c in spread && Unusable(m, c)
    ensures r.Done? ==>
              && |r.network.total| == |r.network.rings| == m && Accounted(r.network)
              && Scheduled(m, spread, controllerIdx) && r.network.rings == RingsAfter(m, spread, controllerIdx)
  {
    hide Spread, Unusable, WellPlaced, Scheduled, Accounted, RingsAfter, Spreads, SpreadAll;
    var net := Empty(m);
    controllerIdx := [];
    NothingScheduled(m);
    SpreadNone(net, spread);
    for i := 0 to |spread|
      invariant |net.total| == |net.rings| == m && Accounted(net)
      invariant SpreadAll(Empty(m), spread, i) == Done(net)
      invariant forall j :: 0 <= j < i ==> !Unusable(m, spread[j])
      invariant Scheduled(m, spread[..i], controllerIdx) && Matching(m, spread[..i], controllerIdx)
      invariant net.rings == RingsAfter(m, spread[..i], controllerIdx)
    {
      var after, place := SpreadClient(net, spread[i]);
      SpreadRaises(m, net, spread[i]);
      SpreadNext(Empty(m), spread, i);
      if after.Raises? {
        StaysRaised(Empty(m), spread, i + 1, |spread|);
        return Raises, [];
      }
      NextSpread(m, net, spread[..i], controllerIdx, spread[i]);
      assert spread[..i + 1] == spread[..i] + [spread[i]];
      controllerIdx, net := controllerIdx + [place], after.network;
    }
    assert spread[..|spread|] == spread;
    r := Done(net);
  }

  lemma {:induction false} SpreadNone(net: Network, clients: seq<Client>)
    requires |net.total| == |net.rings|
    ensures SpreadAll(net, clients, 0) == Done(net)
  {
  }

  lemma {:induction false} SpreadNext(net: Network, clients: seq<Client>, n: nat)
    requires |net.total| == |net.rings| && n < |clients|
    ensures var before := SpreadAll(net, clients, n);
            SpreadAll(net, clients, n + 1) == if before.Raises? then Raises else Spread(before.network, clients[n])
  {
    hide Spread;
  }

  /** The second loop: the others. */
  method PlaceClients(m: nat, spread: seq<Client>, places: seq<seq<nat>>, net: Network, rest: seq<Client>)
    returns (r: Outcome, controllerIdx: seq<seq<nat>>)
    requires m > 0 && |net.total| == |net.rings| == m && Accounted(net)
    requires forall i :: 0 <= i < |rest| ==> !Spreads(m, rest[i])
    requires Scheduled(m, spread, places) && net.rings == RingsAfter(m, spread, places)
    ensures r == Done(PlaceAllRest(net, rest, |rest|)) && Accounted(r.network)
    ensures Scheduled(m, spread + rest, controllerIdx)
    ensures r.network.rings == RingsAfter(m, spread + rest, controllerIdx)
  {
    hide WellPlaced, Accounted, RingsAfter, Spreads, RestIndex;
    var total: seq<nat>, rings := net.total, net.rings;
    controllerIdx := places;
    assert spread + rest[..0] == spread;
    for i := 0 to |rest|
      invariant |total| == |rings| == m && Accounted(Network(total, rings))
      invariant Network(total, rings) == PlaceAllRest(net, rest, i)
      invariant Scheduled(m, spread + rest[..i], controllerIdx)
      invariant rings == RingsAfter(m, spread + rest[..i], controllerIdx)
    {
      hide Scheduled;
      var c := rest[i];
      var idx := RestIndex(Network(total, rings), c.traffic);
      NextRest(m, Network(total, rings), spread + rest[..i], controllerIdx, c);
      assert spread + rest[..i + 1] == spread + rest[..i] + [c];
      total := total[idx := total[idx] + c.traffic];
      rings := rings[idx := rings[idx] + [Stop(c.id, c.traffic)]];
      controllerIdx := controllerIdx + [[idx]];
    }
    assert rest[..|rest|] == rest;
    r := Done(Network(total, rings));
  }

  lemma {:induction false} NothingScheduled(m: nat)
    ensures Matching(m, [], []) && Scheduled(m, [], []) && Accounted(Empty(m))
    ensures Empty(m).rings == RingsAfter(m, [], [])
  {
  }

  lemma {:induction false} SpreadRaises(m: nat, net: Network, c: Client)
    requires |net.total| == |net.rings| == m && Spreads(m, c)
    ensures Spread(net, c).Raises? <==> Unusable(m, c)
  {
    hide Spread;
  }

  lemma {:induction false} NextSpread(m: nat, net: Network, order: seq<Client>, places: seq<seq<nat>>, c: Client)
    requires Spreads(m, c) && Accounted(net) && |net.total| == |net.rings| == m && Spread(net, c).Done?
    requires Scheduled(m, order, places) && net.rings == RingsAfter(m, order, places)
    ensures |c.partition| <= m
    ensures var after, at := Spread(net, c).network, places + [LeastLoaded(net.total, |c.partition|)];
            && Matching(m, order + [c], at) && Scheduled(m, order + [c], at)
            && Accounted(after) && after.rings == RingsAfter(m, order + [c], at)
  {
    hide Spread, WellPlaced, Accounted, StopsOf, LeastLoaded, Spreads, Ring;
    var place := SpreadPlaces(m, net, c);
    ScheduleGrows(m, order, places, c, place);
  }

  lemma {:induction false} NextRest(m: nat, net: Network, order: seq<Client>, places: seq<seq<nat>>, c: Client)
    requires !Spreads(m, c) && Accounted(net) && |net.total| == |net.rings| == m > 0
    requires Scheduled(m, order, places) && net.rings == RingsAfter(m, order, places)
    ensures var after, at := PlaceRest(net, c), places + [[RestIndex(net, c.traffic)]];
            && Matching(m, order + [c], at) && Scheduled(m, order + [c], at)
            && Accounted(after) && after.rings == RingsAfter(m, order + [c], at)
  {
    hide PlaceRest, WellPlaced, Accounted, StopsOf, RestIndex, Spreads, Ring;
    RestPlaces(m, net, c);
    ScheduleGrows(m, order, places, c, [RestIndex(net, c.traffic)]);
  }

  lemma {:induction false} StaysRaised(net: Network, clients: seq<Client>, n: nat, k: nat)
    requires |net.total| == |net.rings| && n <= k <= |clients| && SpreadAll(net, clients, n).Raises?
    ensures SpreadAll(net, clients, k).Raises?
  {
    hide Spread;
    if n < k {
      StaysRaised(net, clients, n, k - 1);
    }
  }
}
