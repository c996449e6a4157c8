/** Assigning scratchpad clients to memory controllers: in order of descending traffic, clients with a
    partition spread over the least loaded controllers, and every other client goes to the least loaded one.
    Traffic is a count of requests, and the division is the integer division of counts. */
module ControllerBalance {
  import opened Arith
  import opened Sums
  import opened Sorting

  datatype Client = Client(id: nat, traffic: nat, partition: seq<nat>)

  /** One client's presence at a controller, with the traffic it brings there. */
  datatype Stop = Stop(id: nat, share: nat)

  datatype Network = Network(total: seq<nat>, rings: seq<seq<Stop>>)

  datatype Outcome = Raises | Done(network: Network)

  /** s.index(min(s)) */
  function IndexOfMin(s: seq<nat>): (r: nat)
    requires s != []
    ensures r < |s|
    ensures forall i :: 0 <= i < |s| ==> s[r] <= s[i]
    ensures forall i :: 0 <= i < r ==> s[r] < s[i]
  {
    if |s| == 1 then 0
    else
      var last := |s| - 1;
      var r := IndexOfMin(s[..last]);
      if s[last] < s[r] then last else r
  }

  function AddStop(net: Network, idx: nat, stop: Stop): (r: Network)
    requires idx < |net.total| == |net.rings|
    ensures |r.total| == |r.rings| == |net.total|
  {
    Network(net.total[idx := net.total[idx] + stop.share], net.rings[idx := net.rings[idx] + [stop]])
  }

  function RingLengths(net: Network): (r: seq<nat>)
    ensures |r| == |net.rings|
  {
    seq(|net.rings|, i requires 0 <= i < |net.rings| => |net.rings[i]|)
  }

  /** The controller of a client without partition: the least loaded, or for a client without traffic the one
      with the fewest stops. */
  function RestIndex(net: Network, traffic: nat): (r: nat)
    requires |net.total| == |net.rings| > 0
    ensures r < |net.total|
  {
    if traffic > 0 then IndexOfMin(net.total) else IndexOfMin(RingLengths(net))
  }

  function PlaceRest(net: Network, c: Client): (r: Network)
    requires |net.total| == |net.rings| > 0
    ensures |r.total| == |r.rings| == |net.total|
  {
    AddStop(net, RestIndex(net, c.traffic), Stop(c.id, c.traffic))
  }

  function PlaceAllRest(net: Network, clients: seq<Client>, n: nat): (r: Network)
    requires |net.total| == |net.rings| > 0 && n <= |clients|
    ensures |r.total| == |r.rings| == |net.total|
  {
    if n == 0 then net else PlaceRest(PlaceAllRest(net, clients, n - 1), clients[n - 1])
  }

  // ----- clients with a partition -----

  function Share(part: nat, traffic: nat, total: nat): nat
    requires total > 0
  {
    part * traffic / total
  }

  function Shares(c: Client): (r: seq<nat>)
    requires Sum(c.partition) > 0
    ensures |r| == |c.partition|
  {
    seq(|c.partition|, i requires 0 <= i < |c.partition| =>
      Share(c.partition[i], c.traffic, Sum(c.partition)))
  }

  function AsInts(s: seq<nat>): (r: seq<int>)
    ensures |r| == |s| && forall i :: 0 <= i < |s| ==> r[i] == s[i]
  {
    seq(|s|, i requires 0 <= i < |s| => s[i])
  }

  /** sorted(total) */
  function Ascending(s: seq<nat>): (r: seq<nat>)
    ensures |r| == |s|
  {
    SortBy((x: nat) => x as int, s)
  }

  /** tmp.index(x) */
  function IndexOf(tmp: seq<int>, x: int): (r: nat)
    requires x in tmp
    ensures r < |tmp| && tmp[r] == x && forall i :: 0 <= i < r ==> tmp[i] != x
  {
    if tmp[0] == x then 0 else 1 + IndexOf(tmp[1..], x)
  }

  /** A list of loads in which a used entry is -1 holds every one of the values still to be found. */
  ghost predicate Available(tmp: seq<int>, mins: seq<nat>) {
    multiset(AsInts(mins)) <= multiset(tmp)
  }

  lemma {:induction false} FirstAvailable(tmp: seq<int>, mins: seq<nat>)
    requires Available(tmp, mins) && mins != []
    ensures (mins[0] as int) in tmp
    ensures Available(tmp[IndexOf(tmp, mins[0]) := -1], mins[1..])
  {
    var ints := AsInts(mins);
    assert ints == [ints[0]] + AsInts(mins[1..]);
    assert ints[0] in multiset(tmp);
    assert -1 !in multiset(AsInts(mins[1..]));
  }

  /** The controllers chosen for the shares, one by one. */
  function Picks(tmp: seq<int>, mins: seq<nat>): (r: seq<nat>)
    requires Available(tmp, mins)
    ensures |r| == |mins|
    decreases |mins|
  {
    if mins == [] then []
    else
      FirstAvailable(tmp, mins);
      var idx := IndexOf(tmp, mins[0]);
      [idx] + Picks(tmp[idx := -1], mins[1..])
  }

  /** The controllers picked are distinct and each has the load that was looked for. */
  lemma {:induction false} PicksDistinct(tmp: seq<int>, mins: seq<nat>)
    requires Available(tmp, mins)
    ensures var r := Picks(tmp, mins);
            && (forall i :: 0 <= i < |r| ==> r[i] < |tmp| && tmp[r[i]] == mins[i])
            && (forall i, j :: 0 <= i < j < |r| ==> r[i] != r[j])
    decreases |mins|
  {
    if mins != [] {
      FirstAvailable(tmp, mins);
      PicksDistinct(tmp[IndexOf(tmp, mins[0]) := -1], mins[1..]);
    }
  }

  /** Each is the first of those with that load that are left. */
  lemma {:induction false} PicksFirst(tmp: seq<int>, mins: seq<nat>, i: nat, v: nat)
    requires Available(tmp, mins) && i < |mins| && v < |tmp| && tmp[v] == mins[i]
    requires v !in Picks(tmp, mins)[..i]
    ensures Picks(tmp, mins)[i] <= v
    decreases |mins|
  {
    FirstAvailable(tmp, mins);
    hide Available;
    var idx := IndexOf(tmp, mins[0]);
    var marked := tmp[idx := -1];
    var r, rest := Picks(tmp, mins), Picks(marked, mins[1..]);
    assert r == [idx] + rest;
    if i > 0 {
      assert r[..i] == [idx] + rest[..i - 1] && idx in r[..i];
      PicksFirst(marked, mins[1..], i - 1, v);
    }
  }

  lemma {:induction false} LeastAvailable(total: seq<nat>, k: nat)
    requires k <= |total|
    ensures Available(AsInts(total), Ascending(total)[..k])
  {
    var key := (x: nat) => x as int;
    SortBySorts(key, total);
    var sorted := Ascending(total);
    MultisetOfInts(total, sorted);
    assert AsInts(sorted) == AsInts(sorted[..k]) + AsInts(sorted[k..]);
  }

  lemma {:induction false} CountOfInts(s: seq<nat>, x: nat)
    ensures multiset(AsInts(s))[x] == multiset(s)[x]
  {
    if s != [] {
      CountOfInts(s[1..], x);
      assert s == [s[0]] + s[1..] && AsInts(s) == [s[0] as int] + AsInts(s[1..]);
    }
  }

  lemma {:induction false} MultisetOfInts(s: seq<nat>, t: seq<nat>)
    requires multiset(s) == multiset(t)
    ensures multiset(AsInts(s)) == multiset(AsInts(t))
  {
    forall x: int
      ensures multiset(AsInts(s))[x] == multiset(AsInts(t))[x]
    {
      if x >= 0 {
        CountOfInts(s, x);
        CountOfInts(t, x);
      } else {
        assert x !in AsInts(s) && x !in AsInts(t);
      }
    }
  }

  /** The least loaded controllers, least first. */
  function LeastLoaded(total: seq<nat>, k: nat): (r: seq<nat>)
    requires k <= |total|
    ensures |r| == k
  {
    LeastAvailable(total, k);
    Picks(AsInts(total), Ascending(total)[..k])
  }

  /** Controller u comes before v: it has less load, or the same and a smaller number. */
  predicate Before(total: seq<nat>, u: nat, v: nat)
    requires u < |total| && v < |total|
  {
    total[u] < total[v] || (total[u] == total[v] && u < v)
  }

  /** The first of the chosen controllers of equal load have the smaller numbers, and no other controller comes
      before a chosen one. */
  lemma {:induction false} LeastLoadedFirst(total: seq<nat>, k: nat)
    requires k <= |total|
    ensures var r := LeastLoaded(total, k);
            && (forall i :: 0 <= i < k ==> r[i] < |total|)
            && (forall i, j :: 0 <= i < j < k ==> Before(total, r[i], r[j]))
            && (forall v, i :: 0 <= v < |total| && v !in r && 0 <= i < k ==> Before(total, r[i], v))
  {
    hide LeastLoaded, Before;
    LeastLoadedLeast(total, k);
    var r := LeastLoaded(total, k);
    forall i, v | 0 <= i < k && 0 <= v < |total| && v !in r[..i] && v != r[i] && total[r[i]] <= total[v]
      ensures Before(total, r[i], v)
    {
      ChosenBefore(total, k, i, v);
    }
    forall i, j | 0 <= i < j < k
      ensures r[j] !in r[..i]
    {
    }
  }

  lemma {:induction false} ChosenBefore(total: seq<nat>, k: nat, i: nat, v: nat)
    requires i < k <= |total| && v < |total|
    requires var r := LeastLoaded(total, k); v !in r[..i] && v != r[i] && r[i] < |total| && total[r[i]] <= total[v]
    ensures Before(total, LeastLoaded(total, k)[i], v)
  {
    hide Available, Ascending, Picks;
    LeastAvailable(total, k);
    var mins := Ascending(total)[..k];
    PicksDistinct(AsInts(total), mins);
    if total[v] == mins[i] {
      PicksFirst(AsInts(total), mins, i, v);
    }
  }

  /** The chosen controllers are distinct, their loads ascend, and no other controller has less. */
  lemma {:induction false} LeastLoadedLeast(total: seq<nat>, k: nat)
    requires k <= |total|
    ensures var r := LeastLoaded(total, k);
            && (forall i :: 0 <= i < k ==> r[i] < |total|)
            && (forall i, j :: 0 <= i < j < k ==> r[i] != r[j] && total[r[i]] <= total[r[j]])
            && (forall v, i :: 0 <= v < |total| && v !in r && 0 <= i < k ==> total[r[i]] <= total[v])
  {
    var sorted := Ascending(total);
    var key := (x: nat) => x as int;
    SortBySorts(key, total);
    LeastAvailable(total, k);
    PicksDistinct(AsInts(total), sorted[..k]);
    var r := LeastLoaded(total, k);
    forall i | 0 <= i < k
      ensures r[i] < |total| && total[r[i]] == sorted[i]
    {
    }
    forall i, j | 0 <= i < j < |sorted|
      ensures sorted[i] <= sorted[j]
    {
      assert key(sorted[i]) <= key(sorted[j]);
    }
    forall v, i | 0 <= v < |total| && v !in r && 0 <= i < k
      ensures total[r[i]] <= total[v]
    {
      UnpickedNotLess(total, sorted, r, k, v);
    }
  }

  /** A controller that was not picked has a load that sorts after the picked ones. */
  lemma {:induction false} UnpickedNotLess(total: seq<nat>, sorted: seq<nat>, r: seq<nat>, k: nat, v: nat)
    requires multiset(sorted) == multiset(total) && |sorted| == |total| && k == |r| <= |total|
    requires forall i, j :: 0 <= i < j < |sorted| ==> sorted[i] <= sorted[j]
    requires forall i :: 0 <= i < k ==> r[i] < |total| && total[r[i]] == sorted[i]
    requires forall i, j :: 0 <= i < j < k ==> r[i] != r[j]
    requires v < |total| && v !in r
    ensures forall i :: 0 <= i < k ==> sorted[i] <= total[v]
  {
    var values := seq(k, i requires 0 <= i < k => total[r[i]]);
    assert values == sorted[..k];
    TakenCount(total, r, v, total[v]);
    assert multiset(sorted) == multiset(sorted[..k]) + multiset(sorted[k..]) by {
      assert sorted == sorted[..k] + sorted[k..];
    }
    assert total[v] in sorted[k..] by {
      assert multiset(sorted[k..])[total[v]] > 0;
    }
  }

  function Loads(total: seq<nat>, r: seq<nat>): (s: seq<nat>)
    requires forall i :: 0 <= i < |r| ==> r[i] < |total|
    ensures |s| == |r|
  {
    seq(|r|, i requires 0 <= i < |r| => total[r[i]])
  }

  /** Among distinct picked positions other than v, the value x = total[v] occurs less often than in total. */
  lemma {:induction false} TakenCount(total: seq<nat>, r: seq<nat>, v: nat, x: nat)
    requires forall i :: 0 <= i < |r| ==> r[i] < |total|
    requires forall i, j :: 0 <= i < j < |r| ==> r[i] != r[j]
    requires v < |total| && v !in r && total[v] == x
    ensures multiset(Loads(total, r))[x] < multiset(total)[x]
  {
    PositionsCount(total, [v] + r, x);
    assert Loads(total, [v] + r) == [x] + Loads(total, r);
  }

  /** Distinct positions hold a value at most as often as the whole sequence. */
  lemma {:induction false} PositionsCount(total: seq<nat>, r: seq<nat>, x: nat)
    requires forall i :: 0 <= i < |r| ==> r[i] < |total|
    requires forall i, j :: 0 <= i < j < |r| ==> r[i] != r[j]
    ensures multiset(Loads(total, r))[x] <= multiset(total)[x]
    decreases |r|
  {
    if r != [] {
      var last := |r| - 1;
      var marked := total[r[last] := x + 1];
      PositionsCount(marked, r[..last], x);
      assert Loads(marked, r[..last]) == Loads(total, r[..last]);
      assert Loads(total, r) == Loads(total, r[..last]) + [total[r[last]]];
    }
  }

  /** The first n shares go to their controllers. */
  function AddShares(net: Network, id: nat, shares: seq<nat>, picks: seq<nat>, n: nat): (r: Network)
    requires n <= |shares| == |picks| && |net.total| == |net.rings|
    requires forall i :: 0 <= i < |picks| ==> picks[i] < |net.total|
    ensures |r.total| == |r.rings| == |net.total|
  {
    if n == 0 then net else AddStop(AddShares(net, id, shares, picks, n - 1), picks[n - 1], Stop(id, shares[n - 1]))
  }

  /** Spreading one client; the source stops with an exception if its partition adds up to nothing or has
      more parts than there are controllers. */
  function Spread(net: Network, c: Client): (r: Outcome)
    requires |net.total| == |net.rings|
    ensures r.Raises? <==> Sum(c.partition) == 0 || |c.partition| > |net.total|
    ensures r.Done? ==> |r.network.total| == |r.network.rings| == |net.total|
  {
    if Sum(c.partition) == 0 || |c.partition| > |net.total| then Raises
    else
      var picks := LeastLoaded(net.total, |c.partition|);
      LeastLoadedLeast(net.total, |c.partition|);
      Done(AddShares(net, c.id, Shares(c), picks, |picks|))
  }

  function SpreadAll(net: Network, clients: seq<Client>, n: nat): (r: Outcome)
    requires |net.total| == |net.rings| && n <= |clients|
    ensures r.Done? ==> |r.network.total| == |r.network.rings| == |net.total|
  {
    if n == 0 then Done(net)
    else
      match SpreadAll(net, clients, n - 1)
      case Raises => Raises
      case Done(before) => Spread(before, clients[n - 1])
  }

  // ----- the whole assignment -----

  function Descending(clients: seq<Client>): (r: seq<Client>)
    ensures |r| == |clients|
  {
    SortBy((c: Client) => MinusTraffic(c), clients)
  }

  function MinusTraffic(c: Client): int {
    -(c.traffic as int)
  }

  ghost predicate ByTraffic(clients: seq<Client>) {
    forall i, j :: 0 <= i < j < |clients| ==> clients[i].traffic >= clients[j].traffic
  }

  lemma {:induction false} DescendingSorted(clients: seq<Client>)
    ensures ByTraffic(Descending(clients)) && multiset(Descending(clients)) == multiset(clients)
  {
    var key := (c: Client) => MinusTraffic(c);
    SortBySorts(key, clients);
    var s := Descending(clients);
    forall i, j | 0 <= i < j < |s|
      ensures s[i].traffic >= s[j].traffic
    {
      assert key(s[i]) <= key(s[j]);
    }
  }

  /** A single controller takes every client whole. */
  predicate IsPartitioned(m: nat, c: Client) {
    m > 1 && |c.partition| > 0
  }

  function Select(m: nat, clients: seq<Client>, partitioned: bool): (r: seq<Client>)
    ensures |r| <= |clients|
  {
    if clients == [] then []
    else
      var rest := Select(m, clients[..|clients| - 1], partitioned);
      var c := clients[|clients| - 1];
      if IsPartitioned(m, c) == partitioned then rest + [c] else rest
  }

  function Empty(m: nat): (r: Network)
    ensures |r.total| == |r.rings| == m
  {
    Network(seq(m, _ => 0), seq(m, _ => []))
  }

  function Partition(m: nat, clients: seq<Client>): (r: Outcome)
    requires m > 0
    ensures r.Done? ==> |r.network.total| == |r.network.rings| == m
  {
    var sorted := Descending(clients);
    var spread := Select(m, sorted, true);
    var rest := Select(m, sorted, false);
    match SpreadAll(Empty(m), spread, |spread|)
    case Raises => Raises
    case Done(net) => Done(PlaceAllRest(net, rest, |rest|))
  }

  // ----- total_bandwidth is the traffic in the ring stops -----

  function RingTraffic(ring: seq<Stop>): nat {
    if ring == [] then 0 else RingTraffic(ring[..|ring| - 1]) + ring[|ring| - 1].share
  }

  ghost predicate Accounted(net: Network) {
    |net.total| == |net.rings| && forall v :: 0 <= v < |net.total| ==> net.total[v] == RingTraffic(net.rings[v])
  }

  lemma {:induction false} AccountedSizes(net: Network)
    requires Accounted(net)
    ensures |net.total| == |net.rings|
  {
  }

  lemma {:induction false} AddStopAccounted(net: Network, idx: nat, stop: Stop)
    requires Accounted(net) && idx < |net.total|
    ensures Accounted(AddStop(net, idx, stop))
  {
    assert (net.rings[idx] + [stop])[..|net.rings[idx]|] == net.rings[idx];
  }

  lemma {:induction false} AddSharesAccounted(net: Network, id: nat, shares: seq<nat>, picks: seq<nat>, n: nat)
    requires n <= |shares| == |picks| && Accounted(net)
    requires forall i :: 0 <= i < |picks| ==> picks[i] < |net.total|
    ensures Accounted(AddShares(net, id, shares, picks, n))
  {
    if n > 0 {
      AddSharesAccounted(net, id, shares, picks, n - 1);
      AddStopAccounted(AddShares(net, id, shares, picks, n - 1), picks[n - 1], Stop(id, shares[n - 1]));
    }
  }

  lemma {:induction false} SpreadAllAccounted(net: Network, clients: seq<Client>, n: nat)
    requires Accounted(net) && n <= |clients|
    ensures |net.total| == |net.rings|
    ensures var r := SpreadAll(net, clients, n); r.Done? ==> Accounted(r.network)
  {
    AccountedSizes(net);
    hide Accounted, Spread;
    if n > 0 {
      SpreadAllAccounted(net, clients, n - 1);
      var before := SpreadAll(net, clients, n - 1);
      if before.Done? {
        SpreadAccounted(before.network, clients[n - 1]);
      }
    }
  }

  lemma {:induction false} SpreadAccounted(net: Network, c: Client)
    requires Accounted(net) && |net.total| == |net.rings|
    ensures var r := Spread(net, c); r.Done? ==> Accounted(r.network)
  {
    hide Accounted, LeastLoaded, AddShares, Shares, Sum;
    if Spread(net, c).Done? {
      LeastLoadedLeast(net.total, |c.partition|);
      AddSharesAccounted(net, c.id, Shares(c), LeastLoaded(net.total, |c.partition|), |c.partition|);
    }
  }

  lemma {:induction false} PlaceAllRestAccounted(net: Network, clients: seq<Client>, n: nat)
    requires Accounted(net) && |net.total| > 0 && n <= |clients|
    ensures Accounted(PlaceAllRest(net, clients, n))
  {
    if n > 0 {
      PlaceAllRestAccounted(net, clients, n - 1);
      var before := PlaceAllRest(net, clients, n - 1);
      AddStopAccounted(before, RestIndex(before, clients[n - 1].traffic),
                       Stop(clients[n - 1].id, clients[n - 1].traffic));
    }
  }

  /** Every controller's total is the traffic of its ring stops, partitions or not. */
  lemma {:induction false} PartitionAccounted(m: nat, clients: seq<Client>)
    requires m > 0
    ensures var r := Partition(m, clients); r.Done? ==> Accounted(r.network)
  {
    var sorted := Descending(clients);
    var spread, rest := Select(m, sorted, true), Select(m, sorted, false);
    SpreadAllAccounted(Empty(m), spread, |spread|);
    var net := SpreadAll(Empty(m), spread, |spread|);
    if net.Done? {
      PlaceAllRestAccounted(net.network, rest, |rest|);
    }
  }

  /** The shares of a partitioned client lose less than one request per part. */
  lemma {:induction false} SharesAddUp(c: Client)
    requires Sum(c.partition) > 0
    ensures Sum(Shares(c)) <= c.traffic && c.traffic - Sum(Shares(c)) <= |c.partition|
    ensures c.traffic > 0 ==> c.traffic - Sum(Shares(c)) < |c.partition|
  {
    SharesScaled(c, |c.partition|);
    assert c.partition[..|c.partition|] == c.partition && Shares(c)[..|c.partition|] == Shares(c);
    var total := Sum(c.partition);
    var given := Sum(Shares(c));
    Scale(given, c.traffic, total, |c.partition|);
  }

  lemma {:induction false} Scale(given: nat, traffic: nat, total: nat, parts: nat)
    requires total > 0 && given * total <= total * traffic
    requires parts > 0 ==> total * traffic < (given + parts) * total
    requires parts == 0 ==> total * traffic == given * total
    ensures given <= traffic && traffic - given <= parts
    ensures parts > 0 ==> traffic < given + parts
  {
    if given > traffic {
      MulMonotone(traffic + 1, given, total);
    }
    if traffic > given + parts {
      MulMonotone(given + parts, traffic, total);
    }
    if parts > 0 && traffic >= given + parts {
      MulMonotone(given + parts, traffic, total);
    }
  }

  lemma {:induction false} ScaleStep(given: nat, parts: nat, part: nat, traffic: nat, total: nat, n: nat)
    requires total > 0 && given * total <= parts * traffic <= (given + n) * total
    ensures var more := Share(part, traffic, total);
            && (given + more) * total <= (parts + part) * traffic
            && (parts + part) * traffic < (given + more + n + 1) * total
  {
    var x := part * traffic;
    var more := x / total;
    assert x == more * total + x % total;
    Distribute(parts, part, traffic);
    Distribute(given, more, total);
    Distribute(given + n, more + 1, total);
    Distribute(more, 1, total);
  }

  lemma {:induction false} SharesScaled(c: Client, n: nat)
    requires Sum(c.partition) > 0 && n <= |c.partition|
    ensures var total, parts, given := Sum(c.partition), Sum(c.partition[..n]), Sum(Shares(c)[..n]);
            && given * total <= parts * c.traffic <= (given + n) * total
            && (n > 0 ==> parts * c.traffic < (given + n) * total)
            && (n == 0 ==> parts == 0 && given == 0)
  {
    if n > 0 {
      SharesScaled(c, n - 1);
      SumPrefix(c.partition, n - 1);
      SumPrefix(Shares(c), n - 1);
      var total, parts, given := Sum(c.partition), Sum(c.partition[..n - 1]), Sum(Shares(c)[..n - 1]);
      ScaleStep(given, parts, c.partition[n - 1], c.traffic, total, n - 1);
    }
  }
}
