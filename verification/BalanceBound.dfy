/** How good the greedy assignment of whole clients to controllers is: since clients come in order of
    descending traffic, the busiest controller has at most 4/3 - 1/(3m) times the least possible maximum. */
module BalanceBound {
  import opened Arith
  import opened Sums
  import opened Sorting
  import opened ControllerBalance

  // ----- assignments of sizes to m controllers -----

  ghost predicate Assigns(m: nat, sizes: seq<nat>, lanes: seq<nat>) {
    |lanes| == |sizes| && forall i :: 0 <= i < |lanes| ==> lanes[i] < m
  }

  /** The sizes that controller v gets, in order. */
  function On(sizes: seq<nat>, lanes: seq<nat>, v: nat): seq<nat>
    requires |lanes| == |sizes|
  {
    if sizes == [] then []
    else
      var last := |sizes| - 1;
      On(sizes[..last], lanes[..last], v) + if lanes[last] == v then [sizes[last]] else []
  }

  /** A client that can share a controller with no other: beside the least size p it exceeds the limit. */
  function Weight(size: nat, p: nat, limit: nat): (w: nat)
    ensures 1 <= w <= 2
  {
    if size + p > limit then 2 else 1
  }

  function Weights(s: seq<nat>, p: nat, limit: nat): (r: seq<nat>)
    ensures |r| == |s|
  {
    seq(|s|, i requires 0 <= i < |s| => Weight(s[i], p, limit))
  }

  // ----- sums over the controllers -----

  function LoadsTo(sizes: seq<nat>, lanes: seq<nat>, k: nat): nat
    requires |lanes| == |sizes|
  {
    if k == 0 then 0 else LoadsTo(sizes, lanes, k - 1) + Sum(On(sizes, lanes, k - 1))
  }

  lemma {:induction false} LoadsAdd(sizes: seq<nat>, lanes: seq<nat>, k: nat)
    requires |lanes| == |sizes| > 0
    ensures var last := |sizes| - 1;
            LoadsTo(sizes, lanes, k)
                == LoadsTo(sizes[..last], lanes[..last], k) + if lanes[last] < k then sizes[last] else 0
  {
    if k > 0 {
      var last := |sizes| - 1;
      LoadsAdd(sizes, lanes, k - 1);
      var before := On(sizes[..last], lanes[..last], k - 1);
      SumAppend(before, sizes[last]);
      assert before + [] == before;
    }
  }

  /** The controllers together carry all sizes. */
  lemma {:induction false} LoadsAreAll(m: nat, sizes: seq<nat>, lanes: seq<nat>)
    requires Assigns(m, sizes, lanes)
    ensures LoadsTo(sizes, lanes, m) == Sum(sizes)
  {
    if sizes == [] {
      NoLoads(lanes, m);
    } else {
      var last := |sizes| - 1;
      LoadsAreAll(m, sizes[..last], lanes[..last]);
      LoadsAdd(sizes, lanes, m);
      SumPrefix(sizes, last);
      assert sizes[..last + 1] == sizes;
    }
  }

  lemma {:induction false} NoLoads(lanes: seq<nat>, k: nat)
    requires lanes == []
    ensures LoadsTo([], lanes, k) == 0
  {
    if k > 0 {
      NoLoads(lanes, k - 1);
    }
  }

  /** Weighing commutes with choosing a controller's clients. */
  lemma {:induction false} OnWeights(sizes: seq<nat>, lanes: seq<nat>, v: nat, p: nat, limit: nat)
    requires |lanes| == |sizes|
    ensures On(Weights(sizes, p, limit), lanes, v) == Weights(On(sizes, lanes, v), p, limit)
  {
    if sizes != [] {
      var last := |sizes| - 1;
      OnWeights(sizes[..last], lanes[..last], v, p, limit);
      assert Weights(sizes, p, limit)[..last] == Weights(sizes[..last], p, limit);
    }
  }

  lemma {:induction false} LoadsAtMost(sizes: seq<nat>, lanes: seq<nat>, k: nat, most: nat)
    requires |lanes| == |sizes|
    requires forall v :: 0 <= v < k ==> Sum(On(sizes, lanes, v)) <= most
    ensures LoadsTo(sizes, lanes, k) <= k * most
  {
    if k > 0 {
      LoadsAtMost(sizes, lanes, k - 1, most);
      Distribute(k - 1, 1, most);
    }
  }

  lemma {:induction false} LoadsAtLeast(sizes: seq<nat>, lanes: seq<nat>, k: nat, least: nat)
    requires |lanes| == |sizes|
    requires forall v :: 0 <= v < k ==> Sum(On(sizes, lanes, v)) >= least
    ensures LoadsTo(sizes, lanes, k) >= k * least
  {
    if k > 0 {
      LoadsAtLeast(sizes, lanes, k - 1, least);
      Distribute(k - 1, 1, least);
    }
  }

  lemma {:induction false} OnElements(sizes: seq<nat>, lanes: seq<nat>, v: nat, p: nat)
    requires |lanes| == |sizes|
    requires forall i :: 0 <= i < |sizes| ==> sizes[i] >= p
    ensures forall i :: 0 <= i < |On(sizes, lanes, v)| ==> On(sizes, lanes, v)[i] >= p
  {
    if sizes != [] {
      OnElements(sizes[..|sizes| - 1], lanes[..|sizes| - 1], v, p);
    }
  }

  // ----- the counting argument -----

  lemma {:induction false} FirstTwo(s: seq<nat>)
    requires |s| >= 2
    ensures Sum(s) == s[0] + s[1] + Sum(s[2..])
  {
    assert s[1..][0] == s[1] && s[1..][1..] == s[2..];
  }

  lemma {:induction false} FirstThree(s: seq<nat>)
    requires |s| >= 3
    ensures Sum(s) >= s[0] + s[1] + s[2]
  {
    FirstTwo(s);
    assert s[2..][0] == s[2];
  }

  /** A controller within the limit has weight at most two if three clients never fit. */
  lemma {:induction false} FitsWeight(s: seq<nat>, p: nat, limit: nat)
    requires forall i :: 0 <= i < |s| ==> s[i] >= p
    requires 3 * p > limit && Sum(s) <= limit
    ensures Sum(Weights(s, p, limit)) <= 2
  {
    var w := Weights(s, p, limit);
    if |s| >= 3 {
      FirstThree(s);
    } else if |s| == 2 {
      FirstTwo(s);
      FirstTwo(w);
      assert s[2..] == [] && w[2..] == [];
    } else if |s| == 1 {
      assert Sum(w) == w[0];
    }
  }

  /** A controller too full for one more client of size p has weight at least two. */
  lemma {:induction false} FullWeight(s: seq<nat>, p: nat, limit: nat)
    requires Sum(s) + p > limit >= p
    ensures Sum(Weights(s, p, limit)) >= 2
  {
    var w := Weights(s, p, limit);
    if |s| >= 2 {
      FirstTwo(w);
    } else if |s| == 1 {
      assert Sum(s) == s[0] && Sum(w) == w[0];
    }
  }

  /** An assignment of all sizes keeps a limit, and another of all but the last leaves no controller below
      `least`. */
  ghost predicate Compared(m: nat, front: seq<nat>, p: nat, best: seq<nat>, lanes: seq<nat>, limit: nat, least: nat) {
    && m > 0 && Assigns(m, front + [p], best) && Assigns(m, front, lanes)
    && (forall v :: 0 <= v < m ==> Sum(On(front + [p], best, v)) <= limit)
    && (forall v :: 0 <= v < m ==> Sum(On(front, lanes, v)) >= least)
  }

  /** If all sizes exceed a third of a limit that some assignment keeps, then however the earlier sizes are
      assigned, some controller has room for the last one. */
  lemma {:induction false} RoomForLast(m: nat, front: seq<nat>, p: nat, best: seq<nat>, lanes: seq<nat>,
                                       limit: nat, least: nat)
    requires Compared(m, front, p, best, lanes, limit, least)
    requires (forall i :: 0 <= i < |front| ==> front[i] >= p) && limit >= p && 3 * p > limit
    ensures least + p <= limit
  {
    if least + p > limit {
      var sizes := front + [p];
      var w, u := Weights(sizes, p, limit), Weights(front, p, limit);
      forall v | 0 <= v < m
        ensures Sum(On(w, best, v)) <= 2 && Sum(On(u, lanes, v)) >= 2
      {
        OnElements(sizes, best, v, p);
        OnWeights(sizes, best, v, p, limit);
        FitsWeight(On(sizes, best, v), p, limit);
        OnWeights(front, lanes, v, p, limit);
        FullWeight(On(front, lanes, v), p, limit);
      }
      LoadsAtMost(w, best, m, 2);
      LoadsAreAll(m, w, best);
      assert w == u + [Weight(p, p, limit)];
      SumAppend(u, Weight(p, p, limit));
      LoadsAtLeast(u, lanes, m, 2);
      LoadsAreAll(m, u, lanes);
    }
  }

  /** The least loaded controller has at most the average. */
  lemma {:induction false} AverageForLast(m: nat, front: seq<nat>, p: nat, best: seq<nat>, lanes: seq<nat>,
                                          limit: nat, least: nat)
    requires Compared(m, front, p, best, lanes, limit, least)
    ensures m * least + p <= m * limit
  {
    LoadsAtMost(front + [p], best, m, limit);
    LoadsAtLeast(front, lanes, m, least);
    LoadsAreAll(m, front + [p], best);
    LoadsAreAll(m, front, lanes);
    SumAppend(front, p);
  }

  /** 3m * load <= (4m - 1) * limit */
  predicate WithinBound(m: nat, load: nat, limit: nat) {
    3 * (m * load) + limit <= 4 * (m * limit)
  }

  lemma {:induction false} BoundFromAverage(m: nat, least: nat, p: nat, limit: nat)
    requires m > 0 && m * least + p <= m * limit && 3 * p <= limit
    ensures WithinBound(m, least + p, limit)
  {
    ThirdOfLimit(m, p, limit);
    Distribute(least, p, m);
    assert m * (least + p) == (least + p) * m && m * least == least * m && m * p == p * m;
  }

  lemma {:induction false} ThirdOfLimit(m: nat, p: nat, limit: nat)
    requires m > 0 && 3 * p <= limit
    ensures 3 * (m * p) + limit <= m * limit + 3 * p
    decreases m
  {
    if m > 1 {
      ThirdOfLimit(m - 1, p, limit);
      Distribute(m - 1, 1, p);
      Distribute(m - 1, 1, limit);
    }
  }

  lemma {:induction false} BoundFromLimit(m: nat, load: nat, limit: nat)
    requires m > 0 && load <= limit
    ensures WithinBound(m, load, limit)
  {
    MulMonotone(load, limit, m);
    MulMonotone(1, m, limit);
  }

  // ----- the greedy assignment -----

  function Traffics(clients: seq<Client>): (r: seq<nat>)
    ensures |r| == |clients|
  {
    seq(|clients|, i requires 0 <= i < |clients| => clients[i].traffic)
  }

  /** The controllers chosen for the first n clients, starting from idle controllers. */
  function Chosen(m: nat, clients: seq<Client>, n: nat): (r: seq<nat>)
    requires m > 0 && n <= |clients|
    ensures |r| == n && forall i :: 0 <= i < n ==> r[i] < m
  {
    if n == 0 then []
    else Chosen(m, clients, n - 1) + [RestIndex(PlaceAllRest(Empty(m), clients, n - 1), clients[n - 1].traffic)]
  }

  lemma {:induction false} TrafficsPrefix(clients: seq<Client>, n: nat)
    requires 0 < n <= |clients|
    ensures Traffics(clients[..n]) == Traffics(clients[..n - 1]) + [clients[n - 1].traffic]
  {
  }

  lemma {:induction false} PlaceNext(net: Network, clients: seq<Client>, n: nat)
    requires |net.total| == |net.rings| > 0 && 0 < n <= |clients|
    ensures var before := PlaceAllRest(net, clients, n - 1);
            var idx := RestIndex(before, clients[n - 1].traffic);
            PlaceAllRest(net, clients, n).total == before.total[idx := before.total[idx] + clients[n - 1].traffic]
  {
    hide RestIndex;
  }

  lemma {:induction false} PlaceNextAt(net: Network, clients: seq<Client>, n: nat, v: nat)
    requires |net.total| == |net.rings| > v && 0 < n <= |clients|
    ensures var before, p := PlaceAllRest(net, clients, n - 1), clients[n - 1].traffic;
            PlaceAllRest(net, clients, n).total[v] == before.total[v] + if RestIndex(before, p) == v then p else 0
  {
    PlaceNext(net, clients, n);
    hide RestIndex, PlaceAllRest;
  }

  /** A controller's total is the sum of the clients chosen for it. */
  lemma {:induction false} TotalIsSum(m: nat, clients: seq<Client>, n: nat, v: nat)
    requires m > 0 && n <= |clients| && v < m
    ensures PlaceAllRest(Empty(m), clients, n).total[v] == Sum(On(Traffics(clients[..n]), Chosen(m, clients, n), v))
  {
    if n > 0 {
      TotalIsSum(m, clients, n - 1, v);
      TrafficsPrefix(clients, n);
      var front, p := Traffics(clients[..n - 1]), clients[n - 1].traffic;
      var lanes := Chosen(m, clients, n - 1);
      var before := PlaceAllRest(Empty(m), clients, n - 1);
      var idx := RestIndex(before, p);
      assert Chosen(m, clients, n) == lanes + [idx];
      PlaceNext(Empty(m), clients, n);
      hide RestIndex, Traffics, Chosen, PlaceAllRest, On, Sum;
      OnAppend(front, p, lanes, idx, v);
      var on := On(front, lanes, v);
      SumAppend(on, p);
      assert on + [] == on;
    }
  }

  lemma {:induction false} OnAppend(front: seq<nat>, p: nat, lanes: seq<nat>, lane: nat, v: nat)
    requires |front| == |lanes|
    ensures On(front + [p], lanes + [lane], v) == On(front, lanes, v) + if lane == v then [p] else []
  {
    assert (front + [p])[..|front|] == front && (lanes + [lane])[..|lanes|] == lanes;
  }

  lemma {:induction false} IdleWithinBound(m: nat, clients: seq<Client>, limit: nat, v: nat)
    requires m > 0 && v < m
    ensures WithinBound(m, PlaceAllRest(Empty(m), clients, 0).total[v], limit)
  {
    BoundFromLimit(m, 0, limit);
  }

  /** Every assignment of the first n clients keeps no limit on which the greedy one is not within bound. */
  lemma {:induction false} GreedyWithinBound(m: nat, clients: seq<Client>, n: nat, best: seq<nat>, limit: nat, v: nat)
    requires m > 0 && n <= |clients| && ByTraffic(clients) && v < m
    requires Assigns(m, Traffics(clients[..n]), best)
    requires forall u :: 0 <= u < m ==> Sum(On(Traffics(clients[..n]), best, u)) <= limit
    ensures WithinBound(m, PlaceAllRest(Empty(m), clients, n).total[v], limit)
    decreases n
  {
    hide Traffics, RestIndex, On, PlaceAllRest, WithinBound, Sum, ByTraffic, Empty;
    if n == 0 {
      IdleWithinBound(m, clients, limit, v);
    } else {
      var front, p := Traffics(clients[..n - 1]), clients[n - 1].traffic;
      TrafficsPrefix(clients, n);
      PlaceNextAt(Empty(m), clients, n, v);
      BestPrefix(m, front, p, best, limit);
      GreedyWithinBound(m, clients, n - 1, best[..n - 1], limit, v);
      var before := PlaceAllRest(Empty(m), clients, n - 1);
      if v == RestIndex(before, p) && p > 0 {
        LastWithinBound(m, clients, n, best, limit, v);
      } else {
        assert PlaceAllRest(Empty(m), clients, n).total[v] == before.total[v];
      }
    }
  }

  /** Leaving the last size out keeps the limit, and the last size keeps it alone. */
  lemma {:induction false} BestPrefix(m: nat, front: seq<nat>, p: nat, best: seq<nat>, limit: nat)
    requires Assigns(m, front + [p], best)
    requires forall u :: 0 <= u < m ==> Sum(On(front + [p], best, u)) <= limit
    ensures Assigns(m, front, best[..|front|]) && p <= limit
    ensures forall u :: 0 <= u < m ==> Sum(On(front, best[..|front|], u)) <= limit
  {
    var lanes, lane := best[..|front|], best[|front|];
    assert best == lanes + [lane];
    forall u | 0 <= u < m
      ensures Sum(On(front, lanes, u)) + (if lane == u then p else 0) <= limit
    {
      var before := On(front, lanes, u);
      OnAppend(front, p, lanes, lane, u);
      SumAppend(before, p);
      assert before + [] == before;
      assert Sum(On(front + [p], best, u)) <= limit;
    }
    assert Sum(On(front, lanes, lane)) + p <= limit;
  }

  lemma {:induction false} LastWithinBound(m: nat, clients: seq<Client>, n: nat, best: seq<nat>, limit: nat, v: nat)
    requires m > 0 && 0 < n <= |clients| && ByTraffic(clients) && v < m
    requires Assigns(m, Traffics(clients[..n]), best)
    requires forall u :: 0 <= u < m ==> Sum(On(Traffics(clients[..n]), best, u)) <= limit
    requires clients[n - 1].traffic > 0
    requires v == RestIndex(PlaceAllRest(Empty(m), clients, n - 1), clients[n - 1].traffic)
    ensures WithinBound(m, PlaceAllRest(Empty(m), clients, n - 1).total[v] + clients[n - 1].traffic, limit)
  {
    var front, p := Traffics(clients[..n - 1]), clients[n - 1].traffic;
    var before := PlaceAllRest(Empty(m), clients, n - 1);
    var lanes, least := Chosen(m, clients, n - 1), before.total[v];
    TrafficsPrefix(clients, n);
    BestPrefix(m, front, p, best, limit);
    forall u | 0 <= u < m
      ensures Sum(On(front, lanes, u)) >= least
    {
      TotalIsSum(m, clients, n - 1, u);
    }
    assert Compared(m, front, p, best, lanes, limit, least);
    AverageForLast(m, front, p, best, lanes, limit, least);
    if 3 * p <= limit {
      BoundFromAverage(m, least, p, limit);
    } else {
      RoomForLast(m, front, p, best, lanes, limit, least);
      BoundFromLimit(m, least + p, limit);
    }
  }

  // ----- the whole function -----

  lemma {:induction false} NothingPartitioned(m: nat, clients: seq<Client>)
    requires forall i :: 0 <= i < |clients| ==> !IsPartitioned(m, clients[i])
    ensures Select(m, clients, true) == [] && Select(m, clients, false) == clients
  {
    if clients != [] {
      NothingPartitioned(m, clients[..|clients| - 1]);
    }
  }

  /** Without partitioned clients the assignment always succeeds, and no controller's total exceeds
      (4m - 1) / 3m times any limit that some assignment of the same clients keeps on all controllers. */
  lemma {:induction false} PartitionWithinBound(m: nat, clients: seq<Client>, best: seq<nat>, limit: nat, v: nat)
    requires m > 0 && v < m
    requires forall i :: 0 <= i < |clients| ==> !IsPartitioned(m, clients[i])
    requires Assigns(m, Traffics(Descending(clients)), best)
    requires forall u :: 0 <= u < m ==> Sum(On(Traffics(Descending(clients)), best, u)) <= limit
    ensures var r := Partition(m, clients);
            r.Done? && WithinBound(m, r.network.total[v], limit)
  {
    var sorted := Descending(clients);
    DescendingSorted(clients);
    hide Descending, On, Traffics, WithinBound, PlaceAllRest;
    forall i | 0 <= i < |sorted|
      ensures !IsPartitioned(m, sorted[i])
    {
      assert sorted[i] in multiset(sorted);
    }
    NothingPartitioned(m, sorted);
    assert sorted[..|sorted|] == sorted;
    GreedyWithinBound(m, sorted, |sorted|, best, limit, v);
  }
}
