/** The networks of all platforms: one tree for every controller, and one numbering of the clients' ids that
    goes on from controller to controller and from platform to platform. */
module ScratchpadNetworks {
  import opened Wrappers
  import opened Sorting
  import opened Trees
  import opened TreeBuilder
  import opened TreeRouting
  import opened ScratchpadTrees

  /** controllerIdx names the controllers that serve the client, fraction its bandwidth at each of them. */
  datatype Scratchpad = Scratchpad(name: nat, latency: nat, controllerIdx: seq<nat>, fraction: nat -> nat)

  datatype Platform = Platform(clients: seq<Scratchpad>, controllers: nat)

  /** An entry of the remap table; shared clients are marked with a star. */
  datatype Remapped = Remapped(name: nat, shared: bool)

  /** One controller's tree: its clients in the order of their ids, the first of which is `first`. */
  datatype Site = Site(platform: nat, controller: nat, first: nat, sorted: seq<Client>, root: Tree) {
    function Next(): nat {
      first + |sorted|
    }
  }

  /** The clients that controller i serves. */
  function Attached(clients: seq<Scratchpad>, i: nat): seq<Client> {
    if clients == [] then []
    else
      var c := clients[|clients| - 1];
      Attached(clients[..|clients| - 1], i)
      + if i in c.controllerIdx then [Client(c.name, c.latency, c.fraction(i), |c.controllerIdx| > 1)] else []
  }

  /** What controller i keeps of a scratchpad that it serves: its name and latency, its fraction of the bandwidth
      there, and whether others serve it as well. */
  predicate Stands(c: Client, s: Scratchpad, i: nat) {
    && i in s.controllerIdx
    && c.name == s.name && c.latency == s.latency && c.bandwidth == s.fraction(i)
    && (c.shared <==> |s.controllerIdx| >= 2)
  }

  /** who[t] is the scratchpad of client t: each that controller i serves has exactly one client, and no other
      has any. */
  ghost predicate ServesExactly(clients: seq<Scratchpad>, i: nat, sorted: seq<Client>, who: seq<nat>) {
    && |who| == |sorted|
    && (forall t :: 0 <= t < |who| ==> who[t] < |clients| && Stands(sorted[t], clients[who[t]], i))
    && (forall t, u :: 0 <= t < u < |who| ==> who[t] != who[u])
    && forall j :: 0 <= j < |clients| && i in clients[j].controllerIdx ==> j in who
  }

  lemma {:induction false} AttachedServes(clients: seq<Scratchpad>, i: nat) returns (who: seq<nat>)
    ensures ServesExactly(clients, i, Attached(clients, i), who)
  {
    who := [];
    if clients != [] {
      var k := |clients| - 1;
      who := AttachedServes(clients[..k], i);
      if i in clients[k].controllerIdx {
        who := who + [k];
      }
      hide Stands;
      forall t | 0 <= t < |who|
        ensures who[t] < |clients| && Stands(Attached(clients, i)[t], clients[who[t]], i)
      {
        if who[t] == k && t == |who| - 1 && i in clients[k].controllerIdx {
          LastStands(clients, i);
        } else {
          assert clients[..k][who[t]] == clients[who[t]];
        }
      }
    }
  }

  lemma {:induction false} LastStands(clients: seq<Scratchpad>, i: nat)
    requires clients != [] && i in clients[|clients| - 1].controllerIdx
    ensures var r := Attached(clients, i); r != [] && Stands(r[|r| - 1], clients[|clients| - 1], i)
  {
  }

  /** The same for the clients in another order */
  lemma {:induction false} OrderServes(clients: seq<Scratchpad>, i: nat, sorted: seq<Client>) returns (who: seq<nat>)
    requires multiset(sorted) == multiset(Attached(clients, i))
    ensures ServesExactly(clients, i, sorted, who)
  {
    hide Attached, Stands;
    var before := AttachedServes(clients, i);
    var perm := SameElements(sorted, Attached(clients, i));
    who := seq(|sorted|, t requires 0 <= t < |sorted| => before[perm[t]]);
    forall j | 0 <= j < |clients| && i in clients[j].controllerIdx
      ensures j in who
    {
      var t :| 0 <= t < |before| && before[t] == j;
      assert t in perm;
      var u :| 0 <= u < |perm| && perm[u] == t;
      assert who[u] == j;
    }
  }

  /** The site's tree is the best one for exactly the clients that its controller serves, its leaves weigh their
      bandwidth there, and it dispatches exactly their ids. */
  ghost predicate Built(site: Site, platforms: seq<Platform>, k: nat)
    requires k >= 2
  {
    && site.platform < |platforms| && site.controller < platforms[site.platform].controllers
    && (exists who :: ServesExactly(platforms[site.platform].clients, site.controller, site.sorted, who))
    && site.root.Node? && Kary([site.root], k) && Clients([site.root]) == Range(0, |site.sorted|)
    && LeastCost(Latencies(site.sorted), k, Cost(Latencies(site.sorted), [site.root], 0))
    && Weighted(site.root.children, site.sorted)
    && AllRouted(site.root, site.first, |site.sorted|)
  }

  /** The controllers of platform p before controller n, and those of all platforms before p. */
  function Row(p: nat, n: nat): seq<(nat, nat)> {
    if n == 0 then [] else Row(p, n - 1) + [(p, n - 1)]
  }

  function Places(platforms: seq<Platform>, p: nat): seq<(nat, nat)>
    requires p <= |platforms|
  {
    if p == 0 then [] else Places(platforms, p - 1) + Row(p - 1, platforms[p - 1].controllers)
  }

  ghost predicate Placed(sites: seq<Site>, places: seq<(nat, nat)>) {
    |sites| == |places| && forall s :: 0 <= s < |sites| ==> (sites[s].platform, sites[s].controller) == places[s]
  }

  /** Each site's ids start where those of the site before it end. */
  ghost predicate Numbered(sites: seq<Site>, from: nat, next: nat) {
    if sites == [] then next == from
    else
      var last := |sites| - 1;
      sites[last].Next() == next && Numbered(sites[..last], from, sites[last].first)
  }

  /** The remap table has exactly the ids from `from` to before `next`, each with its client's name. */
  ghost predicate Recorded(remapIds: map<nat, Remapped>, sites: seq<Site>, from: nat, next: nat) {
    && (forall id :: id in remapIds <==> from <= id < next)
    && forall s, j :: 0 <= s < |sites| && 0 <= j < |sites[s].sorted| ==> Entry(remapIds, sites[s], j)
  }

  predicate Entry(remapIds: map<nat, Remapped>, site: Site, j: nat)
    requires j < |site.sorted|
  {
    && site.first + j in remapIds
    && remapIds[site.first + j].name == site.sorted[j].name
    && (remapIds[site.first + j].shared <==> site.sorted[j].shared)
  }

  /** One site for each controller of each platform, in order, all with the right trees; the ids go on from 1
      without gaps, and the table has exactly these. */
  ghost predicate Networks(platforms: seq<Platform>, k: nat, remapIds: map<nat, Remapped>, sites: seq<Site>,
                           newId: nat)
    requires k >= 2
  {
    && Placed(sites, Places(platforms, |platforms|))
    && (forall s :: 0 <= s < |sites| ==> Built(sites[s], platforms, k))
    && Numbered(sites, 1, newId) && Recorded(remapIds, sites, 1, newId)
  }

  method BuildScratchpadTrees(platforms: seq<Platform>, k: nat)
    returns (remapIds: map<nat, Remapped>, sites: seq<Site>, newId: nat)
    requires k >= 2
    ensures Networks(platforms, k, remapIds, sites, newId)
  {
    hide Built;
    remapIds, sites, newId := map[], [], 1;
    for p := 0 to |platforms|
      invariant Placed(sites, Places(platforms, p))
      invariant forall s :: 0 <= s < |sites| ==> Built(sites[s], platforms, k)
      invariant newId >= 1 && Numbered(sites, 1, newId) && Recorded(remapIds, sites, 1, newId)
    {
      for i := 0 to platforms[p].controllers
        invariant Placed(sites, Places(platforms, p) + Row(p, i))
        invariant forall s :: 0 <= s < |sites| ==> Built(sites[s], platforms, k)
        invariant newId >= 1 && Numbered(sites, 1, newId) && Recorded(remapIds, sites, 1, newId)
      {
        var site := BuildSite(platforms, k, p, i, newId);
        var table, next := Remap(remapIds, site, newId);
        RecordedSite(remapIds, table, sites, site, newId);
        NumberedSite(sites, site, newId);
        PlacedSite(sites, site, Places(platforms, p) + Row(p, i));
        assert Places(platforms, p) + Row(p, i + 1) == Places(platforms, p) + Row(p, i) + [(p, i)];
        remapIds, sites, newId := table, sites + [site], next;
      }
    }
  }

  method BuildSite(platforms: seq<Platform>, k: nat, p: nat, i: nat, newId: nat) returns (site: Site)
    requires k >= 2 && p < |platforms| && i < platforms[p].controllers
    ensures Built(site, platforms, k) && site.platform == p && site.controller == i && site.first == newId
  {
    hide Attached, Kary, Clients, Range, LeastCost, Cost, AllRouted, Latencies, Weighted, ServesExactly;
    var sorted, root := BuildScratchpadTree(Attached(platforms[p].clients, i), k, newId);
    site := Site(p, i, newId, sorted, root);
    ghost var who := OrderServes(platforms[p].clients, i, sorted);
  }

  /** The loop over one controller's clients. */
  method Remap(remapIds: map<nat, Remapped>, site: Site, newId: nat) returns (table: map<nat, Remapped>, next: nat)
    requires site.first == newId
    ensures next == site.Next()
    ensures forall id :: id in table <==> id in remapIds || site.first <= id < site.Next()
    ensures forall id :: id in remapIds && !(site.first <= id < site.Next()) ==> table[id] == remapIds[id]
    ensures forall j :: 0 <= j < |site.sorted| ==> Entry(table, site, j)
  {
    table, next := remapIds, newId;
    for j := 0 to |site.sorted|
      invariant next == site.first + j
      invariant forall id :: id in table <==> id in remapIds || site.first <= id < next
      invariant forall id :: id in remapIds && !(site.first <= id < next) ==> table[id] == remapIds[id]
      invariant forall i :: 0 <= i < j ==> Entry(table, site, i)
    {
      ghost var before := table;
      table := table[next := Remapped(site.sorted[j].name, site.sorted[j].shared)];
      forall i | 0 <= i < j
        ensures Entry(table, site, i)
      {
        assert Entry(before, site, i);
      }
      next := next + 1;
    }
  }

  lemma {:induction false} PlacedSite(sites: seq<Site>, site: Site, places: seq<(nat, nat)>)
    requires Placed(sites, places)
    ensures Placed(sites + [site], places + [(site.platform, site.controller)])
  {
  }

  lemma {:induction false} NumberedSite(sites: seq<Site>, site: Site, newId: nat)
    requires Numbered(sites, 1, newId) && site.first == newId
    ensures Numbered(sites + [site], 1, site.Next())
  {
    assert (sites + [site])[..|sites|] == sites;
  }

  lemma {:induction false} RecordedSite(remapIds: map<nat, Remapped>, table: map<nat, Remapped>, sites: seq<Site>,
                                        site: Site, newId: nat)
    requires Recorded(remapIds, sites, 1, newId) && newId >= 1 && site.first == newId
    requires forall id :: id in table <==> id in remapIds || site.first <= id < site.Next()
    requires forall id :: id in remapIds && !(site.first <= id < site.Next()) ==> table[id] == remapIds[id]
    requires forall j :: 0 <= j < |site.sorted| ==> Entry(table, site, j)
    ensures Recorded(table, sites + [site], 1, site.Next())
  {
    forall s, j | 0 <= s < |sites| && 0 <= j < |sites[s].sorted|
      ensures Entry(table, sites[s], j)
    {
      assert Entry(remapIds, sites[s], j);
    }
  }

  // ----- every id belongs to one client of one controller -----

  /** The ids of a later site are all larger. */
  lemma {:induction false} NumberedApart(sites: seq<Site>, from: nat, next: nat, a: nat, b: nat)
    requires Numbered(sites, from, next) && a < b <= |sites|
    ensures sites[a].Next() <= if b < |sites| then sites[b].first else next
    decreases |sites|
  {
    var last := |sites| - 1;
    if a < last {
      NumberedApart(sites[..last], from, sites[last].first, a, if b < last then b else last);
    }
  }

  lemma {:induction false} NumberedHolder(sites: seq<Site>, from: nat, next: nat, id: nat) returns (s: nat)
    requires Numbered(sites, from, next) && from <= id < next
    ensures s < |sites| && sites[s].first <= id < sites[s].Next()
    decreases |sites|
  {
    s := |sites| - 1;
    if id < sites[s].first {
      s := NumberedHolder(sites[..s], from, sites[s].first, id);
    }
  }

  /** The id reaches, in this site's tree, the leaf of a client whose entry the table has for the id. */
  predicate Reaches(remapIds: map<nat, Remapped>, site: Site, id: nat) {
    var leaf := Route(site.root, id);
    && leaf.Some? && leaf.value.Leaf? && leaf.value.id == id && leaf.value.client < |site.sorted|
    && id in remapIds && Entry(remapIds, site, leaf.value.client) && id == site.first + leaf.value.client
  }

  /** Every id of the table is dispatched by exactly one of all the controllers' trees, and there it reaches the
      leaf of the client that the table names; the trees dispatch no other ids. */
  lemma {:induction false} IdReachesOneClient(platforms: seq<Platform>, k: nat, remapIds: map<nat, Remapped>,
                                              sites: seq<Site>, newId: nat, id: nat)
    requires k >= 2 && Networks(platforms, k, remapIds, sites, newId)
    ensures id in remapIds <==> exists s :: 0 <= s < |sites| && Route(sites[s].root, id).Some?
    ensures forall s :: 0 <= s < |sites| && Route(sites[s].root, id).Some? ==> Reaches(remapIds, sites[s], id)
    ensures forall a, b ::
              0 <= a < b < |sites| ==> Route(sites[a].root, id).None? || Route(sites[b].root, id).None?
  {
    hide Route, Clients, Range, Kary, LeastCost, Cost, Latencies, Numbered;
    forall s | 0 <= s < |sites|
      ensures Route(sites[s].root, id).Some? <==> sites[s].first <= id < sites[s].Next()
    {
      assert Built(sites[s], platforms, k);
    }
    forall a, b | 0 <= a < b < |sites|
      ensures sites[a].Next() <= sites[b].first
    {
      NumberedApart(sites, 1, newId, a, b);
    }
    forall s | 0 <= s < |sites| && sites[s].first <= id < sites[s].Next()
      ensures Reaches(remapIds, sites[s], id)
    {
      assert Built(sites[s], platforms, k);
      assert RoutesTo(sites[s].root, id, sites[s].first);
      assert Entry(remapIds, sites[s], id - sites[s].first);
    }
    if id in remapIds {
      var s := NumberedHolder(sites, 1, newId, id);
    }
  }
}
