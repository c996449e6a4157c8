/** Credit messages between two platforms: each platform gives every lane that enters it a slot of one of the
    lanes that leave it, and then fills the slot vectors of its egress switches.

    `there` is the allocation of a platform's outgoing lanes, `back` that of the lanes that come in from the
    other platform. Loads are in units of 1/128, since a credit link weighs 1/128 of its lane's data load. */
module FlowcontrolSlots {
  import opened Arith
  import opened LaneAllocation

  const CREDIT_BITS := 8
  const HEADER_BITS := 7

  /** After some incoming lanes are served: each outgoing lane's next slot and load, and the slots given. */
  datatype Served = Served(slots: seq<nat>, loads: seq<nat>, given: seq<(nat, nat)>)

  ghost predicate Usable(vias: seq<Via>) {
    |vias| > 0 && forall v :: 0 <= v < |vias| ==> vias[v].width > 0
  }

  /** The load of a lane if it carried one more credit link. */
  function CreditLoad(v: Via, load: nat): nat
    requires v.width > 0
  {
    v.load * CeilDiv(CREDIT_BITS + HEADER_BITS, v.width) + load
  }

  ghost predicate FirstLeastLoaded(vias: seq<Via>, loads: seq<nat>, n: nat, c: nat)
    requires Usable(vias) && |loads| == |vias| && n <= |vias|
  {
    && c < n
    && (forall v :: 0 <= v < n ==> CreditLoad(vias[c], loads[c]) <= CreditLoad(vias[v], loads[v]))
    && (forall v :: 0 <= v < c ==> CreditLoad(vias[c], loads[c]) < CreditLoad(vias[v], loads[v]))
  }

  function CreditLane(vias: seq<Via>, loads: seq<nat>, n: nat): (c: nat)
    requires Usable(vias) && |loads| == |vias| && 0 < n <= |vias|
    ensures FirstLeastLoaded(vias, loads, n, c)
  {
    if n == 1 then 0
    else
      var c := CreditLane(vias, loads, n - 1);
      if CreditLoad(vias[n - 1], loads[n - 1]) < CreditLoad(vias[c], loads[c]) then n - 1 else c
  }

  function Unserved(vias: seq<Via>): (r: Served)
    ensures |r.slots| == |r.loads| == |vias|
  {
    Served(seq(|vias|, v requires 0 <= v < |vias| => vias[v].links),
           seq(|vias|, v requires 0 <= v < |vias| => 128 * vias[v].load), [])
  }

  function ServeOne(vias: seq<Via>, s: Served): (r: Served)
    requires Usable(vias) && |s.slots| == |s.loads| == |vias|
    ensures |r.slots| == |r.loads| == |vias|
  {
    var c := CreditLane(vias, s.loads, |vias|);
    Served(s.slots[c := s.slots[c] + 1], s.loads[c := CreditLoad(vias[c], s.loads[c])], s.given + [(c, s.slots[c])])
  }

  /** After the first n incoming lanes. */
  function Serve(vias: seq<Via>, n: nat): (r: Served)
    requires Usable(vias)
    ensures |r.slots| == |r.loads| == |vias| && |r.given| == n
  {
    if n == 0 then Unserved(vias) else ServeOne(vias, Serve(vias, n - 1))
  }

  /** The loops over the incoming lanes and, for each, over the outgoing ones. */
  method AssignFlowcontrol(vias: seq<Via>, ingresses: nat)
    returns (egressLinks: seq<nat>, viaLoads: seq<nat>, assignment: seq<(nat, nat)>)
    requires Usable(vias)
    ensures Served(egressLinks, viaLoads, assignment) == Serve(vias, ingresses)
    ensures |assignment| == ingresses && CreditsAllotted(vias, Served(egressLinks, viaLoads, assignment))
  {
    hide CreditsAllotted, CreditLane, CreditLoad, FirstLeastLoaded;
    egressLinks, viaLoads, assignment := [], [], [];
    for via := 0 to |vias|
      invariant |egressLinks| == |viaLoads| == via
      invariant forall v :: 0 <= v < via ==> egressLinks[v] == vias[v].links && viaLoads[v] == 128 * vias[v].load
    {
      egressLinks := egressLinks + [vias[via].links];
      viaLoads := viaLoads + [128 * vias[via].load];
    }
    assert Served(egressLinks, viaLoads, assignment) == Unserved(vias);
    for ingress := 0 to ingresses
      invariant Served(egressLinks, viaLoads, assignment) == Serve(vias, ingress)
    {
      var minIdx := LeastLoaded(vias, viaLoads);
      viaLoads := viaLoads[minIdx := CreditLoad(vias[minIdx], viaLoads[minIdx])];
      assignment := assignment + [(minIdx, egressLinks[minIdx])];
      egressLinks := egressLinks[minIdx := egressLinks[minIdx] + 1];
    }
    ServeAllots(vias, ingresses);
  }

  method LeastLoaded(vias: seq<Via>, viaLoads: seq<nat>) returns (minIdx: nat)
    requires Usable(vias) && |viaLoads| == |vias|
    ensures minIdx == CreditLane(vias, viaLoads, |vias|) < |vias|
  {
    minIdx := 0;
    var minLoad := 0;
    for via := 0 to |vias|
      invariant via > 0 ==> minIdx == CreditLane(vias, viaLoads, via)
      invariant via > 0 ==> minIdx < via && minLoad == CreditLoad(vias[minIdx], viaLoads[minIdx])
    {
      var extraChunk := if (CREDIT_BITS + HEADER_BITS) % vias[via].width != 0 then 1 else 0;
      var load := vias[via].load * ((CREDIT_BITS + HEADER_BITS) / vias[via].width + extraChunk) + viaLoads[via];
      assert load == CreditLoad(vias[via], viaLoads[via]);
      if via == 0 || load < minLoad {
        minIdx, minLoad := via, load;
      }
    }
  }

  // ----- the slots given to credits continue the slots given to data -----

  ghost predicate Given(s: Served, v: nat, k: nat) {
    exists j :: 0 <= j < |s.given| && s.given[j] == (v, k)
  }

  ghost predicate CreditSlots(vias: seq<Via>, s: Served) {
    && |s.slots| == |vias|
    && (forall v :: 0 <= v < |vias| ==> vias[v].links <= s.slots[v])
    && (forall j :: 0 <= j < |s.given| ==>
          s.given[j].0 < |vias| && vias[s.given[j].0].links <= s.given[j].1 < s.slots[s.given[j].0])
    && (forall i, j :: 0 <= i < j < |s.given| ==> s.given[i] != s.given[j])
    && (forall v, k: nat :: 0 <= v < |vias| && vias[v].links <= k < s.slots[v] ==> Given(s, v, k))
  }

  lemma {:induction false} ServeOneSlots(vias: seq<Via>, s: Served)
    requires Usable(vias) && |s.slots| == |s.loads| == |vias| && CreditSlots(vias, s)
    ensures CreditSlots(vias, ServeOne(vias, s))
  {
    hide CreditLoad, CreditLane;
    var r := ServeOne(vias, s);
    forall v, k: nat | 0 <= v < |vias| && vias[v].links <= k < r.slots[v]
      ensures Given(r, v, k)
    {
      if k < s.slots[v] {
        assert Given(s, v, k);
        var j :| 0 <= j < |s.given| && s.given[j] == (v, k);
        assert r.given[j] == (v, k);
      } else {
        assert r.given[|s.given|] == (v, k);
      }
    }
  }

  lemma {:induction false} ServeSlots(vias: seq<Via>, n: nat)
    requires Usable(vias)
    ensures CreditSlots(vias, Serve(vias, n))
  {
    if n > 0 {
      ServeSlots(vias, n - 1);
      ServeOneSlots(vias, Serve(vias, n - 1));
    }
  }

  // ----- the assignment, told without the loop -----

  /** How many of the first n incoming lanes have their slot on lane v. */
  function GivenTo(given: seq<(nat, nat)>, v: nat, n: nat): nat
    requires n <= |given|
  {
    if n == 0 then 0 else GivenTo(given, v, n - 1) + if given[n - 1].0 == v then 1 else 0
  }

  /** What one incoming lane's credits add to the load of a lane: eight bits and a header of seven for each unit of
      data load. */
  function CreditWeight(v: Via): nat
    requires v.width > 0
  {
    v.load * ((15 + v.width - 1) / v.width)
  }

  /** The load of lane v with one more credit link, after the first j incoming lanes were served. */
  function LoadServing(vias: seq<Via>, given: seq<(nat, nat)>, j: nat, v: nat): nat
    requires j <= |given| && v < |vias| && vias[v].width > 0
  {
    128 * vias[v].load + (GivenTo(given, v, j) + 1) * CreditWeight(vias[v])
  }

  /** Each incoming lane gets the next slot of the first outgoing lane whose load would be least with it; the slots
      and loads of the outgoing lanes are those of their data and of the credits given to them. */
  ghost predicate CreditsAllotted(vias: seq<Via>, s: Served)
    requires Usable(vias)
  {
    && |s.slots| == |s.loads| == |vias|
    && (forall v :: 0 <= v < |vias| ==>
          && s.slots[v] == vias[v].links + GivenTo(s.given, v, |s.given|)
          && s.loads[v] == 128 * vias[v].load + GivenTo(s.given, v, |s.given|) * CreditWeight(vias[v]))
    && forall j :: 0 <= j < |s.given| ==> ServedBy(vias, s.given, j)
  }

  ghost predicate ServedBy(vias: seq<Via>, given: seq<(nat, nat)>, j: nat)
    requires Usable(vias) && j < |given|
  {
    var (c, slot) := given[j];
    && c < |vias| && slot == vias[c].links + GivenTo(given, c, j)
    && (forall v :: 0 <= v < |vias| ==> LoadServing(vias, given, j, c) <= LoadServing(vias, given, j, v))
    && (forall v :: 0 <= v < c ==> LoadServing(vias, given, j, c) < LoadServing(vias, given, j, v))
  }

  lemma {:induction false} WeightIsCreditLoad(v: Via, load: nat)
    requires v.width > 0
    ensures CreditLoad(v, load) == CreditWeight(v) + load
  {
    var c := CeilDiv(CREDIT_BITS + HEADER_BITS, v.width);
    CeilDivBounds(15, v.width);
    hide CeilDiv;
    Distribute(c, 1, v.width);
    DivModUnique(15 + v.width - 1, c, 15 + v.width - 1 - c * v.width, v.width);
  }

  lemma {:induction false} GivenToPrefix(given: seq<(nat, nat)>, more: (nat, nat), v: nat, n: nat)
    requires n <= |given|
    ensures GivenTo(given + [more], v, n) == GivenTo(given, v, n)
  {
    if n > 0 {
      GivenToPrefix(given, more, v, n - 1);
    }
  }

  lemma {:induction false} UnservedAllotted(vias: seq<Via>)
    requires Usable(vias)
    ensures CreditsAllotted(vias, Unserved(vias))
  {
  }

  lemma {:induction false} ServedStays(vias: seq<Via>, given: seq<(nat, nat)>, more: (nat, nat), j: nat)
    requires Usable(vias) && j < |given| && ServedBy(vias, given, j)
    ensures ServedBy(vias, given + [more], j)
  {
    hide CreditWeight, GivenTo;
    assert (given + [more])[j] == given[j];
    forall v | 0 <= v < |vias|
      ensures GivenTo(given + [more], v, j) == GivenTo(given, v, j)
      ensures LoadServing(vias, given + [more], j, v) == LoadServing(vias, given, j, v)
    {
      GivenToPrefix(given, more, v, j);
    }
  }

  /** The chosen lane is the one that the last incoming lane is served by. */
  lemma {:induction false} LastServed(vias: seq<Via>, s: Served)
    requires Usable(vias) && CreditsAllotted(vias, s)
    ensures var c := CreditLane(vias, s.loads, |vias|);
            ServedBy(vias, s.given + [(c, s.slots[c])], |s.given|)
  {
    hide CreditWeight, GivenTo, CreditLane, CreditLoad;
    var c := CreditLane(vias, s.loads, |vias|);
    assert FirstLeastLoaded(vias, s.loads, |vias|, c);
    forall v | 0 <= v < |vias|
      ensures LoadServing(vias, s.given + [(c, s.slots[c])], |s.given|, v) == CreditLoad(vias[v], s.loads[v])
      ensures GivenTo(s.given + [(c, s.slots[c])], v, |s.given|) == GivenTo(s.given, v, |s.given|)
    {
      GivenToPrefix(s.given, (c, s.slots[c]), v, |s.given|);
      WeightIsCreditLoad(vias[v], s.loads[v]);
      Distribute(GivenTo(s.given, v, |s.given|), 1, CreditWeight(vias[v]));
    }
  }

  /** What one more incoming lane changes. */
  lemma {:induction false} LaneServed(vias: seq<Via>, s: Served, v: nat)
    requires Usable(vias) && CreditsAllotted(vias, s) && v < |vias|
    ensures var r := ServeOne(vias, s);
            && r.slots[v] == vias[v].links + GivenTo(r.given, v, |r.given|)
            && r.loads[v] == 128 * vias[v].load + GivenTo(r.given, v, |r.given|) * CreditWeight(vias[v])
  {
    hide CreditWeight, CreditLane, CreditLoad, ServedBy;
    var c := CreditLane(vias, s.loads, |vias|);
    GivenToPrefix(s.given, (c, s.slots[c]), v, |s.given|);
    WeightIsCreditLoad(vias[v], s.loads[v]);
    Distribute(GivenTo(s.given, v, |s.given|), 1, CreditWeight(vias[v]));
  }

  lemma {:induction false} ServeOneAllots(vias: seq<Via>, s: Served)
    requires Usable(vias) && CreditsAllotted(vias, s)
    ensures CreditsAllotted(vias, ServeOne(vias, s))
  {
    hide CreditWeight, CreditLane, CreditLoad, ServedBy, GivenTo;
    var c := CreditLane(vias, s.loads, |vias|);
    var r := ServeOne(vias, s);
    LastServed(vias, s);
    forall j | 0 <= j < |r.given|
      ensures ServedBy(vias, r.given, j)
    {
      if j < |s.given| {
        ServedStays(vias, s.given, (c, s.slots[c]), j);
      }
    }
    hide ServeOne;
    forall v | 0 <= v < |vias|
      ensures r.slots[v] == vias[v].links + GivenTo(r.given, v, |r.given|)
      ensures r.loads[v] == 128 * vias[v].load + GivenTo(r.given, v, |r.given|) * CreditWeight(vias[v])
    {
      LaneServed(vias, s, v);
    }
  }

  lemma {:induction false} ServeAllots(vias: seq<Via>, n: nat)
    requires Usable(vias)
    ensures CreditsAllotted(vias, Serve(vias, n))
  {
    hide CreditsAllotted, ServeOne, Unserved, Usable;
    if n == 0 {
      UnservedAllotted(vias);
    } else {
      ServeAllots(vias, n - 1);
      ServeOneAllots(vias, Serve(vias, n - 1));
    }
  }

  // ----- lanes that end up without any slot -----

  /** The first lane without load */
  ghost predicate FirstIdle(vias: seq<Via>, v: nat) {
    v < |vias| && vias[v].load == 0 && forall u :: 0 <= u < v ==> vias[u].load > 0
  }

  /** Only the first lane without load may lack data links. */
  ghost predicate NoSpareLanes(vias: seq<Via>) {
    forall v :: 0 <= v < |vias| && vias[v].links == 0 ==> FirstIdle(vias, v)
  }

  /** A lane without load costs nothing to serve, so the first one is given every slot and stays without. */
  lemma {:induction false} IdleServesAll(vias: seq<Via>, c: nat, n: nat)
    requires Usable(vias) && FirstIdle(vias, c)
    ensures var s := Serve(vias, n);
            && s.loads == Unserved(vias).loads
            && s.slots == Unserved(vias).slots[c := vias[c].links + n]
  {
    hide CreditLane, Usable;
    if n > 0 {
      IdleServesAll(vias, c, n - 1);
      IdleChosen(vias, c);
    }
  }

  lemma {:induction false} IdleChosen(vias: seq<Via>, c: nat)
    requires Usable(vias) && FirstIdle(vias, c)
    ensures CreditLane(vias, Unserved(vias).loads, |vias|) == c && CreditLoad(vias[c], Unserved(vias).loads[c]) == 0
  {
    hide CeilDiv, CreditLane;
    var loads := Unserved(vias).loads;
    var chosen := CreditLane(vias, loads, |vias|);
    IdleCosts(vias[c], loads[c]);
    IdleCosts(vias[chosen], loads[chosen]);
    hide CreditLoad;
    assert FirstLeastLoaded(vias, loads, |vias|, chosen);
  }

  lemma {:induction false} IdleCosts(v: Via, load: nat)
    requires v.width > 0 && load == 128 * v.load
    ensures CreditLoad(v, load) == 0 <==> v.load == 0
  {
    hide CeilDiv;
  }

  lemma {:induction false} FindIdle(vias: seq<Via>, v: nat) returns (c: nat)
    requires v < |vias| && vias[v].load == 0
    ensures c <= v && FirstIdle(vias, c)
    decreases v
  {
    if u :| 0 <= u < v && vias[u].load == 0 {
      c := FindIdle(vias, u);
    } else {
      c := v;
    }
  }

  /** Serving at least one incoming lane leaves every lane with a slot exactly if there are no spare lanes. */
  lemma {:induction false} EveryLaneServesExactly(vias: seq<Via>, n: nat)
    requires Usable(vias) && n > 0
    requires forall v :: 0 <= v < |vias| && vias[v].links == 0 ==> vias[v].load == 0
    ensures (forall v :: 0 <= v < |vias| ==> Serve(vias, n).slots[v] > 0) <==> NoSpareLanes(vias)
  {
    ServeSlots(vias, n);
    hide Serve, FirstIdle, Usable;
    var s := Serve(vias, n);
    if v :| 0 <= v < |vias| && vias[v].links == 0 {
      var c := FindIdle(vias, v);
      IdleServesAll(vias, c, n);
      OnlyFirstIdle(vias, c);
    }
  }

  lemma {:induction false} OnlyFirstIdle(vias: seq<Via>, c: nat)
    requires FirstIdle(vias, c)
    ensures forall v :: FirstIdle(vias, v) ==> v == c
  {
  }

  // ----- the slot vectors of the egress switches -----

  /** What feeds a slot: connection i, or the credits of incoming lane j. */
  datatype Port = Unset | Data(i: nat) | Credit(j: nat)

  /** Every slot holds exactly the connection or the incoming lane that was given it, and none is unset. */
  ghost predicate Wired(there: Pass, s: Served, vectors: seq<seq<Port>>) {
    && |vectors| == |there.vias| == |s.slots|
    && (forall v :: 0 <= v < |vectors| ==> |vectors[v]| == s.slots[v])
    && (forall i :: 0 <= i < |there.made| ==> At(vectors, there.made[i].via, there.made[i].link, Data(i)))
    && (forall j :: 0 <= j < |s.given| ==> At(vectors, s.given[j].0, s.given[j].1, Credit(j)))
    && (forall v, k :: 0 <= v < |vectors| && 0 <= k < |vectors[v]| ==> Rightful(there, s, v, k, vectors[v][k]))
  }

  predicate At(vectors: seq<seq<Port>>, v: nat, k: nat, port: Port) {
    v < |vectors| && k < |vectors[v]| && vectors[v][k] == port
  }

  /** The port is what was given slot k of lane v. */
  predicate Rightful(there: Pass, s: Served, v: nat, k: nat, port: Port) {
    match port
    case Unset => false
    case Data(i) => i < |there.made| && there.made[i].via == v && there.made[i].link == k
    case Credit(j) => j < |s.given| && s.given[j] == (v, k)
  }

  /** Before the credits are wired, what the data loop has written. */
  ghost predicate DataWired(there: Pass, vectors: seq<seq<Port>>, n: nat) {
    && n <= |there.made|
    && (forall i :: 0 <= i < n ==> At(vectors, there.made[i].via, there.made[i].link, Data(i)))
    && (forall v, k :: 0 <= v < |vectors| && 0 <= k < |vectors[v]| && vectors[v][k] != Unset ==>
          && vectors[v][k].Data? && vectors[v][k].i < n
          && there.made[vectors[v][k].i].via == v && there.made[vectors[v][k].i].link == k)
  }

  ghost predicate Shaped(vectors: seq<seq<Port>>, slots: seq<nat>) {
    |vectors| == |slots| && forall v :: 0 <= v < |slots| ==> |vectors[v]| == slots[v]
  }

  function Put(vectors: seq<seq<Port>>, v: nat, k: nat, port: Port): seq<seq<Port>>
    requires v < |vectors| && k < |vectors[v]|
  {
    vectors[v := vectors[v][k := port]]
  }

  /** Data slots are below the credit slots of their lane. */
  ghost predicate Fits(there: Pass, s: Served) {
    SlotsFilled(there) && CreditSlots(there.vias, s)
  }

  method WireData(there: Pass, s: Served) returns (vectors: seq<seq<Port>>)
    requires Fits(there, s)
    ensures Shaped(vectors, s.slots) && DataWired(there, vectors, |there.made|)
  {
    vectors := [];
    for via := 0 to |s.slots|
      invariant |vectors| == via
      invariant forall v :: 0 <= v < via ==>
                    |vectors[v]| == s.slots[v] && forall k :: 0 <= k < s.slots[v] ==> vectors[v][k] == Unset
    {
      vectors := vectors + [seq(s.slots[via], _ => Unset)];
    }
    for i := 0 to |there.made|
      invariant Shaped(vectors, s.slots) && DataWired(there, vectors, i)
    {
      PutData(there, s, vectors, i);
      vectors := Put(vectors, there.made[i].via, there.made[i].link, Data(i));
    }
  }

  lemma {:induction false} PutData(there: Pass, s: Served, vectors: seq<seq<Port>>, i: nat)
    requires Fits(there, s) && Shaped(vectors, s.slots) && i < |there.made| && DataWired(there, vectors, i)
    ensures there.made[i].via < |vectors| && there.made[i].link < |vectors[there.made[i].via]|
    ensures var after := Put(vectors, there.made[i].via, there.made[i].link, Data(i));
            Shaped(after, s.slots) && DataWired(there, after, i + 1)
  {
    hide Given, Holder;
  }

  /** While the credits are wired: all credits of earlier lanes, and the first n incoming lanes' of this lane. */
  ghost predicate PartWired(there: Pass, s: Served, vectors: seq<seq<Port>>, lane: nat, n: nat) {
    && (forall i :: 0 <= i < |there.made| ==> At(vectors, there.made[i].via, there.made[i].link, Data(i)))
    && (forall j :: 0 <= j < |s.given| && (s.given[j].0 < lane || (s.given[j].0 == lane && j < n)) ==>
          At(vectors, s.given[j].0, s.given[j].1, Credit(j)))
    && (forall v, k :: 0 <= v < |vectors| && 0 <= k < |vectors[v]| && vectors[v][k] != Unset ==>
          Rightful(there, s, v, k, vectors[v][k]))
  }

  lemma {:induction false} DataThenCredits(there: Pass, s: Served, vectors: seq<seq<Port>>)
    requires DataWired(there, vectors, |there.made|)
    ensures PartWired(there, s, vectors, 0, 0)
  {
    forall v, k | 0 <= v < |vectors| && 0 <= k < |vectors[v]| && vectors[v][k] != Unset
      ensures Rightful(there, s, v, k, vectors[v][k])
    {
    }
  }

  lemma {:induction false} PutCredit(there: Pass, s: Served, vectors: seq<seq<Port>>, lane: nat, j: nat)
    requires Fits(there, s) && Shaped(vectors, s.slots) && PartWired(there, s, vectors, lane, j)
    requires j < |s.given| && s.given[j].0 == lane
    ensures lane < |vectors| && s.given[j].1 < |vectors[lane]|
    ensures var after := Put(vectors, lane, s.given[j].1, Credit(j));
            Shaped(after, s.slots) && PartWired(there, s, after, lane, j + 1)
  {
    hide Given, Holder;
  }

  lemma {:induction false} SkipCredit(there: Pass, s: Served, vectors: seq<seq<Port>>, lane: nat, j: nat)
    requires PartWired(there, s, vectors, lane, j) && j < |s.given| && s.given[j].0 != lane
    ensures PartWired(there, s, vectors, lane, j + 1)
  {
    hide At, Rightful;
  }

  lemma {:induction false} NextLane(there: Pass, s: Served, vectors: seq<seq<Port>>, lane: nat, n: nat)
    requires PartWired(there, s, vectors, lane, n)
    requires n == |s.given| || forall j :: 0 <= j < |s.given| ==> s.given[j].0 != lane
    ensures PartWired(there, s, vectors, lane + 1, 0)
  {
    hide At, Rightful;
  }

  /** Slot k of lane v is taken. */
  lemma {:induction false} SlotTaken(there: Pass, s: Served, vectors: seq<seq<Port>>, v: nat, k: nat)
    requires Fits(there, s) && Shaped(vectors, s.slots) && PartWired(there, s, vectors, |vectors|, 0)
    requires v < |vectors| && k < |vectors[v]|
    ensures vectors[v][k] != Unset
  {
    if k < there.vias[v].links {
      assert Holder(there, v, k);
      var i :| 0 <= i < |there.made| && there.made[i].via == v && there.made[i].link == k;
      assert At(vectors, there.made[i].via, there.made[i].link, Data(i));
    } else {
      assert Given(s, v, k);
      var j :| 0 <= j < |s.given| && s.given[j] == (v, k);
      assert At(vectors, s.given[j].0, s.given[j].1, Credit(j));
    }
  }

  lemma {:induction false} AllWired(there: Pass, s: Served, vectors: seq<seq<Port>>)
    requires Fits(there, s) && Shaped(vectors, s.slots) && PartWired(there, s, vectors, |vectors|, 0)
    ensures Wired(there, s, vectors)
  {
    forall v, k | 0 <= v < |vectors| && 0 <= k < |vectors[v]|
      ensures Rightful(there, s, v, k, vectors[v][k])
    {
      SlotTaken(there, s, vectors, v, k);
    }
    hide At, Rightful, SlotsFilled;
  }

  /** The egress vectors of one platform towards another. */
  method FillEgressVectors(there: Pass, s: Served) returns (vectors: seq<seq<Port>>)
    requires Fits(there, s)
    ensures Wired(there, s, vectors)
  {
    vectors := WireData(there, s);
    DataThenCredits(there, s, vectors);
    hide Fits, PartWired;
    var lane := 0;
    while lane < |vectors|
      invariant lane <= |vectors| && Shaped(vectors, s.slots) && PartWired(there, s, vectors, lane, 0)
    {
      if |vectors[lane]| > 0 {
        var j := 0;
        while j < |s.given|
          invariant lane < |vectors| && j <= |s.given|
          invariant Shaped(vectors, s.slots) && PartWired(there, s, vectors, lane, j)
        {
          if s.given[j].0 == lane {
            PutCredit(there, s, vectors, lane, j);
            vectors := Put(vectors, lane, s.given[j].1, Credit(j));
          } else {
            SkipCredit(there, s, vectors, lane, j);
          }
          j := j + 1;
        }
        NextLane(there, s, vectors, lane, j);
      } else {
        NoneGiven(there, s, lane);
        NextLane(there, s, vectors, lane, 0);
      }
      lane := lane + 1;
    }
    AllWired(there, s, vectors);
  }

  /** A lane without slots was given to nobody. */
  lemma {:induction false} NoneGiven(there: Pass, s: Served, lane: nat)
    requires Fits(there, s) && lane < |s.slots| && s.slots[lane] == 0
    ensures forall j :: 0 <= j < |s.given| ==> s.given[j].0 != lane
  {
    hide SlotsFilled, Given;
  }

  // ----- both ends of a lane -----

  /** What a lane's record says about its own slots and about the slot that brings its credits back. */
  datatype LaneRecord = LaneRecord(width: nat, links: nat, ioLinks: nat, flowcontrolLinks: int,
                                   outgoingFlowcontrolVia: nat, outgoingFlowcontrolLink: nat, load: nat)

  /** Lane v of an allocation, whose credits the other platform serves; the leaving and the entering platform
      build their records from the same data. */
  function Record(there: Pass, served: Served, otherServed: Served, v: nat): LaneRecord
    requires v < |there.vias| == |served.slots| == |served.loads| == |otherServed.given|
  {
    LaneRecord(there.vias[v].width, served.slots[v], there.vias[v].links, served.slots[v] - there.vias[v].links,
               otherServed.given[v].0, otherServed.given[v].1, served.loads[v])
  }

  /** A platform and its neighbour, with allocations in both directions: the port at which a platform listens
      for the credits of its lane v is the port into which the neighbour's switch for lane v puts them. */
  lemma {:induction false} CreditsMeet(there: Pass, back: Pass, backVectors: seq<seq<Port>>, v: nat)
    requires Usable(there.vias) && Usable(back.vias) && v < |there.vias|
    requires var served, backServed := Serve(there.vias, |back.vias|), Serve(back.vias, |there.vias|);
             Wired(back, backServed, backVectors)
    ensures var served, backServed := Serve(there.vias, |back.vias|), Serve(back.vias, |there.vias|);
            var lane := Record(there, served, backServed, v);
            && At(backVectors, lane.outgoingFlowcontrolVia, lane.outgoingFlowcontrolLink, Credit(v))
            && (forall u, k :: At(backVectors, u, k, Credit(v)) ==>
                  u == lane.outgoingFlowcontrolVia && k == lane.outgoingFlowcontrolLink)
            && (lane.outgoingFlowcontrolVia < |back.vias|
                && lane.outgoingFlowcontrolLink < Record(back, backServed, served, lane.outgoingFlowcontrolVia).links)
  {
    hide Serve;
    var backServed := Serve(back.vias, |there.vias|);
    assert At(backVectors, backServed.given[v].0, backServed.given[v].1, Credit(v));
    forall u: nat, k: nat | At(backVectors, u, k, Credit(v))
      ensures (u, k) == backServed.given[v]
    {
      assert Rightful(back, backServed, u, k, backVectors[u][k]);
    }
  }

  /** Each lane has as many credit slots as lanes of the other direction were given to it, and together they
      are as many as the other direction has lanes. */
  lemma {:induction false} CreditSlotsAddUp(vias: seq<Via>, n: nat)
    requires Usable(vias)
    ensures Extra(vias, Serve(vias, n), |vias|) == n
  {
    if n > 0 {
      CreditSlotsAddUp(vias, n - 1);
      var s := Serve(vias, n - 1);
      hide CreditLane, CreditLoad;
      ExtraGrows(vias, s, |vias|);
    } else {
      ExtraNone(vias, |vias|);
    }
  }

  /** The credit slots of the first k lanes. */
  function Extra(vias: seq<Via>, s: Served, k: nat): int
    requires k <= |vias| == |s.slots|
  {
    if k == 0 then 0 else Extra(vias, s, k - 1) + s.slots[k - 1] - vias[k - 1].links
  }

  lemma {:induction false} ExtraGrows(vias: seq<Via>, s: Served, k: nat)
    requires Usable(vias) && k <= |vias| == |s.slots| == |s.loads|
    ensures Extra(vias, ServeOne(vias, s), k)
            == Extra(vias, s, k) + if CreditLane(vias, s.loads, |vias|) < k then 1 else 0
  {
    hide CreditLane, CreditLoad;
    if k > 0 {
      ExtraGrows(vias, s, k - 1);
    }
  }

  lemma {:induction false} ExtraNone(vias: seq<Via>, k: nat)
    requires k <= |vias|
    ensures Extra(vias, Unserved(vias), k) == 0
  {
    if k > 0 {
      ExtraNone(vias, k - 1);
    }
  }
}
