/** Two platforms that are joined in both directions, from the lane allocations to the final lane records and
    slot vectors of both ends. */
module PlatformPair {
  import opened LaneAllocation
  import opened LaneAllotment
  import opened LaneAllocator
  import opened FlowcontrolSlots

  /** One platform's lanes towards the other: the allocation, the switches' slot vectors and the records. */
  datatype End = End(pass: Pass, vectors: seq<seq<Port>>, lanes: seq<LaneRecord>)

  ghost predicate Joinable(widths: seq<nat>) {
    |widths| > 0 && forall v :: 0 <= v < |widths| ==> widths[v] > 0
  }

  /** The allocation of one direction, starting with one reserved bit per lane. */
  function Direction(mode: Mode, unit: nat, widths: seq<nat>, links: seq<Link>): (r: Result)
    requires Joinable(widths)
    ensures Usable(r.pass.vias) && |r.pass.vias| == |widths|
  {
    Allocate(mode, EmptyLanes(widths), seq(|widths|, _ => 1),
             Sorted(unit, links))
  }

  /** One direction's allocation is an allotment of the given links, and its slots are without gaps. */
  lemma {:induction false} DirectionSound(mode: Mode, unit: nat, widths: seq<nat>, links: seq<Link>)
    returns (perm: seq<nat>)
    requires Joinable(widths)
    ensures var r := Direction(mode, unit, widths, links);
            && Allotted(mode, unit, links, widths, r.pass, r.headers, perm)
            && SlotsFilled(r.pass) && |r.pass.made| == |links|
            && |r.headers| == |r.pass.vias| == |r.pass.maxWidths|
            && forall v :: 0 <= v < |widths| ==> RealHeader(mode, r.pass, v) <= r.headers[v]
  {
    hide SlotsFilled, RealHeader, Allocate, Allotted, Sorted;
    var vias := EmptyLanes(widths);
    AllocationSound(mode, vias, seq(|widths|, _ => 1), Sorted(unit, links));
    perm := AllocateAllots(mode, unit, links, vias, seq(|widths|, _ => 1));
    assert WidthsOf(vias) == widths;
  }

  /** The port is what was given slot k of lane v: a connection of this end, or the credits for a lane whose
      record at the other end names this very slot. */
  predicate Owner(here: End, other: End, v: nat, k: nat, port: Port) {
    match port
    case Unset => false
    case Data(i) => i < |here.pass.made| && here.pass.made[i].via == v && here.pass.made[i].link == k
    case Credit(j) => j < |other.lanes| && Listens(other.lanes[j], v, k)
  }

  predicate Listens(lane: LaneRecord, v: nat, k: nat) {
    lane.outgoingFlowcontrolVia == v && lane.outgoingFlowcontrolLink == k
  }

  /** The slots and loads of this end's lanes, and the slots that bring the other end its credits. */
  function Credits(here: End, other: End): Served {
    Served(seq(|here.lanes|, v requires 0 <= v < |here.lanes| => here.lanes[v].links),
           seq(|here.lanes|, v requires 0 <= v < |here.lanes| => here.lanes[v].load),
           seq(|other.lanes|, j requires 0 <= j < |other.lanes| =>
             (other.lanes[j].outgoingFlowcontrolVia, other.lanes[j].outgoingFlowcontrolLink)))
  }

  /** The switches of this end carry each of its connections and the credits for each lane of the other end on
      one slot of their own, at which the other end listens, and every slot is one of these. */
  ghost predicate Settled(here: End, other: End) {
    && |here.vectors| == |here.lanes| == |here.pass.vias|
    && Usable(here.pass.vias) && CreditsAllotted(here.pass.vias, Credits(here, other))
    && (forall v :: 0 <= v < |here.lanes| ==> here.lanes[v].width == here.pass.vias[v].width)
    && (forall v :: 0 <= v < |here.lanes| ==>
          && |here.vectors[v]| == here.lanes[v].links
          && here.lanes[v].links == here.lanes[v].ioLinks + here.lanes[v].flowcontrolLinks
          && here.lanes[v].ioLinks == here.pass.vias[v].links)
    && (forall i :: 0 <= i < |here.pass.made| ==>
          At(here.vectors, here.pass.made[i].via, here.pass.made[i].link, Data(i)))
    && (forall j :: 0 <= j < |other.lanes| ==>
          At(here.vectors, other.lanes[j].outgoingFlowcontrolVia, other.lanes[j].outgoingFlowcontrolLink, Credit(j)))
    && (forall v, k :: 0 <= v < |here.vectors| && 0 <= k < |here.vectors[v]| ==>
          Owner(here, other, v, k, here.vectors[v][k]))
  }

  /** The values of the lane objects. */
  method ReadLanes(vias: seq<ViaAssignment>) returns (values: seq<Via>)
    ensures values == Values(vias)
  {
    values := [];
    for v := 0 to |vias|
      invariant |values| == v && forall u :: 0 <= u < v ==> values[u] == vias[u].Value()
    {
      values := values + [vias[v].Value()];
    }
  }

  method FinishLanes(there: Pass, served: Served, otherServed: Served) returns (lanes: seq<LaneRecord>)
    requires |there.vias| == |served.slots| == |served.loads| == |otherServed.given|
    ensures |lanes| == |there.vias|
    ensures forall v :: 0 <= v < |lanes| ==> lanes[v] == Record(there, served, otherServed, v)
  {
    lanes := [];
    for v := 0 to |there.vias|
      invariant |lanes| == v && forall u :: 0 <= u < v ==> lanes[u] == Record(there, served, otherServed, u)
    {
      lanes := lanes + [Record(there, served, otherServed, v)];
    }
  }

  /** Wired, read off the other end's records. */
  lemma {:induction false} EndSettled(here: End, other: End, s: Served, s': Served)
    requires |s.given| == |other.pass.vias| == |s'.slots| == |s'.loads| && |s'.given| == |here.pass.vias|
    requires |here.pass.vias| == |s.slots| == |s.loads| && Wired(here.pass, s, here.vectors)
    requires |here.lanes| == |here.pass.vias| && |other.lanes| == |other.pass.vias|
    requires forall v :: 0 <= v < |here.lanes| ==> here.lanes[v] == Record(here.pass, s, s', v)
    requires forall v :: 0 <= v < |other.lanes| ==> other.lanes[v] == Record(other.pass, s', s, v)
    requires Usable(here.pass.vias) && CreditsAllotted(here.pass.vias, s)
    ensures Settled(here, other)
  {
    hide CreditsAllotted;
    assert Credits(here, other) == s;
    forall v, k | 0 <= v < |here.vectors| && 0 <= k < |here.vectors[v]|
      ensures Owner(here, other, v, k, here.vectors[v][k])
    {
      assert Rightful(here.pass, s, v, k, here.vectors[v][k]);
    }
    hide Rightful, Owner;
    forall j | 0 <= j < |other.lanes|
      ensures At(here.vectors, other.lanes[j].outgoingFlowcontrolVia, other.lanes[j].outgoingFlowcontrolLink, Credit(j))
    {
      assert At(here.vectors, s.given[j].0, s.given[j].1, Credit(j));
    }
  }

  // ----- switches that are named but not instantiated -----

  /** A lane's switch is instantiated only if the lane has a slot. Every credit port that this end's switches
      name belongs to the switch of an incoming lane that is instantiated. */
  ghost predicate Instantiated(here: End, other: End) {
    forall v, k :: 0 <= v < |here.vectors| && 0 <= k < |here.vectors[v]| ==> PortExists(other, here.vectors[v][k])
  }

  predicate PortExists(other: End, port: Port) {
    port.Credit? ==> port.j < |other.lanes| && other.lanes[port.j].links > 0
  }

  /** Every incoming lane's port is named, so all exist exactly if every incoming lane has a slot. */
  lemma {:induction false} PortsExistExactly(here: End, other: End, s': Served)
    requires Settled(here, other) && |other.lanes| == |other.pass.vias| && |here.pass.vias| > 0
    requires Usable(other.pass.vias) && s' == Serve(other.pass.vias, |here.pass.vias|)
    requires forall v :: 0 <= v < |other.lanes| ==> other.lanes[v].links == s'.slots[v]
    requires forall v :: 0 <= v < |other.pass.vias| && other.pass.vias[v].links == 0 ==> other.pass.vias[v].load == 0
    ensures Instantiated(here, other) <==> NoSpareLanes(other.pass.vias)
  {
    hide Serve, NoSpareLanes;
    EveryLaneServesExactly(other.pass.vias, |here.pass.vias|);
    NamedPorts(here, other);
  }

  lemma {:induction false} NamedPorts(here: End, other: End)
    requires Settled(here, other)
    ensures Instantiated(here, other) <==> forall j :: 0 <= j < |other.lanes| ==> other.lanes[j].links > 0
  {
    if Instantiated(here, other) {
      forall j | 0 <= j < |other.lanes|
        ensures other.lanes[j].links > 0
      {
        var v, k := other.lanes[j].outgoingFlowcontrolVia, other.lanes[j].outgoingFlowcontrolLink;
        assert At(here.vectors, v, k, Credit(j));
        assert PortExists(other, here.vectors[v][k]);
      }
    }
    forall v, k | 0 <= v < |here.vectors| && 0 <= k < |here.vectors[v]|
      ensures here.vectors[v][k].Credit? ==> here.vectors[v][k].j < |other.lanes|
    {
      assert Owner(here, other, v, k, here.vectors[v][k]);
    }
  }

  /** A lane without links carries nothing. */
  lemma {:induction false} DirectionLoads(mode: Mode, unit: nat, widths: seq<nat>, links: seq<Link>)
    requires Joinable(widths)
    ensures var vias := Direction(mode, unit, widths, links).pass.vias;
            forall v :: 0 <= v < |vias| && vias[v].links == 0 ==> vias[v].load == 0
  {
    hide SlotsFilled, RealHeader, Allocate, LaneLoad, Direction;
    var start := EmptyLanes(widths);
    var sorted := Sorted(unit, links);
    AllocationSound(mode, start, seq(|widths|, _ => 1), sorted);
    DirectionIs(mode, unit, widths, links);
    var r := Direction(mode, unit, widths, links);
    forall v | 0 <= v < |r.pass.vias| && r.pass.vias[v].links == 0
      ensures r.pass.vias[v].load == 0
    {
      EmptyLane(r.pass, v);
      NoLoad(sorted, LanesOf(r.pass.made), v, widths[v], r.headers[v]);
    }
  }

  lemma {:induction false} DirectionIs(mode: Mode, unit: nat, widths: seq<nat>, links: seq<Link>)
    requires Joinable(widths)
    ensures var r := Direction(mode, unit, widths, links);
            && r == Allocate(mode, EmptyLanes(widths),
                             seq(|widths|, _ => 1), Sorted(unit, links))
            && |r.pass.made| == |links| && |r.headers| == |widths|
            && r.pass == Run(EmptyLanes(widths), r.headers,
                             Sorted(unit, links), |links|)
  {
    hide Allocate;
  }

  lemma {:induction false} EmptyLane(r: Pass, v: nat)
    requires SlotsFilled(r) && v < |r.vias| && r.vias[v].links == 0
    ensures v !in LanesOf(r.made)
  {
    hide Holder;
  }

  lemma {:induction false} NoLoad(links: seq<Link>, lanes: seq<nat>, v: nat, width: nat, header: nat)
    requires |lanes| == |links| && width > 0 && v !in lanes
    ensures LaneLoad(links, lanes, v, width, header) == 0
  {
    hide Cost;
    if links != [] {
      var last := |links| - 1;
      NoLoad(links[..last], lanes[..last], v, width, header);
    }
  }

  /** Two lanes and nothing to carry: the second lane's switch is missing. */
  lemma {:induction false} SpareLaneMissing(mode: Mode, unit: nat, widths: seq<nat>)
    requires Joinable(widths) && |widths| >= 2
    ensures !NoSpareLanes(Direction(mode, unit, widths, []).pass.vias)
  {
    hide Allocate, Direction;
    DirectionIs(mode, unit, widths, []);
    var vias := Direction(mode, unit, widths, []).pass.vias;
    assert vias[0].load == 0 && vias[1].links == 0;
    assert !FirstIdle(vias, 1);
  }

  /** Lane allocation in both directions, the credit slots at both ends and the switches of both. */
  method ConnectPair(mode: Mode, unit: nat, widths: seq<nat>, links: seq<Link>, widths': seq<nat>, links': seq<Link>)
    returns (there: End, back: End,
             ghost reserved: seq<nat>, ghost perm: seq<nat>, ghost reserved': seq<nat>, ghost perm': seq<nat>)
    requires Joinable(widths) && Joinable(widths')
    ensures Allotted(mode, unit, links, widths, there.pass, reserved, perm)
    ensures Allotted(mode, unit, links', widths', back.pass, reserved', perm')
    ensures there.pass == Direction(mode, unit, widths, links).pass
    ensures back.pass == Direction(mode, unit, widths', links').pass
    ensures Settled(there, back) && Settled(back, there)
    ensures Instantiated(there, back) <==> NoSpareLanes(back.pass.vias)
    ensures Instantiated(back, there) <==> NoSpareLanes(there.pass.vias)
  {
    hide Allocate, Serve, Wired, Settled, SlotsFilled, CreditSlots, Instantiated, NoSpareLanes, Allotted,
        CreditsAllotted;
    var lanes, made, maxLinkWidth;
    lanes, made, maxLinkWidth := AllocateLJF(mode, unit, widths, links);
    var vias := ReadLanes(lanes);
    var pass := Pass(vias, made, maxLinkWidth);
    reserved, perm :| FromOneBit(mode, unit, widths, links, pass, reserved, perm);
    var lanes', made', maxLinkWidth';
    lanes', made', maxLinkWidth' := AllocateLJF(mode, unit, widths', links');
    var vias' := ReadLanes(lanes');
    var pass' := Pass(vias', made', maxLinkWidth');
    reserved', perm' :| FromOneBit(mode, unit, widths', links', pass', reserved', perm');
    var _ := DirectionSound(mode, unit, widths, links);
    var _ := DirectionSound(mode, unit, widths', links');

    var egressLinks, viaLoads, assignment := AssignFlowcontrol(vias, |vias'|);
    var served := Served(egressLinks, viaLoads, assignment);
    var egressLinks', viaLoads', assignment' := AssignFlowcontrol(vias', |vias|);
    var served' := Served(egressLinks', viaLoads', assignment');
    ServeSlots(vias, |vias'|);
    ServeSlots(vias', |vias|);

    var vectors := FillEgressVectors(pass, served);
    var vectors' := FillEgressVectors(pass', served');
    var records := FinishLanes(pass, served, served');
    var records' := FinishLanes(pass', served', served);
    there, back := End(pass, vectors, records), End(pass', vectors', records');
    EndSettled(there, back, served, served');
    EndSettled(back, there, served', served);
    DirectionLoads(mode, unit, widths, links);
    DirectionLoads(mode, unit, widths', links');
    PortsExistExactly(there, back, served');
    PortsExistExactly(back, there, served);
  }
}
