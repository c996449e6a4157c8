/** The allocation as the program runs it: lanes are objects that the pass updates in place, and every
    repetition starts from a copy taken before the pass. */
module LaneAllocator {
  import opened Arith
  import opened Sums
  import opened LaneAllocation
  import opened LaneAllotment
  import RouterTypes

  class ViaAssignment {
    const width: nat
    var load: nat
    var links: nat

    constructor (width: nat, load: nat, links: nat)
      ensures this.width == width && this.load == load && this.links == links
    {
      this.width, this.load, this.links := width, load, links;
    }

    function Value(): Via
      reads this
    {
      Via(width, load, links)
    }
  }

  ghost predicate Distinct(vias: seq<ViaAssignment>) {
    forall i, j :: 0 <= i < j < |vias| ==> vias[i] != vias[j]
  }

  function Values(vias: seq<ViaAssignment>): (r: seq<Via>)
    reads vias
    ensures |r| == |vias|
  {
    seq(|vias|, i requires 0 <= i < |vias| reads vias => vias[i].Value())
  }

  /** copy.deepcopy of the lanes */
  method Copy(vias: seq<ViaAssignment>) returns (copies: seq<ViaAssignment>)
    ensures Distinct(copies) && fresh(copies)
    ensures Values(copies) == Values(vias)
  {
    copies := [];
    for i := 0 to |vias|
      invariant |copies| == i && Distinct(copies) && fresh(copies)
      invariant forall j :: 0 <= j < i ==> copies[j].Value() == vias[j].Value()
    {
      var c := new ViaAssignment(vias[i].width, vias[i].load, vias[i].links);
      copies := copies + [c];
    }
  }

  lemma {:induction false} ValueAt(vias: seq<ViaAssignment>, k: nat)
    requires k < |vias|
    ensures Values(vias)[k] == vias[k].Value()
  {
  }

  /** The inner loop: the first lane whose load with the link is least, and that load. */
  method ChooseLane(vias: seq<ViaAssignment>, headers: seq<nat>, l: Link) returns (minIdx: nat, minLoad: nat)
    requires Legal(Values(vias), headers)
    ensures minIdx < |vias| && minIdx == Choice(Values(vias), headers, l, |vias|)
    ensures minLoad == LoadWith(Values(vias)[minIdx], headers[minIdx], l)
  {
    hide Legal, LoadWith, Values;
    LegalWidths(Values(vias), headers);
    minIdx, minLoad := 0, 0;
    for via := 0 to |vias|
      invariant via > 0 ==> minIdx == Choice(Values(vias), headers, l, via)
      invariant via > 0 ==> minIdx < via && minLoad == LoadWith(Values(vias)[minIdx], headers[minIdx], l)
    {
      ValueAt(vias, via);
      var extraChunk := 0;
      if (l.bitwidth + headers[via]) % vias[via].width > 0 {
        extraChunk := 1;
      }
      var chunks := (l.bitwidth + headers[via]) / vias[via].width + extraChunk;
      var load := l.activity * chunks + vias[via].load;
      LoadComputed(Values(vias)[via], headers[via], l, chunks);
      if via == 0 || load < minLoad {
        minIdx, minLoad := via, load;
      }
    }
  }

  lemma {:induction false} LoadComputed(v: Via, header: nat, l: Link, chunks: nat)
    requires v.width > 0
    requires chunks == (l.bitwidth + header) / v.width + if (l.bitwidth + header) % v.width > 0 then 1 else 0
    ensures l.activity * chunks + v.load == LoadWith(v, header, l)
  {
  }

  lemma {:induction false} LegalWidths(vias: seq<Via>, headers: seq<nat>)
    requires Legal(vias, headers)
    ensures |vias| == |headers| > 0 && forall v :: 0 <= v < |vias| ==> vias[v].width > 0
  {
  }

  /** Changing one of the lane objects changes one of the values. */
  lemma {:induction false} Updated(vias: seq<ViaAssignment>, before: seq<Via>, k: nat, v: Via)
    requires |before| == |vias| && k < |vias| && vias[k].Value() == v
    requires forall i :: 0 <= i < |vias| && i != k ==> vias[i].Value() == before[i]
    ensures Values(vias) == before[k := v]
  {
  }

  /** The chosen lane takes the link's load and gives its next slot. */
  method PlaceLink(vias: seq<ViaAssignment>, headers: seq<nat>, l: Link) returns (minIdx: nat, slot: nat)
    requires Distinct(vias) && Legal(Values(vias), headers)
    modifies vias
    ensures minIdx < |vias| && minIdx == Choice(old(Values(vias)), headers, l, |vias|)
    ensures slot == old(Values(vias))[minIdx].links
    ensures Values(vias) == old(Values(vias))[minIdx := Take(old(Values(vias))[minIdx], headers[minIdx], l)]
  {
    ghost var before := Values(vias);
    var minLoad;
    minIdx, minLoad := ChooseLane(vias, headers, l);
    hide Choice, LoadWith, Legal;
    LegalWidths(before, headers);
    slot := vias[minIdx].links;
    vias[minIdx].load := minLoad;
    vias[minIdx].links := vias[minIdx].links + 1;
    Updated(vias, before, minIdx, Take(before[minIdx], headers[minIdx], l));
  }

  /** One pass over the sorted links. */
  method AllocatePass(vias: seq<ViaAssignment>, headers: seq<nat>, links: seq<Link>)
    returns (made: seq<Assignment>, maxLinkWidth: seq<int>)
    requires Distinct(vias) && Legal(Values(vias), headers)
    modifies vias
    ensures Pass(Values(vias), made, maxLinkWidth) == Run(old(Values(vias)), headers, links, |links|)
  {
    hide Choice, LoadWith, Legal, Take, Values;
    made, maxLinkWidth := [], seq(|vias|, _ => -1);
    ghost var start := Values(vias);
    for i := 0 to |links|
      invariant Pass(Values(vias), made, maxLinkWidth) == Run(start, headers, links, i)
    {
      var l := links[i];
      var minIdx, slot := PlaceLink(vias, headers, l);
      ghost var widest := maxLinkWidth;
      if l.bitwidth > maxLinkWidth[minIdx] {
        maxLinkWidth := maxLinkWidth[minIdx := l.bitwidth];
      }
      assert maxLinkWidth == widest[minIdx := Max(widest[minIdx], l.bitwidth)];
      made := made + [Assignment(l.name, l.partner, minIdx, slot)];
    }
  }

  /** The headers that the lanes really need, and whether some reservation is too small. */
  method CheckHeaders(mode: Mode, vias: seq<ViaAssignment>, headers: seq<nat>, maxLinkWidth: seq<int>,
                      ghost r: Pass)
    returns (needRecurse: bool, headersNext: seq<nat>)
    requires r.vias == Values(vias) && r.maxWidths == maxLinkWidth
    requires Legal(r.vias, headers) && |maxLinkWidth| == |vias|
    ensures needRecurse <==> !Covered(mode, r, headers)
    ensures headersNext == GrownHeaders(mode, r, headers)
  {
    hide ActualHeader, Legal, Values;
    LegalWidths(r.vias, headers);
    needRecurse, headersNext := false, [];
    for via := 0 to |vias|
      invariant |headersNext| == via
      invariant forall v :: 0 <= v < via ==> headersNext[v] == Max(RealHeader(mode, r, v), headers[v])
      invariant needRecurse <==> exists v :: 0 <= v < via && RealHeader(mode, r, v) > headers[v]
    {
      ValueAt(vias, via);
      var headerActual := ActualHeader(mode, vias[via].width, vias[via].links, maxLinkWidth[via]);
      assert headerActual == RealHeader(mode, r, via);
      headersNext := headersNext + [Max(headerActual, headers[via])];
      if headers[via] < headerActual {
        needRecurse := true;
      }
    }
  }

  /** One turn of the recursion. */
  lemma {:induction false} AllocateOnce(mode: Mode, vias: seq<Via>, headers: seq<nat>, links: seq<Link>)
    requires Legal(vias, headers) && Fresh(vias)
    ensures var pass := Run(vias, headers, links, |links|);
            && Legal(pass.vias, headers) && |pass.maxWidths| == |pass.vias| == |headers|
            && (forall v :: 0 <= v < |headers| ==> pass.vias[v].width > 0)
            && if Covered(mode, pass, headers) then Allocate(mode, vias, headers, links) == Result(pass, headers)
               else var next := GrownHeaders(mode, pass, headers);
                    && Legal(vias, next)
                    && Allocate(mode, vias, headers, links) == Allocate(mode, vias, next, links)
                    && forall v :: 0 <= v < |headers| ==> headers[v] <= next[v]
  {
    hide Run, Covered, RealHeader, Slack, Sum;
  }

  /** The recursion: the lanes that come back are the given objects or fresh ones. They, the assignments and the
      widest links are an allotment of the given links, under reservations no smaller than those given. */
  method AllocateLJFWithHeaders(mode: Mode, unit: nat, vias: seq<ViaAssignment>, headers: seq<nat>,
                                unsorted: seq<Link>)
    returns (result: seq<ViaAssignment>, made: seq<Assignment>, maxLinkWidth: seq<int>,
             ghost reserved: seq<nat>, ghost perm: seq<nat>)
    requires Distinct(vias) && Legal(Values(vias), headers) && Fresh(Values(vias))
    modifies vias
    ensures Result(Pass(Values(result), made, maxLinkWidth), reserved)
            == Allocate(mode, old(Values(vias)), headers, Sorted(unit, unsorted))
    ensures Allotted(mode, unit, unsorted, WidthsOf(old(Values(vias))), Pass(Values(result), made, maxLinkWidth),
                     reserved, perm)
    ensures |reserved| == |headers| && forall v :: 0 <= v < |headers| ==> headers[v] <= reserved[v]
    ensures result == vias || fresh(result)
    decreases Sum(Slack(mode, Values(vias), Sorted(unit, unsorted), headers))
  {
    hide Run, Covered, GrownHeaders, RealHeader, Slack, Sum, Allocate, Legal, Values, Sorted, Allotted;
    var links := Sorted(unit, unsorted);
    ghost var start := Values(vias);
    AllocateOnce(mode, start, headers, links);
    perm := AllocateAllots(mode, unit, unsorted, start, headers);
    LegalWidths(start, headers);
    var viasRollback := Copy(vias);
    made, maxLinkWidth := AllocatePass(vias, headers, links);
    ghost var r := Run(start, headers, links, |links|);
    var needRecurse, headersNext := CheckHeaders(mode, vias, headers, maxLinkWidth, r);
    if !needRecurse {
      result, reserved := vias, headers;
    } else {
      SlackFalls(mode, start, headers, links);
      ghost var order;
      result, made, maxLinkWidth, reserved, order :=
        AllocateLJFWithHeaders(mode, unit, viasRollback, headersNext, unsorted);
    }
  }

  /** Empty lanes of these widths */
  function EmptyLanes(widths: seq<nat>): (r: seq<Via>)
    ensures |r| == |widths|
  {
    seq(|widths|, v requires 0 <= v < |widths| => Via(widths[v], 0, 0))
  }

  /** r is the allocation that starts with one reserved bit per lane, and an allotment of the given links under the
      reservations that were finally made. */
  ghost predicate FromOneBit(mode: Mode, unit: nat, widths: seq<nat>, links: seq<Link>, r: Pass, reserved: seq<nat>,
                             perm: seq<nat>)
    requires |widths| > 0 && forall v :: 0 <= v < |widths| ==> widths[v] > 0
  {
    && Result(r, reserved) == Allocate(mode, EmptyLanes(widths), seq(|widths|, _ => 1), Sorted(unit, links))
    && Allotted(mode, unit, links, widths, r, reserved, perm)
  }

  ghost predicate AllocatedFromOneBit(mode: Mode, unit: nat, widths: seq<nat>, links: seq<Link>, r: Pass)
    requires |widths| > 0 && forall v :: 0 <= v < |widths| ==> widths[v] > 0
  {
    exists reserved, perm :: FromOneBit(mode, unit, widths, links, r, reserved, perm)
  }

  /** The first call reserves one bit per lane. */
  method AllocateLJF(mode: Mode, unit: nat, widths: seq<nat>, unsorted: seq<Link>)
    returns (result: seq<ViaAssignment>, made: seq<Assignment>, maxLinkWidth: seq<int>)
    requires |widths| > 0 && forall v :: 0 <= v < |widths| ==> widths[v] > 0
    ensures AllocatedFromOneBit(mode, unit, widths, unsorted, Pass(Values(result), made, maxLinkWidth))
  {
    var vias := [];
    for i := 0 to |widths|
      invariant |vias| == i && Distinct(vias) && fresh(vias)
      invariant forall v :: 0 <= v < i ==> vias[v].Value() == Via(widths[v], 0, 0)
    {
      var via := new ViaAssignment(widths[i], 0, 0);
      vias := vias + [via];
    }
    assert Values(vias) == EmptyLanes(widths);
    assert WidthsOf(Values(vias)) == widths;
    hide Allocate, Allotted, Sorted;
    ghost var reserved, perm;
    result, made, maxLinkWidth, reserved, perm :=
      AllocateLJFWithHeaders(mode, unit, vias, seq(|widths|, _ => 1), unsorted);
    assert FromOneBit(mode, unit, widths, unsorted, Pass(Values(result), made, maxLinkWidth), reserved, perm);
  }
}
