/** The field widths of a router's packet header: an iteration over the filler width that stops at a
    fixed point. Widths are integers, since the iteration can leave the filler negative. */
module RouterTypes {
  import opened Wrappers
  import opened Arith

  /** aggressive is ENABLE_AGRESSIVE_UMF_PARAMETERS; maxWidth is -1 for a lane without links. */
  datatype Params = Params(aggressive: bool, viaWidth: nat, viaLinks: nat, maxWidth: int)

  datatype UMFType = UMFType(channelID: int, serviceID: int, methodID: int, msgLength: int,
                             phyReserved: int, filler: int, total: int)

  /** The constructor's check: the fields add up to the total. */
  function MakeUMFType(channelID: int, serviceID: int, methodID: int, msgLength: int, phyReserved: int,
                       filler: int, total: int): (r: Option<UMFType>)
    ensures r.None? <==> total != channelID + serviceID + methodID + msgLength + phyReserved + filler
    ensures r.Some? ==> r.value.channelID == channelID && r.value.serviceID == serviceID && r.value.methodID == methodID
    ensures r.Some? ==> r.value.msgLength == msgLength && r.value.phyReserved == phyReserved
    ensures r.Some? ==> r.value.filler == filler && r.value.total == total
  {
    if total != channelID + serviceID + methodID + msgLength + phyReserved + filler then None
    else Some(UMFType(channelID, serviceID, methodID, msgLength, phyReserved, filler, total))
  }

  /** Bits for the link number */
  function LinkBits(p: Params): (r: nat)
    ensures r >= 1
  {
    if p.viaLinks > 0 then Max(1, CeilLog2(p.viaLinks)) else 1
  }

  /** Words after the first that the widest message needs, beside a filler of this width */
  function BodyWords(p: Params, filler: int): nat
    requires p.viaWidth > 0
  {
    CeilDiv(Max(0, p.maxWidth - filler), p.viaWidth)
  }

  /** Bits for the number of chunks */
  function ChunkBits(p: Params, filler: int): (r: nat)
    requires p.viaWidth > 0
    ensures r >= 1
  {
    (if p.aggressive then 0 else 1) + Max(1, CeilLog2(1 + BodyWords(p, filler)))
  }

  /** Padding up to the ten bits of the older message format */
  function MethodDummy(p: Params, chunks: nat): nat {
    if p.aggressive then 0 else Max(0, 10 - chunks)
  }

  /** One iteration: what the other fields leave of the word. */
  function NextFiller(p: Params, filler: int): int
    requires p.viaWidth > 0
  {
    p.viaWidth - LinkBits(p) - ChunkBits(p, filler) - MethodDummy(p, ChunkBits(p, filler))
  }

  /** A wider filler never needs more chunks, so the iteration is monotone. */
  lemma {:induction false} NextMonotone(p: Params, filler: int, filler': int)
    requires p.viaWidth > 0 && filler <= filler'
    ensures ChunkBits(p, filler') <= ChunkBits(p, filler)
    ensures NextFiller(p, filler) <= NextFiller(p, filler')
  {
    hide CeilDiv, CeilLog2;
    CeilDivMonotone(Max(0, p.maxWidth - filler'), Max(0, p.maxWidth - filler), p.viaWidth);
    CeilLog2Monotone(1 + BodyWords(p, filler'), 1 + BodyWords(p, filler));
  }

  /** A filler that the iteration never falls below. */
  function Floor(p: Params): int {
    -2 * (LinkBits(p) + Max(0, p.maxWidth) + 12)
  }

  lemma {:induction false} CeilDivAtMost(x: nat, y: nat)
    requires y > 0
    ensures CeilDiv(x, y) <= x
  {
    MulMonotone(1, y, x);
    CeilDivLeast(x, y, x);
  }

  lemma {:induction false} FloorHolds(p: Params)
    requires p.viaWidth > 0
    ensures Floor(p) <= NextFiller(p, Floor(p))
  {
    hide CeilDiv, CeilLog2;
    var need := Max(0, p.maxWidth - Floor(p));
    CeilDivAtMost(need, p.viaWidth);
    CeilLog2Half(1 + BodyWords(p, Floor(p)));
  }

  /** The iteration has only gone one way so far: up from 0, or down, but not below the floor. */
  predicate OnTrack(p: Params, filler: int)
    requires p.viaWidth > 0
  {
    || (0 <= filler <= p.viaWidth && filler <= NextFiller(p, filler))
    || (Floor(p) <= filler <= p.viaWidth && NextFiller(p, filler) <= filler)
  }

  lemma {:induction false} StaysOnTrack(p: Params, filler: int)
    requires p.viaWidth > 0 && OnTrack(p, filler)
    ensures OnTrack(p, NextFiller(p, filler))
  {
    var next := NextFiller(p, filler);
    if filler <= next {
      NextMonotone(p, filler, next);
    } else {
      NextMonotone(p, next, filler);
      FloorHolds(p);
      NextMonotone(p, Floor(p), filler);
    }
  }

  lemma {:induction false} StartsOnTrack(p: Params)
    requires p.viaWidth > 0
    ensures OnTrack(p, 0)
  {
  }

  /** How far the iteration can still go. */
  function Distance(p: Params, filler: int): nat
    requires p.viaWidth > 0 && OnTrack(p, filler)
  {
    if NextFiller(p, filler) == filler then 0
    else if filler < NextFiller(p, filler) then 1 + p.viaWidth - filler
    else 1 + filler - Floor(p)
  }

  lemma {:induction false} DistanceFalls(p: Params, filler: int)
    requires p.viaWidth > 0 && OnTrack(p, filler) && NextFiller(p, filler) != filler
    ensures OnTrack(p, NextFiller(p, filler))
    ensures Distance(p, NextFiller(p, filler)) < Distance(p, filler)
  {
    StaysOnTrack(p, filler);
    hide NextFiller, Floor;
    var next := NextFiller(p, filler);
    if filler <= next {
      NextMonotone(p, filler, next);
    } else {
      NextMonotone(p, next, filler);
    }
  }

  /** Where the iteration from `filler` ends. */
  function Settle(p: Params, filler: int): (r: int)
    requires p.viaWidth > 0 && OnTrack(p, filler)
    ensures OnTrack(p, r) && NextFiller(p, r) == r
    decreases Distance(p, filler)
  {
    if NextFiller(p, filler) == filler then filler
    else
      DistanceFalls(p, filler);
      Settle(p, NextFiller(p, filler))
  }

  function Filler(p: Params): int
    requires p.viaWidth > 0
  {
    Settle(p, 0)
  }

  function RouterType(p: Params): UMFType
    requires p.viaWidth > 0
  {
    HeaderAt(p, Filler(p))
  }

  function HeaderAt(p: Params, filler: int): UMFType
    requires p.viaWidth > 0
  {
    var chunks := ChunkBits(p, filler);
    UMFType(0, LinkBits(p), MethodDummy(p, chunks), chunks, 0, filler, p.viaWidth)
  }

  // ----- the header, told without the loop -----

  /** The least number of bits, at least one, for x different numbers */
  predicate LeastBits(e: int, x: nat) {
    e >= 1 && Pow(2, e) >= x && (e > 1 ==> Pow(2, e - 1) < x)
  }

  /** Words that a message needs after the first, in which it has the filler */
  predicate LeastWords(words: nat, viaWidth: nat, maxWidth: int, filler: int) {
    filler + words * viaWidth >= maxWidth && (words > 0 ==> filler + (words - 1) * viaWidth < maxWidth)
  }

  /** A header that fits the lane: the fields add up to the word; the link number and the chunk number have as few
      bits as their values allow, the chunk number one more if the parameters are not aggressive, when it is also
      padded to ten bits. */
  ghost predicate Consistent(p: Params, t: UMFType) {
    && t.channelID == 0 && t.phyReserved == 0 && t.total == p.viaWidth
    && t.filler == p.viaWidth - t.serviceID - t.methodID - t.msgLength
    && LeastBits(t.serviceID, p.viaLinks)
    && t.methodID == (if p.aggressive || t.msgLength >= 10 then 0 else 10 - t.msgLength)
    && exists words: nat ::
         LeastWords(words, p.viaWidth, p.maxWidth, t.filler)
         && LeastBits(if p.aggressive then t.msgLength else t.msgLength - 1, 1 + words)
  }

  lemma {:induction false} LogIsLeast(x: nat)
    requires x > 0
    ensures LeastBits(Max(1, CeilLog2(x)), x)
  {
    PowMonotone(2, CeilLog2(x), Max(1, CeilLog2(x)));
    hide Pow;
  }

  lemma {:induction false} WordsAreLeast(p: Params, filler: int)
    requires p.viaWidth > 0
    ensures LeastWords(BodyWords(p, filler), p.viaWidth, p.maxWidth, filler)
  {
    hide CeilDiv;
    CeilDivBounds(Max(0, p.maxWidth - filler), p.viaWidth);
    MulMonotone(0, BodyWords(p, filler), p.viaWidth);
    if p.maxWidth <= filler {
      NoWords(p.viaWidth);
    }
  }

  lemma {:induction false} NoWords(y: nat)
    requires y > 0
    ensures CeilDiv(0, y) == 0
  {
  }

  lemma {:induction false} LinkBitsLeast(p: Params)
    ensures LeastBits(LinkBits(p), p.viaLinks)
  {
    hide CeilLog2;
    if p.viaLinks > 0 {
      LogIsLeast(p.viaLinks);
    } else {
      assert Pow(2, 1) >= 0;
    }
  }

  lemma {:induction false} FixedIsConsistent(p: Params, g: int)
    requires p.viaWidth > 0 && NextFiller(p, g) == g
    ensures Consistent(p, HeaderAt(p, g))
  {
    hide CeilLog2, BodyWords, Pow, LinkBits, LeastBits, LeastWords;
    LinkBitsLeast(p);
    WordsAreLeast(p, g);
    LogIsLeast(1 + BodyWords(p, g));
  }

  /** What the loop ends with is such a header. */
  lemma {:induction false} RouterTypeConsistent(p: Params)
    requires p.viaWidth > 0
    ensures Consistent(p, RouterType(p))
  {
    StartsOnTrack(p);
    FixedIsConsistent(p, Filler(p));
  }

  lemma {:induction false} LinkBitsIs(p: Params)
    ensures LinkBits(p) == if p.viaLinks > 0 then Max(1, CeilLog2(p.viaLinks)) else 1
  {
    hide CeilLog2;
  }

  /** The loop, with the source's sentinel values; it ends for every positive via width, and its result
      passes the constructor's check. */
  method GenerateRouterTypes(p: Params) returns (t: Option<UMFType>)
    requires p.viaWidth > 0
    ensures t == Some(RouterType(p)) && Consistent(p, t.value)
  {
    hide Consistent, CeilDiv, CeilLog2, Floor, BodyWords, Distance, LinkBits, Pow, LeastBits, LeastWords;
    LinkBitsIs(p);
    var links := 1;
    if p.viaLinks > 0 {
      links := Max(1, CeilLog2(p.viaLinks));
    }
    var extraChunks := 1;
    if p.aggressive {
      extraChunks := 0;
    }
    var fillerWidth, fillerWidthNext := -1, 0;
    var chunks, methodDummy := -1, 0;
    StartsOnTrack(p);
    RouterTypeConsistent(p);
    while fillerWidth != fillerWidthNext
      invariant OnTrack(p, fillerWidthNext) && Settle(p, fillerWidthNext) == Filler(p)
      invariant chunks == -1 ==> fillerWidth != fillerWidthNext
      invariant chunks != -1 ==> OnTrack(p, fillerWidth) && fillerWidthNext == NextFiller(p, fillerWidth)
                                 && chunks == ChunkBits(p, fillerWidth) && methodDummy == MethodDummy(p, chunks)
      invariant p.aggressive ==> methodDummy == 0
      decreases Distance(p, fillerWidthNext), fillerWidth != fillerWidthNext
    {
      if NextFiller(p, fillerWidthNext) != fillerWidthNext {
        DistanceFalls(p, fillerWidthNext);
      }
      fillerWidth := fillerWidthNext;
      chunks := extraChunks + Max(1, CeilLog2(1 + BodyWords(p, fillerWidth)));
      if !p.aggressive {
        methodDummy := Max(0, 10 - chunks);
      }
      fillerWidthNext := p.viaWidth - links - chunks - methodDummy;
    }
    fillerWidth := fillerWidthNext;
    t := MakeUMFType(0, links, methodDummy, chunks, 0, fillerWidth, p.viaWidth);
  }

  /** USE_DEFAULT_UMF_PARAMETERS: the given fields, and the rest of the word is filler. */
  method DefaultRouterType(viaWidth: nat, channelID: nat, serviceID: nat, methodID: nat, msgLength: nat,
                           phyReserved: nat) returns (t: Option<UMFType>)
    ensures t.Some? && t.value.total == viaWidth
    ensures t.value.channelID == channelID && t.value.serviceID == serviceID && t.value.methodID == methodID
    ensures t.value.msgLength == msgLength && t.value.phyReserved == phyReserved
    ensures t.value.filler + phyReserved + channelID + serviceID + methodID + msgLength == viaWidth
  {
    var fillerWidth := viaWidth - phyReserved - channelID - serviceID - methodID - msgLength;
    t := MakeUMFType(channelID, serviceID, methodID, msgLength, phyReserved, fillerWidth, viaWidth);
  }

  /** The fields add up, every link number fits its field, and so does the number of chunks that the widest
      message needs beside the final filler. */
  lemma {:induction false} FieldsWideEnough(p: Params)
    requires p.viaWidth > 0
    ensures var t := RouterType(p);
            && t.serviceID + t.methodID + t.msgLength + t.filler == p.viaWidth
            && Pow(2, t.serviceID) >= p.viaLinks
            && t.msgLength >= 0 && Pow(2, t.msgLength) >= 1 + BodyWords(p, t.filler)
            && (1 + BodyWords(p, t.filler) - 1) * p.viaWidth + t.filler >= p.maxWidth
  {
    var words := BodyWords(p, Filler(p));
    if p.viaLinks > 0 {
      PowMonotone(2, CeilLog2(p.viaLinks), LinkBits(p));
    }
    PowMonotone(2, CeilLog2(1 + words), ChunkBits(p, Filler(p)));
    CeilDivBounds(Max(0, p.maxWidth - Filler(p)), p.viaWidth);
  }

  /** Which fixed point the loop finds: the one nearest to 0 on the side to which the first step goes. */
  lemma {:induction false} NearestFixedPoint(p: Params, g: int)
    requires p.viaWidth > 0 && NextFiller(p, g) == g
    ensures g >= 0 ==> Filler(p) <= g
    ensures g <= 0 ==> g <= Filler(p)
  {
    StartsOnTrack(p);
    SettleNearest(p, 0, g);
  }

  lemma {:induction false} BitsUnique(e: int, f: int, x: nat)
    requires LeastBits(e, x) && LeastBits(f, x)
    ensures e == f
  {
    hide Pow;
    if e < f {
      PowMonotone(2, e, f - 1);
    } else if f < e {
      PowMonotone(2, f, e - 1);
    }
  }

  lemma {:induction false} WordsUnique(a: nat, b: nat, viaWidth: nat, maxWidth: int, filler: int)
    requires viaWidth > 0 && LeastWords(a, viaWidth, maxWidth, filler) && LeastWords(b, viaWidth, maxWidth, filler)
    ensures a == b
  {
    if a < b {
      MulMonotone(a, b - 1, viaWidth);
    } else if b < a {
      MulMonotone(b, a - 1, viaWidth);
    }
  }

  /** The headers that fit are exactly the fixed points of the iteration. */
  lemma {:induction false} ConsistentIsFixed(p: Params, t: UMFType)
    requires p.viaWidth > 0 && Consistent(p, t)
    ensures NextFiller(p, t.filler) == t.filler && t.msgLength == ChunkBits(p, t.filler) && t.serviceID == LinkBits(p)
  {
    hide LinkBits, BodyWords, LeastBits, LeastWords, CeilLog2;
    LinkBitsLeast(p);
    BitsUnique(t.serviceID, LinkBits(p), p.viaLinks);
    var words: nat :| LeastWords(words, p.viaWidth, p.maxWidth, t.filler)
                      && LeastBits(if p.aggressive then t.msgLength else t.msgLength - 1, 1 + words);
    WordsAreLeast(p, t.filler);
    WordsUnique(words, BodyWords(p, t.filler), p.viaWidth, p.maxWidth, t.filler);
    LogIsLeast(1 + words);
    BitsUnique(if p.aggressive then t.msgLength else t.msgLength - 1, Max(1, CeilLog2(1 + words)), 1 + words);
  }

  /** Of all headers that fit, the loop ends with the one whose filler is nearest to 0, on either side. */
  lemma {:induction false} NearestConsistent(p: Params, t: UMFType)
    requires p.viaWidth > 0 && Consistent(p, t)
    ensures t.filler >= 0 ==> RouterType(p).filler <= t.filler
    ensures t.filler <= 0 ==> t.filler <= RouterType(p).filler
    ensures t.filler == RouterType(p).filler ==> t == RouterType(p)
  {
    hide Consistent, Filler, NextFiller, LinkBits, ChunkBits;
    ConsistentIsFixed(p, t);
    NearestFixedPoint(p, t.filler);
    SameFields(p, t);
  }

  lemma {:induction false} SameFields(p: Params, t: UMFType)
    requires p.viaWidth > 0 && Consistent(p, t)
    requires t.msgLength == ChunkBits(p, t.filler) && t.serviceID == LinkBits(p)
    ensures t.filler == RouterType(p).filler ==> t == RouterType(p)
  {
    hide LinkBits, ChunkBits, Filler, LeastBits, LeastWords;
  }

  lemma {:induction false} SettleNearest(p: Params, filler: int, g: int)
    requires p.viaWidth > 0 && OnTrack(p, filler) && NextFiller(p, g) == g
    ensures g >= filler ==> Settle(p, filler) <= g
    ensures g <= filler ==> g <= Settle(p, filler)
    decreases Distance(p, filler)
  {
    if NextFiller(p, filler) != filler {
      DistanceFalls(p, filler);
      var next := NextFiller(p, filler);
      if g >= filler {
        NextMonotone(p, filler, g);
      }
      if g <= filler {
        NextMonotone(p, g, filler);
      }
      SettleNearest(p, next, g);
    }
  }

  /** The filler is not negative exactly if the other fields fit beside an empty filler. */
  lemma {:induction false} FillerFits(p: Params)
    requires p.viaWidth > 0
    ensures Filler(p) >= 0 <==> NextFiller(p, 0) >= 0
  {
    StartsOnTrack(p);
    SettleSide(p, 0);
  }

  lemma {:induction false} SettleSide(p: Params, filler: int)
    requires p.viaWidth > 0 && OnTrack(p, filler)
    ensures filler <= NextFiller(p, filler) ==> Settle(p, filler) >= NextFiller(p, filler)
    ensures filler >= NextFiller(p, filler) ==> Settle(p, filler) <= NextFiller(p, filler)
    decreases Distance(p, filler)
  {
    if NextFiller(p, filler) != filler {
      DistanceFalls(p, filler);
      var next := NextFiller(p, filler);
      if filler <= next {
        NextMonotone(p, filler, next);
      } else {
        NextMonotone(p, next, filler);
      }
      SettleSide(p, next);
    }
  }

  /** The loop falls instead of rising when the fields of an empty filler are too wide for the lane. */
  lemma {:induction false} FillerFalls(p: Params)
    requires p.viaWidth > 0
    ensures NextFiller(p, 0) < 0 ==> Filler(p) <= NextFiller(p, 0)
    ensures NextFiller(p, 0) >= 0 ==> NextFiller(p, 0) <= Filler(p) < p.viaWidth
  {
    StartsOnTrack(p);
    SettleSide(p, 0);
  }

  /** The header is positive and bounded in terms of the lane and its links. */
  lemma {:induction false} HeaderBounds(p: Params)
    requires p.viaWidth > 0
    ensures 2 <= p.viaWidth - Filler(p) <= p.viaWidth + 2 * (p.viaLinks + Max(0, p.maxWidth) + 13)
  {
    StartsOnTrack(p);
    if p.viaLinks > 0 {
      CeilLog2Half(p.viaLinks);
    }
  }
}
