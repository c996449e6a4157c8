/** Whether the loop for the router's header finds the consistent header with the fewest chunk bits, and what
    it finds on a lane too narrow for the fields. */
module RouterChunks {
  import opened Wrappers
  import opened Arith
  import opened RouterTypes

  /** What c bits of chunk number and the padding take, in a consistent header */
  function ChunkFields(p: Params, c: nat): nat {
    if p.aggressive then c else Max(10, 1 + c)
  }

  /** The logarithm that the chunk bits are made of */
  function Log(p: Params, g: int): (c: nat)
    requires p.viaWidth > 0
    ensures c >= 1
    ensures 1 + BodyWords(p, g) <= Pow(2, c)
    ensures c > 1 ==> Pow(2, c - 1) < 1 + BodyWords(p, g)
  {
    PowMonotone(2, CeilLog2(1 + BodyWords(p, g)), Max(1, CeilLog2(1 + BodyWords(p, g))));
    Max(1, CeilLog2(1 + BodyWords(p, g)))
  }

  lemma {:induction false} StepByLog(p: Params, g: int)
    requires p.viaWidth > 0
    ensures ChunkBits(p, g) == Log(p, g) + if p.aggressive then 0 else 1
    ensures NextFiller(p, g) == p.viaWidth - LinkBits(p) - ChunkFields(p, Log(p, g))
  {
    hide CeilLog2, BodyWords, LinkBits;
  }

  /** The two bounds of Log determine it. */
  lemma {:induction false} LogIs(p: Params, g: int, c: nat)
    requires p.viaWidth > 0 && c >= 1 && 1 + BodyWords(p, g) <= Pow(2, c)
    requires c > 1 ==> Pow(2, c - 1) < 1 + BodyWords(p, g)
    ensures Log(p, g) == c
  {
    hide BodyWords, Log, Pow;
    if Log(p, g) < c {
      PowMonotone(2, Log(p, g), c - 1);
    } else if Log(p, g) > c {
      PowMonotone(2, c, Log(p, g) - 1);
    }
  }

  /** Shortening the filler by d bits costs at most d words, however narrow the lane is. */
  lemma {:induction false} WordsByFiller(p: Params, g: int, d: nat)
    requires p.viaWidth > 0
    ensures BodyWords(p, g - d) <= BodyWords(p, g) + d
  {
    hide CeilDiv;
    var x, y := Max(0, p.maxWidth - g), Max(0, p.maxWidth - (g - d));
    CeilDivBounds(x, p.viaWidth);
    MulMonotone(1, p.viaWidth, d);
    Distribute(CeilDiv(x, p.viaWidth), d, p.viaWidth);
    CeilDivLeast(y, p.viaWidth, CeilDiv(x, p.viaWidth) + d);
  }

  lemma {:induction false} PowAbove(d: nat)
    ensures Pow(2, d) >= d + 1
  {
    if d > 0 {
      PowAbove(d - 1);
    }
  }

  /** Above 2, d doublings add at least 2 * d. */
  lemma {:induction false} DoublingsAdd(c: nat, d: nat)
    requires c >= 1
    ensures Pow(2, c) >= 2 && Pow(2, c + d) >= Pow(2, c) + 2 * d
  {
    PowAbove(c);
    if d > 0 {
      DoublingsAdd(c, d - 1);
    }
  }

  /** The words of the body are q exactly on the last filler for which q full words carry the rest, and one
      more below it. */
  lemma {:induction false} WordsStepAt(p: Params, g: int, q: nat)
    requires p.viaWidth > 0 && q >= 1
    ensures BodyWords(p, g) == q && BodyWords(p, g - 1) == q + 1 <==> p.maxWidth - g == q * p.viaWidth
  {
    hide CeilDiv;
    var v, x, y := p.viaWidth, Max(0, p.maxWidth - g), Max(0, p.maxWidth - g + 1);
    MulMonotone(1, q, v);
    Distribute(q, 1, v);
    CeilDivBounds(x, v);
    CeilDivBounds(y, v);
    if p.maxWidth - g == q * v {
      CeilDivLeast(x, v, q);
      CeilDivLeast(y, v, q + 1);
      if CeilDiv(x, v) < q {
        MulMonotone(CeilDiv(x, v), q - 1, v);
      }
      if CeilDiv(y, v) < q + 1 {
        MulMonotone(CeilDiv(y, v), q, v);
      }
    }
  }

  /** Two consistent headers with different chunk bits: the fillers are neighbours, and the upper one leaves
      exactly 2^c - 1 full words. */
  lemma {:induction false} NeighbouringFixedPoints(p: Params, g: int, g': int) returns (c: nat)
    requires p.viaWidth > 0 && g < g' && NextFiller(p, g) == g && NextFiller(p, g') == g'
    ensures c == Log(p, g') >= 1 && (p.aggressive || c >= 9)
    ensures g' == g + 1 == p.viaWidth - LinkBits(p) - ChunkFields(p, c)
    ensures p.maxWidth - g' == (Pow(2, c) - 1) * p.viaWidth
  {
    hide NextFiller, BodyWords, LinkBits, Log, Pow, ChunkBits;
    c := Log(p, g');
    StepByLog(p, g);
    StepByLog(p, g');
    assert c < Log(p, g);
    var d := Log(p, g) - c - 1;
    WordsByFiller(p, g', g' - g);
    DoublingsAdd(c, d);
    WordsStepAt(p, g', Pow(2, c) - 1);
  }

  /** The other way round: such a width has both headers. */
  lemma {:induction false} NeighboursConsistent(p: Params, c: nat, g: int)
    requires p.viaWidth > 0 && c >= 1 && (p.aggressive || c >= 9)
    requires g == p.viaWidth - LinkBits(p) - ChunkFields(p, c)
    requires p.maxWidth - g == (Pow(2, c) - 1) * p.viaWidth
    ensures NextFiller(p, g) == g && NextFiller(p, g - 1) == g - 1
    ensures ChunkBits(p, g) < ChunkBits(p, g - 1)
  {
    hide NextFiller, BodyWords, LinkBits, Log, ChunkBits;
    PowAbove(c - 1);
    assert Pow(2, c) == 2 * Pow(2, c - 1) && Pow(2, c + 1) == 2 * Pow(2, c);
    WordsStepAt(p, g, Pow(2, c) - 1);
    LogIs(p, g, c);
    LogIs(p, g - 1, c + 1);
    StepByLog(p, g);
    StepByLog(p, g - 1);
  }

  /** On the inputs alone: with the shorter chunk number of c bits the widest message ends exactly at the end of
      word 2^c, and there is room for a filler even beside the longer chunk number. */
  predicate EndsOnWord(p: Params, c: nat) {
    && (p.aggressive || c >= 9)
    && p.maxWidth == Pow(2, c) * p.viaWidth - LinkBits(p) - ChunkFields(p, c)
    && p.viaWidth - LinkBits(p) - ChunkFields(p, c) >= 1
  }

  /** Among all headers that fit, the loop misses the one with the fewest chunk bits exactly on these inputs. */
  lemma {:induction false} ChunksLeastExactly(p: Params)
    requires p.viaWidth > 0
    ensures (forall t :: Consistent(p, t) ==> RouterType(p).msgLength <= t.msgLength)
            <==> !exists c :: 1 <= c < p.viaWidth && EndsOnWord(p, c)
  {
    hide NextFiller, LinkBits, ChunkBits, Filler, Pow, Consistent, MethodDummy;
    forall t | Consistent(p, t) && t.msgLength < RouterType(p).msgLength
      ensures exists c :: 1 <= c < p.viaWidth && EndsOnWord(p, c)
    {
      ConsistentIsFixed(p, t);
      var c := MissedHeader(p, t.filler);
    }
    forall c | 1 <= c < p.viaWidth && EndsOnWord(p, c)
      ensures exists t :: Consistent(p, t) && t.msgLength < RouterType(p).msgLength
    {
      var g := HeaderMissed(p, c);
      FixedIsConsistent(p, g);
      assert HeaderAt(p, g).msgLength == ChunkBits(p, g);
    }
  }

  lemma {:induction false} FillerFixed(p: Params)
    requires p.viaWidth > 0
    ensures NextFiller(p, Filler(p)) == Filler(p)
  {
    StartsOnTrack(p);
  }

  lemma {:induction false} MissedHeader(p: Params, g: int) returns (c: nat)
    requires p.viaWidth > 0 && NextFiller(p, g) == g && ChunkBits(p, g) < ChunkBits(p, Filler(p))
    ensures 1 <= c < p.viaWidth && EndsOnWord(p, c)
  {
    hide NextFiller, ChunkBits, Filler, Pow, Log;
    FillerFixed(p);
    if g <= Filler(p) {
      NextMonotone(p, g, Filler(p));
      assert false;
    }
    NearestFixedPoint(p, g);
    c := NeighbouringFixedPoints(p, Filler(p), g);
    Distribute(Pow(2, c), 1, p.viaWidth);
  }

  lemma {:induction false} HeaderMissed(p: Params, c: nat) returns (g: int)
    requires p.viaWidth > 0 && c >= 1 && EndsOnWord(p, c)
    ensures NextFiller(p, g) == g && ChunkBits(p, g) < ChunkBits(p, Filler(p))
  {
    hide NextFiller, ChunkBits, Filler, Pow, LinkBits, ChunkFields;
    g := p.viaWidth - LinkBits(p) - ChunkFields(p, c);
    Distribute(Pow(2, c), 1, p.viaWidth);
    NeighboursConsistent(p, c, g);
    NearestFixedPoint(p, g - 1);
    FillerFixed(p);
    NextMonotone(p, Filler(p), g - 1);
  }

  /** If the first step already finds a fixed point, that is where the loop ends. */
  lemma {:induction false} SettlesAt(p: Params, g: int)
    requires p.viaWidth > 0 && NextFiller(p, 0) == g && NextFiller(p, g) == g
    ensures Filler(p) == g
  {
    hide NextFiller, OnTrack;
    StartsOnTrack(p);
    StaysOnTrack(p, 0);
    assert Settle(p, g) == g;
  }

  lemma {:induction false} SmallLogs()
    ensures CeilLog2(1) == 0 && CeilLog2(2) == 1 && CeilLog2(3) == 2 && CeilLog2(16) == 4
  {
    assert CeilLog2(4) == 2;
    assert CeilLog2(8) == 3;
  }

  lemma {:induction false} SmallStep(p: Params, filler: int, words: nat)
    requires p.aggressive && p.viaWidth == 100 && p.viaLinks == 1
    requires BodyWords(p, filler) == words && 1 <= words <= 2
    ensures ChunkBits(p, filler) == words && NextFiller(p, filler) == 99 - words
  {
    SmallLogs();
    hide BodyWords, CeilLog2;
  }

  /** The loop does not minimise the number of chunks: for one link of 198 bits on a lane of 100 it stops at a
      filler of 97 with two chunk bits, although a filler of 98 with one chunk bit is consistent as well. */
  lemma {:induction false} ChunksNotLeast(p: Params)
    requires p == Params(true, 100, 1, 198)
    ensures Filler(p) == 97 && ChunkBits(p, 97) == 2
    ensures NextFiller(p, 98) == 98 && ChunkBits(p, 98) == 1
  {
    assert BodyWords(p, 0) == 2 && BodyWords(p, 97) == 2 && BodyWords(p, 98) == 1;
    hide BodyWords, ChunkBits, NextFiller, Filler;
    SmallStep(p, 0, 2);
    SmallStep(p, 97, 2);
    SmallStep(p, 98, 1);
    SettlesAt(p, 97);
  }

  lemma {:induction false} NarrowStep(p: Params, filler: int, words: nat)
    requires !p.aggressive && p.viaWidth == 13 && p.viaLinks == 16
    requires BodyWords(p, filler) == words && words <= 1
    ensures ChunkBits(p, filler) == 2 && MethodDummy(p, 2) == 8 && LinkBits(p) == 4 && NextFiller(p, filler) == -1
  {
    SmallLogs();
    hide BodyWords, CeilLog2;
  }

  /** On a lane of 13 bits with sixteen links the loop goes down: four bits of link number and ten of chunks
      and padding leave -1, which is where it ends, and the header passes the constructor's check. */
  lemma {:induction false} FillerNegative(p: Params)
    requires p == Params(false, 13, 16, 1)
    ensures NextFiller(p, 0) == -1 && Filler(p) == -1
    ensures RouterType(p) == UMFType(0, 4, 8, 2, 0, -1, 13)
    ensures MakeUMFType(0, 4, 8, 2, 0, -1, 13) == Some(RouterType(p))
  {
    assert BodyWords(p, 0) == 1 && BodyWords(p, -1) == 1;
    hide BodyWords, ChunkBits, NextFiller, Filler, MethodDummy, LinkBits;
    NarrowStep(p, 0, 1);
    NarrowStep(p, -1, 1);
    SettlesAt(p, -1);
  }
}
