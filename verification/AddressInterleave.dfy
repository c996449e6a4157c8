/** Which controller of a partitioned client serves an address: the low bits of the address are compared with
    one threshold per part. */
module AddressInterleave {
  import opened Arith
  import opened Sums

  /** Address bits that are looked at: ceil(log2(sum of the partition)) */
  function AddressBits(partition: seq<nat>): nat
    requires Sum(partition) > 0
  {
    CeilLog2(Sum(partition))
  }

  function Span(partition: seq<nat>): (r: nat)
    requires Sum(partition) > 0
    ensures r >= Sum(partition)
  {
    Pow(2, AddressBits(partition))
  }

  /** The span is the least power of two that is not below the sum of the parts. */
  lemma {:induction false} SpanIsLeast(partition: seq<nat>, bits: nat)
    requires Sum(partition) > 0
    ensures Span(partition) == Pow(2, AddressBits(partition)) >= Sum(partition)
    ensures Pow(2, bits) >= Sum(partition) ==> Span(partition) <= Pow(2, bits)
  {
    hide Sum;
    if Pow(2, bits) >= Sum(partition) {
      CeilLog2Least(Sum(partition), bits);
      PowMonotone(2, AddressBits(partition), bits);
    }
  }

  /** ceil(span * (first j + 1 parts) / sum) */
  function Threshold(partition: seq<nat>, j: nat): nat
    requires Sum(partition) > 0 && j < |partition|
  {
    CeilDiv(Span(partition) * Sum(partition[..j + 1]), Sum(partition))
  }

  /** Where part j begins. */
  function Start(partition: seq<nat>, j: nat): nat
    requires Sum(partition) > 0 && j <= |partition|
  {
    if j == 0 then 0 else Threshold(partition, j - 1)
  }

  /** In the span scaled to the sum of the parts, the address lies before the end of part j. */
  predicate BeforeEnd(partition: seq<nat>, j: nat, address: nat)
    requires Sum(partition) > 0 && j < |partition|
  {
    address * Sum(partition) < Span(partition) * Sum(partition[..j + 1])
  }

  /** The loop that writes the thresholds. */
  method Thresholds(partition: seq<nat>) returns (portions: seq<nat>)
    requires Sum(partition) > 0
    ensures |portions| == |partition| && forall j :: 0 <= j < |partition| ==> portions[j] == Threshold(partition, j)
    ensures forall j, address: nat :: 0 <= j < |partition| ==>
              (address < portions[j] <==> BeforeEnd(partition, j, address))
  {
    forall j, address: nat | 0 <= j < |partition|
      ensures address < Threshold(partition, j) <==> BeforeEnd(partition, j, address)
    {
      BelowCeil(Span(partition) * Sum(partition[..j + 1]), Sum(partition), address);
    }
    portions := [];
    for j := 0 to |partition|
      invariant |portions| == j && forall k :: 0 <= k < j ==> portions[k] == Threshold(partition, k)
    {
      portions := portions + [CeilDiv(Pow(2, AddressBits(partition)) * Sum(partition[..j + 1]), Sum(partition))];
    }
  }

  /** The generated chain of comparisons: the first threshold above the address, or else the last part. */
  function Controller(portions: seq<nat>, j: nat, address: nat): (c: nat)
    requires j < |portions|
    ensures j <= c < |portions|
    decreases |portions| - j
  {
    if j == |portions| - 1 then j
    else if address < portions[j] then j
    else Controller(portions, j + 1, address)
  }

  // ----- what the thresholds mean -----

  lemma {:induction false} PrefixSums(partition: seq<nat>, j: nat)
    requires j < |partition|
    ensures Sum(partition[..j + 1]) == Sum(partition[..j]) + partition[j]
    ensures Sum(partition[..j]) <= Sum(partition[..j + 1]) <= Sum(partition)
  {
    SumPrefix(partition, j);
    assert partition == partition[..j + 1] + partition[j + 1..];
    SumConcat(partition[..j + 1], partition[j + 1..]);
  }

  /** Thresholds never fall. */
  lemma {:induction false} StartsAscend(partition: seq<nat>, j: nat)
    requires Sum(partition) > 0 && j < |partition|
    ensures Start(partition, j) <= Start(partition, j + 1)
  {
    PartSize(partition, j);
    hide Sum, Span, CeilDiv, Start;
    var q := QuotientOf(Span(partition) * partition[j], Sum(partition));
  }

  lemma {:induction false} QuotientOf(x: nat, y: nat) returns (q: nat)
    requires y > 0
    ensures q == x / y
  {
    q := x / y;
  }

  lemma {:induction false} ExactCeil(x: nat, y: nat)
    requires y > 0
    ensures CeilDiv(x * y, y) == x
  {
    DivModUnique(x * y, x, 0, y);
  }

  /** The last threshold is the whole span, so every address is below it. */
  lemma {:induction false} LastIsSpan(partition: seq<nat>)
    requires Sum(partition) > 0 && partition != []
    ensures Start(partition, |partition|) == Span(partition)
  {
    assert partition[..|partition|] == partition;
    ExactCeil(Span(partition), Sum(partition));
  }

  lemma {:induction false} StartsMonotone(partition: seq<nat>, i: nat, j: nat)
    requires Sum(partition) > 0 && i <= j <= |partition|
    ensures Start(partition, i) <= Start(partition, j)
    decreases j
  {
    if i < j {
      StartsMonotone(partition, i, j - 1);
      StartsAscend(partition, j - 1);
    }
  }

  /** Exactly the addresses from the start of part j up to its threshold go to controller j. */
  lemma {:induction false} ControllerExactly(partition: seq<nat>, portions: seq<nat>, address: nat, j: nat)
    requires Sum(partition) > 0 && |portions| == |partition| && j < |partition| && address < Span(partition)
    requires forall k :: 0 <= k < |partition| ==> portions[k] == Threshold(partition, k)
    ensures Controller(portions, 0, address) == j <==> Start(partition, j) <= address < Start(partition, j + 1)
  {
    hide Threshold, Sum, Span;
    var c := Controller(portions, 0, address);
    ControllerFinds(partition, portions, 0, address);
    if j < c {
      StartsMonotone(partition, j + 1, c);
    } else if j > c {
      StartsMonotone(partition, c + 1, j);
    }
  }

  /** A number is below the ceiling exactly if its multiple is below the numerator. */
  lemma {:induction false} BelowCeil(x: nat, y: nat, a: nat)
    requires y > 0
    ensures a < CeilDiv(x, y) <==> a * y < x
  {
    CeilDivBounds(x, y);
    hide CeilDiv;
    if a < CeilDiv(x, y) {
      MulMonotone(a, CeilDiv(x, y) - 1, y);
      MulMonotone(1, CeilDiv(x, y), y);
      if x == 0 {
        CeilDivLeast(0, y, 0);
      }
    } else {
      MulMonotone(CeilDiv(x, y), a, y);
    }
  }

  /** With the whole span scaled to the sum of the parts, controller j serves the addresses between the parts before
      it and those up to and with its own. */
  lemma {:induction false} ControllerByShares(partition: seq<nat>, portions: seq<nat>, address: nat, j: nat)
    requires Sum(partition) > 0 && |portions| == |partition| && j < |partition| && address < Span(partition)
    requires forall k :: 0 <= k < |partition| ==> portions[k] == Threshold(partition, k)
    ensures Controller(portions, 0, address) == j <==>
              BeforeEnd(partition, j, address) && (j > 0 ==> !BeforeEnd(partition, j - 1, address))
  {
    hide Controller, Start, BeforeEnd, Threshold, Span, Sum;
    ControllerExactly(partition, portions, address, j);
    EndOfPart(partition, j, address);
    if j > 0 {
      EndOfPart(partition, j - 1, address);
    } else {
      FirstStart(partition);
    }
  }

  lemma {:induction false} FirstStart(partition: seq<nat>)
    requires Sum(partition) > 0
    ensures Start(partition, 0) == 0
  {
  }

  lemma {:induction false} EndOfPart(partition: seq<nat>, j: nat, address: nat)
    requires Sum(partition) > 0 && j < |partition|
    ensures address < Start(partition, j + 1) <==> BeforeEnd(partition, j, address)
  {
    hide Span, Sum, CeilDiv;
    BelowCeil(Span(partition) * Sum(partition[..j + 1]), Sum(partition), address);
  }

  lemma {:induction false} ControllerFinds(partition: seq<nat>, portions: seq<nat>, i: nat, address: nat)
    requires Sum(partition) > 0 && |portions| == |partition| && i < |partition|
    requires Start(partition, i) <= address < Span(partition)
    requires forall k :: 0 <= k < |partition| ==> portions[k] == Threshold(partition, k)
    ensures var c := Controller(portions, i, address);
            Start(partition, c) <= address < Start(partition, c + 1)
    decreases |partition| - i
  {
    LastIsSpan(partition);
    hide Threshold, Sum, Span;
    if i < |partition| - 1 && address >= portions[i] {
      ControllerFinds(partition, portions, i + 1, address);
    }
  }

  lemma {:induction false} CeilUpper(x: nat, step: nat, y: nat)
    requires y > 0
    ensures CeilDiv(x + step, y) <= CeilDiv(x, y) + CeilDiv(step, y)
  {
    CeilDivBounds(x, y);
    CeilDivBounds(step, y);
    hide CeilDiv;
    Distribute(CeilDiv(x, y), CeilDiv(step, y), y);
    CeilDivLeast(x + step, y, CeilDiv(x, y) + CeilDiv(step, y));
  }

  lemma {:induction false} FloorTimes(x: nat, y: nat) returns (f: nat)
    requires y > 0
    ensures f == x / y && f * y <= x
  {
    f := x / y;
    assert x == f * y + x % y;
  }

  lemma {:induction false} CeilLower(x: nat, step: nat, y: nat)
    requires y > 0
    ensures CeilDiv(x, y) + step / y <= CeilDiv(x + step, y)
  {
    var f := FloorTimes(step, y);
    CeilDivBounds(x + step, y);
    hide CeilDiv;
    var c := CeilDiv(x + step, y);
    if c < f {
      MulMonotone(c + 1, f, y);
      Distribute(c, 1, y);
    } else {
      Distribute(c, f, y);
      CeilDivLeast(x, y, c - f);
    }
  }

  /** A part begins at the ceiling of the span's share of all parts before it. */
  lemma {:induction false} StartIsCeil(partition: seq<nat>, j: nat)
    requires Sum(partition) > 0 && j <= |partition|
    ensures Start(partition, j) == CeilDiv(Span(partition) * Sum(partition[..j]), Sum(partition))
  {
    if j == 0 {
      assert partition[..0] == [];
      ExactCeil(0, Sum(partition));
    }
  }

  lemma {:induction false} ShareBetween(span: nat, before: nat, part: nat, total: nat)
    requires total > 0
    ensures span * part / total <= CeilDiv(span * (before + part), total) - CeilDiv(span * before, total)
    ensures CeilDiv(span * (before + part), total) - CeilDiv(span * before, total) <= CeilDiv(span * part, total)
  {
    hide CeilDiv;
    Distribute(before, part, span);
    CeilUpper(span * before, span * part, total);
    CeilLower(span * before, span * part, total);
  }

  /** The number of addresses of part j is its share of the span, rounded down or up. */
  lemma {:induction false} PartSize(partition: seq<nat>, j: nat)
    requires Sum(partition) > 0 && j < |partition|
    ensures var share := Span(partition) * partition[j];
            share / Sum(partition) <= Start(partition, j + 1) - Start(partition, j) <= CeilDiv(share, Sum(partition))
  {
    PrefixSums(partition, j);
    StartIsCeil(partition, j);
    StartIsCeil(partition, j + 1);
    hide Sum, Span, CeilDiv, Start;
    ShareBetween(Span(partition), Sum(partition[..j]), partition[j], Sum(partition));
  }

  /** Every controller of a positive part serves at least as many addresses as the part counts. */
  lemma {:induction false} PartNotEmpty(partition: seq<nat>, j: nat)
    requires Sum(partition) > 0 && j < |partition|
    ensures Start(partition, j + 1) - Start(partition, j) >= partition[j]
  {
    hide Sum, Span, Start, CeilDiv;
    PartSize(partition, j);
    ShareAtLeast(Span(partition), partition[j], Sum(partition));
  }

  lemma {:induction false} ShareAtLeast(span: nat, part: nat, total: nat)
    requires 0 < total <= span
    ensures span * part / total >= part
  {
    MulMonotone(total, span, part);
    QuotientAtLeast(span * part, part, total);
  }

  lemma {:induction false} QuotientAtLeast(x: nat, q: nat, y: nat)
    requires y > 0 && x >= q * y
    ensures x / y >= q
  {
    assert x == x / y * y + x % y;
    if x / y < q {
      MulMonotone(x / y + 1, q, y);
      Distribute(x / y, 1, y);
    }
  }

  // ----- equal portions -----

  /** interleaveAll: each controller but the last has the same number of addresses, the last the rest. */
  function Multiple(j: nat, portion: nat): nat {
    (j + 1) * portion
  }

  function EqualPortions(bits: nat, n: nat): (r: seq<nat>)
    requires n > 0
    ensures |r| == n
  {
    seq(n, j requires 0 <= j < n => Multiple(j, Pow(2, bits) / n))
  }

  lemma {:induction false} EqualShares(bits: nat, n: nat, address: nat, j: nat)
    requires n > 1 && j < n && address < Pow(2, bits)
    ensures var portion := Pow(2, bits) / n;
            && (Controller(EqualPortions(bits, n), 0, address) == j <==>
                j * portion <= address && (j < n - 1 ==> address < (j + 1) * portion))
            && portion <= Pow(2, bits) - (n - 1) * portion < portion + n
  {
    var span, portion := Pow(2, bits), Pow(2, bits) / n;
    assert span == portion * n + span % n;
    Distribute(n, 1, portion);
    hide Pow;
    EqualFinds(EqualPortions(bits, n), portion, 0, address);
    var c := Controller(EqualPortions(bits, n), 0, address);
    if j < c {
      MulMonotone(j + 1, c, portion);
    } else if c < j {
      MulMonotone(c + 1, j, portion);
    }
  }

  lemma {:induction false} EqualFinds(portions: seq<nat>, portion: nat, i: nat, address: nat)
    requires i < |portions| && i * portion <= address
    requires forall j :: 0 <= j < |portions| ==> portions[j] == Multiple(j, portion)
    ensures var c := Controller(portions, i, address);
            c * portion <= address && (c < |portions| - 1 ==> address < (c + 1) * portion)
    decreases |portions| - i
  {
    if i < |portions| - 1 && address >= portions[i] {
      EqualFinds(portions, portion, i + 1, address);
    }
  }
}
