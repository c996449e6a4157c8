/** The balanced tree topology: all leaves on the two lowest levels, and the loop that finds how many nodes of
    the upper of the two must have children. */
module BalancedTopology {
  import opened Arith

  /** How many nodes must have children if `upper` leaves stay on the upper level. */
  function Needed(total: nat, k: nat, upper: nat): nat
    requires k > 0 && upper <= total
  {
    CeilDiv(total - upper, k)
  }

  /** The least number of nodes with children: each turns one upper leaf into k lower ones. */
  function Internals(total: nat, k: nat, places: nat): nat
    requires k > 1 && places <= total
  {
    CeilDiv(total - places, k - 1)
  }

  /** m is enough for t exactly if it is at least the ceiling. */
  lemma {:induction false} EnoughExactly(t: nat, y: nat, m: nat)
    requires y > 0
    ensures CeilDiv(t, y) <= m <==> t <= m * y
  {
    CeilDivBounds(t, y);
    hide CeilDiv;
    if CeilDiv(t, y) <= m {
      MulMonotone(CeilDiv(t, y), m, y);
    } else if t <= m * y {
      CeilDivLeast(t, y, m);
    }
  }

  /** If i nodes have children, another turn of the loop asks for more exactly while i is too small, and never
      for too many. */
  lemma {:induction false} GrowsExactly(total: nat, k: nat, places: nat, i: nat)
    requires k > 1 && i <= places <= total
    ensures Needed(total, k, places - i) > i <==> i < Internals(total, k, places)
    ensures i <= Internals(total, k, places) ==> Needed(total, k, places - i) <= Internals(total, k, places)
  {
    hide CeilDiv;
    var t, least := total - places, Internals(total, k, places);
    EnoughExactly(t + i, k, i);
    EnoughExactly(t, k - 1, i);
    Distribute(k, 1, i);
    EnoughExactly(t + i, k, least);
    EnoughExactly(t, k - 1, least);
    Distribute(k, 1, least);
  }

  /** The upper level has enough places for the nodes. */
  lemma {:induction false} InternalsFit(total: nat, k: nat, places: nat)
    requires k > 1 && places <= total <= places * k
    ensures Internals(total, k, places) <= places
  {
    Distribute(k, 1, places);
    CeilDivLeast(total - places, k - 1, places);
  }

  /** The loop ends, with the least number of nodes whose children and the remaining upper leaves hold all
      clients: the leaves add up, the upper level is full, and the lower one has room. */
  method LowestLevels(total: nat, k: nat, places: nat) returns (upper: nat, lower: nat, internals: nat)
    requires k > 1 && places < total <= places * k
    ensures upper + lower == total && upper + internals == places && lower <= internals * k
    ensures internals == Internals(total, k, places)
    ensures internals > 0 && (internals - 1) * k + (places - (internals - 1)) < total
  {
    hide Needed, Internals;
    InternalsFit(total, k, places);
    upper := places;
    lower := total - upper;
    internals := Needed(total, k, upper);
    GrowsExactly(total, k, places, 0);
    ghost var before := 0;
    while upper + internals > places
      invariant before <= Internals(total, k, places) <= places && internals <= Internals(total, k, places)
      invariant upper == places - before && lower == total - upper && internals == Needed(total, k, upper)
      decreases places - before
    {
      GrowsExactly(total, k, places, before);
      before := internals;
      upper := places - internals;
      lower := total - upper;
      internals := Needed(total, k, upper);
      GrowsExactly(total, k, places, before);
    }
    GrowsExactly(total, k, places, before);
    FixedPoint(total, k, places);
    LowerFits(total, k, places);
    FewerTooFew(total, k, places);
  }

  /** With one node less there would not be room for all. */
  lemma {:induction false} FewerTooFew(total: nat, k: nat, places: nat)
    requires k > 1 && places < total <= places * k
    ensures var i := Internals(total, k, places); 0 < i <= places && (i - 1) * k + (places - (i - 1)) < total
  {
    hide CeilDiv;
    InternalsFit(total, k, places);
    CeilDivBounds(total - places, k - 1);
    OneFactorLess(Internals(total, k, places) - 1, k);
  }

  lemma {:induction false} OneFactorLess(a: int, k: int)
    ensures a * k == a * (k - 1) + a
  {
  }

  /** With that many nodes the loop's formula gives the same number again. */
  lemma {:induction false} FixedPoint(total: nat, k: nat, places: nat)
    requires k > 1 && places < total <= places * k
    ensures Internals(total, k, places) <= places
    ensures Needed(total, k, places - Internals(total, k, places)) == Internals(total, k, places)
  {
    InternalsFit(total, k, places);
    var least := Internals(total, k, places);
    EnoughExactly(total - places, k - 1, 0);
    hide Internals;
    GrowsExactly(total, k, places, least);
    if least > 0 {
      GrowsExactly(total, k, places, least - 1);
      CeilDivMonotone(total - (places - (least - 1)), total - (places - least), k);
    }
  }

  lemma {:induction false} LowerFits(total: nat, k: nat, places: nat)
    requires k > 1 && places <= total
    ensures total - places + Internals(total, k, places) <= Internals(total, k, places) * k
  {
    CeilDivBounds(total - places, k - 1);
    Distribute(k, 1, Internals(total, k, places));
  }
}
