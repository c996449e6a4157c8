/** Integer arithmetic that the other modules share: powers, ceilings and exact base-2 logarithms. */
module Arith {

  function Min(x: int, y: int): int {
    if x <= y then x else y
  }

  function Max(x: int, y: int): int {
    if x >= y then x else y
  }

  function Pow(k: nat, e: nat): nat {
    if e == 0 then 1 else k * Pow(k, e - 1)
  }

  lemma {:induction false} PowPositive(k: nat, e: nat)
    requires k > 0
    ensures Pow(k, e) > 0
  {
    if e > 0 {
      PowPositive(k, e - 1);
    }
  }

  lemma {:induction false} PowMonotone(k: nat, e: nat, f: nat)
    requires k > 0 && e <= f
    ensures Pow(k, e) <= Pow(k, f)
    decreases f
  {
    if e < f {
      PowMonotone(k, e, f - 1);
      MulMonotone(1, k, Pow(k, f - 1));
    }
  }

  lemma {:induction false} PowAdd(k: nat, e: nat, f: nat)
    ensures Pow(k, e + f) == Pow(k, e) * Pow(k, f)
  {
    if e > 0 {
      PowAdd(k, e - 1, f);
      MulAssociates(k, Pow(k, e - 1), Pow(k, f));
    }
  }

  lemma {:induction false} MulMonotone(x: int, y: int, z: int)
    requires x <= y && z >= 0
    ensures x * z <= y * z
  {
  }

  lemma {:induction false} MulAssociates(x: int, y: int, z: int)
    ensures (x * y) * z == x * (y * z)
  {
  }

  lemma {:induction false} Distribute(x: int, y: int, z: int)
    ensures (x + y) * z == x * z + y * z
    ensures (x - y) * z == x * z - y * z
  {
  }

  /** Quotient and remainder are determined by x == q * k + r with 0 <= r < k. */
  lemma {:induction false} DivModUnique(x: nat, q: nat, r: nat, k: nat)
    requires k > 0 && x == q * k + r && r < k
    ensures x / k == q && x % k == r
  {
    var q' := x / k;
    assert x == q' * k + x % k;
    if q < q' {
      MulMonotone(q + 1, q', k);
      Distribute(q, 1, k);
      assert false;
    } else if q > q' {
      MulMonotone(q' + 1, q, k);
      Distribute(q', 1, k);
      assert false;
    }
  }

  /** ceil(x / y) for a non-negative numerator */
  function CeilDiv(x: nat, y: nat): nat
    requires y > 0
  {
    x / y + (if x % y > 0 then 1 else 0)
  }

  lemma {:induction false} CeilDivBounds(x: nat, y: nat)
    requires y > 0
    ensures CeilDiv(x, y) * y >= x
    ensures (CeilDiv(x, y) - 1) * y < x || x == 0
  {
    assert x == (x / y) * y + x % y;
  }

  /** The least c with c * y >= x is the ceiling. */
  lemma {:induction false} CeilDivLeast(x: nat, y: nat, c: nat)
    requires y > 0 && c * y >= x
    ensures CeilDiv(x, y) <= c
  {
    CeilDivBounds(x, y);
    if c < CeilDiv(x, y) {
      MulMonotone(c, CeilDiv(x, y) - 1, y);
    }
  }

  lemma {:induction false} CeilDivMonotone(x: nat, x': nat, y: nat)
    requires y > 0 && x <= x'
    ensures CeilDiv(x, y) <= CeilDiv(x', y)
  {
    CeilDivBounds(x', y);
    CeilDivLeast(x, y, CeilDiv(x', y));
  }

  /** ceil(log2(x)): the least e with 2^e >= x */
  function CeilLog2(x: nat): (e: nat)
    requires x > 0
    ensures Pow(2, e) >= x
    ensures e > 0 ==> Pow(2, e - 1) < x
    ensures x >= 2 ==> e >= 1
  {
    if x == 1 then 0 else 1 + CeilLog2((x + 1) / 2)
  }

  lemma {:induction false} CeilLog2Least(x: nat, e: nat)
    requires x > 0 && Pow(2, e) >= x
    ensures CeilLog2(x) <= e
  {
    if e < CeilLog2(x) {
      PowMonotone(2, e, CeilLog2(x) - 1);
    }
  }

  lemma {:induction false} CeilLog2Monotone(x: nat, y: nat)
    requires 0 < x <= y
    ensures CeilLog2(x) <= CeilLog2(y)
  {
    CeilLog2Least(x, CeilLog2(y));
  }

  lemma {:induction false} CeilLog2Half(x: nat)
    requires x > 0
    ensures CeilLog2(x) <= x / 2 + 1
  {
    if x > 1 {
      CeilLog2Half((x + 1) / 2);
    }
  }
}
