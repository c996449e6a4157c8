/** The 32-bit arithmetic of the credit counters and the word of a credit message. */
module CreditWord {
  import opened Arith

  const WORD := 0x1_0000_0000

  /** UINT32 addition */
  function Add32(x: nat, y: nat): (r: nat)
    ensures r < WORD
    ensures x + y < WORD ==> r == x + y
  {
    (x + y) % WORD
  }

  /** fetch_and_add(-1 * y) on a UINT32 */
  function Sub32(x: nat, y: nat): (r: nat)
    ensures r < WORD
    ensures y <= x < WORD ==> r == x - y
  {
    (x - y) % WORD
  }

  /** The bits set in either number. */
  function BitOr(x: nat, y: nat): nat
    decreases x + y
  {
    if x == 0 && y == 0 then 0
    else 2 * BitOr(x / 2, y / 2) + Max(x % 2, y % 2)
  }

  /** The bits set in both numbers. */
  function BitAnd(x: nat, y: nat): nat
    decreases x + y
  {
    if x == 0 && y == 0 then 0
    else 2 * BitAnd(x / 2, y / 2) + Min(x % 2, y % 2)
  }

  lemma {:induction false} OrZero(y: nat)
    ensures BitOr(0, y) == y
  {
    if y > 0 {
      OrZero(y / 2);
    }
  }

  lemma {:induction false} AndZero(x: nat)
    ensures BitAnd(x, 0) == 0
  {
    if x > 0 {
      AndZero(x / 2);
    }
  }

  lemma {:induction false} Halve(x: nat, e: nat)
    requires e > 0
    ensures x * Pow(2, e) % 2 == 0 && x * Pow(2, e) / 2 == x * Pow(2, e - 1)
  {
    assert x * Pow(2, e) == 2 * (x * Pow(2, e - 1));
  }

  /** A number below 2^e fits under a multiple of 2^e without touching it. */
  lemma {:induction false} OrIsSum(x: nat, c: nat, e: nat)
    requires c < Pow(2, e)
    ensures BitOr(x * Pow(2, e), c) == x * Pow(2, e) + c
    decreases e
  {
    if e == 0 {
      OrWithZero(x);
    } else {
      Halve(x, e);
      OrIsSum(x, c / 2, e - 1);
    }
  }

  lemma {:induction false} OrWithZero(x: nat)
    ensures BitOr(x, 0) == x
  {
    if x > 0 {
      OrWithZero(x / 2);
    }
  }

  lemma {:induction false} OrBelow(x: nat, y: nat, e: nat)
    requires x < Pow(2, e) && y < Pow(2, e)
    ensures BitOr(x, y) < Pow(2, e)
    decreases e
  {
    if e > 0 {
      OrBelow(x / 2, y / 2, e - 1);
    }
  }

  /** Masking with 2^e - 1 is the remainder modulo 2^e. */
  lemma {:induction false} MaskIsRemainder(w: nat, e: nat)
    ensures Pow(2, e) > 0 && BitAnd(w, Pow(2, e) - 1) == w % Pow(2, e)
    decreases e
  {
    hide BitAnd;
    if e == 0 {
      AndZero(w);
    } else {
      MaskIsRemainder(w / 2, e - 1);
      var h := Pow(2, e - 1);
      RemainderByHalves(w, h);
      MaskStep(w, h);
    }
  }

  lemma {:induction false} MaskStep(w: nat, h: nat)
    requires h > 0
    ensures BitAnd(w, 2 * h - 1) == 2 * BitAnd(w / 2, h - 1) + w % 2
  {
    assert (2 * h - 1) / 2 == h - 1 && (2 * h - 1) % 2 == 1;
  }

  lemma {:induction false} RemainderByHalves(w: nat, h: nat)
    requires h > 0
    ensures w % (2 * h) == 2 * ((w / 2) % h) + w % 2
  {
    var q, r := w / 2 / h, (w / 2) % h;
    assert w / 2 == q * h + r;
    assert w == q * (2 * h) + (2 * r + w % 2);
    DivModUnique(w, q, 2 * r + w % 2, 2 * h);
  }

  /** The word that returns `credits` to channel `service`; 2^e is twice the buffer size. */
  function Encode(e: nat, service: nat, credits: nat): nat {
    BitOr(service * Pow(2, e) % WORD, credits)
  }

  /** pushUMF's reading of the word: the channel and its credits. */
  function Decode(e: nat, word: nat): (nat, nat) {
    PowPositive(2, e);
    Fields(word, Pow(2, e))
  }

  /** The fields above and below a power of two */
  function Fields(word: nat, unit: nat): (nat, nat)
    requires unit > 0
  {
    (word / unit, BitAnd(word, unit - 1))
  }

  lemma {:induction false} WordIsPower()
    ensures Pow(2, 32) == WORD
  {
    assert Pow(2, 8) == 256;
    PowAdd(2, 8, 8);
    PowAdd(2, 16, 16);
  }

  /** A field number too large for the word is not what division gives back. */
  lemma {:induction false} FieldTooLarge(word: nat, unit: nat, service: nat)
    requires unit > 0 && word < WORD <= service * unit
    ensures word / unit != service
  {
    assert word == word / unit * unit + word % unit;
  }

  lemma {:induction false} DecodeParts(e: nat, word: nat)
    ensures Pow(2, e) > 0 && Decode(e, word) == (word / Pow(2, e), word % Pow(2, e))
  {
    PowPositive(2, e);
    MaskIsRemainder(word, e);
  }

  lemma {:induction false} EncodeFits(e: nat, service: nat, credits: nat)
    requires credits < Pow(2, e) && service * Pow(2, e) < WORD
    ensures Encode(e, service, credits) == service * Pow(2, e) + credits
  {
    hide Pow, BitOr;
    OrIsSum(service, credits, e);
    SmallRemainder(service * Pow(2, e));
  }

  lemma {:induction false} SmallRemainder(x: nat)
    requires x < WORD
    ensures x % WORD == x
  {
  }

  lemma {:induction false} EncodeBelow(e: nat, service: nat, credits: nat)
    requires credits < WORD
    ensures Encode(e, service, credits) < WORD
  {
    WordIsPower();
    OrBelow(service * Pow(2, e) % WORD, credits, 32);
  }

  /** The word is read back as it was written exactly if both parts fit their fields. */
  lemma {:induction false} RoundTrip(e: nat, service: nat, credits: nat)
    requires credits < WORD
    ensures Decode(e, Encode(e, service, credits)) == (service, credits)
            <==> credits < Pow(2, e) && service * Pow(2, e) < WORD
  {
    var unit := Pow(2, e);
    var word := Encode(e, service, credits);
    DecodeParts(e, word);
    hide Encode, Decode, Pow;
    if credits < unit && service * unit < WORD {
      EncodeFits(e, service, credits);
      DivModUnique(word, service, credits, unit);
    } else if credits < unit {
      EncodeBelow(e, service, credits);
      FieldTooLarge(word, unit, service);
    }
  }
}
