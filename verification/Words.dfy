/** The numbers that 64-bit words stand for. */
module Words {
  import opened Bits64

  function Pow2(n: nat): nat { if n == 0 then 1 else 2 * Pow2(n - 1) }

  const LIMIT := 0x1_0000_0000_0000_0000

  // Named operations, so that proofs can do without their bits.
  function Half(w: bv64): bv64 { w >> 1 }
  function Twice(w: bv64): bv64 { w << 1 }
  function Or(x: bv64, y: bv64): bv64 { x | y }
  function And(x: bv64, y: bv64): bv64 { x & y }
  function LowBit(w: bv64): nat { if w & 1 == 1 then 1 else 0 }

  /** The number that a word stands for, bit by bit. */
  function Num(w: bv64): nat
    decreases w
  {
    if w == 0 then 0
    else
      HalfIsLess(w);
      2 * Num(Half(w)) + LowBit(w)
  }

  lemma {:induction false} HalfIsLess(w: bv64)
    requires w != 0
    ensures Half(w) < w
  {}

  lemma {:induction false} NumIs(w: bv64)
    ensures Num(w) == 2 * Num(Half(w)) + LowBit(w)
  {
    if w == 0 {
      HalfOfNothing();
    }
    hide Half, LowBit;
  }

  lemma HalfOfNothing()
    ensures Half(0) == 0 && LowBit(0) == 0 && Num(0) == 0
  {}

  // --- Bounds ---------------------------------------------------------------------------

  lemma {:induction false} BitTwice(k: nat)
    requires k < 63
    ensures Half(Twice(Bit(k))) == Bit(k) && Bit(k + 1) == Twice(Bit(k)) && LowBit(Twice(Bit(k))) == 0
  {
    BitIsShift(k);
    RoundTrip(k);
    SmallIsSmall(k);
    LowGone(Bit(k));
    NextBit(k);
    hide Bit, Half, Twice, LowBit;
    ShiftFits(k as bv6, Bit(k));
  }

  lemma NextBit(k: nat)
    requires k < 63
    ensures Bit(k + 1) == Twice(Bit(k))
  {}

  lemma {:induction false} ShiftFits(j: bv6, b: bv64)
    requires j < 63 && b == (1 as bv64) << j
    ensures Half(Twice(b)) == b
  {}

  lemma {:induction false} LowGone(w: bv64)
    ensures LowBit(Twice(w)) == 0
  {}

  lemma {:induction false} NonZero(w: bv64)
    ensures Num(w) == 0 <==> w == 0
    decreases w
  {
    if w != 0 {
      HalfIsLess(w);
      NonZero(Half(w));
      HalfZero(w);
      NumIs(w);
      hide Num, Half, LowBit;
    }
  }

  lemma {:induction false} HalfZero(w: bv64)
    requires w != 0
    ensures Half(w) == 0 ==> LowBit(w) == 1
  {}

  /** The word shifted to the right, one bit at a time. */
  function ShiftedRight(w: bv64, k: nat): bv64
  {
    if k == 0 then w else ShiftedRight(Half(w), k - 1)
  }

  function ShiftedLeft(w: bv64, k: nat): bv64
  {
    if k == 0 then w else Twice(ShiftedLeft(w, k - 1))
  }

  lemma {:induction false} FourRight(w: bv64, k: nat)
    ensures ShiftedRight(w, k + 4) == ShiftedRight(Half(Half(Half(Half(w)))), k)
  {
    hide Half;
    assert ShiftedRight(w, k + 4) == ShiftedRight(Half(w), k + 3) == ShiftedRight(Half(Half(w)), k + 2);
    assert ShiftedRight(Half(Half(w)), k + 2) == ShiftedRight(Half(Half(Half(w))), k + 1);
  }

  lemma {:induction false} SevenRight(w: bv64)
    ensures ShiftedRight(w, 7) == w >> 7
  {
    FourRight(w, 3);
    var a := Half(Half(Half(Half(w))));
    assert ShiftedRight(a, 3) == ShiftedRight(Half(a), 2) == ShiftedRight(Half(Half(a)), 1);
    assert ShiftedRight(Half(Half(a)), 1) == ShiftedRight(Half(Half(Half(a))), 0) == Half(Half(Half(a)));
    hide ShiftedRight;
  }

  lemma {:induction false} EightRight(w: bv64, k: nat)
    ensures ShiftedRight(w, k + 8) == ShiftedRight(w >> 8, k)
  {
    hide ShiftedRight;
    FourRight(w, k + 4);
    FourRight(Half(Half(Half(Half(w)))), k);
  }

  /** All 64 bits can be shifted out. */
  lemma {:induction false} AllRight(w: bv64)
    ensures ShiftedRight(w, 64) == 0
  {
    hide ShiftedRight, Half;
    var a := w >> 8;
    var b := a >> 8;
    var c := b >> 8;
    var d := c >> 8;
    var e := d >> 8;
    var f := e >> 8;
    var g := f >> 8;
    var h := g >> 8;
    EightRight(w, 56);
    EightRight(a, 48);
    EightRight(b, 40);
    EightRight(c, 32);
    EightRight(d, 24);
    EightRight(e, 16);
    EightRight(f, 8);
    EightRight(g, 0);
    RightByNone(h);
    assert h == 0;
  }

  lemma RightByNone(w: bv64)
    ensures ShiftedRight(w, 0) == w
  {}

  function PastSeven(w: bv64): bv64 { w << 7 }

  lemma {:induction false} SevenLeft(w: bv64, k: nat)
    ensures ShiftedLeft(w, k + 7) == PastSeven(ShiftedLeft(w, k))
  {
    hide Twice, PastSeven;
    var v := ShiftedLeft(w, k);
    FourLeft(w, k);
    assert ShiftedLeft(w, k + 7) == Twice(ShiftedLeft(w, k + 6)) == Twice(Twice(ShiftedLeft(w, k + 5)));
    assert ShiftedLeft(w, k + 5) == Twice(ShiftedLeft(w, k + 4));
    hide ShiftedLeft;
    SevenTwices(v);
  }

  lemma {:induction false} FourLeft(w: bv64, k: nat)
    ensures ShiftedLeft(w, k + 4) == Twice(Twice(Twice(Twice(ShiftedLeft(w, k)))))
  {
    hide Twice;
    assert ShiftedLeft(w, k + 4) == Twice(ShiftedLeft(w, k + 3)) == Twice(Twice(ShiftedLeft(w, k + 2)));
    assert ShiftedLeft(w, k + 2) == Twice(ShiftedLeft(w, k + 1)) == Twice(Twice(ShiftedLeft(w, k)));
  }

  lemma {:induction false} SevenTwices(v: bv64)
    ensures Twice(Twice(Twice(Twice(Twice(Twice(Twice(v))))))) == PastSeven(v)
  {}

  function Shift(w: bv64, k: nat): bv64
    requires k < 64
  {
    ShiftBy(w, k as bv6)
  }

  function ShiftBy(w: bv64, j: bv6): bv64 { w << j }

  lemma {:induction false} SevenMore(w: bv64, k: nat)
    requires k < 57
    ensures PastSeven(Shift(w, k)) == Shift(w, k + 7)
  {
    RoundTrip(k);
    RoundTrip(k + 7);
    Compose(w, k as bv6);
    hide PastSeven, ShiftBy;
  }

  lemma {:induction false} Compose(w: bv64, j: bv6)
    requires j < 57
    ensures PastSeven(ShiftBy(w, j)) == ShiftBy(w, j + 7)
  {}

  /** Shifting past whole groups of seven bits is shifting that often by one. */
  lemma {:induction false} ShiftBySevens(w: bv64, k: nat)
    requires k < 64 && k % 7 == 0
    ensures Shift(w, k) == ShiftedLeft(w, k)
    decreases k
  {
    hide ShiftedLeft, Shift, PastSeven;
    if k > 0 {
      ShiftBySevens(w, k - 7);
      SevenMore(w, k - 7);
      SevenLeft(w, k - 7);
    } else {
      PastNone(w);
    }
  }

  lemma PastNone(w: bv64)
    ensures Shift(w, 0) == w == ShiftedLeft(w, 0)
  {}

  /** Nothing is left of a word after a shift exactly when its number is below that power of two. */
  lemma {:induction false} NumBelow(w: bv64, k: nat)
    ensures ShiftedRight(w, k) == 0 <==> Num(w) < Pow2(k)
    decreases k
  {
    hide Num, Half, LowBit;
    if k == 0 {
      NonZero(w);
    } else {
      NumBelow(Half(w), k - 1);
      NumIs(w);
      LowBitRange(w);
    }
  }

  /** A shift to the right divides. */
  lemma {:induction false} NumRight(w: bv64, k: nat)
    ensures Pow2(k) > 0 && Num(ShiftedRight(w, k)) == Num(w) / Pow2(k)
    decreases k
  {
    hide Num, Half, LowBit;
    if k > 0 {
      NumRight(Half(w), k - 1);
      NumIs(w);
      LowBitRange(w);
      DivideMore(Num(Half(w)), LowBit(w), Pow2(k - 1));
    }
  }

  lemma {:induction false} DivideMore(n: nat, b: nat, m: nat)
    requires b <= 1 && m > 0
    ensures (2 * n + b) / (2 * m) == n / m
    ensures (2 * n + b) % (2 * m) == 2 * (n % m) + b
  {
    var q, r := n / m, n % m;
    assert n == q * m + r;
    assert 2 * n + b == q * (2 * m) + (2 * r + b);
    Quotient(q, 2 * m, 2 * r + b);
  }

  lemma {:induction false} Quotient(q: nat, d: nat, r: nat)
    requires r < d
    ensures (q * d + r) / d == q && (q * d + r) % d == r
  {
    var p, s := (q * d + r) / d, (q * d + r) % d;
    assert q * d + r == p * d + s;
    if p < q {
      Multiply(p + 1, q, d);
    } else if q < p {
      Multiply(q + 1, p, d);
    }
  }

  lemma {:induction false} Multiply(a: nat, b: nat, d: nat)
    requires a <= b
    ensures a * d <= b * d
    ensures (a + 1) * d == a * d + d
  {}

  lemma LowBitRange(w: bv64)
    ensures 0 <= LowBit(w) <= 1
  {}

  lemma {:induction false} NumRange(w: bv64)
    ensures Num(w) < LIMIT == Pow2(64)
  {
    hide Num, ShiftedRight;
    AllRight(w);
    NumBelow(w, 64);
    PowerOf64();
  }

  lemma {:induction false} TopBit()
    ensures Bit(63) == 0x8000_0000_0000_0000
  {
    BitIsShift(63);
  }

  lemma {:induction false} PowerOf64()
    ensures Pow2(63) == 0x8000_0000_0000_0000 && Pow2(64) == LIMIT && Pow2(32) == 0x1_0000_0000 && Pow2(7) == 0x80
  {
    assert Pow2(0) == 1;
    EightMore(0);
    EightMore(8);
    EightMore(16);
    EightMore(24);
    EightMore(32);
    EightMore(40);
    EightMore(48);
    EightMore(56);
    assert Pow2(64) == 2 * Pow2(63);
    assert Pow2(8) == 2 * Pow2(7);
  }

  lemma {:induction false} EightMore(n: nat)
    ensures Pow2(n + 8) == 0x100 * Pow2(n)
  {
    assert Pow2(n + 8) == 2 * Pow2(n + 7) == 4 * Pow2(n + 6) == 8 * Pow2(n + 5) == 16 * Pow2(n + 4);
    assert Pow2(n + 4) == 2 * Pow2(n + 3) == 4 * Pow2(n + 2) == 8 * Pow2(n + 1);
  }

  // --- Operations on words --------------------------------------------------------------

  /** Combining words that share no bit is adding their numbers. */
  lemma {:induction false} NumOr(x: bv64, y: bv64)
    requires And(x, y) == 0
    ensures Num(Or(x, y)) == Num(x) + Num(y)
    decreases Num(Or(x, y))
  {
    hide Num, Or, And, Half, LowBit;
    OrHalves(x, y);
    OrZero(x, y);
    NumIs(x);
    NumIs(y);
    NumIs(Or(x, y));
    NonZero(Or(x, y));
    if Num(Or(x, y)) == 0 {
      NonZero(0);
    } else {
      LowBitRange(Or(x, y));
      NumOr(Half(x), Half(y));
    }
  }

  lemma {:induction false} OrZero(x: bv64, y: bv64)
    ensures Or(x, y) == 0 ==> x == 0 && y == 0
  {}

  lemma {:induction false} OrHalves(x: bv64, y: bv64)
    requires And(x, y) == 0
    ensures Half(Or(x, y)) == Or(Half(x), Half(y)) && And(Half(x), Half(y)) == 0
    ensures LowBit(Or(x, y)) == LowBit(x) + LowBit(y)
  {
    HalvesOfOr(x, y);
    HalvesApart(x, y);
    LowBitsApart(x, y);
  }

  lemma {:induction false} HalvesOfOr(x: bv64, y: bv64)
    ensures (x | y) >> 1 == (x >> 1) | (y >> 1)
  {}

  lemma {:induction false} HalvesApart(x: bv64, y: bv64)
    requires x & y == 0
    ensures (x >> 1) & (y >> 1) == 0
  {}

  lemma {:induction false} LowBitsApart(x: bv64, y: bv64)
    requires x & y == 0
    ensures (x | y) & 1 == 1 <==> x & 1 == 1 || y & 1 == 1
    ensures !(x & 1 == 1 && y & 1 == 1)
  {}

  /** Shifting to the left by one doubles the number; a bit that is lost counts 2^64. */
  lemma {:induction false} NumTwice(x: bv64)
    ensures Num(Twice(x)) == 2 * Num(x) % LIMIT
  {
    var top, rest := And(x, 0x8000_0000_0000_0000), And(x, 0x7FFF_FFFF_FFFF_FFFF);
    SplitTop(x);
    NumTop();
    HalfOfNothing();
    hide Num, Half, Twice, And, Or, LowBit;
    NumIs(Twice(x));
    NumOr(top, rest);
    NumRange(Twice(x));
  }

  lemma {:induction false} SplitTop(x: bv64)
    ensures var top, rest := And(x, 0x8000_0000_0000_0000), And(x, 0x7FFF_FFFF_FFFF_FFFF);
            && Or(top, rest) == x && And(top, rest) == 0 && (top == 0 || top == 0x8000_0000_0000_0000)
            && Half(Twice(x)) == rest && LowBit(Twice(x)) == 0
  {
    TopAndRest(x);
    TopIsOneBit(x);
    TopIsLost(x);
    LowGone(x);
    hide And, Or, Half, Twice, LowBit;
  }

  lemma {:induction false} TopAndRest(x: bv64)
    ensures Or(And(x, 0x8000_0000_0000_0000), And(x, 0x7FFF_FFFF_FFFF_FFFF)) == x
    ensures And(And(x, 0x8000_0000_0000_0000), And(x, 0x7FFF_FFFF_FFFF_FFFF)) == 0
  {}

  lemma {:induction false} TopIsOneBit(x: bv64)
    ensures And(x, 0x8000_0000_0000_0000) == 0 || And(x, 0x8000_0000_0000_0000) == 0x8000_0000_0000_0000
  {}

  lemma {:induction false} TopIsLost(x: bv64)
    ensures Half(Twice(x)) == And(x, 0x7FFF_FFFF_FFFF_FFFF)
  {}

  lemma {:induction false} NumTop()
    ensures Num(0x8000_0000_0000_0000) == 0x8000_0000_0000_0000
  {
    TopBit();
    hide Num, Bit;
    NumBit(63);
    PowerOf64();
  }

  lemma {:induction false} NumBit(k: nat)
    requires k < 64
    ensures Num(Bit(k)) == Pow2(k)
  {
    hide Num, Bit, Half, Twice, LowBit;
    if k == 0 {
      NumOfOne();
    } else {
      NumBit(k - 1);
      BitTwice(k - 1);
      NumIs(Bit(k));
    }
  }

  lemma NumOfOne()
    ensures Num(Bit(0)) == 1
  {
    NumIs(1);
    HalfOfOne();
  }

  lemma HalfOfOne()
    ensures Half(1) == 0 && LowBit(1) == 1 && Num(0) == 0
  {}

  /** A shift to the left multiplies, as far as the word reaches. */
  lemma {:induction false} NumLeft(w: bv64, k: nat)
    ensures Num(ShiftedLeft(w, k)) == Num(w) * Pow2(k) % LIMIT
    decreases k
  {
    hide Num, Twice;
    if k == 0 {
      NumRange(w);
    } else {
      NumLeft(w, k - 1);
      NumTwice(ShiftedLeft(w, k - 1));
      OneMore(Num(w), k);
    }
  }

  lemma {:induction false} OneMore(n: nat, k: nat)
    requires k > 0
    ensures 2 * (n * Pow2(k - 1) % LIMIT) % LIMIT == n * Pow2(k) % LIMIT
  {
    var p := Pow2(k - 1);
    assert Pow2(k) == 2 * p;
    hide Pow2;
    TwiceModulo(n * p);
    Regroup(n, p);
  }

  lemma {:induction false} TwiceModulo(n: nat)
    ensures 2 * (n % LIMIT) % LIMIT == 2 * n % LIMIT
  {
    var q, r := n / LIMIT, n % LIMIT;
    assert 2 * n == 2 * q * LIMIT + 2 * r;
    if 2 * r < LIMIT {
      Quotient(2 * q, LIMIT, 2 * r);
      Quotient(0, LIMIT, 2 * r);
    } else {
      Quotient(2 * q + 1, LIMIT, 2 * r - LIMIT);
      Quotient(1, LIMIT, 2 * r - LIMIT);
    }
  }

  lemma {:induction false} Regroup(a: nat, b: nat)
    ensures 2 * (a * b) == a * (2 * b)
  {}

  /** A word below a power of two shares no bit with a word that is shifted past it. */
  lemma {:induction false} ShiftedApart(low: bv64, w: bv64, k: nat)
    requires ShiftedRight(low, k) == 0
    ensures And(low, ShiftedLeft(w, k)) == 0
    decreases k
  {
    hide Half, Twice, And;
    if k == 0 {
      AndNothing(w);
    } else {
      ShiftedApart(Half(low), w, k - 1);
      ApartTwice(low, ShiftedLeft(w, k - 1));
    }
  }

  lemma AndNothing(w: bv64)
    ensures And(0, w) == 0
  {}

  lemma {:induction false} ApartTwice(low: bv64, w: bv64)
    requires And(Half(low), w) == 0
    ensures And(low, Twice(w)) == 0
  {}

  /** The lowest bits of a word are the remainder of its number. */
  lemma {:induction false} NumLow(w: bv64, k: nat)
    requires k < 64
    ensures Pow2(k) > 0 && Num(And(w, Below(Bit(k)))) == Num(w) % Pow2(k)
    decreases k
  {
    hide Num, Half, LowBit, And, Bit, Below;
    if k == 0 {
      NoLowBits(w);
      NonZero(0);
    } else {
      NumLow(Half(w), k - 1);
      BitTwice(k - 1);
      NotZero(k - 1);
      LowHalves(w, Bit(k - 1));
      NumIs(w);
      NumIs(And(w, Below(Bit(k))));
      LowBitRange(w);
      DivideMore(Num(Half(w)), LowBit(w), Pow2(k - 1));
    }
  }

  lemma NoLowBits(w: bv64)
    ensures And(w, Below(Bit(0))) == 0
  {}

  lemma {:induction false} LowHalves(w: bv64, b: bv64)
    requires Half(Twice(b)) == b && b != 0
    ensures Half(And(w, Below(Twice(b)))) == And(Half(w), Below(b))
    ensures LowBit(And(w, Below(Twice(b)))) == LowBit(w)
  {}

  /** Every number below 2^64 has a word. */
  lemma {:induction false} NumOfWord(n: nat, k: nat)
    requires n < Pow2(k) && k <= 64
    ensures Num(Word(n)) == n
    decreases k
  {
    hide Num, Half, Twice, Or, And, LowBit;
    if n == 0 {
      NonZero(0);
    } else {
      NumOfWord(n / 2, k - 1);
      Reach(k);
      NumTwice(Word(n / 2));
      PlusOne(Word(n / 2));
      NumOr(Twice(Word(n / 2)), 1);
      NumOfOne();
    }
  }

  lemma {:induction false} Reach(k: nat)
    requires k <= 64
    ensures Pow2(k) <= LIMIT
  {
    PowerOf64();
    PowGrows(k, 64);
  }

  lemma {:induction false} PowGrows(a: nat, b: nat)
    requires a <= b
    ensures 0 < Pow2(a) <= Pow2(b)
    decreases b
  {
    if a < b {
      PowGrows(a, b - 1);
    } else if a > 0 {
      PowGrows(a - 1, b - 1);
    }
  }

  lemma {:induction false} PlusOne(w: bv64)
    ensures And(Twice(w), 1) == 0
  {}

  /** The word that stands for a number, if it has one. */
  function Word(n: nat): bv64
  {
    if n == 0 then 0
    else if n % 2 == 0 then Twice(Word(n / 2))
    else Or(Twice(Word(n / 2)), 1)
  }
}
