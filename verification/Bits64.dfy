module Bits64 {
  function Bit(k: nat): (b: bv64)
    requires k < 64
  {
    if k == 0 then 1 else Bit(k - 1) << 1
  }

  /** For a single bit, the word with all lower bits set. */
  function Below(b: bv64): bv64 { b - 1 }

  predicate Meets(m: bv64, b: bv64) { m & b != 0 }

  predicate Has(m: bv64, k: nat)
    requires k < 64
  {
    Meets(m, Bit(k))
  }

  lemma {:induction false} StepUp(j: bv6)
    requires j < 63
    ensures (1 as bv64) << (j + 1) == ((1 as bv64) << j) << 1
  {}

  lemma {:induction false} RoundTrip(k: nat)
    requires k < 64
    ensures (k as bv6) as int == k
  {}

  lemma {:induction false} Succ(k: nat)
    requires k < 63
    ensures (k as bv6) + 1 == (k + 1) as bv6 && (k as bv6) < 63
  {
    RoundTrip(k);
    RoundTrip(k + 1);
  }

  lemma {:induction false} BitIsShift(k: nat)
    requires k < 64
    ensures Bit(k) == (1 as bv64) << (k as bv6)
  {
    if k > 0 {
      BitIsShift(k - 1);
      Succ(k - 1);
      StepUp((k - 1) as bv6);
    }
  }

  lemma {:induction false} ShiftsMeet(j: bv6, k: bv6)
    ensures Meets((1 as bv64) << j, (1 as bv64) << k) == (j == k)
  {}

  lemma {:induction false} HasIsMeets(m: bv64, k: nat)
    requires k < 64
    ensures Has(m, k) == Meets(m, Bit(k))
  {
    hide Bit;
  }

  lemma {:induction false} OrMeets(m: bv64, n: bv64, b: bv64)
    ensures Meets(m | n, b) == (Meets(m, b) || Meets(n, b))
  {
    assert (m | n) & b == (m & b) | (n & b);
  }

  lemma {:induction false} HasOr(m: bv64, n: bv64, k: nat)
    requires k < 64
    ensures Has(m | n, k) == (Has(m, k) || Has(n, k))
  {
    hide *;
    OrMeets(m, n, Bit(k));
    HasIsMeets(m | n, k);
    HasIsMeets(m, k);
    HasIsMeets(n, k);
  }

  lemma {:induction false} SamePlace(j: nat, k: nat)
    requires j < 64 && k < 64
    ensures (j as bv6 == k as bv6) == (j == k)
  {
    RoundTrip(j);
    RoundTrip(k);
  }

  lemma {:induction false} BitsMeet(j: nat, k: nat)
    requires j < 64 && k < 64
    ensures Meets(Bit(j), Bit(k)) == (j as bv6 == k as bv6)
  {
    hide *;
    BitIsShift(j);
    BitIsShift(k);
    ShiftsMeet(j as bv6, k as bv6);
  }

  lemma {:induction false} HasBit(j: nat, k: nat)
    requires j < 64 && k < 64
    ensures Has(Bit(j), k) == (j == k)
  {
    hide *;
    HasIsMeets(Bit(j), k);
    BitsMeet(j, k);
    SamePlace(j, k);
  }

  lemma {:induction false} NotZero(k: nat)
    requires k < 64
    ensures Bit(k) != 0
  {
    hide *;
    HasBit(k, k);
    HasIsMeets(Bit(k), k);
    MeetsIs(Bit(k), Bit(k), Bit(k));
  }

  lemma {:induction false} MeetsIs(m: bv64, b: bv64, r: bv64)
    requires m & b == r
    ensures Meets(m, b) == (r != 0)
  {}

  lemma {:induction false} ShiftsBelow(n: bv6, k: bv6)
    ensures Meets(Below((1 as bv64) << n), (1 as bv64) << k) == (k < n)
  {}

  lemma {:induction false} SameOrder(n: nat, k: nat)
    requires n < 64 && k < 64
    ensures (k as bv6 < n as bv6) == (k < n)
  {
    RoundTrip(n);
    RoundTrip(k);
    OrderIsValue(k as bv6, n as bv6);
  }

  lemma {:induction false} OrderIsValue(a: bv6, b: bv6)
    ensures (a < b) == (a as int < b as int)
  {}

  lemma {:induction false} MeetsBelow(n: nat, k: nat)
    requires n < 64 && k < 64
    ensures Meets(Below(Bit(n)), Bit(k)) == (k < n)
  {
    hide *;
    BitIsShift(n);
    BitIsShift(k);
    SameOrder(n, k);
    ShiftsBelow(n as bv6, k as bv6);
  }

  lemma {:induction false} HasBelow(n: nat, k: nat)
    requires n < 64 && k < 64
    ensures Has(Below(Bit(n)), k) == (k < n)
  {
    hide *;
    HasIsMeets(Below(Bit(n)), k);
    MeetsBelow(n, k);
  }

  lemma {:induction false} ConstantsMeet(b: bv64)
    ensures Meets(0xFFFF_FFFF_FFFF_FFFF, b) == (b != 0)
    ensures !Meets(0, b)
  {}

  lemma {:induction false} HasConstant(k: nat)
    requires k < 64
    ensures Has(0xFFFF_FFFF_FFFF_FFFF, k)
    ensures !Has(0, k)
  {
    hide *;
    NotZero(k);
    HasIsMeets(0xFFFF_FFFF_FFFF_FFFF, k);
    HasIsMeets(0, k);
    ConstantsMeet(Bit(k));
  }

  lemma {:induction false} HasOrBit(m: bv64, b: bv64, j: nat, k: nat)
    requires j < 64 && k < 64 && b == Bit(j)
    ensures Has(m | b, k) <==> Has(m, k) || k == j
  {
    hide *;
    HasBit(j, k);
    HasOr(m, b, k);
  }

  /** Or-ing in a bit adds exactly that bit. */
  lemma {:induction false} SetsBit(m: bv64, j: nat, w: bv64)
    requires j < 64 && w == m | Bit(j)
    ensures forall k :: 0 <= k < 64 ==> (Has(w, k) <==> Has(m, k) || k == j)
  {
    hide *;
    forall k | 0 <= k < 64
      ensures Has(w, k) <==> Has(m, k) || k == j
    {
      HasOrBit(m, Bit(j), j, k);
    }
  }

  method SetBit(m: bv64, j: nat) returns (w: bv64)
    requires j < 64
    ensures forall k :: 0 <= k < 64 ==> (Has(w, k) <==> Has(m, k) || k == j)
  {
    hide *;
    w := m | Bit(j);
    SetsBit(m, j, w);
  }

  /** The word with the bits 0 to j set, as `InitMaxRecvPktNum` computes it. */
  function OnesUpTo(j: nat): bv64
    requires j < 64
  {
    if j + 1 == 64 then 0xFFFF_FFFF_FFFF_FFFF else Below(Bit(j + 1))
  }

  lemma {:induction false} HasOnesUpTo(j: nat, k: nat)
    requires j < 64 && k < 64
    ensures Has(OnesUpTo(j), k) <==> k <= j
  {
    hide *;
    if j + 1 == 64 {
      HasConstant(k);
      OnesUpToIs(j);
    } else {
      HasBelow(j + 1, k);
      OnesUpToIs(j);
    }
  }

  lemma {:induction false} OnesUpToIs(j: nat)
    requires j < 64
    ensures OnesUpTo(j) == if j + 1 == 64 then 0xFFFF_FFFF_FFFF_FFFF else Below(Bit(j + 1))
  {
    hide Bit;
  }

  predicate IsOr(r: bv64, p: bv64, q: bv64) { r == p | q }

  lemma {:induction false} ShiftedOnes(j: bv6, p: bv64, q: bv64, r: bv64, t: bv64)
    requires q == (1 as bv64) << j
    requires r == if j < 63 then Below(p) else 0xFFFF_FFFF_FFFF_FFFF
    requires j < 63 ==> p == (1 as bv64) << (j + 1)
    requires t == Below(q)
    ensures IsOr(r, t, q)
  {}

  lemma {:induction false} OnesStep(j: nat)
    requires 0 < j < 64
    ensures IsOr(OnesUpTo(j), OnesUpTo(j - 1), Bit(j))
  {
    hide *;
    OnesUpToIs(j - 1);
    RoundTrip(j);
    BitIsShift(j);
    if j < 63 {
      OnesUpToIs(j);
      Succ(j);
      BitIsShift(j + 1);
      SmallIsSmall(j);
      ShiftedOnes(j as bv6, Bit(j + 1), Bit(j), OnesUpTo(j), OnesUpTo(j - 1));
    } else {
      OnesUpToIs(j);
      SmallIsSmall(j);
      ShiftedOnes(j as bv6, 0, Bit(j), OnesUpTo(j), OnesUpTo(j - 1));
    }
  }

  lemma {:induction false} SmallIsSmall(j: nat)
    requires j < 64
    ensures (j as bv6 < 63) == (j < 63)
  {
    SameOrder(63, j);
  }

  lemma {:induction false} OnesStart()
    ensures OnesUpTo(0) == Bit(0)
  {}

  lemma {:induction false} Distribute(x: bv64, p: bv64, q: bv64, r: bv64)
    requires !Meets(x, p) && !Meets(x, q) && IsOr(r, p, q)
    ensures !Meets(x, r)
  {}

  lemma {:induction false} ClearStep(x: bv64, j: nat)
    requires 0 < j < 64 && !Meets(x, OnesUpTo(j - 1)) && !Meets(x, Bit(j))
    ensures !Meets(x, OnesUpTo(j))
  {
    hide *;
    OnesStep(j);
    Distribute(x, OnesUpTo(j - 1), Bit(j), OnesUpTo(j));
  }

  lemma {:induction false} ClearUpTo(x: bv64, j: nat)
    requires j < 64 && forall k :: 0 <= k <= j ==> !Meets(x, Bit(k))
    ensures !Meets(x, OnesUpTo(j))
  {
    hide *;
    OnesStart();
    if j > 0 {
      ClearUpTo(x, j - 1);
      ClearStep(x, j);
    }
  }

  lemma {:induction false} SameMeets(a: bv64, b: bv64, c: bv64, x: bv64, j: bv6)
    requires c == (1 as bv64) << j && Meets(a, c) == Meets(b, c) && x == a ^ b
    ensures !Meets(x, c)
  {}

  lemma {:induction false} SameBit(a: bv64, b: bv64, x: bv64, k: nat)
    requires k < 64 && Has(a, k) == Has(b, k) && x == a ^ b
    ensures !Meets(x, Bit(k))
  {
    hide *;
    HasIsMeets(a, k);
    HasIsMeets(b, k);
    BitIsShift(k);
    SameMeets(a, b, Bit(k), x, k as bv6);
  }

  lemma {:induction false} XorZero(a: bv64, b: bv64)
    requires !Meets(a ^ b, 0xFFFF_FFFF_FFFF_FFFF)
    ensures a == b
  {}

  /** Words with the same bits are equal. */
  lemma {:induction false} SameBits(a: bv64, b: bv64)
    requires forall k :: 0 <= k < 64 ==> Has(a, k) == Has(b, k)
    ensures a == b
  {
    hide *;
    var x := a ^ b;
    forall k | 0 <= k <= 63
      ensures !Meets(x, Bit(k))
    {
      SameBit(a, b, x, k);
    }
    ClearUpTo(x, 63);
    OnesUpToIs(63);
    XorZero(a, b);
  }

  lemma {:induction false} SameAsOr(w: bv64, p: bv64, q: bv64)
    requires forall k :: 0 <= k < 64 ==> (Has(w, k) <==> Has(p, k) || Has(q, k))
    ensures IsOr(w, p, q)
  {
    hide Has, Bit;
    var r := p | q;
    forall k | 0 <= k < 64
      ensures Has(w, k) == Has(r, k)
    {
      HasOr(p, q, k);
    }
    SameBits(w, r);
  }
}
