/** Variable-length unsigned integers: seven bits a byte, the high bit set on all but the last. */
module VarInt {

  import opened Basics
  import opened Bits64
  import opened Words

  /** The widths the integers come in, and how many values they have. */
  predicate Width(bits: nat) { bits == 32 || bits == 64 }

  function Limit(bits: nat): nat { if bits == 32 then 0x1_0000_0000 else 0x1_0000_0000_0000_0000 }

  /** The bytes of the longest encoding of a value of that width. */
  function MaxBytes(bits: nat): nat { if bits == 32 then 5 else 10 }

  // --- The encoding ---------------------------------------------------------------------

  function Encoded(x: nat): (s: seq<Byte>)
    ensures |s| > 0
  {
    if x < 0x80 then [x] else [x % 0x80 + 0x80] + Encoded(x / 0x80)
  }

  /** The number in a sequence of groups of seven bits, the lowest group first. */
  function Value(s: seq<Byte>): nat
  {
    if s == [] then 0 else s[0] % 0x80 + 0x80 * Value(s[1..])
  }

  /** How many bytes there are up to the first one without the high bit. */
  function Terminated(s: seq<Byte>): (n: Option<nat>)
    ensures n.Some? ==> 0 < n.value <= |s|
  {
    if s == [] then None
    else if s[0] < 0x80 then Some(1)
    else
      var n :- Terminated(s[1..]);
      Some(n + 1)
  }

  /** A reading ends with the first byte that does not have the high bit. */
  lemma {:induction false} TerminatedIff(s: seq<Byte>, n: nat)
    ensures Terminated(s) == Some(n) <==>
              0 < n <= |s| && s[n - 1] < 0x80 && forall i :: 0 <= i < n - 1 ==> s[i] >= 0x80
    decreases |s|
  {
    if s != [] && n > 0 {
      TerminatedIff(s[1..], n - 1);
      assert forall i :: 0 < i < |s| ==> s[i] == s[1..][i - 1];
      assert forall i :: 0 <= i < |s| - 1 ==> s[1..][i] == s[i + 1];
    }
  }

  function EncodedAll(xs: seq<nat>): seq<Byte>
  {
    if xs == [] then [] else Encoded(xs[0]) + EncodedAll(xs[1..])
  }

  /** Reads encodings one after the other to the end of the bytes. */
  function DecodedAll(s: seq<Byte>): (r: Option<seq<nat>>)
    decreases |s|
  {
    if s == [] then Some([])
    else
      var n :- Terminated(s);
      var rest :- DecodedAll(s[n..]);
      Some([Value(s[..n])] + rest)
  }

  // --- Encodings decode to what was encoded ---------------------------------------------

  lemma {:induction false} EncodedDecodes(x: nat, rest: seq<Byte>)
    ensures Terminated(Encoded(x) + rest) == Some(|Encoded(x)|) && Value(Encoded(x)) == x
  {
    if x >= 0x80 {
      EncodedDecodes(x / 0x80, rest);
      var s := Encoded(x);
      assert s[1..] == Encoded(x / 0x80);
      assert (s + rest)[1..] == Encoded(x / 0x80) + rest;
    } else {
      assert Value([]) == 0;
    }
  }

  /** What an encoding is: byte `i` holds bits 7 i to 7 i + 6, and the high bit except in the last. */
  lemma {:induction false} EncodedAt(x: nat, i: nat)
    requires i < |Encoded(x)|
    ensures Pow2(7 * i) > 0
    ensures Encoded(x)[i] as int == x / Pow2(7 * i) % 0x80 + if i < |Encoded(x)| - 1 then 0x80 else 0
    decreases i
  {
    if i == 0 {
      assert Pow2(0) == 1;
    } else {
      EncodedAt(x / 0x80, i - 1);
      SevenMore(7 * i - 7);
      DivideBySeven(x, Pow2(7 * i - 7));
    }
  }

  lemma {:induction false} DivideBySeven(x: nat, d: nat)
    requires d > 0
    ensures x / 0x80 / d == x / (0x80 * d)
  {
    var q, r := x / 0x80 / d, x / 0x80 % d;
    assert x / 0x80 == q * d + r;
    assert x == q * (0x80 * d) + (0x80 * r + x % 0x80);
    Quotient(q, 0x80 * d, 0x80 * r + x % 0x80);
  }

  /** A list of values is read back from the encodings one after the other. */
  lemma {:induction false} AllDecode(xs: seq<nat>)
    ensures DecodedAll(EncodedAll(xs)) == Some(xs)
  {
    if xs != [] {
      var first, rest := Encoded(xs[0]), EncodedAll(xs[1..]);
      EncodedDecodes(xs[0], rest);
      AllDecode(xs[1..]);
      hide Encoded, Value, Terminated, EncodedAll;
      assert (first + rest)[..|first|] == first && (first + rest)[|first|..] == rest;
      assert [xs[0]] + xs[1..] == xs;
    }
  }

  /** No other bytes decode to a value in as few bytes, or in fewer. */
  lemma {:induction false} EncodedIsShortest(s: seq<Byte>)
    requires Terminated(s) == Some(|s|)
    ensures |Encoded(Value(s))| <= |s|
    ensures |Encoded(Value(s))| == |s| ==> Encoded(Value(s)) == s
    ensures Encoded(Value(s)) == s <==> |s| == 1 || s[|s| - 1] != 0
  {
    if s[0] < 0x80 {
      assert s == [s[0]];
      assert Value(s[1..]) == 0;
    } else {
      var more := s[1..];
      EncodedIsShortest(more);
      var v := Value(more);
      assert Value(s) == s[0] - 0x80 + 0x80 * v;
      assert s == [s[0]] + more;
      if v > 0 {
        assert Value(s) / 0x80 == v && Value(s) % 0x80 == s[0] - 0x80;
        assert more != [0] by {
          assert Value([0]) == 0 + 0x80 * Value([]);
        }
      } else {
        ZeroEncoded(more);
      }
    }
  }

  lemma {:induction false} ZeroEncoded(s: seq<Byte>)
    requires Terminated(s) == Some(|s|) && Value(s) == 0
    ensures s[|s| - 1] == 0
  {
    if s[0] >= 0x80 {
      ZeroEncoded(s[1..]);
    }
  }

  // --- The size -------------------------------------------------------------------------

  function VarIntSerializedSize32(x: nat): nat
    requires x < Limit(32)
  {
    if x < 0x80 then 1
    else if x < 0x4000 then 2
    else if x < 0x20_0000 then 3
    else if x < 0x1000_0000 then 4
    else 5
  }

  function VarIntSerializedSize64(x: nat): nat
    requires x < Limit(64)
  {
    if x < 0x8_0000_0000 then
      if x < 0x80 then 1
      else if x < 0x4000 then 2
      else if x < 0x20_0000 then 3
      else if x < 0x1000_0000 then 4
      else 5
    else if x < 0x400_0000_0000 then 6
    else if x < 0x2_0000_0000_0000 then 7
    else if x < 0x100_0000_0000_0000 then 8
    else if x < 0x8000_0000_0000_0000 then 9
    else 10
  }

  lemma {:induction false} SizeBound(x: nat, n: nat)
    requires n > 0
    ensures |Encoded(x)| <= n <==> x < Pow2(7 * n)
    decreases n
  {
    SevenMore(7 * n - 7);
    assert Pow2(0) == 1;
    if n > 1 {
      SizeBound(x / 0x80, n - 1);
    }
  }

  lemma {:induction false} SevenMore(n: nat)
    ensures Pow2(n + 7) == 0x80 * Pow2(n)
  {
    assert Pow2(n + 7) == 2 * Pow2(n + 6) == 4 * Pow2(n + 5) == 8 * Pow2(n + 4);
    assert Pow2(n + 4) == 2 * Pow2(n + 3) == 4 * Pow2(n + 2) == 8 * Pow2(n + 1);
  }

  lemma {:induction false} Powers()
    ensures Pow2(7) == 0x80 && Pow2(14) == 0x4000 && Pow2(21) == 0x20_0000 && Pow2(28) == 0x1000_0000
    ensures Pow2(32) == 0x1_0000_0000 && Pow2(35) == 0x8_0000_0000 && Pow2(42) == 0x400_0000_0000
    ensures Pow2(49) == 0x2_0000_0000_0000 && Pow2(56) == 0x100_0000_0000_0000 && Pow2(63) == 0x8000_0000_0000_0000
    ensures Pow2(64) == 0x1_0000_0000_0000_0000 && Pow2(70) == 0x40_0000_0000_0000_0000
  {
    assert Pow2(0) == 1;
    assert Pow2(32) == 2 * Pow2(31) == 4 * Pow2(30) == 8 * Pow2(29) == 16 * Pow2(28);
    assert Pow2(64) == 2 * Pow2(63);
    hide Pow2;
    SevenMore(0);
    SevenMore(7);
    SevenMore(14);
    SevenMore(21);
    SevenMore(28);
    SevenMore(35);
    SevenMore(42);
    SevenMore(49);
    SevenMore(56);
    SevenMore(63);
  }

  /** The announced sizes are the sizes of the encodings. */
  lemma {:induction false} SizeIsExact(x: nat)
    ensures x < Limit(32) ==> |Encoded(x)| == VarIntSerializedSize32(x)
    ensures x < Limit(64) ==> |Encoded(x)| == VarIntSerializedSize64(x)
  {
    Powers();
    hide Encoded, Pow2;
    SizeBound(x, 1);
    SizeBound(x, 2);
    SizeBound(x, 3);
    SizeBound(x, 4);
    SizeBound(x, 5);
    SizeBound(x, 6);
    SizeBound(x, 7);
    SizeBound(x, 8);
    SizeBound(x, 9);
    SizeBound(x, 10);
  }

  // --- Writing --------------------------------------------------------------------------

  /** The lowest eight bits of a word. */
  function ByteOf(w: bv64): Byte
  {
    LowByteRange(w);
    Num(And(w, 0xFF))
  }

  lemma {:induction false} LowByteRange(w: bv64)
    ensures Num(And(w, 0xFF)) == Num(w) % 0x100
  {
    LowMasks();
    hide Num, And, Bit, Below;
    NumLow(w, 8);
    SmallPowers();
  }

  lemma LowMasks()
    ensures Below(Bit(8)) == 0xFF && Below(Bit(7)) == 0x7F
  {
    BitIsShift(7);
    BitIsShift(8);
  }

  lemma SmallPowers()
    ensures Pow2(7) == 0x80 && Pow2(8) == 0x100
  {
    assert Pow2(0) == 1;
    SevenMore(0);
    assert Pow2(8) == 2 * Pow2(7);
  }

  lemma {:induction false} LowSeven(w: bv64)
    ensures Num(And(w, 0x7F)) == Num(w) % 0x80
  {
    LowMasks();
    hide Num, And, Bit, Below;
    NumLow(w, 7);
    SmallPowers();
  }

  /** The word with its eighth bit set, as a byte. */
  lemma {:induction false} ContinuedByte(w: bv64)
    ensures ByteOf(w | 0x80) == Num(w) % 0x80 + 0x80
  {
    LowByteSplits(w);
    NumOf0x80();
    hide Num, And, Or;
    LowSeven(w);
    NumOr(And(w, 0x7F), 0x80);
  }

  lemma {:induction false} LowByteSplits(w: bv64)
    ensures And(w | 0x80, 0xFF) == Or(And(w, 0x7F), 0x80) && And(And(w, 0x7F), 0x80) == 0
  {}

  lemma NumOf0x80()
    ensures Num(0x80) == 0x80
  {
    BitIsShift(7);
    hide Num, Bit;
    NumBit(7);
    SmallPowers();
  }

  /** What the tests and shifts of the loops mean for the number. */
  lemma {:induction false} SevenOff(w: bv64)
    ensures Num(w >> 7) == Num(w) / 0x80
    ensures w >= 0x80 <==> Num(w) >= 0x80
    ensures w < 0x80 ==> ByteOf(w) == Num(w)
  {
    LessThan0x80(w);
    hide Num, And, ShiftedRight;
    SevenRight(w);
    NumRight(w, 7);
    NonZero(w >> 7);
    SmallPowers();
    LowByteRange(w);
  }

  lemma {:induction false} LessThan0x80(w: bv64)
    ensures w < 0x80 <==> w >> 7 == 0
  {}

  lemma {:induction false} EncodedMore(done: seq<Byte>, x: nat, all: seq<Byte>)
    requires done + Encoded(x) == all
    ensures x >= 0x80 ==> done + [x % 0x80 + 0x80] + Encoded(x / 0x80) == all
    ensures x >= 0x80 ==> |Encoded(x)| == |Encoded(x / 0x80)| + 1
    ensures x < 0x80 ==> done + [x] == all && |Encoded(x)| == 1
  {}

  /** Writes the value from `p` on, into a buffer that has the room. */
  method SerializeVarInt(out: array<Byte>, p: nat, x: bv64) returns (next: nat)
    requires p + |Encoded(Num(x))| <= out.Length
    modifies out
    ensures next == p + |Encoded(Num(x))| && out[p..next] == Encoded(Num(x))
    ensures forall i :: 0 <= i < out.Length && !(p <= i < next) ==> out[i] == old(out[i])
  {
    hide Encoded, Num, ByteOf;
    ghost var all := Encoded(Num(x));
    var left := x;
    next := p;
    SevenOff(left);
    while left >= 0x80
      invariant left >= 0x80 <==> Num(left) >= 0x80
      invariant p <= next && next + |Encoded(Num(left))| == p + |all|
      invariant out[p..next] + Encoded(Num(left)) == all
      invariant forall i :: 0 <= i < out.Length && !(p <= i < next) ==> out[i] == old(out[i])
      decreases Num(left)
    {
      ghost var done := out[p..next];
      EncodedMore(done, Num(left), all);
      out[next] := Continued(left);
      assert out[p..next + 1] == done + [out[next]];
      next := next + 1;
      left := NextSeven(left);
    }
    SevenOff(left);
    EncodedMore(out[p..next], Num(left), all);
    out[next] := ByteOf(left);
    assert out[p..next + 1] == out[p..next] + [out[next]];
    next := next + 1;
  }

  /** Truncates to seven bits and turns on the high bit. */
  method Continued(x: bv64) returns (b: Byte)
    ensures b == Num(x) % 0x80 + 0x80
  {
    ContinuedByte(x);
    return ByteOf(x | 0x80);
  }

  /** Moves on to the next higher bits. */
  method NextSeven(x: bv64) returns (y: bv64)
    ensures Num(y) == Num(x) / 0x80 && (y >= 0x80 <==> Num(y) >= 0x80)
  {
    SevenOff(x);
    SevenOff(x >> 7);
    return x >> 7;
  }

  /** Writes all bytes but the last, as far as there is room: the high bit is set in each of them. */
  method PutContinued(out: array<Byte>, p: nat, x: bv64, end: nat) returns (left: bv64, at: nat, ghost done: seq<Byte>)
    requires end <= out.Length
    modifies out
    ensures |done| == at - p && (at > p ==> at <= end) && done + Encoded(Num(left)) == Encoded(Num(x))
    ensures Num(left) < 0x80 || at >= end
    ensures at <= end ==> out[p..at] == done
    ensures forall i :: 0 <= i < out.Length && !(p <= i < at) ==> out[i] == old(out[i])
  {
    hide *;
    left, at, done := x, p, [];
    SevenOff(left);
    assert [] + Encoded(Num(x)) == Encoded(Num(x));
    while left >= 0x80
      invariant left >= 0x80 <==> Num(left) >= 0x80
      invariant |done| == at - p && (at > p ==> at <= end) && done + Encoded(Num(left)) == Encoded(Num(x))
      invariant at <= end ==> out[p..at] == done
      invariant forall i :: 0 <= i < out.Length && !(p <= i < at) ==> out[i] == old(out[i])
      decreases Num(left)
    {
      if at >= end {
        return;
      }
      EncodedMore(done, Num(left), Encoded(Num(x)));
      out[at] := Continued(left);
      done := done + [out[at]];
      Extends(out, p, at, done);
      at := at + 1;
      left := NextSeven(left);
    }
  }

  /** Writes the value if it fits in front of `end`. What does not fit leaves a beginning of the
      encoding behind, and nothing from `end` on is touched. */
  method SerializeVarIntBounded(out: array<Byte>, p: nat, x: bv64, end: nat) returns (next: Option<nat>)
    requires end <= out.Length
    modifies out
    ensures var all := Encoded(Num(x));
            && (next.Some? <==> p + |all| <= end)
            && (next.Some? ==> next.value == p + |all| && out[p..next.value] == all)
            && (next.None? && p <= end ==> out[p..end] == all[..end - p])
            && forall i :: 0 <= i < out.Length && !(p <= i < end && i < p + |all|) ==> out[i] == old(out[i])
  {
    hide *;
    var left, at;
    ghost var all, done := Encoded(Num(x)), [];
    left, at, done := PutContinued(out, p, x, end);
    if at >= end {
      IsBeginning(done, Encoded(Num(left)), all);
      assert p <= end ==> at == end && out[p..end] == done;
      return None;
    }
    EncodedMore(done, Num(left), all);
    SevenOff(left);
    out[at] := ByteOf(left);
    Extends(out, p, at, done + [out[at]]);
    return Some(at + 1);
  }

  lemma {:induction false} Extends(out: array<Byte>, p: nat, at: nat, done: seq<Byte>)
    requires p <= at < out.Length && |done| == at + 1 - p
    requires out[p..at] == done[..at - p] && out[at] == done[at - p]
    ensures out[p..at + 1] == done
  {
    assert out[p..at + 1] == out[p..at] + [out[at]];
    assert done == done[..at - p] + [done[at - p]];
  }

  lemma {:induction false} IsBeginning(done: seq<Byte>, rest: seq<Byte>, all: seq<Byte>)
    ensures done + rest == all ==> all[..|done|] == done
  {}

  // --- Reading --------------------------------------------------------------------------

  datatype Decoded = Decoded(x: bv64, next: nat)

  lemma {:induction false} ValueMore(s: seq<Byte>, b: Byte)
    ensures Value(s + [b]) == Value(s) + Pow2(7 * |s|) * (b % 0x80)
    ensures Value(s) < Pow2(7 * |s|)
  {
    if s == [] {
      assert (s + [b])[1..] == [];
    } else {
      ValueMore(s[1..], b);
      assert (s + [b])[1..] == s[1..] + [b];
      SevenMore(7 * |s| - 7);
      RegroupSeven(Pow2(7 * |s| - 7), b % 0x80);
    }
  }

  lemma {:induction false} RegroupSeven(a: nat, b: nat)
    ensures 0x80 * (a * b) == 0x80 * a * b
  {}

  lemma {:induction false} TerminatedMore(s: seq<Byte>, n: nat)
    requires n <= |s| && forall i :: 0 <= i < n ==> s[i] >= 0x80
    ensures n == |s| ==> Terminated(s) == None
    ensures n < |s| && s[n] < 0x80 ==> Terminated(s) == Some(n + 1)
  {
    if n > 0 {
      TerminatedMore(s[1..], n - 1);
    }
  }

  /** The number of a group of seven bits that is shifted to its place in a word. */
  function Shifted(group: nat, shift: nat, bits: nat): nat
    requires Width(bits)
  {
    group * Pow2(shift) % Limit(bits)
  }

  /** The bits of an integer of that width; a 32-bit integer is the lower half of a word. */
  function Mask(bits: nat): bv64 { if bits == 32 then 0xFFFF_FFFF else 0xFFFF_FFFF_FFFF_FFFF }

  lemma {:induction false} NumMask(w: bv64, bits: nat)
    requires Width(bits)
    ensures Num(And(w, Mask(bits))) == Num(w) % Limit(bits)
  {
    MaskIs(w);
    hide Num, And, Bit, Below;
    if bits == 32 {
      NumLow(w, 32);
      PowerOf64();
    } else {
      NumRange(w);
    }
  }

  lemma MaskIs(w: bv64)
    ensures Below(Bit(32)) == Mask(32) && And(w, Mask(64)) == w
  {
    BitIsShift(32);
  }

  lemma {:induction false} ModuloOfModulo(n: nat, bits: nat)
    requires Width(bits)
    ensures n % LIMIT % Limit(bits) == n % Limit(bits)
  {
    var q, r := n / LIMIT, n % LIMIT;
    assert n == q * LIMIT + r;
    if bits == 32 {
      var t, u := r / 0x1_0000_0000, r % 0x1_0000_0000;
      assert n == (q * 0x1_0000_0000 + t) * 0x1_0000_0000 + u;
      ModuloIs(q * 0x1_0000_0000 + t, u, 32);
    }
  }

  /** A group of seven bits, shifted and cut to the width. */
  lemma {:induction false} ShiftedIs(g: bv64, shift: nat, bits: nat)
    requires Width(bits) && shift < bits && shift % 7 == 0
    ensures Num(And(Shift(g, shift), Mask(bits))) == Shifted(Num(g), shift, bits)
  {
    hide Num, And, Shift, ShiftedLeft, Mask;
    ShiftBySevens(g, shift);
    NumLeft(g, shift);
    NumMask(ShiftedLeft(g, shift), bits);
    ModuloOfModulo(Num(g) * Pow2(shift), bits);
  }

  /** Combining a shifted group with the bits below it by or is adding the numbers. */
  lemma {:induction false} OrIsAdd(low: bv64, g: bv64, shift: nat, bits: nat)
    requires Width(bits) && shift < bits && shift % 7 == 0 && Num(low) < Pow2(shift)
    ensures Num(Or(low, And(Shift(g, shift), Mask(bits)))) == Num(low) + Shifted(Num(g), shift, bits)
    ensures Num(Or(low, And(Shift(g, shift), Mask(bits)))) == (Num(low) + Pow2(shift) * Num(g)) % Limit(bits)
  {
    hide Num, And, Or, Shift, ShiftedLeft, ShiftedRight, Mask;
    NumBelow(low, shift);
    ShiftedApart(low, g, shift);
    ShiftBySevens(g, shift);
    StillApart(low, ShiftedLeft(g, shift), Mask(bits));
    NumOr(low, And(ShiftedLeft(g, shift), Mask(bits)));
    ShiftedIs(g, shift, bits);
    AddGroup(Num(low), Num(g), shift, bits);
  }

  lemma {:induction false} StillApart(low: bv64, w: bv64, m: bv64)
    requires And(low, w) == 0
    ensures And(low, And(w, m)) == 0
  {}

  lemma {:induction false} LimitIsPower(bits: nat)
    requires Width(bits)
    ensures Limit(bits) == Pow2(bits)
  {
    Powers();
  }

  lemma {:induction false} PowersMultiply(a: nat, b: nat)
    ensures Pow2(a + b) == Pow2(a) * Pow2(b)
    decreases b
  {
    if b > 0 {
      PowersMultiply(a, b - 1);
      assert Pow2(a + b) == 2 * Pow2(a + (b - 1));
    }
  }

  /** A group shifted by less than the width leaves room for the numbers below it. */
  lemma {:induction false} AddGroup(low: nat, group: nat, shift: nat, bits: nat)
    requires Width(bits) && shift <= bits && low < Pow2(shift)
    ensures low + Shifted(group, shift, bits) == (low + Pow2(shift) * group) % Limit(bits)
  {
    LimitIsPower(bits);
    PowersMultiply(shift, bits - shift);
    PowPositive(shift);
    PowPositive(bits - shift);
    hide Pow2;
    SplitModulo(low, group, Pow2(shift), Pow2(bits - shift), bits);
  }

  lemma {:induction false} PowPositive(n: nat)
    ensures Pow2(n) > 0
  {
    if n > 0 {
      PowPositive(n - 1);
    }
  }

  lemma {:induction false} SplitModulo(low: nat, group: nat, m: nat, k: nat, bits: nat)
    requires Width(bits) && low < m && k > 0 && m * k == Limit(bits)
    ensures low + group * m % Limit(bits) == (low + m * group) % Limit(bits)
  {
    var q, r := group / k, group % k;
    assert group == q * k + r;
    Expand(q, k, r, m);
    Monotone(r + 1, k, m);
    ModuloIs(q, r * m, bits);
    ModuloIs(q, low + r * m, bits);
  }

  lemma {:induction false} Expand(q: nat, k: nat, r: nat, m: nat)
    ensures (q * k + r) * m == q * (m * k) + r * m
    ensures (r + 1) * m == r * m + m
  {}

  lemma {:induction false} Monotone(a: nat, b: nat, m: nat)
    requires a <= b
    ensures a * m <= m * b
  {}

  lemma {:induction false} ModuloIs(q: nat, r: nat, bits: nat)
    requires Width(bits) && r < Limit(bits)
    ensures (q * Limit(bits) + r) % Limit(bits) == r
  {
    if bits == 32 {
      assert (q * 0x1_0000_0000 + r) % 0x1_0000_0000 == r;
    } else {
      assert (q * 0x1_0000_0000_0000_0000 + r) % 0x1_0000_0000_0000_0000 == r;
    }
  }

  /** Reads a value in front of `end`. Fails exactly when the bytes end before the value does. The
      value is truncated to its width without notice; groups that would lie wholly outside the
      word make it indeterminate. */
  method DeserializeVarInt(buf: array<Byte>, start: nat, end: nat, bits: nat) returns (r: Option<Decoded>)
    requires end <= buf.Length && Width(bits)
    ensures r.Some? <==> start < end && Terminated(buf[start..end]).Some?
    ensures r.Some? ==>
              && Num(r.value.x) < Limit(bits)
              && r.value.next == start + Terminated(buf[start..end]).value
              && (r.value.next - start <= MaxBytes(bits) ==> Num(r.value.x) == Value(buf[start..r.value.next]) % Limit(bits))
  {
    hide Num, Value, Limit;
    if start >= end {
      return None;
    }
    ghost var s := buf[start..end];
    var p := start;
    var result := Group(buf[p]);
    var shift: nat := 7;
    FirstGroup(s, bits);
    while buf[p] >= 0x80
      invariant start <= p < end && shift == 7 * (p + 1 - start) && s == buf[start..end]
      invariant forall i :: 0 <= i < p - start ==> s[i] >= 0x80
      invariant Num(result) < Limit(bits)
      invariant p + 1 - start <= MaxBytes(bits) ==> Num(result) == Value(s[..p + 1 - start]) % Limit(bits)
      decreases end - p
    {
      p := p + 1;
      ghost var n := p - start;
      if p >= end {
        TerminatedMore(s, n);
        return None;
      }
      var group := Group(buf[p]);
      result := OrGroup(result, group, shift, bits, s[..n], buf[p]);
      assert s[..n] + [buf[p]] == s[..n + 1];
      shift := shift + 7;
    }
    p := p + 1;
    TerminatedMore(s, p - 1 - start);
    assert s[..p - start] == buf[start..p];
    return Some(Decoded(result, p));
  }

  /** The seven value bits of a byte, in a word. */
  method Group(b: Byte) returns (g: bv64)
    ensures Num(g) == b % 0x80
  {
    SmallPowers();
    hide Num, Word;
    NumOfWord(b, 8);
    LowSeven(Word(b));
    return Word(b) & 0x7F;
  }

  lemma {:induction false} FirstGroup(s: seq<Byte>, bits: nat)
    requires s != [] && Width(bits)
    ensures s[0] % 0x80 == Value(s[..1]) % Limit(bits) < Limit(bits)
  {
    assert s[..1] == [s[0]] && Value([]) == 0;
  }

  /** Combines a group of seven bits with the groups below it. */
  method OrGroup(low: bv64, group: bv64, shift: nat, bits: nat, ghost seen: seq<Byte>, ghost b: Byte)
    returns (result: bv64)
    requires Width(bits) && shift == 7 * |seen| && Num(group) == b % 0x80 && |seen| > 0 && Num(low) < Limit(bits)
    requires |seen| <= MaxBytes(bits) ==> Num(low) == Value(seen) % Limit(bits)
    ensures Num(result) < Limit(bits)
    ensures |seen| < MaxBytes(bits) ==> Num(result) == Value(seen + [b]) % Limit(bits)
  {
    hide Num, And, Or, Shift, Mask, Value;
    if shift < bits {
      ValueMore(seen, b);
      PowBelow(shift, bits);
      ModuloIs(0, Value(seen), bits);
      OrIsAdd(low, group, shift, bits);
      return Or(low, And(Shift(group, shift), Mask(bits)));
    }
    var any: bv64 := *;
    NumMask(any, bits);
    return And(any, Mask(bits));
  }

  lemma {:induction false} PowBelow(shift: nat, bits: nat)
    requires Width(bits) && shift <= bits
    ensures Pow2(shift) <= Limit(bits)
  {
    LimitIsPower(bits);
    PowersMultiply(shift, bits - shift);
    PowPositive(bits - shift);
    hide Pow2, Limit;
    Monotone(1, Pow2(bits - shift), Pow2(shift));
  }

  /** What was written for a value of the width is read back, whatever follows it. */
  lemma {:induction false} VarIntRoundTrip(x: nat, bits: nat, s: seq<Byte>)
    requires Width(bits) && x < Limit(bits) && Encoded(x) <= s
    ensures Terminated(s) == Some(|Encoded(x)|) && |Encoded(x)| <= MaxBytes(bits)
    ensures Value(s[..|Encoded(x)|]) % Limit(bits) == x
  {
    var n := |Encoded(x)|;
    assert s == Encoded(x) + s[n..];
    EncodedDecodes(x, s[n..]);
    SizeIsExact(x);
    hide Encoded, Value;
  }

  /** A longest encoding overflows its width exactly when its last group has a bit too many: four
      bits of it count for 32 bits, and one for 64. */
  lemma {:induction false} OverflowIff(s: seq<Byte>, bits: nat)
    requires Width(bits) && Terminated(s) == Some(|s|) && |s| <= MaxBytes(bits)
    ensures Value(s) < Limit(bits) <==> |s| < MaxBytes(bits) || s[|s| - 1] < (if bits == 32 then 0x10 else 2)
  {
    var n := |s| - 1;
    assert s == s[..n] + [s[n]];
    ValueMore(s[..n], s[n]);
    Powers();
    LastByte(s);
    if |s| < MaxBytes(bits) {
      ValueMore(s, 0);
      PowMonotone(7 * |s|, if bits == 32 then 28 else 63);
    }
  }

  lemma {:induction false} LastByte(s: seq<Byte>)
    requires Terminated(s) == Some(|s|)
    ensures s[|s| - 1] < 0x80
  {
    if s[0] >= 0x80 {
      LastByte(s[1..]);
    }
  }

  lemma {:induction false} PowMonotone(a: nat, b: nat)
    requires a <= b
    ensures Pow2(a) <= Pow2(b)
    decreases b
  {
    if a < b {
      PowMonotone(a, b - 1);
    }
  }
}
