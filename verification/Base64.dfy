/** Base64 text with line breaks. */
module Base64 {
  import opened Basics

  type Sextet = v: int | 0 <= v < 64

  const GROUPS_PER_LINE := 18
  const INT_MAX := 0x7FFF_FFFF
  const NUL: char := '\0'

  /** The character of each sextet. */
  function Letter(v: Sextet): char
  {
    if v < 26 then 'A' + v as char
    else if v < 52 then 'a' + (v - 26) as char
    else if v < 62 then '0' + (v - 52) as char
    else if v == 62 then '+'
    else '/'
  }

  /** The sextet of a character, -2 for the padding, and -1 for any other. */
  function Value(c: char): int
  {
    if 'A' <= c <= 'Z' then c as int - 'A' as int
    else if 'a' <= c <= 'z' then c as int - 'a' as int + 26
    else if '0' <= c <= '9' then c as int - '0' as int + 52
    else if c == '+' then 62
    else if c == '/' then 63
    else if c == '=' then -2
    else -1
  }

  lemma {:induction false} ValueOfLetter(v: Sextet)
    ensures Value(Letter(v)) == v
  {}

  predicate InAlphabet(c: char)
  {
    'A' <= c <= 'Z' || 'a' <= c <= 'z' || '0' <= c <= '9' || c == '+' || c == '/'
  }

  /** The alphabet of section 4 of RFC 4648: upper-case letters, lower-case letters, digits, + and /. */
  lemma {:induction false} AlphabetIs(v: Sextet)
    ensures InAlphabet(Letter(v))
    ensures Letter(0) == 'A' && Letter(25) == 'Z' && Letter(26) == 'a' && Letter(51) == 'z'
    ensures Letter(52) == '0' && Letter(61) == '9' && Letter(62) == '+' && Letter(63) == '/'
    ensures v != 25 && v != 51 && v < 61 ==> Letter(v + 1) as int == Letter(v) as int + 1
  {}

  /** The value of a character is its place in the alphabet. */
  lemma {:induction false} ValueIs(c: char)
    ensures Value(c) >= 0 <==> InAlphabet(c)
    ensures Value(c) >= 0 ==> Value(c) < 64 && Letter(Value(c)) == c
    ensures Value(c) < 0 ==> Value(c) == if c == '=' then -2 else -1
  {}

  // --- Bytes and sextets ----------------------------------------------------------------

  function Word(a: Byte, b: Byte, c: Byte): int { a * 0x1_0000 + b * 0x100 + c }

  function Part(word: int, shift: int): Sextet
    requires shift > 0
  {
    word / shift % 64
  }

  /** The sextets of a byte string, without padding. */
  function Sextets(data: seq<Byte>): (s: seq<Sextet>)
    decreases |data|
  {
    if data == [] then []
    else if |data| == 1 then
      var w := Word(data[0], 0, 0);
      [Part(w, 0x4_0000), Part(w, 0x1000)]
    else if |data| == 2 then
      var w := Word(data[0], data[1], 0);
      [Part(w, 0x4_0000), Part(w, 0x1000), Part(w, 0x40)]
    else
      var w := Word(data[0], data[1], data[2]);
      [Part(w, 0x4_0000), Part(w, 0x1000), Part(w, 0x40), Part(w, 1)] + Sextets(data[3..])
  }

  /** The sentinel bit, followed by the bits of some sextets. */
  function Packed(s: seq<Sextet>): int
  {
    if s == [] then 1 else Packed(s[..|s| - 1]) * 64 + s[|s| - 1]
  }

  function ByteAt(word: int, shift: int): Byte
    requires shift > 0
  {
    word / shift % 256
  }

  /** The bytes of a packed group of four sextets. */
  function Triple(word: int): (t: seq<Byte>)
    ensures |t| == 3
  {
    [ByteAt(word, 0x1_0000), ByteAt(word, 0x100), ByteAt(word, 1)]
  }

  /** The whole bytes in a sequence of sextets; left-over bits are dropped. */
  function Bytes(s: seq<Sextet>): seq<Byte>
    decreases |s|
  {
    if |s| < 2 then []
    else if |s| == 2 then [ByteAt(Packed(s) * 0x1000, 0x1_0000)]
    else if |s| == 3 then [ByteAt(Packed(s) * 0x40, 0x1_0000), ByteAt(Packed(s) * 0x40, 0x100)]
    else Triple(Packed(s[..4])) + Bytes(s[4..])
  }

  lemma {:induction false} PackedFour(a: Sextet, b: Sextet, c: Sextet, d: Sextet)
    ensures Packed([a, b]) == 0x1000 + a * 64 + b
    ensures Packed([a, b, c]) == 0x4_0000 + a * 0x1000 + b * 64 + c
    ensures Packed([a, b, c, d]) == 0x100_0000 + a * 0x4_0000 + b * 0x1000 + c * 64 + d
  {
    assert [a, b, c, d][..3] == [a, b, c] && [a, b, c][..2] == [a, b] && [a, b][..1] == [a] && [a][..0] == [];
    assert Packed([a]) == 64 + a;
  }

  lemma {:induction false} PartsRecompose(w: int)
    requires 0 <= w < 0x100_0000
    ensures w == Part(w, 0x4_0000) * 0x4_0000 + Part(w, 0x1000) * 0x1000 + Part(w, 0x40) * 64 + Part(w, 1)
  {
    var x, y, z := w / 64, w / 0x1000, w / 0x4_0000;
    assert y == x / 64 && z == y / 64;
  }

  lemma {:induction false} DivideTwice(w: int)
    ensures w / 0x1_0000 == w / 256 / 256
  {}

  lemma {:induction false} BytesAre(w: int, x: int, y: int, c: int)
    requires w / 256 == x && w % 256 == c && x / 256 == y
    ensures Triple(w) == [y % 256, x % 256, c]
  {
    DivideTwice(w);
  }

  lemma {:induction false} BytesOfWord(a: Byte, b: Byte, c: Byte)
    ensures Triple(0x100_0000 + Word(a, b, c)) == [a, b, c]
  {
    var y := 256 + a;
    var x := y * 256 + b;
    var w := x * 256 + c;
    assert w == 0x100_0000 + Word(a, b, c);
    hide Triple, Word;
    LowByte(x, c);
    LowByte(y, b);
    LowByte(1, a);
    BytesAre(w, x, y, c);
  }

  lemma {:induction false} LowByte(q: int, r: Byte)
    ensures (q * 256 + r) / 256 == q && (q * 256 + r) % 256 == r
  {}

  lemma {:induction false} GroupRoundTrip(a: Byte, b: Byte, c: Byte)
    ensures var w := Word(a, b, c);
            && Packed([Part(w, 0x4_0000), Part(w, 0x1000), Part(w, 0x40), Part(w, 1)]) == 0x100_0000 + w
            && (c == 0 ==> Packed([Part(w, 0x4_0000), Part(w, 0x1000), Part(w, 0x40)]) * 0x40 == 0x100_0000 + w)
            && (b == 0 && c == 0 ==> Packed([Part(w, 0x4_0000), Part(w, 0x1000)]) * 0x1000 == 0x100_0000 + w)
  {
    var w := Word(a, b, c);
    PackedFour(Part(w, 0x4_0000), Part(w, 0x1000), Part(w, 0x40), Part(w, 1));
    PartsRecompose(w);
    hide Packed, Word, Part;
    LowPartsZero(a, b, c);
  }

  lemma {:induction false} LowPartsZero(a: Byte, b: Byte, c: Byte)
    ensures c == 0 ==> Part(Word(a, b, c), 1) == 0
    ensures b == 0 && c == 0 ==> Part(Word(a, b, c), 0x40) == 0
  {
    if c == 0 {
      assert Word(a, b, c) == (a * 1024 + b * 4) * 64;
      if b == 0 {
        assert Word(a, b, c) / 64 == a * 1024;
      }
    }
  }

  /** Decoding the sextets of a byte string gives the byte string back. */
  lemma {:induction false} BytesOfSextets(data: seq<Byte>)
    ensures Bytes(Sextets(data)) == data
    decreases |data|
  {
    if data == [] {
    } else if |data| == 1 {
      GroupRoundTrip(data[0], 0, 0);
      BytesOfWord(data[0], 0, 0);
      hide Packed, Word, Part, ByteAt;
    } else if |data| == 2 {
      GroupRoundTrip(data[0], data[1], 0);
      BytesOfWord(data[0], data[1], 0);
      hide Packed, Word, Part, ByteAt;
    } else {
      GroupRoundTrip(data[0], data[1], data[2]);
      BytesOfWord(data[0], data[1], data[2]);
      hide Packed, Word, Part, ByteAt;
      BytesOfSextets(data[3..]);
      var s := Sextets(data);
      assert s[4..] == Sextets(data[3..]);
      assert data == data[..3] + data[3..];
    }
  }

  /** The number whose digits to the base 64 are the sextets. */
  function NumberOf(s: seq<Sextet>): int
  {
    if s == [] then 0 else NumberOf(s[..|s| - 1]) * 64 + s[|s| - 1]
  }

  /** Each group of three bytes is a number, most significant byte first, and so are its four sextets;
      the last, incomplete group as if zero bits followed. */
  lemma {:induction false} SextetsAre(data: seq<Byte>)
    ensures |data| >= 3 ==>
              && |Sextets(data)| >= 4 && Sextets(data)[4..] == Sextets(data[3..])
              && NumberOf(Sextets(data)[..4]) == (data[0] as int * 0x100 + data[1]) * 0x100 + data[2]
    ensures |data| == 2 ==> |Sextets(data)| == 3 && NumberOf(Sextets(data)) == (data[0] as int * 0x100 + data[1]) * 4
    ensures |data| == 1 ==> |Sextets(data)| == 2 && NumberOf(Sextets(data)) == data[0] as int * 16
  {
    if |data| >= 1 {
      var b, c: Byte := if |data| > 1 then data[1] else 0, if |data| > 2 then data[2] else 0;
      var w := Word(data[0], b, c);
      PartsRecompose(w);
      LowPartsZero(data[0], b, c);
      NumbersOf(Part(w, 0x4_0000), Part(w, 0x1000), Part(w, 0x40), Part(w, 1));
      assert |data| >= 3 ==> Sextets(data)[..4] == [Part(w, 0x4_0000), Part(w, 0x1000), Part(w, 0x40), Part(w, 1)];
      hide Part, NumberOf;
    }
  }

  /** Any sextets give their whole bytes: four give three, three give two, two give one, and what is
      left over is dropped, whatever its bits are. */
  lemma {:induction false} WholeBytes(s: seq<Sextet>)
    ensures |s| < 2 ==> Bytes(s) == []
    ensures |s| == 2 ==> |Bytes(s)| == 1 && Bytes(s)[0] as int == NumberOf(s) / 16
    ensures |s| == 3 ==> |Bytes(s)| == 2 && Bytes(s)[0] as int * 0x100 + Bytes(s)[1] == NumberOf(s) / 4
    ensures |s| == 4 ==>
              |Bytes(s)| == 3 && (Bytes(s)[0] as int * 0x100 + Bytes(s)[1]) * 0x100 + Bytes(s)[2] == NumberOf(s)
    ensures |s| > 4 ==> Bytes(s) == Bytes(s[..4]) + Bytes(s[4..])
  {
    if |s| == 2 {
      NumbersOf(s[0], s[1], 0, 0);
      PackedFour(s[0], s[1], 0, 0);
      assert s == [s[0], s[1]];
    } else if |s| == 3 {
      NumbersOf(s[0], s[1], s[2], 0);
      PackedFour(s[0], s[1], s[2], 0);
      assert s == [s[0], s[1], s[2]];
      TwoBytes(Packed(s));
    } else if |s| == 4 {
      NumbersOf(s[0], s[1], s[2], s[3]);
      PackedFour(s[0], s[1], s[2], s[3]);
      assert s == [s[0], s[1], s[2], s[3]];
      FullGroup(s);
      ThreeBytes(Packed(s));
    } else if |s| > 4 {
      FullGroup(s[..4]);
    }
  }

  lemma {:induction false} TwoBytes(w: int)
    requires 0x4_0000 <= w < 0x8_0000
    ensures ByteAt(w * 0x40, 0x1_0000) as int * 0x100 + ByteAt(w * 0x40, 0x100) == (w - 0x4_0000) / 4
  {
    var x := w / 4;
    assert w * 0x40 / 0x100 == x && w * 0x40 / 0x1_0000 == x / 0x100;
  }

  lemma {:induction false} ThreeBytes(w: int)
    requires 0x100_0000 <= w < 0x200_0000
    ensures (ByteAt(w, 0x1_0000) as int * 0x100 + ByteAt(w, 0x100)) * 0x100 + ByteAt(w, 1) == w - 0x100_0000
  {
    var x := w / 0x100;
    assert w / 0x1_0000 == x / 0x100;
  }

  lemma {:induction false} NumbersOf(a: Sextet, b: Sextet, c: Sextet, d: Sextet)
    ensures NumberOf([a, b]) == a as int * 64 + b
    ensures NumberOf([a, b, c]) == (a as int * 64 + b) * 64 + c
    ensures NumberOf([a, b, c, d]) == ((a as int * 64 + b) * 64 + c) * 64 + d
  {
    assert [a, b, c, d][..3] == [a, b, c] && [a, b, c][..2] == [a, b] && [a, b][..1] == [a] && [a][..0] == [];
    assert NumberOf([a]) == a;
  }

  // --- The encoded text -----------------------------------------------------------------

  /** The four characters of a group of one to three bytes. */
  function GroupText(data: seq<Byte>): (t: string)
    requires 1 <= |data| <= 3
    ensures |t| == 4
  {
    var s := Sextets(data);
    [Letter(s[0]), Letter(s[1]),
     if |data| > 1 then Letter(s[2]) else '=',
     if |data| > 2 then Letter(s[3]) else '=']
  }

  /** A group has one character for each sextet, and padding for those that are missing. */
  lemma GroupIs(data: seq<Byte>)
    requires 1 <= |data| <= 3
    ensures |Sextets(data)| == |data| + 1
    ensures forall i :: 0 <= i < 4 ==> GroupText(data)[i] == if i <= |data| then Letter(Sextets(data)[i]) else '='
  {}

  /** The line break that precedes group `k`, if any. */
  function BreakBefore(k: nat, lineBreak: string): string
  {
    if k > 0 && k % GROUPS_PER_LINE == 0 then lineBreak else ""
  }

  function First(data: seq<Byte>): seq<Byte> { if |data| < 3 then data else data[..3] }
  function Rest(data: seq<Byte>): seq<Byte> { if |data| < 3 then [] else data[3..] }

  /** The text of a byte string whose first group is group `k` of the whole. */
  function TextFrom(data: seq<Byte>, k: nat, lineBreak: string): string
    decreases |data|
  {
    if data == [] then ""
    else BreakBefore(k, lineBreak) + GroupText(First(data)) + TextFrom(Rest(data), k + 1, lineBreak)
  }

  /** The whole text; a line break also ends the last line. */
  function Encoded(data: seq<Byte>, lineBreak: string): string
  {
    TextFrom(data, 0, lineBreak) + lineBreak
  }

  /** Where the lines end: 54 bytes make a line of 72 characters. */
  lemma {:induction false} LinesAre(data: seq<Byte>, lineBreak: string)
    ensures |data| <= 54 ==> Encoded(data, lineBreak) == TextFrom(data, 0, "") + lineBreak
    ensures |data| > 54 ==> Encoded(data, lineBreak) == TextFrom(data[..54], 0, "") + lineBreak + Encoded(data[54..], lineBreak)
    ensures |data| == 54 ==> |TextFrom(data, 0, "")| == 72
  {
    hide TextFrom;
    if |data| > 54 {
      assert data == data[..54] + data[54..];
      LineFrom(data[..54], data[54..], 0, lineBreak);
      LaterLine(data[54..], lineBreak);
      FourParts(TextFrom(data[..54], 0, ""), lineBreak, TextFrom(data[54..], 0, lineBreak), lineBreak);
    } else {
      ShortLine(data, 0, lineBreak);
      if |data| == 54 {
        TextLength(data, 0, "");
        assert Groups(54) == 18;
      }
    }
  }

  lemma {:induction false} FourParts(a: string, b: string, c: string, d: string)
    ensures (a + (b + c)) + d == (a + b) + (c + d)
  {}

  lemma {:induction false} ThreeParts(a: string, b: string, c: string)
    ensures a + (b + c) == (a + b) + c
  {}

  lemma {:induction false} Unfold(data: seq<Byte>, k: nat, lineBreak: string)
    requires data != []
    ensures TextFrom(data, k, lineBreak) ==
              BreakBefore(k, lineBreak) + (GroupText(First(data)) + TextFrom(Rest(data), k + 1, lineBreak))
    ensures |Rest(data)| < |data|
  {
    hide BreakBefore, GroupText;
  }

  lemma BreaksAre(k: nat, lineBreak: string)
    ensures k < 18 ==> BreakBefore(k, lineBreak) == ""
    ensures k > 0 && k % 18 == 0 ==> BreakBefore(k, lineBreak) == lineBreak
  {}

  lemma {:induction false} SameBreaks(k: nat, i: nat, lineBreak: string)
    requires k % 18 == 0 && i > 0
    ensures BreakBefore(k + i, lineBreak) == BreakBefore(i, lineBreak)
  {
    assert (k + i) % 18 == i % 18;
  }

  lemma {:induction false} ShortLine(data: seq<Byte>, k: nat, lineBreak: string)
    requires k <= 18 && |data| <= 54 - 3 * k
    ensures TextFrom(data, k, lineBreak) == TextFrom(data, k, "")
    decreases |data|
  {
    if data != [] {
      Unfold(data, k, lineBreak);
      Unfold(data, k, "");
      BreaksAre(k, lineBreak);
      BreaksAre(k, "");
      hide TextFrom, GroupText, BreakBefore;
      ShortLine(Rest(data), k + 1, lineBreak);
    }
  }

  lemma {:induction false} LineFrom(line: seq<Byte>, more: seq<Byte>, k: nat, lineBreak: string)
    requires k <= 18 && |line| == 54 - 3 * k && more != []
    ensures TextFrom(line + more, k, lineBreak) == TextFrom(line, k, "") + TextFrom(more, 18, lineBreak)
    decreases 18 - k
  {
    hide GroupText, BreakBefore, TextFrom;
    if k < 18 {
      Unfold(line + more, k, lineBreak);
      Unfold(line, k, "");
      BreaksAre(k, lineBreak);
      BreaksAre(k, "");
      LineParts(line, more);
      var group := GroupText(First(line));
      NoneInFront(group + TextFrom(Rest(line) + more, k + 1, lineBreak));
      NoneInFront(group + TextFrom(Rest(line), k + 1, ""));
      LineFrom(Rest(line), more, k + 1, lineBreak);
      ThreeParts(group, TextFrom(Rest(line), k + 1, ""), TextFrom(more, 18, lineBreak));
    } else {
      TextEmpty(18, "");
      assert line == [] && line + more == more;
      NoneInFront(TextFrom(more, 18, lineBreak));
    }
  }

  lemma {:induction false} NoneInFront(s: string)
    ensures "" + s == s
  {}

  lemma {:induction false} LineParts(line: seq<Byte>, more: seq<Byte>)
    requires |line| >= 3
    ensures Rest(line + more) == Rest(line) + more && First(line + more) == First(line) && |Rest(line)| == |line| - 3
  {}

  /** A line break comes first, and later lines are like the first. */
  lemma {:induction false} LaterLine(data: seq<Byte>, lineBreak: string)
    requires data != []
    ensures TextFrom(data, 18, lineBreak) == lineBreak + TextFrom(data, 0, lineBreak)
  {
    hide TextFrom, GroupText, Rest, BreakBefore;
    Unfold(data, 18, lineBreak);
    Unfold(data, 0, lineBreak);
    BreaksAre(18, lineBreak);
    BreaksAre(0, lineBreak);
    SameLines(Rest(data), 18, 1, lineBreak);
    NoneInFront(GroupText(First(data)) + TextFrom(Rest(data), 1, lineBreak));
  }

  lemma {:induction false} SameLines(data: seq<Byte>, k: nat, i: nat, lineBreak: string)
    requires k % 18 == 0 && i > 0
    ensures TextFrom(data, k + i, lineBreak) == TextFrom(data, i, lineBreak)
    decreases |data|
  {
    if data == [] {
      TextEmpty(k + i, lineBreak);
      TextEmpty(i, lineBreak);
    } else {
      Unfold(data, k + i, lineBreak);
      Unfold(data, i, lineBreak);
      SameBreaks(k, i, lineBreak);
      hide TextFrom, GroupText, Rest, First, BreakBefore;
      SameLines(Rest(data), k, i + 1, lineBreak);
    }
  }

  function Groups(size: nat): nat { (size + 2) / 3 }

  /** The size that is announced for the text of `size` bytes and its terminator. For no bytes
      the unsigned count of groups, less one, wraps around before it is divided. */
  function EncodeMaxOutput(size: nat, lineBreak: string): nat
  {
    if size > 0 then
      1 + Groups(size) * 4 + |lineBreak| * (1 + (Groups(size) - 1) / GROUPS_PER_LINE)
    else
      (1 + |lineBreak| * (1 + 0xFFFF_FFFF_FFFF_FFFF / GROUPS_PER_LINE)) % 0x1_0000_0000
  }

  /** How many of the groups from `k` on start a new line. */
  function Breaks(k: nat, groups: nat): nat
    decreases groups
  {
    if groups == 0 then 0 else (if k > 0 && k % GROUPS_PER_LINE == 0 then 1 else 0) + Breaks(k + 1, groups - 1)
  }

  lemma {:induction false} BreaksCount(k: nat, groups: nat)
    ensures k > 0 ==> Breaks(k, groups) == (k + groups - 1) / GROUPS_PER_LINE - (k - 1) / GROUPS_PER_LINE
    ensures k == 0 && groups > 0 ==> Breaks(0, groups) == (groups - 1) / GROUPS_PER_LINE
    decreases groups
  {
    if groups > 0 {
      BreaksCount(k + 1, groups - 1);
    }
  }

  lemma {:induction false} GroupsStep(data: seq<Byte>)
    requires data != []
    ensures Groups(|data|) == Groups(|Rest(data)|) + 1
  {}

  lemma {:induction false} Distribute(l: int, a: int, b: int)
    ensures l * (a + b) == l * a + l * b
  {}

  /** The characters that line breaks take from group `k` on. */
  lemma {:induction false} BreakLength(k: nat, groups: nat, lineBreak: string)
    ensures |lineBreak| * Breaks(k, groups + 1) == |BreakBefore(k, lineBreak)| + |lineBreak| * Breaks(k + 1, groups)
  {
    var more := Breaks(k + 1, groups);
    if k > 0 && k % GROUPS_PER_LINE == 0 {
      assert Breaks(k, groups + 1) == 1 + more;
      Distribute(|lineBreak|, 1, more);
    } else {
      assert Breaks(k, groups + 1) == more;
    }
  }

  lemma {:induction false} TextLength(data: seq<Byte>, k: nat, lineBreak: string)
    ensures |TextFrom(data, k, lineBreak)| == 4 * Groups(|data|) + |lineBreak| * Breaks(k, Groups(|data|))
    decreases |data|
  {
    if data != [] {
      TextLength(Rest(data), k + 1, lineBreak);
      GroupsStep(data);
      BreakLength(k, Groups(|Rest(data)|), lineBreak);
      hide Groups, BreakBefore, Breaks, Rest, First, GroupText;
    } else {
      NoBreaks(k, |lineBreak|);
    }
  }

  lemma {:induction false} NoBreaks(k: nat, l: nat)
    ensures Groups(0) == 0 && l * Breaks(k, 0) == 0
  {}

  /** The text fills a buffer of the announced size exactly. */
  lemma {:induction false} EncodedLength(data: seq<Byte>, lineBreak: string)
    requires data != []
    ensures |Encoded(data, lineBreak)| + 1 == EncodeMaxOutput(|data|, lineBreak)
  {
    TextLength(data, 0, lineBreak);
    BreaksCount(0, Groups(|data|));
    Distribute(|lineBreak|, 1, (Groups(|data|) - 1) / GROUPS_PER_LINE);
  }

  /** Without data, the announced size is wrong for every line break of ordinary length. */
  lemma {:induction false} EmptyLength(lineBreak: string)
    requires |lineBreak| < 0xFFFF_FFFF
    ensures |Encoded([], lineBreak)| + 1 == EncodeMaxOutput(0, lineBreak) <==> |lineBreak| % 0x2000_0000 == 0
  {
    var l := |lineBreak|;
    assert Encoded([], lineBreak) == lineBreak;
    assert 0xFFFF_FFFF_FFFF_FFFF / GROUPS_PER_LINE == 1024819115206086200;
    var big := l * 1024819115206086200;
    assert 1 + l * (1 + 1024819115206086200) == 1 + l + big;
    assert 1024819115206086200 == 238609294 * 0x1_0000_0000 + 8 * 119304647;
    var low := l * 119304647;
    assert big == l * 238609294 * 0x1_0000_0000 + low * 8;
    SameModulo(1 + l, big);
    DropMultiple(low * 8, l * 238609294);
    DivisibleByEight(low);
    OddFactor(l);
  }

  lemma {:induction false} SameModulo(a: nat, b: nat)
    requires a < 0x1_0000_0000
    ensures (a + b) % 0x1_0000_0000 == a <==> b % 0x1_0000_0000 == 0
  {}

  lemma {:induction false} DropMultiple(a: nat, q: nat)
    ensures (q * 0x1_0000_0000 + a) % 0x1_0000_0000 == a % 0x1_0000_0000
  {}

  lemma {:induction false} DivisibleByEight(a: nat)
    ensures a * 8 % 0x1_0000_0000 == 0 <==> a % 0x2000_0000 == 0
  {}

  lemma {:induction false} OddFactor(l: nat)
    ensures l * 119304647 % 0x2000_0000 == 0 <==> l % 0x2000_0000 == 0
  {
    if l % 0x2000_0000 == 0 {
      MultipleOf(l / 0x2000_0000 * 119304647);
    }
    if l * 119304647 % 0x2000_0000 == 0 {
      Inverse(l, l * 119304647 / 0x2000_0000);
    }
  }

  lemma {:induction false} MultipleOf(q: int)
    ensures q * 0x2000_0000 % 0x2000_0000 == 0
  {}

  /** The odd factor has an inverse modulo 2^29. */
  lemma {:induction false} Inverse(l: nat, q: nat)
    requires l * 119304647 == q * 0x2000_0000
    ensures l % 0x2000_0000 == 0
  {
    var z := q * 536870903 - l * 119304645;
    assert l == z * 0x2000_0000;
    MultipleOf(z);
  }

  // --- Reading the text -----------------------------------------------------------------

  predicate IsBlank(c: char) { c == '\r' || c == '\n' || c == '\t' || c == ' ' }

  /** Characters that decoding passes over. */
  predicate Skipped(c: char, lenient: bool)
  {
    c != NUL && Value(c) == -1 && (lenient || IsBlank(c))
  }

  predicate IsEnd(c: char) { c == NUL || c == '=' }

  datatype Scan = Scan(sextets: seq<Sextet>, ok: bool)

  /** The sextets of a text up to its end or padding; not ok when a character is invalid. */
  function ScanText(text: string, lenient: bool): Scan
  {
    if text == [] || IsEnd(text[0]) then Scan([], true)
    else if Value(text[0]) >= 0 then
      var rest := ScanText(text[1..], lenient);
      Scan([Value(text[0])] + rest.sextets, rest.ok)
    else if Skipped(text[0], lenient) then ScanText(text[1..], lenient)
    else Scan([], false)
  }

  /** Where the data ends: at the first terminator or padding, or at the end of the text. */
  function EndOf(text: string): (end: nat)
    ensures end <= |text|
    ensures forall i :: 0 <= i < end ==> text[i] != '\0' && text[i] != '='
    ensures end < |text| ==> text[end] == '\0' || text[end] == '='
  {
    if text == "" || text[0] == '\0' || text[0] == '=' then 0 else EndOf(text[1..]) + 1
  }

  /** The characters of the alphabet, in order. */
  function LettersOf(text: string): string
  {
    if text == "" then "" else (if InAlphabet(text[0]) then [text[0]] else "") + LettersOf(text[1..])
  }

  function Spelled(s: seq<Sextet>): string { if s == [] then "" else [Letter(s[0])] + Spelled(s[1..]) }

  /** The scan succeeds if and only if every character before the end is in the alphabet, or white
      space, or is to be ignored. Then the sextets spell the characters of the alphabet before it. */
  lemma {:induction false} ScanIs(text: string, lenient: bool)
    ensures ScanText(text, lenient).ok <==>
              forall i :: 0 <= i < EndOf(text) ==> InAlphabet(text[i]) || text[i] in " \t\r\n" || lenient
    ensures ScanText(text, lenient).ok ==> Spelled(ScanText(text, lenient).sextets) == LettersOf(text[..EndOf(text)])
    decreases |text|
  {
    if text != "" {
      ValueIs(text[0]);
      ScanIs(text[1..], lenient);
      hide Value, Letter, InAlphabet;
      if text[0] != '\0' && text[0] != '=' {
        var rest, end := text[1..], EndOf(text);
        assert end == EndOf(rest) + 1;
        assert text[..end][1..] == rest[..end - 1];
        assert forall i :: 0 < i < end ==> text[i] == rest[i - 1];
        assert forall i :: 0 <= i < end - 1 ==> rest[i] == text[i + 1];
      }
    }
  }

  predicate AllSkipped(text: string, lenient: bool)
  {
    forall i :: 0 <= i < |text| ==> Skipped(text[i], lenient)
  }

  lemma {:induction false} ScanSkips(blank: string, rest: string, lenient: bool)
    requires AllSkipped(blank, lenient)
    ensures ScanText(blank + rest, lenient) == ScanText(rest, lenient)
  {
    if blank == [] {
      assert blank + rest == rest;
    } else {
      ScanSkips(blank[1..], rest, lenient);
      assert (blank + rest)[1..] == blank[1..] + rest;
    }
  }

  lemma {:induction false} ScanLetter(v: Sextet, rest: string, lenient: bool)
    ensures ScanText([Letter(v)] + rest, lenient) ==
            Scan([v] + ScanText(rest, lenient).sextets, ScanText(rest, lenient).ok)
  {
    ValueOfLetter(v);
    var text := [Letter(v)] + rest;
    assert text[1..] == rest;
  }

  lemma {:induction false} ScanPadding(rest: string, lenient: bool)
    ensures ScanText(['='] + rest, lenient) == Scan([], true)
  {}

  lemma {:induction false} ScanGroup(data: seq<Byte>, rest: string, lenient: bool)
    requires 1 <= |data| <= 3
    ensures |data| < 3 ==> ScanText(GroupText(data) + rest, lenient) == Scan(Sextets(data), true)
    ensures |data| == 3 ==> ScanText(GroupText(data) + rest, lenient) ==
                            Scan(Sextets(data) + ScanText(rest, lenient).sextets, ScanText(rest, lenient).ok)
  {
    if |data| == 3 {
      ScanGroupOfThree(data, rest, lenient);
    } else if |data| == 2 {
      ScanGroupOfTwo(data, rest, lenient);
    } else {
      ScanGroupOfOne(data, rest, lenient);
    }
  }

  lemma {:induction false} ScanGroupOfThree(data: seq<Byte>, rest: string, lenient: bool)
    requires |data| == 3
    ensures ScanText(GroupText(data) + rest, lenient) ==
            Scan(Sextets(data) + ScanText(rest, lenient).sextets, ScanText(rest, lenient).ok)
  {
    var s := Sextets(data);
    ThreeByteSextets(data);
    hide Sextets, ScanText, Letter;
    var a, b, c, d := s[0], s[1], s[2], s[3];
    assert s == [a, b, c, d];
    ScanFour(a, b, c, d, rest, lenient);
  }

  lemma {:induction false} ScanGroupOfTwo(data: seq<Byte>, rest: string, lenient: bool)
    requires |data| == 2
    ensures ScanText(GroupText(data) + rest, lenient) == Scan(Sextets(data), true)
  {
    var s := Sextets(data);
    ShortSextets(data);
    hide Sextets, ScanText, Letter;
    var a, b, c := s[0], s[1], s[2];
    assert s == [a, b, c] + [];
    ScanPadding(rest, lenient);
    ScanThree(a, b, c, ['='] + rest, lenient);
    assert GroupText(data) + rest == [Letter(a), Letter(b), Letter(c)] + (['='] + rest);
  }

  lemma {:induction false} ScanGroupOfOne(data: seq<Byte>, rest: string, lenient: bool)
    requires |data| == 1
    ensures ScanText(GroupText(data) + rest, lenient) == Scan(Sextets(data), true)
  {
    var s := Sextets(data);
    ShortSextets(data);
    hide Sextets, ScanText, Letter;
    var a, b := s[0], s[1];
    assert s == [a, b] + [];
    ScanPadding("=" + rest, lenient);
    assert "==" + rest == ['='] + ("=" + rest);
    ScanTwo(a, b, "==" + rest, lenient);
    OneByteText(data, "==" + rest, rest);
  }

  lemma {:induction false} OneByteText(data: seq<Byte>, tail: string, rest: string)
    requires |data| == 1 && tail == "==" + rest
    ensures |Sextets(data)| == 2
    ensures GroupText(data) + rest == [Letter(Sextets(data)[0]), Letter(Sextets(data)[1])] + tail
  {
    ShortSextets(data);
    hide Sextets, Letter;
  }

  lemma {:induction false} ScanTwo(a: Sextet, b: Sextet, rest: string, lenient: bool)
    ensures var scan := ScanText(rest, lenient);
            ScanText([Letter(a), Letter(b)] + rest, lenient) == Scan([a, b] + scan.sextets, scan.ok)
  {
    hide Letter, Value, ScanText;
    ScanLetter(b, rest, lenient);
    ScanLetter(a, [Letter(b)] + rest, lenient);
    assert [Letter(a), Letter(b)] + rest == [Letter(a)] + ([Letter(b)] + rest);
  }

  lemma {:induction false} ScanThree(a: Sextet, b: Sextet, c: Sextet, rest: string, lenient: bool)
    ensures var scan := ScanText(rest, lenient);
            ScanText([Letter(a), Letter(b), Letter(c)] + rest, lenient) == Scan([a, b, c] + scan.sextets, scan.ok)
  {
    hide Letter, Value, ScanText;
    ScanLetter(c, rest, lenient);
    ScanTwo(a, b, [Letter(c)] + rest, lenient);
    assert [Letter(a), Letter(b), Letter(c)] + rest == [Letter(a), Letter(b)] + ([Letter(c)] + rest);
  }

  lemma {:induction false} ScanFour(a: Sextet, b: Sextet, c: Sextet, d: Sextet, rest: string, lenient: bool)
    ensures var scan := ScanText(rest, lenient);
            ScanText([Letter(a), Letter(b), Letter(c), Letter(d)] + rest, lenient) == Scan([a, b, c, d] + scan.sextets, scan.ok)
  {
    hide Letter, Value, ScanText;
    ScanTwo(c, d, rest, lenient);
    ScanTwo(a, b, [Letter(c), Letter(d)] + rest, lenient);
    assert [Letter(a), Letter(b), Letter(c), Letter(d)] + rest == [Letter(a), Letter(b)] + ([Letter(c), Letter(d)] + rest);
  }

  lemma {:induction false} ThreeByteSextets(data: seq<Byte>)
    requires |data| == 3
    ensures |Sextets(data)| == 4
  {
    assert data[3..] == [];
  }

  lemma {:induction false} ShortSextets(data: seq<Byte>)
    requires 1 <= |data| <= 2
    ensures |Sextets(data)| == |data| + 1
  {}

  lemma {:induction false} TextUnfolds(data: seq<Byte>, k: nat, lineBreak: string, tail: string)
    requires data != []
    ensures TextFrom(data, k, lineBreak) + tail ==
            BreakBefore(k, lineBreak) + (GroupText(First(data)) + (TextFrom(Rest(data), k + 1, lineBreak) + tail))
  {
    hide GroupText, First, Rest, BreakBefore;
  }

  lemma {:induction false} BreakSkipped(k: nat, lineBreak: string, lenient: bool)
    requires AllSkipped(lineBreak, lenient)
    ensures AllSkipped(BreakBefore(k, lineBreak), lenient)
  {
    hide Skipped;
  }

  lemma {:induction false} ScanEncoded(data: seq<Byte>, k: nat, lineBreak: string, tail: string, lenient: bool)
    requires AllSkipped(lineBreak, lenient) && ScanText(tail, lenient) == Scan([], true)
    ensures ScanText(TextFrom(data, k, lineBreak) + tail, lenient) == Scan(Sextets(data), true)
    decreases |data|
  {
    if data == [] {
      TextEmpty(k, lineBreak);
      assert [] + tail == tail;
    } else {
      hide TextFrom, GroupText, ScanText, Sextets, Skipped, AllSkipped, BreakBefore;
      var g, more := GroupText(First(data)), TextFrom(Rest(data), k + 1, lineBreak) + tail;
      TextUnfolds(data, k, lineBreak, tail);
      BreakSkipped(k, lineBreak, lenient);
      ScanSkips(BreakBefore(k, lineBreak), g + more, lenient);
      ScanGroup(First(data), more, lenient);
      if |data| >= 3 {
        ScanEncoded(Rest(data), k + 1, lineBreak, tail, lenient);
        SplitSextets(data);
      }
    }
  }

  lemma {:induction false} SplitSextets(data: seq<Byte>)
    requires |data| >= 3
    ensures Sextets(data) == Sextets(data[..3]) + Sextets(data[3..])
  {
    assert data[..3][3..] == [];
  }

  /** Decoding an encoded text gives the bytes back, with any line break the decoder skips and
      whatever follows the terminator. */
  lemma {:induction false} RoundTrip(data: seq<Byte>, lineBreak: string, after: string, lenient: bool)
    requires AllSkipped(lineBreak, lenient)
    ensures var scan := ScanText(Encoded(data, lineBreak) + [NUL] + after, lenient);
            scan.ok && Bytes(scan.sextets) == data
    ensures var scan := ScanText(Encoded(data, lineBreak), lenient);
            scan.ok && Bytes(scan.sextets) == data
  {
    BytesOfSextets(data);
    var t := TextFrom(data, 0, lineBreak);
    assert ScanText([NUL] + after, lenient) == ScanText("", lenient) == Scan([], true);
    hide ScanText, Bytes, Sextets, TextFrom, Skipped;
    ScanSkips(lineBreak, [NUL] + after, lenient);
    ScanEncoded(data, 0, lineBreak, lineBreak + ([NUL] + after), lenient);
    assert Encoded(data, lineBreak) + [NUL] + after == t + (lineBreak + ([NUL] + after));
    ScanSkips(lineBreak, "", lenient);
    assert lineBreak + "" == lineBreak;
    ScanEncoded(data, 0, lineBreak, lineBreak, lenient);
  }

  // --- Encoding into a buffer -----------------------------------------------------------

  /** Copies `text` into the buffer at `pos`. */
  method Put(out: array<char>, pos: nat, text: string)
    requires pos + |text| <= out.Length
    modifies out
    ensures out[..pos + |text|] == old(out[..pos]) + text
    ensures forall i :: pos + |text| <= i < out.Length ==> out[i] == old(out[i])
  {
    for i := 0 to |text|
      invariant forall j :: 0 <= j < out.Length ==>
                  out[j] == if pos <= j < pos + i then text[j - pos] else old(out[j])
    {
      out[pos + i] := text[i];
    }
  }

  lemma {:induction false} BreakCounter(k: nat)
    requires k > 0
    ensures k % GROUPS_PER_LINE == 0 <==> GROUPS_PER_LINE - 1 - (k - 1) % GROUPS_PER_LINE == 0
    ensures k % GROUPS_PER_LINE == 0 ==> k % GROUPS_PER_LINE == 0 && (k + 1 - 1) % GROUPS_PER_LINE == 0
    ensures k % GROUPS_PER_LINE != 0 ==> k % GROUPS_PER_LINE == (k - 1) % GROUPS_PER_LINE + 1
  {}

  /** What the break counter holds before group `k`. */
  function Countdown(k: nat): int
  {
    if k == 0 then GROUPS_PER_LINE else GROUPS_PER_LINE - 1 - (k - 1) % GROUPS_PER_LINE
  }

  lemma {:induction false} CountdownStep(k: nat)
    ensures Countdown(k) == 0 <==> k > 0 && k % GROUPS_PER_LINE == 0
    ensures Countdown(k + 1) == (if Countdown(k) == 0 then GROUPS_PER_LINE else Countdown(k)) - 1
  {
    if k > 0 {
      BreakCounter(k);
    }
  }

  lemma {:induction false} TextStep(data: seq<Byte>, i: nat, m: nat, k: nat, lineBreak: string)
    requires i < |data| && m == if |data| - i >= 3 then 3 else |data| - i
    ensures TextFrom(data[i..], k, lineBreak) ==
            (BreakBefore(k, lineBreak) + GroupText(data[i..i + m])) + TextFrom(data[i + m..], k + 1, lineBreak)
  {
    var d := data[i..];
    assert First(d) == data[i..i + m];
    assert Rest(d) == data[i + m..];
  }

  lemma {:induction false} TextEmpty(k: nat, lineBreak: string)
    ensures TextFrom([], k, lineBreak) == ""
  {}

  lemma {:induction false} BreakBeforeIs(k: nat, lineBreak: string)
    ensures BreakBefore(k, lineBreak) == if Countdown(k) == 0 then lineBreak else ""
    ensures lineBreak == "" ==> BreakBefore(k, lineBreak) == ""
  {
    CountdownStep(k);
  }

  /** The characters of one group, computed from its 24 bits. */
  method GroupChars(group: seq<Byte>) returns (t: string)
    requires 1 <= |group| <= 3
    ensures t == GroupText(group)
  {
    hide Letter, Part, Word, Sextets;
    SextetsOfGroup(group);
    if |group| == 3 {
      var w := Word(group[0], group[1], group[2]);
      t := [Letter(Part(w, 0x4_0000)), Letter(Part(w, 0x1000)), Letter(Part(w, 0x40)), Letter(Part(w, 1))];
    } else {
      var w := Word(group[0], if |group| > 1 then group[1] else 0, 0);
      t := [Letter(Part(w, 0x4_0000)), Letter(Part(w, 0x1000)), if |group| > 1 then Letter(Part(w, 0x40)) else '=', '='];
    }
  }

  lemma {:induction false} SextetsOfGroup(group: seq<Byte>)
    requires 1 <= |group| <= 3
    ensures var w := Word(group[0], if |group| > 1 then group[1] else 0, if |group| > 2 then group[2] else 0);
            && |Sextets(group)| == |group| + 1
            && Sextets(group)[0] == Part(w, 0x4_0000) && Sextets(group)[1] == Part(w, 0x1000)
            && (|group| > 1 ==> Sextets(group)[2] == Part(w, 0x40))
            && (|group| > 2 ==> Sextets(group)[3] == Part(w, 1))
  {
    hide Part, Word;
    if |group| == 3 {
      ThreeByteSextets(group);
    }
  }

  /** Writes the line break before group `k` if one is due, and the group. */
  method PutGroup(out: array<char>, pos: nat, room: nat, group: seq<Byte>, ghost k: nat, nextBreak: int,
                  lineBreak: string)
    returns (pos': nat, room': nat, nextBreak': int)
    requires 1 <= |group| <= 3 && room >= 4 + |lineBreak| && pos + room <= out.Length
    requires lineBreak != "" ==> nextBreak == Countdown(k)
    modifies out
    ensures pos' + room' == pos + room && pos' == pos + |BreakBefore(k, lineBreak)| + 4
    ensures out[..pos'] == old(out[..pos]) + (BreakBefore(k, lineBreak) + GroupText(group))
    ensures forall j :: pos' <= j < out.Length ==> out[j] == old(out[j])
    ensures lineBreak != "" ==> nextBreak' == Countdown(k + 1)
  {
    hide GroupText, Countdown, BreakBefore;
    CountdownStep(k);
    BreakBeforeIs(k, lineBreak);
    pos', room', nextBreak' := pos, room, nextBreak;
    if nextBreak' == 0 {
      Put(out, pos', lineBreak);
      pos', room', nextBreak' := pos' + |lineBreak|, room' - |lineBreak|, GROUPS_PER_LINE;
    }
    var t := GroupChars(group);
    Put(out, pos', t);
    pos', room', nextBreak' := pos' + 4, room' - 4, nextBreak' - 1;
  }

  /** How far the text has been written, and what is left of it. */
  ghost predicate Written(sofar: string, data: seq<Byte>, i: nat, k: nat, lineBreak: string, all: seq<Byte>)
    requires i <= |data|
  {
    sofar + (TextFrom(data[i..], k, lineBreak) + lineBreak) == Encoded(all, lineBreak)
  }

  lemma {:induction false} WrittenMore(sofar: string, data: seq<Byte>, i: nat, m: nat, k: nat, lineBreak: string,
                                       all: seq<Byte>)
    requires i < |data| && m == (if |data| - i >= 3 then 3 else |data| - i) && Written(sofar, data, i, k, lineBreak, all)
    ensures Written(sofar + (BreakBefore(k, lineBreak) + GroupText(data[i..i + m])), data, i + m, k + 1, lineBreak, all)
    ensures |Encoded(all, lineBreak)| >= |sofar| + 4 + |lineBreak|
  {
    hide TextFrom, GroupText, BreakBefore, Encoded;
    TextStep(data, i, m, k, lineBreak);
    Shift(sofar, BreakBefore(k, lineBreak) + GroupText(data[i..i + m]), TextFrom(data[i + m..], k + 1, lineBreak), lineBreak);
  }

  /** Writes all groups with the line breaks between them from `at` on, as long as there is room
      for each and a line break. */
  method PutGroups(data: seq<Byte>, out: array<char>, at: nat, size: nat, lineBreak: string)
    returns (fits: bool, pos: nat, room: nat)
    requires 0 < size && at + size <= out.Length
    modifies out
    ensures at <= pos && pos + room == at + size - 1
    ensures !fits ==> size <= |Encoded(data, lineBreak)|
    ensures fits ==> out[at..pos] + lineBreak == Encoded(data, lineBreak)
    ensures forall j :: 0 <= j < at || pos <= j < out.Length ==> out[j] == old(out[j])
  {
    hide TextFrom, GroupText, Countdown, BreakBefore, Encoded, Written;
    var l := |lineBreak|;
    var nextBreak := if l > 0 then GROUPS_PER_LINE else INT_MAX;
    var i: nat := 0;
    pos, room := at, size - 1;
    ghost var k: nat := 0;
    ghost var before, sofar: string := out[..at], [];
    CountdownStart();
    WrittenStart(data, lineBreak);
    while |data| - i >= 3
      invariant at <= pos && pos + room == at + size - 1 && i <= |data|
      invariant out[..pos] == before + sofar
      invariant Written(sofar, data, i, k, lineBreak, data)
      invariant l > 0 ==> nextBreak == Countdown(k)
      invariant forall j :: pos <= j < out.Length ==> out[j] == old(out[j])
      decreases |data| - i
    {
      WrittenMore(sofar, data, i, 3, k, lineBreak, data);
      if room < 4 + l {
        OutBefore(out[..pos], before, sofar, at);
        return false, pos, room;
      }
      Associate(before, sofar, BreakBefore(k, lineBreak) + GroupText(data[i..i + 3]));
      sofar := sofar + (BreakBefore(k, lineBreak) + GroupText(data[i..i + 3]));
      pos, room, nextBreak := PutGroup(out, pos, room, data[i..i + 3], k, nextBreak, lineBreak);
      i := i + 3;
      k := k + 1;
    }
    if i != |data| {
      WrittenMore(sofar, data, i, |data| - i, k, lineBreak, data);
      if room < 4 + l {
        OutBefore(out[..pos], before, sofar, at);
        return false, pos, room;
      }
      Associate(before, sofar, BreakBefore(k, lineBreak) + GroupText(data[i..|data|]));
      sofar := sofar + (BreakBefore(k, lineBreak) + GroupText(data[i..|data|]));
      pos, room, nextBreak := PutGroup(out, pos, room, data[i..|data|], k, nextBreak, lineBreak);
      k := k + 1;
    }
    OutBefore(out[..pos], before, sofar, at);
    assert out[at..pos] == out[..pos][at..];
    WrittenAll(sofar, data, k, lineBreak);
    return true, pos, room;
  }

  lemma {:induction false} Associate(a: string, b: string, c: string)
    ensures (a + b) + c == a + (b + c)
  {}

  lemma {:induction false} OutBefore(all: string, before: string, sofar: string, at: nat)
    requires all == before + sofar && |before| == at
    ensures all[at..] == sofar && forall j :: 0 <= j < at ==> all[j] == before[j]
  {}

  lemma {:induction false} WrittenStart(data: seq<Byte>, lineBreak: string)
    ensures Written([], data, 0, 0, lineBreak, data)
  {
    assert data[0..] == data;
    hide TextFrom;
  }

  lemma {:induction false} WrittenAll(sofar: string, data: seq<Byte>, k: nat, lineBreak: string)
    requires Written(sofar, data, |data|, k, lineBreak, data)
    ensures sofar + lineBreak == Encoded(data, lineBreak)
  {
    assert data[|data|..] == [];
    TextEmpty(k, lineBreak);
    hide TextFrom;
    assert "" + lineBreak == lineBreak;
  }

  /** Encodes into the `size` characters of the buffer that begin at `at`. Succeeds exactly when
      the text and a terminator fit; on failure the announced size is returned. Nothing outside
      these characters is written, except that one terminator is written even if there are none.
      Without a buffer only the announced size is returned. */
  method Base64Encode(data: seq<Byte>, out: array?<char>, at: nat, size: nat, lineBreak: string)
    returns (ok: bool, written: nat)
    requires if out == null then size == 0 else at + size <= out.Length && (size == 0 ==> at < out.Length)
    modifies if out != null then {out} else {}
    ensures ok <==> out == null || |Encoded(data, lineBreak)| < size
    ensures ok && out != null ==> && written == |Encoded(data, lineBreak)|
                                  && out[at..at + written] == Encoded(data, lineBreak) && out[at + written] == NUL
    ensures !ok || out == null ==> written == EncodeMaxOutput(|data|, lineBreak)
    ensures out != null ==>
              forall i :: 0 <= i < out.Length && !(at <= i < at + Max(size, 1)) ==> out[i] == old(out[i])
    ensures out != null && size == 0 ==> out[at] == NUL
    ensures ok && out != null ==> forall i :: at + written < i < out.Length ==> out[i] == old(out[i])
  {
    hide Encoded, EncodeMaxOutput;
    written := EncodeMaxOutput(|data|, lineBreak);
    if out == null {
      return true, written;
    }
    if size == 0 {
      out[at] := NUL;
      return false, written;
    }
    var fits, pos, room := PutGroups(data, out, at, size, lineBreak);
    if !fits || room < |lineBreak| {
      out[pos] := NUL;
      return false, written;
    }
    ghost var text := out[at..pos];
    Put(out, pos, lineBreak);
    pos := pos + |lineBreak|;
    assert out[at..pos] == out[..pos][at..] == text + lineBreak;
    out[pos] := NUL;
    return true, pos - at;
  }

  lemma {:induction false} Shift(a: string, b: string, c: string, d: string)
    ensures a + ((b + c) + d) == (a + b) + (c + d)
    ensures |a + ((b + c) + d)| == |a| + |b| + |c| + |d|
  {}

  lemma CountdownStart()
    ensures Countdown(0) == GROUPS_PER_LINE
  {}

  // --- Decoding into a buffer -----------------------------------------------------------

  lemma {:induction false} BytesAppend(done: seq<Sextet>, more: seq<Sextet>)
    requires |done| % 4 == 0
    ensures Bytes(done + more) == Bytes(done) + Bytes(more)
    ensures |Bytes(done)| * 4 == |done| * 3
    decreases |done|
  {
    if done == [] {
      assert done + more == more && Bytes(done) == [];
    } else {
      hide Packed, ByteAt, Triple;
      BytesAppend(done[4..], more);
      assert (done + more)[..4] == done[..4];
      assert (done + more)[4..] == done[4..] + more;
    }
  }

  /** The pending sextets, shifted up to a full group. */
  function Shifted(p: seq<Sextet>): int
  {
    if |p| == 1 then Packed(p) * 0x4_0000
    else if |p| == 2 then Packed(p) * 0x1000
    else if |p| == 3 then Packed(p) * 0x40
    else Packed(p)
  }

  lemma {:induction false} PackedRange(p: seq<Sextet>)
    requires |p| <= 4
    ensures |p| == 0 ==> Packed(p) == 1
    ensures |p| == 1 ==> 64 <= Packed(p) < 128
    ensures |p| == 2 ==> 0x1000 <= Packed(p) < 0x2000
    ensures |p| == 3 ==> 0x4_0000 <= Packed(p) < 0x8_0000
    ensures |p| == 4 ==> 0x100_0000 <= Packed(p) < 0x200_0000
  {
    if p != [] {
      PackedRange(p[..|p| - 1]);
    }
  }

  lemma {:induction false} PendingBytes(p: seq<Sextet>)
    requires 1 <= |p| <= 4
    ensures Bytes(p) == Triple(Shifted(p))[..|p| - 1]
  {
    hide Packed, ByteAt;
    if |p| == 4 {
      assert p[..4] == p && p[4..] == [];
    }
  }

  lemma {:induction false} PackedMore(p: seq<Sextet>, v: Sextet)
    ensures Packed(p + [v]) == Packed(p) * 64 + v
  {
    assert (p + [v])[..|p|] == p;
  }

  /** Writes the bytes that the last, maybe incomplete group holds. */
  method Flush(acc: int, ghost p: seq<Sextet>, out: array?<Byte>, pos: nat, capacity: nat) returns (ok: bool, n: nat)
    requires acc == Packed(p) && |p| <= 4 && pos <= capacity && (out != null ==> capacity <= out.Length)
    modifies if out != null then {out} else {}
    ensures pos <= n <= capacity && n - pos <= |Bytes(p)|
    ensures ok <==> |Bytes(p)| <= capacity - pos
    ensures ok ==> n - pos == |Bytes(p)|
    ensures out != null ==> out[..n] == old(out[..pos]) + Bytes(p)[..n - pos]
    ensures out != null ==> forall j :: n <= j < out.Length ==> out[j] == old(out[j])
  {
    PackedRange(p);
    n, ok := pos, true;
    if acc >= 64 {
      PendingBytes(p);
      hide Packed, Bytes, ByteAt;
      var writeBytes, word := 3, acc;
      while word < 0x100_0000
        invariant (writeBytes == 3 && word == acc) || (writeBytes == 2 && word == acc * 64)
               || (writeBytes == 1 && word == acc * 0x1000) || (writeBytes == 0 && word == acc * 0x4_0000)
        invariant 0 < word < 0x200_0000
        decreases writeBytes
      {
        writeBytes := writeBytes - 1;
        word := word * 64;
      }
      assert word == Shifted(p) && writeBytes == |p| - 1;
      ok, n := WriteBytes(word, writeBytes, out, pos, capacity);
    } else {
      assert p == [] && Bytes(p) == [];
    }
  }

  /** Writes the top bytes of the low 24 bits of a 32-bit word. */
  method WriteBytes(first: int, count: int, out: array?<Byte>, pos: nat, capacity: nat) returns (ok: bool, n: nat)
    requires 0 <= first < 0x1_0000_0000 && 0 <= count <= 3 && pos <= capacity && (out != null ==> capacity <= out.Length)
    modifies if out != null then {out} else {}
    ensures pos <= n <= capacity && n - pos <= count
    ensures ok <==> count <= capacity - pos
    ensures ok ==> n - pos == count
    ensures out != null ==> out[..n] == old(out[..pos]) + Triple(first)[..n - pos]
    ensures out != null ==> forall j :: n <= j < out.Length ==> out[j] == old(out[j])
  {
    hide ByteAt;
    var word, left := first, count;
    n := pos;
    ghost var bytes := Triple(first);
    while left > 0
      invariant 0 <= left <= count && n == pos + (count - left) && n <= capacity
      invariant 0 <= word && (left < count || word == first)
      invariant n == pos || word == Shl8(if n == pos + 1 then first else Shl8(first)) || n == pos + 3
      invariant n == pos + 3 ==> left == 0
      invariant out != null ==> forall j :: 0 <= j < pos ==> out[j] == old(out[j])
      invariant out != null ==> forall j :: pos <= j < n ==> out[j] == bytes[j - pos]
      invariant out != null ==> forall j :: n <= j < out.Length ==> out[j] == old(out[j])
    {
      left := left - 1;
      if n == capacity {
        return false, n;
      }
      TopByte(first);
      if out != null {
        out[n] := ByteAt(word, 0x1_0000);
      }
      n := n + 1;
      word := Shl8(word);
    }
    return true, n;
  }

  /** Shifting a 32-bit word left by 8 bits. */
  function Shl8(word: int): int { word * 256 % 0x1_0000_0000 }

  lemma {:induction false} TopByte(word: int)
    requires word >= 0
    ensures ByteAt(Shl8(word), 0x1_0000) == ByteAt(word, 0x100)
    ensures ByteAt(Shl8(Shl8(word)), 0x1_0000) == ByteAt(word, 1)
  {
    ShiftedByte(word);
    ShiftedByte(Shl8(word));
    LowBits(word);
  }

  lemma {:induction false} ShiftedByte(word: int)
    requires word >= 0
    ensures Shl8(word) / 0x1_0000 % 256 == word / 0x100 % 256
  {
    var q := word * 256 / 0x1_0000_0000;
    assert Shl8(word) == word * 256 - q * 0x1_0000_0000;
    assert Shl8(word) / 0x1_0000 == word / 256 - q * 0x1_0000;
    SameLowByte(word / 256, q);
    hide Shl8;
  }

  lemma {:induction false} SameLowByte(x: int, q: int)
    ensures (x - q * 0x1_0000) % 256 == x % 256
  {
    var a, r := x / 256, x % 256;
    assert x - q * 0x1_0000 == (a - q * 256) * 256 + r;
    LowByte(a - q * 256, r);
  }

  lemma {:induction false} LowBits(word: int)
    requires word >= 0
    ensures Shl8(word) / 0x100 % 256 == word % 256
  {
    var q := word * 256 / 0x1_0000_0000;
    assert Shl8(word) == (word - q * 0x100_0000) * 256;
    assert Shl8(word) / 0x100 == word - q * 0x100_0000;
    SameLowByte(word, q * 0x100);
    hide Shl8;
  }

  /** What the decoder has done with the text before `i`: `done` is written, `p` is pending. */
  ghost predicate Decoded(text: string, lenient: bool, i: nat, done: seq<Sextet>, p: seq<Sextet>)
    requires i <= |text|
  {
    var scan, rest := ScanText(text, lenient), ScanText(text[i..], lenient);
    && |done| % 4 == 0
    && scan.sextets == done + p + rest.sextets
    && scan.ok == rest.ok
  }

  lemma {:induction false} DecodedNext(text: string, lenient: bool, i: nat, done: seq<Sextet>, p: seq<Sextet>)
    requires i < |text| && Decoded(text, lenient, i, done, p)
    ensures IsEnd(text[i]) ==> ScanText(text, lenient) == Scan(done + p, true)
    ensures !IsEnd(text[i]) && Value(text[i]) >= 0 ==> Decoded(text, lenient, i + 1, done, p + [Value(text[i])])
    ensures !IsEnd(text[i]) && Value(text[i]) < 0 && Skipped(text[i], lenient) ==> Decoded(text, lenient, i + 1, done, p)
    ensures !IsEnd(text[i]) && Value(text[i]) < 0 && !Skipped(text[i], lenient) ==> ScanText(text, lenient) == Scan(done + p, false)
  {
    var t := text[i..];
    assert t[0] == text[i] && t[1..] == text[i + 1..];
    if !IsEnd(text[i]) && Value(text[i]) >= 0 {
      var rest := ScanText(text[i + 1..], lenient);
      assert done + p + ([Value(text[i])] + rest.sextets) == done + (p + [Value(text[i])]) + rest.sextets;
    }
  }

  lemma {:induction false} DecodedEnd(text: string, lenient: bool, done: seq<Sextet>, p: seq<Sextet>)
    requires Decoded(text, lenient, |text|, done, p)
    ensures ScanText(text, lenient) == Scan(done + p, true)
  {
    assert text[|text|..] == [];
  }

  lemma {:induction false} DecodedGroup(text: string, lenient: bool, i: nat, done: seq<Sextet>, p: seq<Sextet>)
    requires i <= |text| && Decoded(text, lenient, i, done, p) && |p| == 4
    ensures Decoded(text, lenient, i, done + p, [])
    ensures Bytes(done + p) == Bytes(done) + Triple(Packed(p))
    ensures |Bytes(done)| * 4 == |done| * 3
    ensures Bytes(done + p) <= Bytes(ScanText(text, lenient).sextets)
    ensures |Bytes(p)| == 3
  {
    var rest := ScanText(text[i..], lenient);
    FullGroup(p);
    hide ScanText, Bytes, Packed, Triple;
    assert done + p + [] + rest.sextets == done + p + rest.sextets;
    BytesAppend(done, p);
    BytesAppend(done + p, rest.sextets);
  }

  lemma {:induction false} FullGroup(p: seq<Sextet>)
    requires |p| == 4
    ensures Bytes(p) == Triple(Packed(p)) && |Bytes(p)| == 3
  {
    assert p[..4] == p && p[4..] == [];
    hide Packed, Triple;
  }

  lemma {:induction false} AssociateSextets(a: seq<Sextet>, b: seq<Sextet>, c: seq<Sextet>)
    ensures a + (b + c) == a + b + c
  {}

  lemma {:induction false} DecodedPrefix(text: string, lenient: bool, i: nat, done: seq<Sextet>, p: seq<Sextet>)
    requires i <= |text| && Decoded(text, lenient, i, done, p)
    ensures |Bytes(done)| * 4 == |done| * 3
    ensures Bytes(done) <= Bytes(ScanText(text, lenient).sextets)
  {
    var rest := ScanText(text[i..], lenient);
    hide ScanText, Bytes;
    BytesAppend(done, p + rest.sextets);
    AssociateSextets(done, p, rest.sextets);
  }

  /** Without a buffer, as many bytes are counted as 32 bits can count. */
  const UNLIMITED := 0xFFFF_FFFF

  /** Decodes text into a buffer of `size` bytes. Succeeds exactly when no character before the end
      or padding is invalid and the bytes fit; otherwise what was written is a prefix. Without a
      buffer the bytes are only counted. */
  method Base64Decode(text: string, out: array?<Byte>, size: nat, lenient: bool) returns (ok: bool, n: nat)
    requires if out == null then size == 0 else size <= out.Length
    modifies if out != null then {out} else {}
    ensures var bytes := Bytes(ScanText(text, lenient).sextets);
            var capacity := if out == null then UNLIMITED else size;
            && (ok <==> ScanText(text, lenient).ok && |bytes| <= capacity)
            && n <= |bytes| && n <= capacity && (ok ==> n == |bytes|)
            && (out != null ==> out[..n] == bytes[..n])
    ensures out != null ==> forall j :: n <= j < out.Length ==> out[j] == old(out[j])
  {
    hide Bytes, Packed, ScanText, Decoded, Value, ByteAt, IsEnd, Skipped, Triple;
    var capacity := if out == null then UNLIMITED else size;
    var i: nat := 0;
    var acc := 1;
    ghost var done: seq<Sextet>, p: seq<Sextet> := [], [];
    n := 0;
    DecodedStart(text, lenient);
    while i < |text|
      invariant i <= |text| && |p| <= 3 && acc == Packed(p)
      invariant Decoded(text, lenient, i, done, p)
      invariant n == |Bytes(done)| <= capacity && (out != null ==> out[..n] == Bytes(done))
      invariant out != null ==> forall j :: n <= j < out.Length ==> out[j] == old(out[j])
      decreases |text| - i
    {
      DecodedNext(text, lenient, i, done, p);
      DecodedPrefix(text, lenient, i, done, p);
      var c := text[i];
      if IsEnd(c) {
        break;
      }
      var v := Value(c);
      i := i + 1;
      if v < 0 {
        if !Skipped(c, lenient) {
          return false, n;
        }
        continue;
      }
      ValueRange(c);
      PackedMore(p, v);
      acc := acc * 64 + v;
      p := p + [v];
      PackedRange(p);
      if acc >= 0x100_0000 {
        if capacity - n < 3 {
          break;
        }
        DecodedGroup(text, lenient, i, done, p);
        if out != null {
          Put3(out, n, acc);
        }
        n := n + 3;
        acc := 1;
        done, p := done + p, [];
        PackedRange(p);
      }
    }
    DecodedDone(text, lenient, i, done, p, capacity - n);
    ok, n := Flush(acc, p, out, n, capacity);
  }

  method Put3(out: array<Byte>, pos: nat, word: int)
    requires pos + 3 <= out.Length
    modifies out
    ensures out[..pos + 3] == old(out[..pos]) + Triple(word)
    ensures forall j :: pos + 3 <= j < out.Length ==> out[j] == old(out[j])
  {
    hide ByteAt;
    out[pos] := ByteAt(word, 0x1_0000);
    out[pos + 1] := ByteAt(word, 0x100);
    out[pos + 2] := ByteAt(word, 1);
  }

  lemma DecodedStart(text: string, lenient: bool)
    ensures Decoded(text, lenient, 0, [], []) && Bytes([]) == [] && Packed([]) == 1
  {
    assert text[0..] == text;
  }

  lemma ValueRange(c: char)
    ensures Value(c) < 64
  {}

  /** How the loop can end: at the end of the text, or with a full group that does not fit. */
  lemma {:induction false} DecodedDone(text: string, lenient: bool, i: nat, done: seq<Sextet>, p: seq<Sextet>,
                                       room: int)
    requires i <= |text| && Decoded(text, lenient, i, done, p) && |p| <= 4
    requires i == |text| || IsEnd(text[i]) || (|p| == 4 && room < 3)
    ensures var scan := ScanText(text, lenient);
            && |Bytes(done)| + |Bytes(p)| <= |Bytes(scan.sextets)|
            && Bytes(done) + Bytes(p) <= Bytes(scan.sextets)
            && (|Bytes(p)| <= room ==> scan == Scan(done + p, true) && Bytes(scan.sextets) == Bytes(done) + Bytes(p))
            && (scan.ok && |Bytes(scan.sextets)| <= |Bytes(done)| + room ==> |Bytes(p)| <= room)
  {
    hide Bytes, ScanText;
    DecodedPrefix(text, lenient, i, done, p);
    BytesAppend(done, p);
    if |p| == 4 {
      DecodedGroup(text, lenient, i, done, p);
    }
    if i == |text| {
      DecodedEnd(text, lenient, done, p);
    } else if IsEnd(text[i]) {
      DecodedNext(text, lenient, i, done, p);
    }
  }
}
