/** Network identities as text of the form type:data. */
module Identity {
  import opened Base64
  import opened Basics
  import opened Pem

  const U64 := 0x1_0000_0000_0000_0000
  const SIZE_OF_DATA := 128
  const MAX_STRING := 128
  const MAX_GENERIC_STRING := 32
  const MAX_XBOX_ID := 33
  const MAX_GENERIC_BYTES := 32
  const MAX_PREFIX := 16

  datatype Identity =
    | Invalid
    | SteamID(steamID: int)
    | XboxPairwiseID(xbox: string)
    | SonyPSN(psn: int)
    | IPv4Address(ip: seq<Byte>, port: int)
    | GenericString(text: string)
    | GenericBytes(bytes: seq<Byte>)
    | UnknownType(raw: string)
  {
    /** The values that the fields of an identity can have. */
    predicate Representable()
    {
      match this
      case Invalid => true
      case SteamID(id) => 0 <= id < U64
      case SonyPSN(id) => 0 <= id < U64
      case XboxPairwiseID(s) => |s| < MAX_XBOX_ID && NUL !in s
      case IPv4Address(ip, port) => |ip| == 4 && 0 <= port < 0x1_0000
      case GenericString(s) => |s| < MAX_GENERIC_STRING && NUL !in s
      case GenericBytes(b) => |b| <= MAX_GENERIC_BYTES
      case UnknownType(s) => |s| < MAX_STRING && NUL !in s
    }

    /** The identities whose text is read back as the same identity. */
    predicate Readable()
      requires Representable()
    {
      match this
      case Invalid => false
      case SteamID(id) => ValidSteamID(id)
      case XboxPairwiseID(s) => s != ""
      case GenericBytes(b) => b != []
      case UnknownType(s) => UnknownPrefix(s)
      case _ => true
    }
  }

  /** Account type, universe, account and instance fit together. */
  predicate ValidSteamID(id: int)
    requires 0 <= id < U64
  {
    var account, instance := id % 0x1_0000_0000, id / 0x1_0000_0000 % 0x10_0000;
    var kind, universe := id / 0x10_0000_0000_0000 % 16, id / 0x100_0000_0000_0000;
    && 0 < kind < 11 && 0 < universe < 5
    && (kind == 1 ==> account != 0 && instance == 1)
    && (kind == 7 ==> account != 0 && instance == 0)
    && (kind == 3 ==> account != 0)
  }

  /** From the most significant bits: 8 of universe, 4 of type, 20 of instance, 32 of account. Types are
      1 to 10, universes 1 to 4. Individuals have account and instance 1, clans an account and no
      instance, game servers an account. */
  lemma {:induction false} SteamIDIff(account: int, instance: int, kind: int, universe: int)
    requires 0 <= account < 0x1_0000_0000 && 0 <= instance < 0x10_0000 && 0 <= kind < 16 && 0 <= universe < 256
    ensures var id := ((universe * 16 + kind) * 0x10_0000 + instance) * 0x1_0000_0000 + account;
            && 0 <= id < 0x1_0000_0000_0000_0000
            && (ValidSteamID(id) <==>
                  && 1 <= kind <= 10 && 1 <= universe <= 4
                  && (kind == 1 ==> account != 0 && instance == 1)
                  && (kind == 7 ==> account != 0 && instance == 0)
                  && (kind == 3 ==> account != 0))
  {
    var c := universe * 16 + kind;
    var b := c * 0x10_0000 + instance;
    var id := b * 0x1_0000_0000 + account;
    assert id / 0x1_0000_0000 == b && b / 0x10_0000 == c && c / 16 == universe;
    assert id / 0x10_0000_0000_0000 == b / 0x10_0000 && id / 0x100_0000_0000_0000 == c / 16;
  }

  predicate InPrefix(c: char) { 'a' <= c <= 'z' || '0' <= c <= '9' || c == '_' }

  predicate KnownPrefix(s: string)
  {
    "steamid:" <= s || "xboxpwid:" <= s || "psn:" <= s || "ip:" <= s || "str:" <= s || "gen:" <= s
  }

  /** A short prefix of lower-case letters, digits and underscores, and a colon. */
  predicate LooksLikePrefix(s: string)
  {
    var n := SkipWhile(s, 0, InPrefix);
    1 <= n <= MAX_PREFIX && n < |s| && s[n] == ':'
  }

  predicate UnknownPrefix(s: string) { !KnownPrefix(s) && LooksLikePrefix(s) }

  // --- Printing -------------------------------------------------------------------------

  function Digit(d: int): char
    requires 0 <= d < 10
  {
    '0' + d as char
  }

  function Decimal(n: nat): (s: string)
    ensures |s| > 0
  {
    if n < 10 then [Digit(n)] else Decimal(n / 10) + [Digit(n % 10)]
  }

  function HexDigit(d: int): char
    requires 0 <= d < 16
  {
    if d < 10 then '0' + d as char else 'a' + (d - 10) as char
  }

  function Hex(b: seq<Byte>): (s: string)
    ensures |s| == 2 * |b|
  {
    if b == [] then "" else [HexDigit(b[0] / 16), HexDigit(b[0] % 16)] + Hex(b[1..])
  }

  function Dotted(ip: seq<Byte>): string
    requires |ip| == 4
  {
    Decimal(ip[0]) + "." + Decimal(ip[1]) + "." + Decimal(ip[2]) + "." + Decimal(ip[3])
  }

  function ToText(id: Identity): string
    requires id.Representable()
  {
    match id
    case Invalid => "invalid"
    case SteamID(n) => "steamid:" + Decimal(n)
    case XboxPairwiseID(s) => "xboxpwid:" + s
    case SonyPSN(n) => "psn:" + Decimal(n)
    case IPv4Address(ip, port) => "ip:" + Dotted(ip) + (if port != 0 then ":" + Decimal(port) else "")
    case GenericString(s) => "str:" + s
    case GenericBytes(b) => "gen:" + Hex(b)
    case UnknownType(s) => s
  }

  // --- Scanning -------------------------------------------------------------------------

  predicate IsDigit(c: char) { '0' <= c <= '9' }

  /** What the C library makes of text that does not begin with a plain number in range. */
  datatype Library = Library(unsigned: string -> Option<int>, signed: string -> Option<Scanned>, hex: string -> Option<int>)
  {
    ghost predicate Sane()
    {
      && (forall s :: unsigned(s).Some? ==> 0 <= unsigned(s).value < U64)
      && (forall s :: hex(s).Some? ==> 0 <= hex(s).value < 0x1_0000_0000)
    }
  }

  datatype Scanned = Scanned(n: int, rest: string)

  function DigitsValue(s: string): nat
    requires Accepts(IsDigit, s)
  {
    if s == "" then 0 else DigitsValue(s[..|s| - 1]) * 10 + (s[|s| - 1] as int - '0' as int)
  }

  /** The digits that the text begins with. */
  function Digits(s: string): (d: string)
    ensures Accepts(IsDigit, d) && d <= s
  {
    s[..SkipWhile(s, 0, IsDigit)]
  }

  function ScanUnsigned(s: string, lib: Library): Option<int>
  {
    if Digits(s) != "" && DigitsValue(Digits(s)) < U64 then Some(DigitsValue(Digits(s))) else lib.unsigned(s)
  }

  function ScanInt(s: string, lib: Library): Option<Scanned>
  {
    if Digits(s) != "" && DigitsValue(Digits(s)) < 0x8000_0000 then Some(Scanned(DigitsValue(Digits(s)), s[|Digits(s)|..]))
    else lib.signed(s)
  }

  /** Numbers separated by the characters of `marks`, as many as there are. */
  function ScanInts(s: string, marks: string, lib: Library): seq<int>
    decreases |marks|
  {
    match ScanInt(s, lib)
    case None => []
    case Some(r) =>
      [r.n] + if marks != "" && r.rest != "" && r.rest[0] == marks[0] then ScanInts(r.rest[1..], marks[1..], lib) else []
  }

  function HexValue(c: char): int
  {
    if '0' <= c <= '9' then c as int - '0' as int
    else if 'a' <= c <= 'f' then c as int - 'a' as int + 10
    else if 'A' <= c <= 'F' then c as int - 'A' as int + 10
    else -1
  }

  function ScanHexByte(s: string, lib: Library): Option<int>
    requires |s| >= 2
  {
    if HexValue(s[0]) >= 0 && HexValue(s[1]) >= 0 then Some(HexValue(s[0]) * 16 + HexValue(s[1])) else lib.hex(s)
  }

  /** Pairs of characters as bytes; a value that is too large loses its upper bits. */
  function ScanHex(s: string, lib: Library): Option<seq<Byte>>
    requires |s| % 2 == 0
    decreases |s|
  {
    if s == "" then Some([])
    else
      var x :- ScanHexByte(s, lib);
      var rest :- ScanHex(s[2..], lib);
      Some([x % 0x100] + rest)
  }

  // --- Parsing --------------------------------------------------------------------------

  /** An address that is not in the dotted form is left to the parser of IPv6 addresses. */
  datatype ParseResult = Parsed(id: Identity) | Rejected | LeftToIPv6(text: string)

  function ParseIP(s: string, lib: Library): ParseResult
  {
    var n := ScanInts(s, "...:", lib);
    if |n| < 4 then LeftToIPv6(s)
    else
      var port := if |n| < 5 then 0 else n[4];
      if !(0 <= port < 0x1_0000) then Rejected
      else if !(0 <= n[0] < 256 && 0 <= n[1] < 256 && 0 <= n[2] < 256 && 0 <= n[3] < 256) then Rejected
      else Parsed(IPv4Address([n[0], n[1], n[2], n[3]], port))
  }

  function ParseText(s: string, lib: Library): ParseResult
  {
    if s == "" then Rejected
    else if "steamid:" <= s then
      match ScanUnsigned(s[8..], lib)
      case None => Rejected
      case Some(n) => if 0 <= n < U64 && ValidSteamID(n) then Parsed(SteamID(n)) else Rejected
    else if "xboxpwid:" <= s then
      var rest := s[9..];
      if |rest| >= SIZE_OF_DATA || |rest| < 1 || |rest| >= MAX_XBOX_ID then Rejected else Parsed(XboxPairwiseID(rest))
    else if "psn:" <= s then
      match ScanUnsigned(s[4..], lib)
      case None => Rejected
      case Some(n) => Parsed(SonyPSN(n))
    else if "ip:" <= s then ParseIP(s[3..], lib)
    else if "str:" <= s then
      var rest := s[4..];
      if |rest| >= SIZE_OF_DATA || |rest| >= MAX_GENERIC_STRING then Rejected else Parsed(GenericString(rest))
    else if "gen:" <= s then
      var rest := s[4..];
      if |rest| < 2 || |rest| % 2 == 1 || |rest| / 2 >= SIZE_OF_DATA || |rest| / 2 > MAX_GENERIC_BYTES then Rejected
      else
        match ScanHex(rest, lib)
        case None => Rejected
        case Some(bytes) => Parsed(GenericBytes(bytes))
    else if !LooksLikePrefix(s) || |s| + 1 > MAX_STRING then Rejected
    else Parsed(UnknownType(s))
  }

  // --- What is accepted, and what is printed --------------------------------------------

  /** One to 16 lower-case letters, digits and underscores, and a colon. */
  lemma {:induction false} PrefixIff(s: string)
    ensures LooksLikePrefix(s) <==>
              exists n :: 1 <= n <= 16 && n < |s| && s[n] == ':' &&
                          forall i :: 0 <= i < n ==> 'a' <= s[i] <= 'z' || '0' <= s[i] <= '9' || s[i] == '_'
  {
    if n :| 1 <= n <= 16 && n < |s| && s[n] == ':' &&
            forall i :: 0 <= i < n ==> 'a' <= s[i] <= 'z' || '0' <= s[i] <= '9' || s[i] == '_' {
      SkipIs(s, 0, n, InPrefix);
    }
  }

  /** The text is the prefix and `rest`. */
  predicate Splits(s: string, prefix: string, rest: string) { s == prefix + rest }

  lemma {:induction false} SplitIff(s: string, prefix: string)
    ensures prefix <= s ==> Splits(s, prefix, s[|prefix|..])
    ensures forall rest :: Splits(s, prefix, rest) ==> prefix <= s && s[|prefix|..] == rest
  {}

  /** Exactly which text is accepted as which identity. How numbers are scanned is a parameter; bytes are
      pairs of characters; an address has four numbers below 256 and maybe a port. */
  lemma {:induction false} AcceptedIff(s: string, lib: Library, id: Identity)
    ensures ParseText(s, lib) == Parsed(id) <==>
              match id
              case Invalid => false
              case SteamID(n) =>
                0 <= n < 0x1_0000_0000_0000_0000 && ValidSteamID(n) && "steamid:" <= s && ScanUnsigned(s[8..], lib) == Some(n)
              case XboxPairwiseID(x) => Splits(s, "xboxpwid:", x) && 1 <= |x| <= 32
              case SonyPSN(n) => "psn:" <= s && ScanUnsigned(s[4..], lib) == Some(n)
              case IPv4Address(ip, port) =>
                && "ip:" <= s && |ip| == 4 && 0 <= port < 0x1_0000
                && var n := ScanInts(s[3..], "...:", lib);
                && |n| >= 4 && n[0] == ip[0] && n[1] == ip[1] && n[2] == ip[2] && n[3] == ip[3]
                && port == if |n| < 5 then 0 else n[4]
              case GenericString(x) => Splits(s, "str:", x) && |x| <= 31
              case GenericBytes(b) =>
                "gen:" <= s && |s| == 4 + 2 * |b| && 1 <= |b| <= 32 && ScanHex(s[4..], lib) == Some(b)
              case UnknownType(x) => s == x && |x| <= 127 && LooksLikePrefix(x) && !KnownPrefix(x)
  {
    hide ScanUnsigned, ScanInts, ScanHex, ValidSteamID, LooksLikePrefix;
    SplitIff(s, "xboxpwid:");
    SplitIff(s, "str:");
    FirstOf(s);
    PrefixIff(s);
    ScannedLength(s, lib);
    if "ip:" <= s {
      AddressIs(s[3..], lib, id);
    }
  }

  lemma {:induction false} ScannedLength(s: string, lib: Library)
    ensures "gen:" <= s && |s[4..]| % 2 == 0 && ScanHex(s[4..], lib).Some? ==> |s| == 4 + 2 * |ScanHex(s[4..], lib).value|
  {
    if "gen:" <= s && |s[4..]| % 2 == 0 {
      ScannedBytes(s[4..], lib);
    }
  }

  lemma {:induction false} ScannedBytes(s: string, lib: Library)
    requires |s| % 2 == 0
    ensures ScanHex(s, lib).Some? ==> |s| == 2 * |ScanHex(s, lib).value|
    decreases |s|
  {
    if s != "" {
      ScannedBytes(s[2..], lib);
    }
  }

  /** The pair of characters at `i` is scanned as the byte, or as a number that ends in it. */
  ghost predicate PairIs(s: string, lib: Library, i: nat, b: Byte)
    requires 2 * i + 2 <= |s|
  {
    var x := ScanHexByte(s[2 * i..], lib); x.Some? && x.value % 0x100 == b
  }

  /** Bytes are accepted pair by pair. */
  lemma {:induction false} HexIs(s: string, lib: Library, b: seq<Byte>)
    requires |s| == 2 * |b|
    ensures ScanHex(s, lib) == Some(b) <==> forall i :: 0 <= i < |b| ==> PairIs(s, lib, i, b[i])
    decreases |s|
  {
    if b != [] {
      var rest := s[2..];
      HexIs(rest, lib, b[1..]);
      HexStep(s, lib, b);
      assert PairIs(s, lib, 0, b[0]) <==> ScanHexByte(s, lib).Some? && ScanHexByte(s, lib).value % 0x100 == b[0] by {
        assert s[2 * 0..] == s;
      }
      forall i | 0 < i < |b|
        ensures PairIs(s, lib, i, b[i]) <==> PairIs(rest, lib, i - 1, b[1..][i - 1])
      {
        assert s[2 * i..] == rest[2 * (i - 1)..];
      }
      hide PairIs, ScanHex, ScanHexByte;
      if forall i :: 0 <= i < |b| ==> PairIs(s, lib, i, b[i]) {
        forall i | 0 <= i < |b| - 1
          ensures PairIs(rest, lib, i, b[1..][i])
        {
          assert PairIs(s, lib, i + 1, b[i + 1]);
        }
      }
    }
  }

  lemma {:induction false} HexStep(s: string, lib: Library, b: seq<Byte>)
    requires |s| == 2 * |b| && b != []
    ensures ScanHex(s, lib) == Some(b) <==>
              ScanHexByte(s, lib).Some? && ScanHexByte(s, lib).value % 0x100 == b[0] && ScanHex(s[2..], lib) == Some(b[1..])
  {
    hide ScanHexByte;
    assert b == [b[0]] + b[1..];
  }

  lemma {:induction false} AddressIs(s: string, lib: Library, id: Identity)
    ensures ParseIP(s, lib) == Parsed(id) <==>
              && id.IPv4Address? && |id.ip| == 4 && 0 <= id.port < 0x1_0000
              && var n := ScanInts(s, "...:", lib);
              && |n| >= 4 && n[0] == id.ip[0] && n[1] == id.ip[1] && n[2] == id.ip[2] && n[3] == id.ip[3]
              && id.port == if |n| < 5 then 0 else n[4]
  {
    hide ScanInts;
    if id.IPv4Address? && |id.ip| == 4 {
      assert id.ip == [id.ip[0], id.ip[1], id.ip[2], id.ip[3]];
    }
  }

  /** Texts with different known prefixes differ. */
  lemma {:induction false} FirstOf(s: string)
    ensures "steamid:" <= s ==> !("xboxpwid:" <= s) && !("psn:" <= s) && !("ip:" <= s) && !("str:" <= s) && !("gen:" <= s)
    ensures "xboxpwid:" <= s ==> !("psn:" <= s) && !("ip:" <= s) && !("str:" <= s) && !("gen:" <= s)
    ensures "psn:" <= s ==> !("ip:" <= s) && !("str:" <= s) && !("gen:" <= s)
    ensures "ip:" <= s ==> !("str:" <= s) && !("gen:" <= s)
    ensures "str:" <= s ==> !("gen:" <= s)
  {
    assert "steamid:" <= s ==> s[0] == 's' && s[2] == 'e' by { assert "steamid:"[0] == 's' && "steamid:"[2] == 'e'; }
    assert "xboxpwid:" <= s ==> s[0] == 'x' by { assert "xboxpwid:"[0] == 'x'; }
    assert "psn:" <= s ==> s[0] == 'p' by { assert "psn:"[0] == 'p'; }
    assert "ip:" <= s ==> s[0] == 'i' by { assert "ip:"[0] == 'i'; }
    assert "str:" <= s ==> s[0] == 's' && s[2] == 'r' by { assert "str:"[0] == 's' && "str:"[2] == 'r'; }
    assert "gen:" <= s ==> s[0] == 'g' by { assert "gen:"[0] == 'g'; }
  }

  /** How numbers and bytes are printed: without leading zeros, and in lower case. */
  lemma {:induction false} DigitsAre(n: nat, d: int)
    requires 0 <= d < 16
    ensures HexDigit(d) == "0123456789abcdef"[d]
    ensures HexValue("0123456789abcdef"[d]) == d && HexValue("0123456789ABCDEF"[d]) == d
    ensures ToText(Invalid) == "invalid"
    ensures n >= 10 ==> Decimal(n)[0] != '0'
    decreases n
  {
    if n >= 10 {
      DigitsAre(n / 10, d);
      NoZeroFirst(n);
    }
  }

  lemma {:induction false} NoZeroFirst(n: nat)
    requires n > 0
    ensures Decimal(n)[0] != '0'
  {
    if n >= 10 {
      NoZeroFirst(n / 10);
    }
  }

  // --- Printed text is read back --------------------------------------------------------

  lemma {:induction false} DecimalIsDigits(n: nat)
    ensures Accepts(IsDigit, Decimal(n)) && DigitsValue(Decimal(n)) == n
  {
    if n >= 10 {
      DecimalIsDigits(n / 10);
      var s := Decimal(n);
      assert s[..|s| - 1] == Decimal(n / 10);
    } else {
      assert Decimal(n)[..0] == "";
    }
  }

  /** Where a number ends. */
  predicate NoDigitFirst(s: string) { s != "" ==> !IsDigit(s[0]) }

  lemma {:induction false} DigitsOf(n: nat, rest: string)
    requires NoDigitFirst(rest)
    ensures Digits(Decimal(n) + rest) == Decimal(n)
  {
    DecimalIsDigits(n);
    var s := Decimal(n) + rest;
    assert At(s, 0, Decimal(n));
    hide Decimal;
    SkipsOver(s, 0, Decimal(n), IsDigit);
  }

  lemma {:induction false} UnsignedReads(n: nat, lib: Library)
    requires n < U64
    ensures ScanUnsigned(Decimal(n), lib) == Some(n)
  {
    DecimalIsDigits(n);
    DigitsOf(n, "");
    hide Decimal, Digits, DigitsValue;
    assert Decimal(n) + "" == Decimal(n);
  }

  lemma {:induction false} IntReads(n: nat, rest: string, lib: Library)
    requires n < 0x8000_0000 && NoDigitFirst(rest)
    ensures ScanInt(Decimal(n) + rest, lib) == Some(Scanned(n, rest))
  {
    DecimalIsDigits(n);
    DigitsOf(n, rest);
    hide Decimal, Digits, DigitsValue;
    assert (Decimal(n) + rest)[|Decimal(n)|..] == rest;
  }

  /** A number and a mark, in front of more numbers. */
  lemma {:induction false} IntsMore(n: nat, marks: string, more: string, lib: Library)
    requires n < 0x8000_0000 && marks != "" && !IsDigit(marks[0])
    ensures ScanInts(Decimal(n) + ([marks[0]] + more), marks, lib) == [n] + ScanInts(more, marks[1..], lib)
  {
    var rest := [marks[0]] + more;
    IntReads(n, rest, lib);
    hide Decimal, ScanInt;
    assert rest[1..] == more;
  }

  lemma {:induction false} IntsLast(n: nat, marks: string, lib: Library)
    requires n < 0x8000_0000
    ensures ScanInts(Decimal(n), marks, lib) == [n]
  {
    IntReads(n, "", lib);
    hide Decimal, ScanInt;
    assert Decimal(n) + "" == Decimal(n);
  }

  lemma {:induction false} AddressReads(ip: seq<Byte>, port: int, lib: Library)
    requires |ip| == 4 && 0 <= port < 0x1_0000
    ensures ParseIP(Dotted(ip) + (if port != 0 then ":" + Decimal(port) else ""), lib) == Parsed(IPv4Address(ip, port))
  {
    hide Decimal, ScanInts;
    var a, b, c, d := Decimal(ip[0]), Decimal(ip[1]), Decimal(ip[2]), Decimal(ip[3]);
    var last := d + (if port != 0 then ":" + Decimal(port) else "");
    var third := c + ("." + last);
    var second := b + ("." + third);
    assert Dotted(ip) + (if port != 0 then ":" + Decimal(port) else "") == a + ("." + second);
    IntsMore(ip[0], "...:", second, lib);
    IntsMore(ip[1], "..:", third, lib);
    IntsMore(ip[2], ".:", last, lib);
    assert "...:"[1..] == "..:" && "..:"[1..] == ".:" && ".:"[1..] == ":" && ":"[1..] == "";
    if port != 0 {
      IntsMore(ip[3], ":", Decimal(port), lib);
      IntsLast(port, "", lib);
    } else {
      IntsLast(ip[3], ":", lib);
      assert d + "" == d;
    }
    assert ip == [ip[0], ip[1], ip[2], ip[3]];
  }

  lemma {:induction false} DigitPair(b: Byte)
    ensures HexValue(HexDigit(b / 16)) == b / 16 && HexValue(HexDigit(b % 16)) == b % 16
  {}

  lemma {:induction false} HexReads(b: seq<Byte>, lib: Library)
    ensures ScanHex(Hex(b), lib) == Some(b)
  {
    if b != [] {
      HexReads(b[1..], lib);
      assert Hex(b)[2..] == Hex(b[1..]);
      DigitPair(b[0]);
      assert [b[0]] + b[1..] == b;
      hide HexDigit, HexValue;
    }
  }

  /** How texts with the known prefixes begin: no two of them begin alike. */
  lemma {:induction false} KnownStarts(s: string)
    ensures "steamid:" <= s ==> |s| > 2 && s[0] == 's' && s[2] == 'e'
    ensures "xboxpwid:" <= s ==> |s| > 2 && s[0] == 'x'
    ensures "psn:" <= s ==> |s| > 2 && s[0] == 'p'
    ensures "ip:" <= s ==> |s| > 2 && s[0] == 'i'
    ensures "str:" <= s ==> |s| > 2 && s[0] == 's' && s[2] == 'r'
    ensures "gen:" <= s ==> |s| > 2 && s[0] == 'g'
  {
    StartsLike(s, "steamid:");
    StartsLike(s, "xboxpwid:");
    StartsLike(s, "psn:");
    StartsLike(s, "ip:");
    StartsLike(s, "str:");
    StartsLike(s, "gen:");
  }

  lemma {:induction false} StartsLike(s: string, q: string)
    requires |q| > 2
    ensures q <= s ==> |s| > 2 && s[0] == q[0] && s[2] == q[2]
  {}

  lemma {:induction false} AfterPrefix(q: string, rest: string)
    ensures q <= q + rest && (q + rest)[|q|..] == rest
  {}

  lemma {:induction false} InvalidIsRejected(lib: Library)
    ensures ParseText("invalid", lib) == Rejected
  {
    var s := "invalid";
    KnownStarts(s);
    assert s[2] == 'v' && !("ip:" <= s) by {
      assert s[..3] == "inv";
    }
    assert forall i :: 0 <= i < |s| ==> s[i] != ':';
    hide SkipWhile, ParseIP, ScanUnsigned, ScanHex;
  }

  lemma {:induction false} SteamIDReads(n: int, lib: Library)
    requires 0 <= n < U64
    ensures ParseText("steamid:" + Decimal(n), lib) == if ValidSteamID(n) then Parsed(SteamID(n)) else Rejected
  {
    UnsignedReads(n, lib);
    AfterPrefix("steamid:", Decimal(n));
    hide Decimal, ScanUnsigned, ValidSteamID;
  }

  lemma {:induction false} XboxReads(x: string, lib: Library)
    requires |x| < MAX_XBOX_ID
    ensures ParseText("xboxpwid:" + x, lib) == if x != "" then Parsed(XboxPairwiseID(x)) else Rejected
  {
    AfterPrefix("xboxpwid:", x);
    KnownStarts("xboxpwid:" + x);
  }

  lemma {:induction false} PsnReads(n: int, lib: Library)
    requires 0 <= n < U64
    ensures ParseText("psn:" + Decimal(n), lib) == Parsed(SonyPSN(n))
  {
    UnsignedReads(n, lib);
    AfterPrefix("psn:", Decimal(n));
    hide Decimal, ScanUnsigned;
    KnownStarts("psn:" + Decimal(n));
  }

  lemma {:induction false} StringReads(g: string, lib: Library)
    requires |g| < MAX_GENERIC_STRING
    ensures ParseText("str:" + g, lib) == Parsed(GenericString(g))
  {
    AfterPrefix("str:", g);
    KnownStarts("str:" + g);
  }

  lemma {:induction false} BytesRead(b: seq<Byte>, lib: Library)
    requires |b| <= MAX_GENERIC_BYTES
    ensures ParseText("gen:" + Hex(b), lib) == if b != [] then Parsed(GenericBytes(b)) else Rejected
  {
    HexReads(b, lib);
    AfterPrefix("gen:", Hex(b));
    hide Hex, ScanHex;
    KnownStarts("gen:" + Hex(b));
  }

  lemma {:induction false} PrefixedIP(rest: string, lib: Library)
    ensures ParseText("ip:" + rest, lib) == ParseIP(rest, lib)
  {
    AfterPrefix("ip:", rest);
    hide ParseIP;
    KnownStarts("ip:" + rest);
  }

  /** The text of an identity is read back as that identity exactly when the identity is one of the
      readable ones: a valid Steam identifier, a non-empty Xbox identifier or byte string, an
      unknown type whose prefix is not a known one, or any of the other kinds. */
  lemma {:induction false} RoundTripIff(id: Identity, lib: Library)
    requires id.Representable()
    ensures ParseText(ToText(id), lib) == Parsed(id) <==> id.Readable()
  {
    hide Decimal, Hex, ParseText, Dotted, ValidSteamID;
    match id
    case Invalid => InvalidIsRejected(lib);
    case SteamID(n) => SteamIDReads(n, lib);
    case XboxPairwiseID(x) => XboxReads(x, lib);
    case SonyPSN(n) => PsnReads(n, lib);
    case IPv4Address(ip, port) =>
      AddressReads(ip, port, lib);
      var rest := Dotted(ip) + (if port != 0 then ":" + Decimal(port) else "");
      assert ToText(id) == "ip:" + rest;
      PrefixedIP(rest, lib);
    case GenericString(g) => StringReads(g, lib);
    case GenericBytes(b) => BytesRead(b, lib);
    case UnknownType(raw) => UnknownReads(raw, lib);
  }

  lemma {:induction false} UnknownReads(raw: string, lib: Library)
    requires |raw| < MAX_STRING
    ensures ParseText(raw, lib) == Parsed(UnknownType(raw)) <==> UnknownPrefix(raw)
  {
    hide ScanUnsigned, ScanHex, ParseIP, ValidSteamID;
    ParseIPIsIP(raw, lib);
  }

  lemma {:induction false} ParseIPIsIP(s: string, lib: Library)
    ensures |s| >= 3 && ParseIP(s[3..], lib).Parsed? ==> ParseIP(s[3..], lib).id.IPv4Address?
  {
    hide ScanInts;
  }

  lemma {:induction false} UnsignedRange(s: string, lib: Library)
    requires lib.Sane()
    ensures ScanUnsigned(s, lib).Some? ==> 0 <= ScanUnsigned(s, lib).value < U64
  {}

  lemma {:induction false} ParsedShape(s: string, lib: Library)
    requires lib.Sane() && NUL !in s && ParseText(s, lib).Parsed?
    ensures ParseText(s, lib).id.Representable() && ParseText(s, lib).id.Readable()
  {
    hide ScanHex, LooksLikePrefix, ValidSteamID, ScanInts, ScanUnsigned, Library.Sane;
    if "steamid:" <= s {
      UnsignedRange(s[8..], lib);
    } else if "xboxpwid:" <= s {
    } else if "psn:" <= s {
      UnsignedRange(s[4..], lib);
    } else if "ip:" <= s {
    } else if "str:" <= s {
    } else if "gen:" <= s {
      hide ParseIP;
      ScannedBytes(s[4..], lib);
    }
  }

  /** Whatever text is parsed, the identity is a readable one: printing and parsing it again gives
      the same identity. */
  lemma {:induction false} ParsedIsReadable(s: string, lib: Library)
    requires lib.Sane() && NUL !in s && ParseText(s, lib).Parsed?
    ensures var id := ParseText(s, lib).id;
            id.Representable() && id.Readable() && ParseText(ToText(id), lib) == Parsed(id)
  {
    hide ParseText, ToText, Identity.Representable, Identity.Readable, Library.Sane;
    ParsedShape(s, lib);
    RoundTripIff(ParseText(s, lib).id, lib);
  }

  // --- The loops ------------------------------------------------------------------------

  function Cut(s: string, size: nat): string
    requires size > 0
  {
    if |s| < size then s else s[..size - 1]
  }

  /** How much of the text a buffer of `size` characters holds. Bytes are printed in pairs of
      digits, and only whole pairs are. */
  function RoomFor(id: Identity, size: nat): nat
    requires id.Representable() && size > 0
  {
    if id.GenericBytes? && size > 5 then
      4 + 2 * (if |id.bytes| < (size - 5) / 2 then |id.bytes| else (size - 5) / 2)
    else |Cut(ToText(id), size)|
  }

  /** The whole text if it fits with its terminator. Otherwise as much as fits, but of the digits of bytes
      only whole pairs, when there is room for any. */
  lemma {:induction false} RoomForIs(id: Identity, size: nat)
    requires id.Representable() && size > 0
    ensures |ToText(id)| < size ==> RoomFor(id, size) == |ToText(id)|
    ensures |ToText(id)| >= size ==>
              RoomFor(id, size) == if id.GenericBytes? && size > 5 then size - 1 - (size - 1) % 2 else size - 1
  {
    hide Decimal, Dotted, Hex;
  }

  lemma {:induction false} HexPrefix(b: seq<Byte>, i: nat)
    requires i < |b|
    ensures |Hex(b)| == 2 * |b| && Hex(b)[2 * i] == HexDigit(b[i] / 16) && Hex(b)[2 * i + 1] == HexDigit(b[i] % 16)
  {
    if i > 0 {
      HexPrefix(b[1..], i - 1);
      assert Hex(b)[2..] == Hex(b[1..]);
    }
  }

  /** Prints the first `count` bytes. */
  method PrintHex(bytes: seq<Byte>, count: nat) returns (text: string)
    requires count <= |bytes|
    ensures text == Hex(bytes)[..2 * count]
  {
    text := "";
    var i := 0;
    while i < count
      invariant i <= count && text == Hex(bytes)[..2 * i]
    {
      HexPrefix(bytes, i);
      text := text + [HexDigit(bytes[i] / 16)] + [HexDigit(bytes[i] % 16)];
      i := i + 1;
    }
  }

  /** Prints into a buffer of `size` characters; the result is what the buffer then holds. */
  method IdentityToString(id: Identity, size: nat) returns (text: string)
    requires id.Representable() && size > 0
    ensures |text| == RoomFor(id, size) < size && text == ToText(id)[..|text|]
  {
    hide Decimal, Dotted, Hex;
    match id
    case GenericBytes(bytes) =>
      text := Cut("gen:", size);
      if size > 5 {
        var l := if |bytes| < (size - 5) / 2 then |bytes| else (size - 5) / 2;
        var digits := PrintHex(bytes, l);
        text := text + digits;
        assert ("gen:" + Hex(bytes))[..4 + 2 * l] == "gen:" + Hex(bytes)[..2 * l];
      } else {
        assert ToText(id)[..|text|] == "gen:"[..|text|];
      }
    case _ =>
      text := Cut(ToText(id), size);
  }

  /** Every readable identity fits the buffer size that is recommended. */
  lemma {:induction false} RecommendedSizeSuffices(id: Identity)
    requires id.Representable()
    ensures RoomFor(id, MAX_STRING) == |ToText(id)| < MAX_STRING
  {
    PowersOfTen();
    hide Decimal, Pow10;
    match id
    case SteamID(n) => DecimalLength(n, 20, U64);
    case SonyPSN(n) => DecimalLength(n, 20, U64);
    case IPv4Address(ip, port) =>
      DecimalLength(ip[0], 3, 0x100);
      DecimalLength(ip[1], 3, 0x100);
      DecimalLength(ip[2], 3, 0x100);
      DecimalLength(ip[3], 3, 0x100);
      DecimalLength(port, 5, 0x1_0000);
    case _ =>
  }

  lemma {:induction false} DecimalLength(n: nat, digits: nat, limit: nat)
    requires n < limit && digits > 0 && limit <= Pow10(digits)
    ensures |Decimal(n)| <= digits
    decreases digits
  {
    if n >= 10 {
      assert digits > 1 by {
        assert Pow10(1) == 10 * Pow10(0);
      }
      DecimalLength(n / 10, digits - 1, Pow10(digits - 1));
    }
  }

  lemma {:induction false} PowersOfTen()
    ensures Pow10(3) == 1000 && Pow10(5) == 10_0000 && Pow10(20) == 1_0000_0000_0000_0000_0000
  {
    assert Pow10(0) == 1;
    assert Pow10(3) == 10 * Pow10(2) == 100 * Pow10(1) == 1000 * Pow10(0);
    assert Pow10(5) == 10 * Pow10(4) == 100 * Pow10(3);
    FiveMore(5);
    FiveMore(10);
    FiveMore(15);
  }

  lemma {:induction false} FiveMore(n: nat)
    ensures Pow10(n + 5) == 10_0000 * Pow10(n)
  {
    assert Pow10(n + 5) == 10 * Pow10(n + 4) == 100 * Pow10(n + 3) == 1000 * Pow10(n + 2) == 1_0000 * Pow10(n + 1);
  }

  function Pow10(n: nat): nat { if n == 0 then 1 else 10 * Pow10(n - 1) }

  /** Whether the text begins with a prefix of the kind that later versions may use. */
  method CheckPrefix(s: string) returns (ok: bool)
    requires NUL !in s
    ensures ok <==> LooksLikePrefix(s)
  {
    var count := 0;
    var more := true;
    while more
      invariant count <= MAX_PREFIX && count <= |s| && SkipWhile(s, count, InPrefix) == SkipWhile(s, 0, InPrefix)
      invariant more && count >= 1 ==> count == |s| || s[count] != ':'
      invariant !more ==> count >= 1 && count < |s| && s[count] == ':'
      decreases MAX_PREFIX + 1 - count, more
    {
      if count >= |s| || !InPrefix(s[count]) {
        return false;
      }
      count := count + 1;
      if count > MAX_PREFIX {
        SkipFurther(s, count);
        return false;
      }
      more := count >= |s| || s[count] != ':';
    }
    return true;
  }

  lemma {:induction false} SkipFurther(s: string, count: nat)
    requires count <= |s|
    ensures SkipWhile(s, count, InPrefix) >= count
  {}

  /** Reads pairs of hexadecimal digits. */
  method ParseHex(s: string, lib: Library) returns (r: Option<seq<Byte>>)
    requires |s| % 2 == 0
    ensures r == ScanHex(s, lib)
  {
    var bytes: seq<Byte> := [];
    var i := 0;
    ghost var whole := ScanHex(s, lib);
    assert s[0..] == s && (whole.Some? ==> bytes + whole.value == whole.value);
    while i < |s| / 2
      invariant i <= |s| / 2 && |bytes| == i
      invariant match ScanHex(s[2 * i..], lib)
                case None => ScanHex(s, lib) == None
                case Some(rest) => ScanHex(s, lib) == Some(bytes + rest)
    {
      var rest := s[2 * i..];
      assert rest[2..] == s[2 * (i + 1)..];
      var x := ScanHexByte(rest, lib);
      if x.None? {
        return None;
      }
      ghost var more := ScanHex(rest[2..], lib);
      assert more.Some? ==> bytes + ([x.value % 0x100] + more.value) == bytes + [x.value % 0x100] + more.value;
      bytes := bytes + [x.value % 0x100];
      i := i + 1;
    }
    assert s[2 * i..] == "" && bytes + [] == bytes;
    return Some(bytes);
  }

  method IdentityParseString(s: string, lib: Library) returns (r: ParseResult)
    requires NUL !in s
    ensures r == ParseText(s, lib)
  {
    hide ScanHex, LooksLikePrefix, ValidSteamID, ScanUnsigned, ParseIP;
    if s == "" {
      return Rejected;
    }
    if "steamid:" <= s {
      var n := ScanUnsigned(s[8..], lib);
      if n.None? || !(0 <= n.value < U64 && ValidSteamID(n.value)) {
        return Rejected;
      }
      return Parsed(SteamID(n.value));
    }
    if "xboxpwid:" <= s {
      var rest := s[9..];
      if |rest| >= SIZE_OF_DATA {
        return Rejected;
      }
      return if |rest| < 1 || |rest| >= MAX_XBOX_ID then Rejected else Parsed(XboxPairwiseID(rest));
    }
    if "psn:" <= s {
      var n := ScanUnsigned(s[4..], lib);
      return if n.None? then Rejected else Parsed(SonyPSN(n.value));
    }
    if "ip:" <= s {
      return ParseIP(s[3..], lib);
    }
    if "str:" <= s {
      var rest := s[4..];
      if |rest| >= SIZE_OF_DATA {
        return Rejected;
      }
      return if |rest| >= MAX_GENERIC_STRING then Rejected else Parsed(GenericString(rest));
    }
    if "gen:" <= s {
      var rest := s[4..];
      if |rest| < 2 || |rest| % 2 == 1 {
        return Rejected;
      }
      if |rest| / 2 >= SIZE_OF_DATA || |rest| / 2 > MAX_GENERIC_BYTES {
        return Rejected;
      }
      var bytes := ParseHex(rest, lib);
      return if bytes.None? then Rejected else Parsed(GenericBytes(bytes.value));
    }
    var ok := CheckPrefix(s);
    if !ok || |s| + 1 > MAX_STRING {
      return Rejected;
    }
    return Parsed(UnknownType(s));
  }
}
