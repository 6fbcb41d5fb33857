/** Ed25519 private keys in the OpenSSH binary format, and as PEM text. */
module OpenSshKey {
  import opened Base64
  import opened Basics

  // --- The format -----------------------------------------------------------------------

  /** A 32-bit number, most significant byte first. */
  function U32(n: int): (s: seq<Byte>)
    ensures |s| == 4
  {
    [n / 0x100_0000 % 256, n / 0x1_0000 % 256, n / 0x100 % 256, n % 256]
  }

  function FromU32(s: seq<Byte>): int
    requires |s| == 4
  {
    (s[0] as int) * 0x100_0000 + (s[1] as int) * 0x1_0000 + (s[2] as int) * 0x100 + s[3]
  }

  /** A byte string after its length. */
  function Field(s: seq<Byte>): seq<Byte> { U32(|s|) + s }

  /** The bytes of an ASCII string. */
  function Ascii(s: string): seq<Byte>
  {
    seq(|s|, i requires 0 <= i < |s| => s[i] as int % 256)
  }

  function Magic(): seq<Byte> { Ascii("openssh-key-v1") + [0] }

  /** No cipher, no key derivation, no derivation options. */
  function Unencrypted(): seq<Byte> { U32(4) + Ascii("none") + U32(4) + Ascii("none") + U32(0) }

  function KeyType(): seq<Byte> { U32(11) + Ascii("ssh-ed25519") }

  const CHECK := 0x1234_5678

  /** The fixed parts of the format, byte by byte. */
  lemma {:induction false} FormatIs()
    ensures Magic() == [111, 112, 101, 110, 115, 115, 104, 45, 107, 101, 121, 45, 118, 49, 0]
    ensures Unencrypted() == [0, 0, 0, 4, 110, 111, 110, 101, 0, 0, 0, 4, 110, 111, 110, 101, 0, 0, 0, 0]
    ensures KeyType() == [0, 0, 0, 11, 115, 115, 104, 45, 101, 100, 50, 53, 53, 49, 57]
  {
    NumbersAre();
    WordsAre();
    hide U32, Ascii;
  }

  lemma NumbersAre()
    ensures U32(0) == [0, 0, 0, 0] && U32(1) == [0, 0, 0, 1] && U32(4) == [0, 0, 0, 4] && U32(11) == [0, 0, 0, 11]
    ensures U32(32) == [0, 0, 0, 32] && U32(64) == [0, 0, 0, 64] && U32(51) == [0, 0, 0, 51] && U32(127) == [0, 0, 0, 127]
    ensures U32(CHECK) == [0x12, 0x34, 0x56, 0x78]
  {}

  lemma WordsAre()
    ensures Ascii("openssh-key-v1") == [111, 112, 101, 110, 115, 115, 104, 45, 107, 101, 121, 45, 118, 49]
    ensures Ascii("none") == [110, 111, 110, 101]
    ensures Ascii("ssh-ed25519") == [115, 115, 104, 45, 101, 100, 50, 53, 53, 49, 57]
  {}

  function PublicBlock(publicKey: seq<Byte>): seq<Byte>
  {
    KeyType() + Field(publicKey)
  }

  function PrivateBlock(check: seq<Byte>, privateKey: seq<Byte>, publicKey: seq<Byte>): seq<Byte>
  {
    check + check + KeyType() + Field(publicKey) + Field(privateKey + publicKey)
  }

  /** The blob that is written for a key. */
  function Blob(privateKey: seq<Byte>, publicKey: seq<Byte>): seq<Byte>
  {
    Magic() + Unencrypted() + U32(1) + Field(PublicBlock(publicKey)) + Field(PrivateBlock(U32(CHECK), privateKey, publicKey))
  }

  /** A blob holds a key: comments and padding may follow each part. */
  ghost predicate Holds(blob: seq<Byte>, privateKey: seq<Byte>, publicKey: seq<Byte>)
  {
    exists check: seq<Byte>, rest1: seq<Byte>, rest2: seq<Byte>, rest: seq<Byte> ::
      HoldsWith(blob, privateKey, publicKey, check, rest1, rest2, rest)
  }

  ghost predicate HoldsWith(blob: seq<Byte>, privateKey: seq<Byte>, publicKey: seq<Byte>,
                            check: seq<Byte>, rest1: seq<Byte>, rest2: seq<Byte>, rest: seq<Byte>)
  {
    && |privateKey| == 32 && |publicKey| == 32 && |check| == 4
    && |PublicBlock(publicKey) + rest1| < 0x1_0000_0000 && |PrivateBlock(check, privateKey, publicKey) + rest2| < 0x1_0000_0000
    && blob == Magic() + Unencrypted() + U32(1) + Field(PublicBlock(publicKey) + rest1)
               + Field(PrivateBlock(check, privateKey, publicKey) + rest2) + rest
  }

  lemma {:induction false} U32RoundTrip(n: int)
    requires 0 <= n < 0x1_0000_0000
    ensures FromU32(U32(n)) == n
  {
    var a, b, c := n / 256, n / 0x1_0000, n / 0x100_0000;
    assert b == a / 256 && c == b / 256;
  }

  lemma {:induction false} FromU32RoundTrip(s: seq<Byte>)
    requires |s| == 4
    ensures 0 <= FromU32(s) < 0x1_0000_0000 && U32(FromU32(s)) == s
  {
    var n := FromU32(s);
    var a: int, b: int, c: int := s[0], s[1], s[2];
    LowByte(a * 0x1_0000 + b * 0x100 + c, s[3]);
    LowByte(a * 0x100 + b, s[2]);
    LowByte(a, s[1]);
    assert n == (a * 0x1_0000 + b * 0x100 + c) * 256 + s[3];
    assert n / 0x1_0000 == n / 256 / 256;
    assert n / 0x100_0000 == n / 0x1_0000 / 256;
  }

  // --- Parsing --------------------------------------------------------------------------

  datatype Read = Read(value: seq<Byte>, rest: seq<Byte>)

  function Eat(b: seq<Byte>, prefix: seq<Byte>): Option<seq<Byte>>
  {
    if prefix <= b then Some(b[|prefix|..]) else None
  }

  function TakeField(b: seq<Byte>): Option<Read>
  {
    if |b| < 4 || |b| - 4 < FromU32(b[..4]) then None
    else
      FromU32RoundTrip(b[..4]);
      Some(Read(b[4..4 + FromU32(b[..4])], b[4 + FromU32(b[..4])..]))
  }

  function TakeKey(b: seq<Byte>, size: nat): Option<Read>
  {
    var r :- TakeField(b);
    if |r.value| == size then Some(r) else None
  }

  function ParsePublicBlock(b: seq<Byte>): Option<seq<Byte>>
  {
    var b1 :- Eat(b, KeyType());
    var r :- TakeKey(b1, 32);
    Some(r.value)
  }

  function ParsePrivateBlock(b: seq<Byte>, publicKey: seq<Byte>): (r: Option<seq<Byte>>)
    ensures r.Some? ==> |r.value| == 64
  {
    if |b| < 8 || b[..4] != b[4..8] then None
    else
      var b1 :- Eat(b[8..], KeyType());
      var r :- TakeKey(b1, 32);
      if r.value != publicKey then None
      else
        var k :- TakeKey(r.rest, 64);
        if k.value[32..] != publicKey then None else Some(k.value)
  }

  /** The private key followed by the public key, if the blob holds one. */
  function Parse(b: seq<Byte>): (r: Option<seq<Byte>>)
    ensures r.Some? ==> |r.value| == 64
  {
    var b1 :- Eat(b, Magic());
    var b2 :- Eat(b1, Unencrypted());
    var b3 :- Eat(b2, U32(1));
    var r1 :- TakeField(b3);
    var publicKey :- ParsePublicBlock(r1.value);
    var r2 :- TakeField(r1.rest);
    ParsePrivateBlock(r2.value, publicKey)
  }

  lemma {:induction false} EatIs(b: seq<Byte>, prefix: seq<Byte>, rest: seq<Byte>)
    ensures Eat(b, prefix) == Some(rest) <==> b == prefix + rest
  {
    if prefix <= b {
      assert b == prefix + b[|prefix|..];
    }
  }

  lemma {:induction false} TakeFieldIs(b: seq<Byte>, r: Read)
    ensures TakeField(b) == Some(r) <==> b == Field(r.value) + r.rest && |r.value| < 0x1_0000_0000
  {
    if TakeField(b) == Some(r) {
      FromU32RoundTrip(b[..4]);
      assert b == b[..4] + r.value + r.rest;
    }
    if b == Field(r.value) + r.rest && |r.value| < 0x1_0000_0000 {
      U32RoundTrip(|r.value|);
      assert b[..4] == U32(|r.value|);
    }
  }

  lemma {:induction false} ParsePublicIs(b: seq<Byte>, publicKey: seq<Byte>)
    ensures ParsePublicBlock(b) == Some(publicKey) <==>
            |publicKey| == 32 && exists rest: seq<Byte> :: b == PublicBlock(publicKey) + rest
  {
    hide U32, FromU32, TakeField, Eat;
    if ParsePublicBlock(b) == Some(publicKey) {
      var b1 := Eat(b, KeyType()).value;
      var r := TakeKey(b1, 32).value;
      EatIs(b, KeyType(), b1);
      TakeFieldIs(b1, r);
      assert b == PublicBlock(publicKey) + r.rest;
    }
    if |publicKey| == 32 && exists rest: seq<Byte> :: b == PublicBlock(publicKey) + rest {
      var rest: seq<Byte> :| b == PublicBlock(publicKey) + rest;
      assert b == KeyType() + (Field(publicKey) + rest);
      EatIs(b, KeyType(), Field(publicKey) + rest);
      TakeFieldIs(Field(publicKey) + rest, Read(publicKey, rest));
    }
  }

  ghost predicate IsPrivateBlock(b: seq<Byte>, privateKey: seq<Byte>, publicKey: seq<Byte>, check: seq<Byte>,
                                 rest: seq<Byte>)
  {
    |check| == 4 && b == PrivateBlock(check, privateKey, publicKey) + rest
  }

  lemma {:induction false} ParsePrivateIs(b: seq<Byte>, key: seq<Byte>, publicKey: seq<Byte>)
    requires |publicKey| == 32
    ensures ParsePrivateBlock(b, publicKey) == Some(key) <==>
            |key| == 64 && key[32..] == publicKey && exists check, rest :: IsPrivateBlock(b, key[..32], publicKey, check, rest)
  {
    hide U32, FromU32, TakeField, Eat, KeyType;
    if ParsePrivateBlock(b, publicKey) == Some(key) {
      ParsePrivateSound(b, key, publicKey);
    }
    if |key| == 64 && key[32..] == publicKey && exists check, rest :: IsPrivateBlock(b, key[..32], publicKey, check, rest) {
      var check, rest :| IsPrivateBlock(b, key[..32], publicKey, check, rest);
      ParsePrivateComplete(b, key, publicKey, check, rest);
    }
  }

  lemma {:induction false} ParsePrivateSound(b: seq<Byte>, key: seq<Byte>, publicKey: seq<Byte>)
    requires |publicKey| == 32 && ParsePrivateBlock(b, publicKey) == Some(key)
    ensures |key| == 64 && key[32..] == publicKey && exists check, rest :: IsPrivateBlock(b, key[..32], publicKey, check, rest)
  {
    hide U32, FromU32, TakeField, Eat, KeyType;
    var b1 := Eat(b[8..], KeyType()).value;
    var r := TakeKey(b1, 32).value;
    var k := TakeKey(r.rest, 64).value;
    EatIs(b[8..], KeyType(), b1);
    TakeFieldIs(b1, r);
    TakeFieldIs(r.rest, k);
    assert key[..32] + publicKey == key;
    var check := b[..4];
    assert b == check + check + b[8..];
    assert b[8..] == KeyType() + (Field(publicKey) + (Field(key) + k.rest));
    assert IsPrivateBlock(b, key[..32], publicKey, check, k.rest);
  }

  lemma {:induction false} ParsePrivateComplete(b: seq<Byte>, key: seq<Byte>, publicKey: seq<Byte>, check: seq<Byte>,
                                                rest: seq<Byte>)
    requires |publicKey| == 32 && |key| == 64 && key[32..] == publicKey
    requires IsPrivateBlock(b, key[..32], publicKey, check, rest)
    ensures ParsePrivateBlock(b, publicKey) == Some(key)
  {
    hide U32, FromU32, TakeField, Eat, KeyType;
    assert key[..32] + publicKey == key;
    var b2 := Field(key) + rest;
    var b1 := Field(publicKey) + b2;
    assert b == check + check + (KeyType() + b1);
    assert b[..4] == check && b[4..8] == check && b[8..] == KeyType() + b1;
    EatIs(b[8..], KeyType(), b1);
    TakeFieldIs(b1, Read(publicKey, b2));
    TakeFieldIs(b2, Read(key, rest));
  }

  /** Parsing accepts exactly the blobs that hold a key, and returns that key. */
  lemma {:induction false} ParseIff(b: seq<Byte>, key: seq<Byte>)
    ensures Parse(b) == Some(key) <==> |key| == 64 && Holds(b, key[..32], key[32..])
  {
    hide *;
    if Parse(b) == Some(key) {
      ParseSound(b, key);
    }
    if |key| == 64 && Holds(b, key[..32], key[32..]) {
      ParseComplete(b, key);
    }
  }

  lemma {:induction false} ParseSound(b: seq<Byte>, key: seq<Byte>)
    requires Parse(b) == Some(key)
    ensures |key| == 64 && Holds(b, key[..32], key[32..])
  {
    hide U32, FromU32, TakeField, Eat, Magic, Unencrypted, ParsePublicBlock, ParsePrivateBlock, PublicBlock, PrivateBlock;
    var b1 := Eat(b, Magic()).value;
    var b2 := Eat(b1, Unencrypted()).value;
    var b3 := Eat(b2, U32(1)).value;
    var r1 := TakeField(b3).value;
    var publicKey := ParsePublicBlock(r1.value).value;
    var r2 := TakeField(r1.rest).value;
    EatIs(b, Magic(), b1);
    EatIs(b1, Unencrypted(), b2);
    EatIs(b2, U32(1), b3);
    TakeFieldIs(b3, r1);
    TakeFieldIs(r1.rest, r2);
    ParsePublicIs(r1.value, publicKey);
    ParsePrivateIs(r2.value, key, publicKey);
    var rest1: seq<Byte> :| r1.value == PublicBlock(publicKey) + rest1;
    var check, rest2 :| IsPrivateBlock(r2.value, key[..32], publicKey, check, rest2);
    hide Field;
    Chain(Magic(), Unencrypted(), U32(1), Field(r1.value), Field(r2.value), r2.rest);
    assert HoldsWith(b, key[..32], publicKey, check, rest1, rest2, r2.rest);
    HoldsIs(b, key[..32], publicKey, check, rest1, rest2, r2.rest);
  }

  lemma {:induction false} HoldsIs(blob: seq<Byte>, privateKey: seq<Byte>, publicKey: seq<Byte>,
                                   check: seq<Byte>, rest1: seq<Byte>, rest2: seq<Byte>, rest: seq<Byte>)
    requires HoldsWith(blob, privateKey, publicKey, check, rest1, rest2, rest)
    ensures Holds(blob, privateKey, publicKey)
  {
    hide HoldsWith;
  }

  lemma {:induction false} Chain(a: seq<Byte>, b: seq<Byte>, c: seq<Byte>, d: seq<Byte>, e: seq<Byte>, f: seq<Byte>)
    ensures a + (b + (c + (d + (e + f)))) == a + b + c + d + e + f
  {}

  lemma {:induction false} ParseComplete(b: seq<Byte>, key: seq<Byte>)
    requires |key| == 64 && Holds(b, key[..32], key[32..])
    ensures Parse(b) == Some(key)
  {
    hide U32, FromU32, TakeField, Eat, Magic, Unencrypted, ParsePublicBlock, ParsePrivateBlock, PublicBlock, PrivateBlock, Field;
    var publicKey := key[32..];
    var check, rest1, rest2, rest :| HoldsWith(b, key[..32], publicKey, check, rest1, rest2, rest);
    var block1, block2 := PublicBlock(publicKey) + rest1, PrivateBlock(check, key[..32], publicKey) + rest2;
    var b4 := Field(block2) + rest;
    var b3 := Field(block1) + b4;
    var b2 := U32(1) + b3;
    var b1 := Unencrypted() + b2;
    Chain(Magic(), Unencrypted(), U32(1), Field(block1), Field(block2), rest);
    assert b == Magic() + b1;
    EatIs(b, Magic(), b1);
    EatIs(b1, Unencrypted(), b2);
    EatIs(b2, U32(1), b3);
    TakeFieldIs(b3, Read(block1, b4));
    TakeFieldIs(b4, Read(block2, rest));
    ParsePublicIs(block1, publicKey);
    assert IsPrivateBlock(block2, key[..32], publicKey, check, rest2);
    ParsePrivateIs(block2, key, publicKey);
  }

  /** The blob for a key, piece by piece: lengths are big-endian, and nothing comes between the pieces
      or after the last one. */
  lemma {:induction false} BlobIs(privateKey: seq<Byte>, publicKey: seq<Byte>)
    requires |privateKey| == 32 && |publicKey| == 32
    ensures Blob(privateKey, publicKey) ==
              [111, 112, 101, 110, 115, 115, 104, 45, 107, 101, 121, 45, 118, 49, 0]
              + [0, 0, 0, 4, 110, 111, 110, 101, 0, 0, 0, 4, 110, 111, 110, 101, 0, 0, 0, 0] + [0, 0, 0, 1]
              + [0, 0, 0, 51] + [0, 0, 0, 11, 115, 115, 104, 45, 101, 100, 50, 53, 53, 49, 57] + [0, 0, 0, 32] + publicKey
              + [0, 0, 0, 127] + [0x12, 0x34, 0x56, 0x78] + [0x12, 0x34, 0x56, 0x78]
              + [0, 0, 0, 11, 115, 115, 104, 45, 101, 100, 50, 53, 53, 49, 57] + [0, 0, 0, 32] + publicKey
              + [0, 0, 0, 64] + privateKey + publicKey
  {
    FormatIs();
    NumbersAre();
    assert |PublicBlock(publicKey)| == 51 && |PrivateBlock(U32(CHECK), privateKey, publicKey)| == 127;
    hide U32, Magic, Unencrypted, KeyType;
  }

  lemma {:induction false} BlobHolds(privateKey: seq<Byte>, publicKey: seq<Byte>)
    requires |privateKey| == 32 && |publicKey| == 32
    ensures Holds(Blob(privateKey, publicKey), privateKey, publicKey)
  {
    var block1, block2 := PublicBlock(publicKey), PrivateBlock(U32(CHECK), privateKey, publicKey);
    assert |block1| < 100 && |block2| < 300;
    hide PublicBlock, PrivateBlock, Magic, Unencrypted, U32, Field, Holds;
    assert block1 + [] == block1 && block2 + [] == block2;
    var blob := Blob(privateKey, publicKey);
    assert blob + [] == blob;
    assert HoldsWith(blob, privateKey, publicKey, U32(CHECK), [], [], []);
    HoldsIs(blob, privateKey, publicKey, U32(CHECK), [], [], []);
  }

  /** The blob that is written for a key is parsed to that key. */
  lemma {:induction false} BlobRoundTrip(privateKey: seq<Byte>, publicKey: seq<Byte>)
    requires |privateKey| == 32 && |publicKey| == 32
    ensures Parse(Blob(privateKey, publicKey)) == Some(privateKey + publicKey)
  {
    hide *;
    var key := privateKey + publicKey;
    assert key[..32] == privateKey && key[32..] == publicKey;
    BlobHolds(privateKey, publicKey);
    ParseComplete(Blob(privateKey, publicKey), key);
  }
}
