/** PEM armour: locating the body between a header and a footer. */
module Pem {
  import opened Base64
  import opened Basics

  predicate IsSpace(c: char) { c == ' ' || c == '\t' || c == '\n' || c == 11 as char || c == 12 as char || c == '\r' }

  predicate IsTabOrSpace(c: char) { c == ' ' || c == '\t' }

  predicate IsDash(c: char) { c == '-' }
  predicate NotDash(c: char) { c != '-' }

  function Upper(c: char): char
  {
    if 'a' <= c <= 'z' then (c as int - 32) as char else c
  }

  /** Case-insensitive comparison of `word` with the text at `pos`. */
  predicate StartsWith(text: string, pos: nat, word: string)
  {
    pos + |word| <= |text| && forall i :: 0 <= i < |word| ==> Upper(text[pos + i]) == Upper(word[i])
  }

  // --- Where the scanning loops stop ----------------------------------------------------

  /** The first position from `pos` on whose character `p` does not accept, or the end. */
  function SkipWhile(text: string, pos: nat, p: char -> bool): (stop: nat)
    requires pos <= |text|
    ensures pos <= stop <= |text|
    ensures forall i :: pos <= i < stop ==> p(text[i])
    ensures stop < |text| ==> !p(text[stop])
    decreases |text| - pos
  {
    if pos < |text| && p(text[pos]) then SkipWhile(text, pos + 1, p) else pos
  }

  /** The scan ends at a character that is not a terminator. */
  predicate StopsInside(text: string, stop: nat) { stop < |text| && text[stop] != NUL }

  predicate InType(c: char) { c != NUL && c != '\r' && c != '\n' && c != '-' }

  /** Where the parsing of a header or footer line ends. */
  function ParseMarker(text: string, pos: nat, word: string, kind: string): (r: Option<nat>)
    requires pos <= |text|
    ensures r.Some? ==> pos <= r.value <= |text|
  {
    var dashes := SkipWhile(text, pos, IsSpace);
    if !StopsInside(text, dashes) || text[dashes] != '-' then None
    else
      var blanks := SkipWhile(text, dashes, IsDash);
      if !StopsInside(text, blanks) then None
      else
        var at := SkipWhile(text, blanks, IsTabOrSpace);
        if !StopsInside(text, at) || at + |word| >= |text| || !StartsWith(text, at, word) then None
        else
          var start := SkipWhile(text, at + |word|, IsTabOrSpace);
          if !StopsInside(text, start) then None
          else
            var stop := SkipWhile(text, start, InType);
            if stop >= |text| || text[stop] != '-' || start + |kind| > stop || !StartsWith(text, start, kind) then None
            else
              Some(SkipWhile(text, SkipWhile(text, stop, IsDash), IsSpace))
  }

  // --- What is accepted -----------------------------------------------------------------

  /** The same character, or the same letter in upper and lower case. */
  predicate SameLetter(c: char, d: char)
  {
    || c == d
    || ('a' <= c <= 'z' && d as int == c as int - 32)
    || ('A' <= c <= 'Z' && d as int == c as int + 32)
  }

  ghost predicate Reads(text: string, pos: nat, word: string)
  {
    pos + |word| <= |text| && forall i :: 0 <= i < |word| ==> SameLetter(text[pos + i], word[i])
  }

  const SPACES: string := [' ', '\t', '\n', '\r', 11 as char, 12 as char]
  const BLANKS: string := " \t"

  /** All characters from `from` on and before `to` are among the given ones. */
  ghost predicate Only(text: string, from: nat, to: nat, chars: string)
    requires to <= |text|
  {
    from <= to && forall i :: from <= i < to ==> text[i] in chars
  }

  /** From `pos` to `next`, the text is white space, at least one dash, blanks, the word, blanks, a type
      field, dashes, and white space. The type field is not blank in front, has no line end, dash or
      terminator in it, and begins with the kind. Upper and lower case are the same. */
  ghost predicate Marks(text: string, pos: nat, word: string, kind: string, next: nat,
                        dashes: nat, blanks: nat, at: nat, field: nat, close: nat, after: nat)
  {
    && pos <= dashes < blanks <= at && at + |word| <= field <= close < after <= next <= |text|
    && Only(text, pos, dashes, SPACES) && Only(text, dashes, blanks, "-")
    && Only(text, blanks, at, BLANKS) && Reads(text, at, word)
    && Only(text, at + |word|, field, BLANKS) && text[field] !in BLANKS
    && field + |kind| <= close && Reads(text, field, kind) && IsField(text, field, close)
    && Only(text, close, after, "-") && (after < |text| ==> text[after] != '-')
    && Only(text, after, next, SPACES) && (next < |text| ==> text[next] !in SPACES)
  }

  ghost predicate IsField(text: string, field: nat, close: nat)
    requires close <= |text|
  {
    field <= close && forall i :: field <= i < close ==> text[i] !in ['\r', '\n', '-', 0 as char]
  }

  ghost predicate IsMarker(text: string, pos: nat, word: string, kind: string, next: nat)
  {
    exists dashes: nat, blanks: nat, at: nat, field: nat, close: nat, after: nat ::
      Marks(text, pos, word, kind, next, dashes, blanks, at, field, close, after)
  }

  lemma {:induction false} SameLetterIff(c: char, d: char)
    ensures SameLetter(c, d) <==> Upper(c) == Upper(d)
  {
    UpperIs(c);
    UpperIs(d);
  }

  lemma UpperIs(c: char)
    ensures Upper(c) as int == if 'a' <= c <= 'z' then c as int - 32 else c as int
  {}

  lemma {:induction false} ReadsIff(text: string, pos: nat, word: string)
    ensures Reads(text, pos, word) <==> StartsWith(text, pos, word)
  {
    hide SameLetter, Upper;
    if pos + |word| <= |text| {
      forall i | 0 <= i < |word|
        ensures SameLetter(text[pos + i], word[i]) <==> Upper(text[pos + i]) == Upper(word[i])
      {
        SameLetterIff(text[pos + i], word[i]);
      }
    }
  }

  lemma {:induction false} SkipIs(text: string, pos: nat, stop: nat, p: char -> bool)
    requires pos <= stop <= |text| && (forall i :: pos <= i < stop ==> p(text[i])) && (stop < |text| ==> !p(text[stop]))
    ensures SkipWhile(text, pos, p) == stop
    decreases stop - pos
  {
    if pos < stop {
      SkipIs(text, pos + 1, stop, p);
    }
  }

  lemma {:induction false} SpacesOnly(text: string, pos: nat, stop: nat)
    requires pos <= stop <= |text|
    ensures SkipWhile(text, pos, IsSpace) == stop <==> Only(text, pos, stop, SPACES) && (stop < |text| ==> text[stop] !in SPACES)
  {
    if Only(text, pos, stop, SPACES) && (stop < |text| ==> text[stop] !in SPACES) {
      SkipIs(text, pos, stop, IsSpace);
    }
  }

  lemma {:induction false} BlanksOnly(text: string, pos: nat, stop: nat)
    requires pos <= stop <= |text|
    ensures SkipWhile(text, pos, IsTabOrSpace) == stop <==>
              Only(text, pos, stop, BLANKS) && (stop < |text| ==> text[stop] !in BLANKS)
  {
    if Only(text, pos, stop, BLANKS) && (stop < |text| ==> text[stop] !in BLANKS) {
      SkipIs(text, pos, stop, IsTabOrSpace);
    }
  }

  lemma {:induction false} DashesOnly(text: string, pos: nat, stop: nat)
    requires pos <= stop <= |text|
    ensures SkipWhile(text, pos, IsDash) == stop <==> Only(text, pos, stop, "-") && (stop < |text| ==> text[stop] != '-')
  {
    if Only(text, pos, stop, "-") && (stop < |text| ==> text[stop] != '-') {
      SkipIs(text, pos, stop, IsDash);
    }
  }

  lemma {:induction false} FieldOnly(text: string, pos: nat, stop: nat)
    requires pos <= stop < |text| && text[stop] == '-'
    ensures SkipWhile(text, pos, InType) == stop <==> IsField(text, pos, stop)
  {
    if IsField(text, pos, stop) {
      SkipIs(text, pos, stop, InType);
    }
  }

  lemma {:induction false} MarkerSound(text: string, pos: nat, word: string, kind: string)
    requires pos <= |text| && ParseMarker(text, pos, word, kind).Some?
    ensures IsMarker(text, pos, word, kind, ParseMarker(text, pos, word, kind).value)
  {
    hide IsSpace, IsTabOrSpace, IsDash, InType, StartsWith, Reads, SkipWhile, Only, IsField;
    var dashes := SkipWhile(text, pos, IsSpace);
    var blanks := SkipWhile(text, dashes, IsDash);
    var at := SkipWhile(text, blanks, IsTabOrSpace);
    var field := SkipWhile(text, at + |word|, IsTabOrSpace);
    var close := SkipWhile(text, field, InType);
    var after := SkipWhile(text, close, IsDash);
    var next := SkipWhile(text, after, IsSpace);
    SpacesOnly(text, pos, dashes);
    DashesOnly(text, dashes, blanks);
    BlanksOnly(text, blanks, at);
    BlanksOnly(text, at + |word|, field);
    FieldOnly(text, field, close);
    DashesOnly(text, close, after);
    SpacesOnly(text, after, next);
    ReadsIff(text, at, word);
    ReadsIff(text, field, kind);
    DashIsDash(text[dashes]);
    DashIsDash(text[close]);
    assert Marks(text, pos, word, kind, next, dashes, blanks, at, field, close, after);
  }

  lemma DashIsDash(c: char)
    ensures IsDash(c) <==> c == '-'
  {}

  lemma {:induction false} MarkerComplete(text: string, pos: nat, word: string, kind: string, next: nat)
    requires pos <= |text| && Plain(word) && IsMarker(text, pos, word, kind, next)
    ensures ParseMarker(text, pos, word, kind) == Some(next)
  {
    hide IsSpace, IsTabOrSpace, IsDash, InType, StartsWith, Reads, SkipWhile, Only, IsField, Plain;
    var dashes: nat, blanks: nat, at: nat, field: nat, close: nat, after: nat :|
      Marks(text, pos, word, kind, next, dashes, blanks, at, field, close, after);
    MarksSkip(text, pos, word, kind, next, dashes, blanks, at, field, close, after);
    hide Marks;
  }

  /** Where the scans over such a text stop. */
  lemma {:induction false} MarksSkip(text: string, pos: nat, word: string, kind: string, next: nat,
                                     dashes: nat, blanks: nat, at: nat, field: nat, close: nat, after: nat)
    requires Plain(word) && Marks(text, pos, word, kind, next, dashes, blanks, at, field, close, after)
    ensures pos <= dashes < blanks <= at && at + |word| <= field <= close < after <= next <= |text| && word != ""
    ensures SkipWhile(text, pos, IsSpace) == dashes && text[dashes] == '-'
    ensures SkipWhile(text, dashes, IsDash) == blanks && StopsInside(text, blanks)
    ensures SkipWhile(text, blanks, IsTabOrSpace) == at && StopsInside(text, at) && StartsWith(text, at, word)
    ensures SkipWhile(text, at + |word|, IsTabOrSpace) == field && StopsInside(text, field)
    ensures SkipWhile(text, field, InType) == close && text[close] == '-'
    ensures field + |kind| <= close && StartsWith(text, field, kind)
    ensures SkipWhile(text, close, IsDash) == after && SkipWhile(text, after, IsSpace) == next
  {
    hide IsSpace, IsTabOrSpace, IsDash, InType, StartsWith, Reads, SkipWhile, Only, IsField, Plain;
    WordStarts(text, at, word);
    OnlyDashes(text, dashes, blanks);
    OnlyDashes(text, close, after);
    BlanksAreBlanks(text, blanks, at);
    FieldStarts(text, field, close);
    SpacesOnly(text, pos, dashes);
    DashesOnly(text, dashes, blanks);
    BlanksOnly(text, blanks, at);
    BlanksOnly(text, at + |word|, field);
    FieldOnly(text, field, close);
    DashesOnly(text, close, after);
    SpacesOnly(text, after, next);
    ReadsIff(text, at, word);
    ReadsIff(text, field, kind);
  }

  lemma {:induction false} OnlyDashes(text: string, from: nat, to: nat)
    requires from < to <= |text| && Only(text, from, to, "-")
    ensures text[from] == '-' && '-' !in SPACES && '-' != NUL
  {}

  lemma {:induction false} BlanksAreBlanks(text: string, from: nat, to: nat)
    requires from <= to < |text| && Only(text, from, to, BLANKS) && text[to] != '-' && text[to] != NUL
    ensures text[from] != '-' && text[from] != NUL
  {}

  lemma {:induction false} FieldStarts(text: string, field: nat, close: nat)
    requires field <= close < |text| && IsField(text, field, close) && text[close] == '-'
    ensures text[field] != NUL
  {}

  /** A word does not begin like a dash, a blank, or a terminator. */
  lemma {:induction false} WordStarts(text: string, at: nat, word: string)
    requires Plain(word) && Reads(text, at, word)
    ensures word != "" && at < |text| && text[at] !in BLANKS && text[at] != '-' && text[at] != NUL
  {
    assert SameLetter(text[at + 0], word[0]);
  }

  /** The parser of header and footer lines accepts exactly those. */
  lemma {:induction false} MarkerIff(text: string, pos: nat, word: string, kind: string, next: nat)
    requires pos <= |text| && Plain(word)
    ensures ParseMarker(text, pos, word, kind) == Some(next) <==> IsMarker(text, pos, word, kind, next)
  {
    hide ParseMarker, Plain, IsMarker;
    if ParseMarker(text, pos, word, kind) == Some(next) {
      MarkerSound(text, pos, word, kind);
    }
    if IsMarker(text, pos, word, kind, next) {
      MarkerComplete(text, pos, word, kind, next);
    }
  }

  /** Words and kinds of markers: no terminators, line ends or dashes, and no blank in front. */
  predicate Plain(s: string)
  {
    s != "" && !IsTabOrSpace(s[0]) && Accepts(InType, s)
  }

  predicate Accepts(p: char -> bool, s: string) { forall i :: 0 <= i < |s| ==> p(s[i]) }

  datatype Body = Body(start: nat, length: nat)

  /** The body lies between a header and a footer of the expected kind. */
  function Locate(text: string, kind: string): Option<Body>
  {
    if text == "" then None
    else
      var start :- ParseMarker(text, 0, "BEGIN", kind);
      var stop := SkipWhile(text, start, NotDash);
      if stop >= |text| then None
      else
        var _ :- ParseMarker(text, stop, "END", kind);
        Some(Body(start, stop - start))
  }

  lemma {:induction false} LocatedInside(text: string, kind: string)
    ensures Locate(text, kind).Some? ==> Locate(text, kind).value.start + Locate(text, kind).value.length <= |text|
  {
    hide ParseMarker, SkipWhile;
  }

  /** A body is located if and only if the text is a header of the kind from its beginning up to the
      body, a body without a dash, and a footer of the kind that begins with a dash right after it. */
  lemma {:induction false} LocateIff(text: string, kind: string, start: nat, stop: nat)
    requires start <= stop
    ensures Locate(text, kind) == Some(Body(start, stop - start)) <==>
              && IsMarker(text, 0, "BEGIN", kind, start)
              && stop < |text| && text[stop] == '-' && (forall i :: start <= i < stop ==> text[i] != '-')
              && exists end :: IsMarker(text, stop, "END", kind, end)
  {
    hide IsMarker, ParseMarker, SkipWhile;
    KnownWords();
    hide Plain;
    if Locate(text, kind) == Some(Body(start, stop - start)) {
      MarkerIff(text, 0, "BEGIN", kind, start);
      MarkerIff(text, stop, "END", kind, ParseMarker(text, stop, "END", kind).value);
    }
    if stop < |text| && text[stop] == '-' && forall i :: start <= i < stop ==> text[i] != '-' {
      SkipIs(text, start, stop, NotDash);
      if IsMarker(text, 0, "BEGIN", kind, start) && exists end :: IsMarker(text, stop, "END", kind, end) {
        var end: nat :| IsMarker(text, stop, "END", kind, end);
        MarkerIff(text, 0, "BEGIN", kind, start);
        MarkerIff(text, stop, "END", kind, end);
      }
    }
  }

  // --- The loops ------------------------------------------------------------------------

  /** Scans while `p` accepts. Not ok when the text ends first. */
  method Scan(text: string, pos: nat, p: char -> bool) returns (ok: bool, at: nat)
    requires pos <= |text| && !p(NUL)
    ensures at == SkipWhile(text, pos, p)
    ensures ok <==> StopsInside(text, at)
  {
    at := pos;
    while true
      invariant pos <= at <= |text| && SkipWhile(text, at, p) == SkipWhile(text, pos, p)
      decreases |text| - at
    {
      if at >= |text| || text[at] == NUL {
        return false, at;
      }
      if !p(text[at]) {
        return true, at;
      }
      at := at + 1;
    }
  }

  /** Scans while `p` accepts, up to the end of the text at most. */
  method ScanToEnd(text: string, pos: nat, p: char -> bool) returns (at: nat)
    requires pos <= |text|
    ensures at == SkipWhile(text, pos, p)
  {
    at := pos;
    while at < |text| && p(text[at])
      invariant pos <= at <= |text| && SkipWhile(text, at, p) == SkipWhile(text, pos, p)
    {
      at := at + 1;
    }
  }

  method ParsePEMHeaderOrFooter(text: string, pos: nat, word: string, kind: string) returns (ok: bool, at: nat)
    requires pos <= |text|
    ensures match ParseMarker(text, pos, word, kind)
            case None => !ok
            case Some(next) => ok && at == next
  {
    hide StartsWith, SkipWhile, IsSpace, IsTabOrSpace, InType, IsDash;
    SpaceIsNoTerminator();
    // leading whitespace of any kind
    ok, at := Scan(text, pos, IsSpace);
    // at least one dash
    if !ok || text[at] != '-' {
      return false, at;
    }
    ok, at := Scan(text, at, IsDash);
    if !ok {
      return;
    }
    ok, at := Scan(text, at, IsTabOrSpace);
    // the word
    if !ok || at + |word| >= |text| || !StartsWith(text, at, word) {
      return false, at;
    }
    ok, at := Scan(text, at + |word|, IsTabOrSpace);
    if !ok {
      return;
    }
    // the kind, up to the closing dashes
    var start := at;
    ok, at := Scan(text, at, InType);
    if !ok || text[at] != '-' {
      return false, at;
    }
    if start + |kind| > at || !StartsWith(text, start, kind) {
      return false, at;
    }
    at := ScanToEnd(text, at, IsDash);
    at := ScanToEnd(text, at, IsSpace);
    ok := true;
  }

  lemma SpaceIsNoTerminator()
    ensures !IsSpace(NUL) && !IsTabOrSpace(NUL) && !IsDash(NUL) && !InType(NUL)
  {}

  method LocatePEMBody(text: string, kind: string) returns (body: Option<Body>)
    ensures body == Locate(text, kind)
  {
    hide ParseMarker, SkipWhile;
    if |text| == 0 {
      return None;
    }
    var ok, pos := ParsePEMHeaderOrFooter(text, 0, "BEGIN", kind);
    if !ok {
      return None;
    }
    var start := pos;
    pos := ScanToEnd(text, pos, NotDash);
    if pos >= |text| {
      return None;
    }
    var length := pos - start;
    ok, pos := ParsePEMHeaderOrFooter(text, pos, "END", kind);
    if !ok {
      return None;
    }
    return Some(Body(start, length));
  }

  // --- Armoured text is located ---------------------------------------------------------

  function Marker(word: string, kind: string): string
  {
    "-----" + word + " " + kind + "-----"
  }

  /** `s` occurs in the text at `pos`. */
  predicate At(text: string, pos: nat, s: string)
  {
    pos + |s| <= |text| && text[pos..pos + |s|] == s
  }

  lemma {:induction false} AtChars(text: string, pos: nat, s: string)
    requires At(text, pos, s)
    ensures forall i :: 0 <= i < |s| ==> text[pos + i] == s[i]
  {
    forall i | 0 <= i < |s|
      ensures text[pos + i] == s[i]
    {
      assert text[pos..pos + |s|][i] == s[i];
    }
  }

  lemma {:induction false} AtPiece(text: string, pos: nat, a: string, s: string, b: string)
    requires At(text, pos, a + s + b)
    ensures At(text, pos + |a|, s)
  {
    var all := a + s + b;
    var t := text[pos..pos + |all|];
    assert t == all;
    var u := text[pos + |a|..pos + |a| + |s|];
    forall i | 0 <= i < |s|
      ensures u[i] == s[i]
    {
      assert t[|a| + i] == all[|a| + i];
    }
  }

  lemma {:induction false} SkipsOver(text: string, pos: nat, s: string, p: char -> bool)
    requires At(text, pos, s) && Accepts(p, s)
    requires pos + |s| < |text| ==> !p(text[pos + |s|])
    ensures SkipWhile(text, pos, p) == pos + |s|
    decreases |s|
  {
    if s != [] {
      AtChars(text, pos, s);
      AtPiece(text, pos, s[..1], s[1..], "");
      assert s[..1] + s[1..] + "" == s;
      assert p(s[0]);
      SkipsOver(text, pos + 1, s[1..], p);
    }
  }

  lemma {:induction false} StartsWithAt(text: string, pos: nat, s: string)
    requires At(text, pos, s)
    ensures StartsWith(text, pos, s)
  {
    AtChars(text, pos, s);
  }

  lemma {:induction false} MarkerPieces(text: string, pos: nat, word: string, kind: string)
    requires At(text, pos, Marker(word, kind))
    ensures At(text, pos, "-----") && At(text, pos + 5, word) && At(text, pos + 5 + |word|, " ")
    ensures At(text, pos + 6 + |word|, kind) && At(text, pos + 6 + |word| + |kind|, "-----")
  {
    var d := "-----";
    assert Marker(word, kind) == "" + d + (word + " " + kind + d);
    AtPiece(text, pos, "", d, word + " " + kind + d);
    assert Marker(word, kind) == d + word + (" " + kind + d);
    AtPiece(text, pos, d, word, " " + kind + d);
    assert Marker(word, kind) == (d + word) + " " + (kind + d);
    AtPiece(text, pos, d + word, " ", kind + d);
    AtPiece(text, pos, d + word + " ", kind, d);
    assert Marker(word, kind) == (d + word + " " + kind) + d + "";
    AtPiece(text, pos, d + word + " " + kind, d, "");
  }

  /** Where the scans over a marker stop. */
  lemma {:induction false} MarkerScans(text: string, pos: nat, word: string, kind: string)
    requires Plain(word) && Plain(kind) && At(text, pos, Marker(word, kind))
    requires pos + |Marker(word, kind)| < |text| && text[pos + |Marker(word, kind)|] != '-'
    ensures var w, k := pos + 5, pos + 6 + |word|;
            var c := k + |kind|;
            && SkipWhile(text, pos, IsSpace) == pos && text[pos] == '-'
            && SkipWhile(text, pos, IsDash) == w && StopsInside(text, w)
            && SkipWhile(text, w, IsTabOrSpace) == w && StartsWith(text, w, word)
            && SkipWhile(text, w + |word|, IsTabOrSpace) == k && StopsInside(text, k)
            && SkipWhile(text, k, InType) == c && text[c] == '-' && StartsWith(text, k, kind)
            && SkipWhile(text, c, IsDash) == c + 5
  {
    hide SkipWhile, At, StartsWith, Accepts, Marker;
    MarkerPieces(text, pos, word, kind);
    var w, k := pos + 5, pos + 6 + |word|;
    var c := k + |kind|;
    AtFirst(text, w, word);
    AtFirst(text, k, kind);
    PlainFirst(word);
    PlainFirst(kind);
    BlankAt(text, w + |word|);
    DashesAt(text, pos);
    DashesAt(text, c);
    SkipsNone(text, pos, IsSpace);
    SkipsNone(text, w, IsTabOrSpace);
    SkipsDashes(text, pos);
    SkipsBlank(text, w + |word|);
    SkipsKind(text, k, kind);
    MarkerLength(word, kind);
    SkipsDashes(text, c);
    StartsWithAt(text, w, word);
    StartsWithAt(text, k, kind);
  }

  lemma MarkerLength(word: string, kind: string)
    ensures |Marker(word, kind)| == 11 + |word| + |kind|
  {}

  lemma PlainFirst(s: string)
    requires Plain(s)
    ensures s != "" && InType(s[0]) && !IsTabOrSpace(s[0])
  {}

  lemma {:induction false} DashesAt(text: string, pos: nat)
    requires At(text, pos, "-----")
    ensures pos + 5 <= |text| && text[pos] == '-'
  {
    AtChars(text, pos, "-----");
    assert text[pos + 0] == "-----"[0];
  }

  lemma {:induction false} BlankAt(text: string, pos: nat)
    requires At(text, pos, " ")
    ensures pos < |text| && text[pos] == ' '
  {
    AtChars(text, pos, " ");
    assert text[pos + 0] == " "[0];
  }

  lemma SkipsNone(text: string, pos: nat, p: char -> bool)
    requires pos < |text| && !p(text[pos])
    ensures SkipWhile(text, pos, p) == pos
  {}

  lemma {:induction false} SkipsDashes(text: string, pos: nat)
    requires At(text, pos, "-----") && pos + 5 < |text| && text[pos + 5] != '-'
    ensures SkipWhile(text, pos, IsDash) == pos + 5
  {
    SkipsOver(text, pos, "-----", IsDash);
  }

  lemma {:induction false} SkipsBlank(text: string, pos: nat)
    requires At(text, pos, " ") && pos + 1 < |text| && !IsTabOrSpace(text[pos + 1])
    ensures SkipWhile(text, pos, IsTabOrSpace) == pos + 1
  {
    SkipsOver(text, pos, " ", IsTabOrSpace);
  }

  lemma {:induction false} SkipsKind(text: string, pos: nat, kind: string)
    requires At(text, pos, kind) && Plain(kind) && pos + |kind| < |text| && text[pos + |kind|] == '-'
    ensures SkipWhile(text, pos, InType) == pos + |kind|
  {
    SkipsOver(text, pos, kind, InType);
  }

  lemma {:induction false} SkipsLineEnd(text: string, pos: nat)
    requires At(text, pos, "\r\n") && pos + 2 < |text| && !IsSpace(text[pos + 2])
    ensures SkipWhile(text, pos, IsSpace) == pos + 2
  {
    SkipsOver(text, pos, "\r\n", IsSpace);
  }

  lemma {:induction false} LineEndAt(text: string, pos: nat)
    requires At(text, pos, "\r\n")
    ensures pos + 2 <= |text| && text[pos] == '\r'
  {
    AtChars(text, pos, "\r\n");
    assert text[pos + 0] == "\r\n"[0];
  }

  predicate FirstIs(text: string, pos: nat, c: char) { pos < |text| && text[pos] == c }

  lemma {:induction false} AtFirst(text: string, pos: nat, s: string)
    requires At(text, pos, s) && s != ""
    ensures FirstIs(text, pos, s[0])
  {
    AtChars(text, pos, s);
    assert text[pos + 0] == s[0];
  }

  /** A marker is parsed up to its last dash, and the spaces after it are skipped. */
  lemma {:induction false} MarkerParses(text: string, pos: nat, word: string, kind: string)
    requires Plain(word) && Plain(kind) && At(text, pos, Marker(word, kind))
    requires pos + |Marker(word, kind)| < |text| && text[pos + |Marker(word, kind)|] != '-'
    ensures ParseMarker(text, pos, word, kind) == Some(SkipWhile(text, pos + |Marker(word, kind)|, IsSpace))
  {
    hide SkipWhile, InType, IsSpace, IsTabOrSpace, IsDash, StartsWith, At, Accepts, Plain, Marker;
    MarkerScans(text, pos, word, kind);
    MarkerLength(word, kind);
  }

  /** The text of a PEM file. */
  function Armoured(data: seq<Byte>, kind: string): string
  {
    Marker("BEGIN", kind) + "\r\n" + Encoded(data, "\r\n") + Marker("END", kind) + "\r\n"
  }

  lemma {:induction false} LetterIsNoDash(v: Sextet)
    ensures NotDash(Letter(v)) && !IsSpace(Letter(v))
  {}

  lemma {:induction false} GroupHasNoDash(data: seq<Byte>)
    requires 1 <= |data| <= 3
    ensures Accepts(NotDash, GroupText(data)) && !IsSpace(GroupText(data)[0])
  {
    SextetsOfGroup(data);
    var s := Sextets(data);
    hide Sextets, Letter, IsSpace, Part, Word;
    LetterIsNoDash(s[0]);
    LetterIsNoDash(s[1]);
    if |data| > 1 {
      LetterIsNoDash(s[2]);
    }
    if |data| > 2 {
      LetterIsNoDash(s[3]);
    }
  }

  lemma {:induction false} TextHasNoDash(data: seq<Byte>, k: nat, lineBreak: string)
    requires Accepts(NotDash, lineBreak)
    ensures Accepts(NotDash, TextFrom(data, k, lineBreak))
    ensures data != [] && k == 0 ==> TextFrom(data, k, lineBreak) != "" && !IsSpace(TextFrom(data, k, lineBreak)[0])
    decreases |data|
  {
    if data != [] {
      hide GroupText, IsSpace;
      TextHasNoDash(Rest(data), k + 1, lineBreak);
      GroupHasNoDash(First(data));
    }
  }

  /** Locating the body of armoured text finds exactly the encoded data, whatever follows. */
  lemma {:induction false} LocatesBody(data: seq<Byte>, kind: string, after: string)
    requires data != [] && Plain(kind)
    ensures var start := |Marker("BEGIN", kind)| + 2;
            Locate(Armoured(data, kind) + after, kind) == Some(Body(start, |Encoded(data, "\r\n")|))
    ensures At(Armoured(data, kind) + after, |Marker("BEGIN", kind)| + 2, Encoded(data, "\r\n"))
  {
    hide *;
    BodyHasNoDash(data);
    ArmouredIs(data, kind, after);
    ArmourPieces(Marker("BEGIN", kind), Encoded(data, "\r\n"), Marker("END", kind), after);
    LocatesPieces(Armoured(data, kind) + after, kind, Encoded(data, "\r\n"));
  }

  lemma ArmouredIs(data: seq<Byte>, kind: string, after: string)
    ensures Armoured(data, kind) + after ==
              Marker("BEGIN", kind) + "\r\n" + Encoded(data, "\r\n") + Marker("END", kind) + "\r\n" + after
  {
    hide Marker, Encoded;
  }

  lemma {:induction false} BodyHasNoDash(data: seq<Byte>)
    requires data != []
    ensures Encoded(data, "\r\n") != "" && !IsSpace(Encoded(data, "\r\n")[0]) && Accepts(NotDash, Encoded(data, "\r\n"))
  {
    TextHasNoDash(data, 0, "\r\n");
    hide TextFrom, IsSpace;
  }

  lemma {:induction false} ArmourPieces(begin: string, body: string, end: string, after: string)
    ensures var text := begin + "\r\n" + body + end + "\r\n" + after;
            && At(text, 0, begin) && At(text, |begin|, "\r\n") && At(text, |begin| + 2, body)
            && At(text, |begin| + 2 + |body|, end) && At(text, |begin| + 2 + |body| + |end|, "\r\n")
  {
    var text := begin + "\r\n" + body + end + "\r\n" + after;
    assert text[0..|begin|] == begin;
    assert text[|begin|..|begin| + 2] == "\r\n";
    assert text[|begin| + 2..|begin| + 2 + |body|] == body;
    assert text[|begin| + 2 + |body|..|begin| + 2 + |body| + |end|] == end;
    assert text[|begin| + 2 + |body| + |end|..|begin| + 2 + |body| + |end| + 2] == "\r\n";
  }

  lemma {:induction false} LocatesPieces(text: string, kind: string, body: string)
    requires Plain(kind) && body != "" && !IsSpace(body[0]) && Accepts(NotDash, body)
    requires At(text, 0, Marker("BEGIN", kind)) && At(text, |Marker("BEGIN", kind)|, "\r\n")
    requires At(text, |Marker("BEGIN", kind)| + 2, body)
    requires At(text, |Marker("BEGIN", kind)| + 2 + |body|, Marker("END", kind))
    requires At(text, |Marker("BEGIN", kind)| + 2 + |body| + |Marker("END", kind)|, "\r\n")
    ensures Locate(text, kind) == Some(Body(|Marker("BEGIN", kind)| + 2, |body|))
  {
    var begin, end := Marker("BEGIN", kind), Marker("END", kind);
    var start := |begin| + 2;
    var stop := start + |body|;
    hide SkipWhile, ParseMarker, At, Accepts, IsSpace, NotDash, Marker, Plain;
    AtFirst(text, start, body);
    LineEndAt(text, |begin|);
    LineEndAt(text, stop + |end|);
    MarkerStarts(text, stop, "END", kind);
    KnownWords();
    MarkerParses(text, 0, "BEGIN", kind);
    MarkerParses(text, stop, "END", kind);
    SkipsLineEnd(text, |begin|);
    SkipsBody(text, start, body);
  }

  lemma {:induction false} MarkerStarts(text: string, pos: nat, word: string, kind: string)
    requires At(text, pos, Marker(word, kind))
    ensures pos < |text| && text[pos] == '-'
  {
    hide Marker, At;
    MarkerPieces(text, pos, word, kind);
    DashesAt(text, pos);
  }

  lemma {:induction false} SkipsBody(text: string, pos: nat, body: string)
    requires At(text, pos, body) && Accepts(NotDash, body) && pos + |body| < |text| && text[pos + |body|] == '-'
    ensures SkipWhile(text, pos, NotDash) == pos + |body|
  {
    SkipsOver(text, pos, body, NotDash);
  }

  lemma KnownWords()
    ensures Plain("BEGIN") && Plain("END")
  {}
}
