/** The browser's `btoa` and `atob`: the base64 alphabet and padding of
    section 4 of RFC 4648, applied to strings whose characters are bytes
    (Latin-1). `atob` follows the forgiving decoder browsers implement:
    ASCII whitespace is ignored, padding may be omitted, and the unused
    low bits of a final partial group are discarded. A JavaScript exception
    (`InvalidCharacterError`) is `None`. */
module Base64 {
  import opened Common

  /** Every character is a byte, so `btoa` accepts the string. */
  predicate IsLatin1(s: string) {
    forall i :: 0 <= i < |s| ==> s[i] as int < 256
  }

  /** The 64 characters of the base64 alphabet (Table 1 of RFC 4648). */
  predicate IsAlphabetChar(c: char) {
    ('A' <= c <= 'Z') || ('a' <= c <= 'z') || ('0' <= c <= '9') || c == '+' || c == '/'
  }

  predicate AllAlphabet(s: string) {
    forall i :: 0 <= i < |s| ==> IsAlphabetChar(s[i])
  }

  /** The alphabet character for a 6-bit value. */
  function Sextet(v: int): (c: char)
    requires 0 <= v < 64
    ensures IsAlphabetChar(c)
  {
    if v < 26 then ('A' as int + v) as char
    else if v < 52 then ('a' as int + (v - 26)) as char
    else if v < 62 then ('0' as int + (v - 52)) as char
    else if v == 62 then '+'
    else '/'
  }

  /** The 6-bit value of an alphabet character; it inverts `Sextet`. */
  function SextetValue(c: char): (v: nat)
    requires IsAlphabetChar(c)
    ensures v < 64 && Sextet(v) == c
  {
    if 'A' <= c <= 'Z' then c as int - 'A' as int
    else if 'a' <= c <= 'z' then c as int - 'a' as int + 26
    else if '0' <= c <= '9' then c as int - '0' as int + 52
    else if c == '+' then 62
    else 63
  }

  lemma SextetInjective(v: int)
    requires 0 <= v < 64
    ensures SextetValue(Sextet(v)) == v
  {
  }

  /** Three bytes spread over four sextets, most significant bits first. */
  lemma GroupBits(b0: int, b1: int, b2: int)
    requires 0 <= b0 < 256 && 0 <= b1 < 256 && 0 <= b2 < 256
    ensures var c1 := (b0 % 4) * 16 + b1 / 16;
            var c2 := (b1 % 16) * 4 + b2 / 64;
            && 0 <= c1 < 64 && 0 <= c2 < 64
            && (b0 / 4) * 4 + c1 / 16 == b0
            && (c1 % 16) * 16 + c2 / 4 == b1
            && (c2 % 4) * 64 + b2 % 64 == b2
  {
    var c1 := (b0 % 4) * 16 + b1 / 16;
    var c2 := (b1 % 16) * 4 + b2 / 64;
    assert c1 / 16 == b0 % 4 && c1 % 16 == b1 / 16;
    assert c2 / 4 == b1 % 16 && c2 % 4 == b2 / 64;
  }

  // ---------------------------------------------------------------------
  // btoa
  // ---------------------------------------------------------------------

  /** A byte value held in a character. */
  predicate IsByte(b: int) { 0 <= b < 256 }

  /** One whole group: three bytes as four characters. */
  function EncodeTriple(b0: int, b1: int, b2: int): (r: string)
    requires IsByte(b0) && IsByte(b1) && IsByte(b2)
    ensures |r| == 4 && AllAlphabet(r)
  {
    [Sextet(b0 / 4), Sextet((b0 % 4) * 16 + b1 / 16), Sextet((b1 % 16) * 4 + b2 / 64), Sextet(b2 % 64)]
  }

  /** A final group of two bytes: three characters (padding comes later). */
  function EncodePair(b0: int, b1: int): (r: string)
    requires IsByte(b0) && IsByte(b1)
    ensures |r| == 3 && AllAlphabet(r)
  {
    [Sextet(b0 / 4), Sextet((b0 % 4) * 16 + b1 / 16), Sextet((b1 % 16) * 4)]
  }

  /** A final group of one byte: two characters. */
  function EncodeSingle(b0: int): (r: string)
    requires IsByte(b0)
    ensures |r| == 2 && AllAlphabet(r)
  {
    [Sextet(b0 / 4), Sextet((b0 % 4) * 16)]
  }

  /** The alphabet characters for `s`, without the trailing `=` padding. */
  function EncodeBody(s: string): (r: string)
    requires IsLatin1(s)
    ensures AllAlphabet(r)
    ensures |r| % 4 == (if |s| % 3 == 0 then 0 else |s| % 3 + 1)
    ensures |r| == 0 <==> |s| == 0
    decreases |s|
  {
    if |s| == 0 then ""
    else if |s| == 1 then EncodeSingle(s[0] as int)
    else if |s| == 2 then EncodePair(s[0] as int, s[1] as int)
    else
      var rest := EncodeBody(s[3..]);
      ModThreeShift(|s[3..]|);
      ModFourShift(|rest|);
      EncodeTriple(s[0] as int, s[1] as int, s[2] as int) + rest
  }

  lemma ModThreeShift(n: nat)
    ensures (n + 3) % 3 == n % 3
  {
  }

  lemma ModFourShift(n: nat)
    ensures (4 + n) % 4 == n % 4
  {
  }

  /** The `=` characters that pad the output to a multiple of four. */
  function Padding(n: nat): string {
    if n % 3 == 1 then "==" else if n % 3 == 2 then "=" else ""
  }

  /** `btoa(s)`: fails exactly on strings with a character above U+00FF;
      otherwise the output is a whole number of four-character groups. */
  function Btoa(s: string): (r: Option<string>)
    ensures r.Some? <==> IsLatin1(s)
    ensures r.Some? ==> |r.value| % 4 == 0 && (|r.value| == 0 <==> |s| == 0)
  {
    if IsLatin1(s) then
      var body := EncodeBody(s);
      PaddedLength(|s|, |body|);
      Some(body + Padding(|s|))
    else None
  }

  /** The padding completes the last group of four. */
  lemma PaddedLength(n: nat, m: nat)
    requires m % 4 == (if n % 3 == 0 then 0 else n % 3 + 1)
    ensures (m + |Padding(n)|) % 4 == 0
  {
  }

  // ---------------------------------------------------------------------
  // atob
  // ---------------------------------------------------------------------

  /** ASCII whitespace in the sense of the WHATWG Infra standard. */
  predicate IsAsciiSpace(c: char) {
    c == ' ' || c == '\t' || c == '\n' || c == '\r' || c as int == 0x0C
  }

  /** `s` with its ASCII whitespace removed. */
  function StripSpace(s: string): (r: string)
    ensures |r| <= |s|
    ensures forall i :: 0 <= i < |r| ==> !IsAsciiSpace(r[i])
    ensures (forall i :: 0 <= i < |s| ==> !IsAsciiSpace(s[i])) ==> r == s
    decreases |s|
  {
    if |s| == 0 then ""
    else if IsAsciiSpace(s[0]) then StripSpace(s[1..])
    else [s[0]] + StripSpace(s[1..])
  }

  /** Removes one or two trailing `=` when the length is a multiple of four. */
  function StripPadding(s: string): (r: string)
    ensures |r| <= |s| && r == s[..|r|]
  {
    if |s| % 4 == 0 && |s| >= 2 && s[|s| - 2] == '=' && s[|s| - 1] == '=' then s[..|s| - 2]
    else if |s| % 4 == 0 && |s| >= 1 && s[|s| - 1] == '=' then s[..|s| - 1]
    else s
  }

  /** Four characters as three bytes. */
  function DecodeQuad(t: string): (r: string)
    requires |t| == 4 && AllAlphabet(t)
    ensures |r| == 3 && IsLatin1(r)
  {
    var c0 := SextetValue(t[0]);
    var c1 := SextetValue(t[1]);
    var c2 := SextetValue(t[2]);
    var c3 := SextetValue(t[3]);
    [(c0 * 4 + c1 / 16) as char, ((c1 % 16) * 16 + c2 / 4) as char, ((c2 % 4) * 64 + c3) as char]
  }

  /** A final group of three characters as two bytes; the low two bits of
      the last character are discarded. */
  function DecodeTrio(t: string): (r: string)
    requires |t| == 3 && AllAlphabet(t)
    ensures |r| == 2 && IsLatin1(r)
  {
    var c0 := SextetValue(t[0]);
    var c1 := SextetValue(t[1]);
    var c2 := SextetValue(t[2]);
    [(c0 * 4 + c1 / 16) as char, ((c1 % 16) * 16 + c2 / 4) as char]
  }

  /** A final group of two characters as one byte; the low four bits of
      the second character are discarded. */
  function DecodeDuo(t: string): (r: string)
    requires |t| == 2 && AllAlphabet(t)
    ensures |r| == 1 && IsLatin1(r)
  {
    var c0 := SextetValue(t[0]);
    var c1 := SextetValue(t[1]);
    [(c0 * 4 + c1 / 16) as char]
  }

  /** The bytes spelled by alphabet characters, four at a time. */
  function DecodeBody(t: string): (r: string)
    requires AllAlphabet(t) && |t| % 4 != 1
    ensures IsLatin1(r)
    decreases |t|
  {
    if |t| == 0 then ""
    else if |t| == 2 then DecodeDuo(t)
    else if |t| == 3 then DecodeTrio(t)
    else DecodeQuad(t[..4]) + DecodeBody(t[4..])
  }

  /** `atob(t)`: `None` when the browser throws. */
  function Atob(t: string): (r: Option<string>)
    ensures r.Some? ==> IsLatin1(r.value)
  {
    var u := StripPadding(StripSpace(t));
    if |u| % 4 == 1 || !AllAlphabet(u) then None
    else Some(DecodeBody(u))
  }

  // ---------------------------------------------------------------------
  // Round trip
  // ---------------------------------------------------------------------

  lemma TripleRoundTrip(b0: int, b1: int, b2: int)
    requires IsByte(b0) && IsByte(b1) && IsByte(b2)
    ensures DecodeQuad(EncodeTriple(b0, b1, b2)) == [b0 as char, b1 as char, b2 as char]
  {
    GroupBits(b0, b1, b2);
    SextetInjective(b0 / 4);
    SextetInjective((b0 % 4) * 16 + b1 / 16);
    SextetInjective((b1 % 16) * 4 + b2 / 64);
    SextetInjective(b2 % 64);
  }

  lemma PairRoundTrip(b0: int, b1: int)
    requires IsByte(b0) && IsByte(b1)
    ensures DecodeTrio(EncodePair(b0, b1)) == [b0 as char, b1 as char]
  {
    GroupBits(b0, b1, 0);
    SextetInjective(b0 / 4);
    SextetInjective((b0 % 4) * 16 + b1 / 16);
    SextetInjective((b1 % 16) * 4);
  }

  lemma SingleRoundTrip(b0: int)
    requires IsByte(b0)
    ensures DecodeDuo(EncodeSingle(b0)) == [b0 as char]
  {
    GroupBits(b0, 0, 0);
    SextetInjective(b0 / 4);
    SextetInjective((b0 % 4) * 16);
  }

  /** Decoding the encoded body gives back the bytes. */
  lemma {:induction false} DecodeEncodeBody(s: string)
    requires IsLatin1(s)
    ensures DecodeBody(EncodeBody(s)) == s
    decreases |s|
  {
    if |s| == 1 {
      DecodeEncodeSingle(s);
    } else if |s| == 2 {
      DecodeEncodePair(s);
    } else if |s| >= 3 {
      DecodeEncodeBody(s[3..]);
      DecodeEncodeGroup(s);
    }
  }

  lemma DecodeEncodeSingle(s: string)
    requires IsLatin1(s) && |s| == 1
    ensures DecodeBody(EncodeBody(s)) == s
  {
    SingleRoundTrip(s[0] as int);
  }

  lemma DecodeEncodePair(s: string)
    requires IsLatin1(s) && |s| == 2
    ensures DecodeBody(EncodeBody(s)) == s
  {
    PairRoundTrip(s[0] as int, s[1] as int);
    assert s == [s[0], s[1]];
  }

  /** One step of the round trip: a leading group of three bytes comes back
      in front of whatever the rest decodes to. */
  lemma DecodeEncodeGroup(s: string)
    requires IsLatin1(s) && |s| >= 3
    requires DecodeBody(EncodeBody(s[3..])) == s[3..]
    ensures DecodeBody(EncodeBody(s)) == s
  {
    var head := EncodeTriple(s[0] as int, s[1] as int, s[2] as int);
    var rest := EncodeBody(s[3..]);
    assert EncodeBody(s) == head + rest;
    DecodeLeadingTriple(s);
    DecodeBodyCons(head, rest);
    assert s == s[..3] + s[3..];
  }

  /** The first three bytes come back from their group. */
  lemma DecodeLeadingTriple(s: string)
    requires IsLatin1(s) && |s| >= 3
    ensures DecodeQuad(EncodeTriple(s[0] as int, s[1] as int, s[2] as int)) == s[..3]
  {
    var b0, b1, b2 := s[0] as int, s[1] as int, s[2] as int;
    assert s[..3] == [b0 as char, b1 as char, b2 as char];
    TripleRoundTrip(b0, b1, b2);
  }

  /** A leading whole group decodes on its own. */
  lemma DecodeBodyCons(head: string, rest: string)
    requires |head| == 4 && AllAlphabet(head) && AllAlphabet(rest) && |rest| % 4 != 1
    ensures AllAlphabet(head + rest) && |head + rest| % 4 != 1
    ensures DecodeBody(head + rest) == DecodeQuad(head) + DecodeBody(rest)
  {
    var t := head + rest;
    assert t[..4] == head && t[4..] == rest;
  }

  lemma StripNoPadding(body: string)
    requires AllAlphabet(body) && |body| % 4 == 0
    ensures StripPadding(body) == body
  {
    if |body| >= 1 {
      assert IsAlphabetChar(body[|body| - 1]);
    }
  }

  lemma StripOnePad(body: string)
    requires AllAlphabet(body) && |body| % 4 == 3
    ensures StripPadding(body + "=") == body
  {
    var t := body + "=";
    assert t[|t| - 2] == body[|body| - 1];
    assert IsAlphabetChar(body[|body| - 1]);
    assert t[..|t| - 1] == body;
  }

  lemma StripTwoPads(body: string)
    requires AllAlphabet(body) && |body| % 4 == 2
    ensures StripPadding(body + "==") == body
  {
    var t := body + "==";
    assert t[|t| - 2] == '=' && t[|t| - 1] == '=';
    assert t[..|t| - 2] == body;
  }

  /** Removing padding from `btoa`'s output leaves exactly the body. */
  lemma StripPaddingOfBtoa(s: string)
    requires IsLatin1(s)
    ensures StripPadding(EncodeBody(s) + Padding(|s|)) == EncodeBody(s)
  {
    var body := EncodeBody(s);
    if |s| % 3 == 0 {
      assert body + Padding(|s|) == body;
      StripNoPadding(body);
    } else if |s| % 3 == 2 {
      StripOnePad(body);
    } else {
      StripTwoPads(body);
    }
  }

  /** `atob` undoes `btoa`: every string `btoa` accepts comes back intact. */
  lemma AtobBtoa(s: string)
    requires IsLatin1(s)
    ensures Btoa(s).Some? && Atob(Btoa(s).value) == Some(s)
  {
    var body := EncodeBody(s);
    var t := body + Padding(|s|);
    assert forall i :: 0 <= i < |t| ==> !IsAsciiSpace(t[i]) by {
      forall i | 0 <= i < |t|
        ensures !IsAsciiSpace(t[i])
      {
        if i < |body| {
          assert IsAlphabetChar(body[i]);
        } else {
          assert t[i] == '=';
        }
      }
    }
    assert StripSpace(t) == t;
    StripPaddingOfBtoa(s);
    DecodeEncodeBody(s);
  }

  /** `atob` rejects a lone leftover character, such as a one-character token. */
  lemma AtobRejectsSingleChar(c: char)
    requires !IsAsciiSpace(c) && c != '='
    ensures Atob([c]).None?
  {
    assert StripSpace([c]) == [c];
  }
}
