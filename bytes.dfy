/** Byte strings and their two text renderings used by the workers:
    lowercase hex (the dedup hash, `hexToUint8`) and base64 (`btoa`/`atob`,
    `uint8ToBase64`/`base64ToUint8`, RFC 4648 section 4). */
module Bytes {
  import opened Wrappers

  /** One element of a `Uint8Array`. */
  type Byte = b: int | 0 <= b < 256

  function Min(a: int, b: int): int {
    if a <= b then a else b
  }

  // ---------------------------------------------------------------------------
  // Hex

  function HexDigit(d: int): char
    requires 0 <= d < 16
  {
    if d < 10 then ('0' as int + d) as char else ('a' as int + d - 10) as char
  }

  /** `x.toString(16).padStart(2, '0')`: two lowercase hex digits per byte. */
  function ByteToHex(b: Byte): string {
    [HexDigit(b / 16), HexDigit(b % 16)]
  }

  /** `Array.from(bytes).map(x => x.toString(16).padStart(2, '0')).join('')`. */
  function HexOf(bs: seq<Byte>): string
    decreases |bs|
  {
    if bs == [] then "" else ByteToHex(bs[0]) + HexOf(bs[1..])
  }

  /** The hex rendering has two digits per byte, the high nibble first. */
  lemma {:induction false} HexOfAt(bs: seq<Byte>, i: nat)
    requires i < |bs|
    ensures |HexOf(bs)| == 2 * |bs|
    ensures HexOf(bs)[2 * i] == HexDigit(bs[i] / 16)
    ensures HexOf(bs)[2 * i + 1] == HexDigit(bs[i] % 16)
    decreases |bs|
  {
    if i == 0 {
      HexOfLength(bs[1..]);
    } else {
      HexOfAt(bs[1..], i - 1);
    }
  }

  lemma {:induction false} HexOfLength(bs: seq<Byte>)
    ensures |HexOf(bs)| == 2 * |bs|
    decreases |bs|
  {
    if bs != [] {
      HexOfLength(bs[1..]);
    }
  }

  predicate IsLowerHexDigit(c: char) {
    '0' <= c <= '9' || 'a' <= c <= 'f'
  }

  /** The hex rendering uses lowercase digits only. */
  lemma HexOfLowercase(bs: seq<Byte>)
    ensures forall j :: 0 <= j < |HexOf(bs)| ==> IsLowerHexDigit(HexOf(bs)[j])
  {
    HexOfLength(bs);
    forall j | 0 <= j < |HexOf(bs)|
      ensures IsLowerHexDigit(HexOf(bs)[j])
    {
      HexOfAt(bs, j / 2);
    }
  }

  /** The value of a hex digit of either case, or -1. */
  function HexDigitValue(c: char): (v: int)
    ensures -1 <= v < 16
  {
    if '0' <= c <= '9' then c as int - '0' as int
    else if 'a' <= c <= 'f' then c as int - 'a' as int + 10
    else if 'A' <= c <= 'F' then c as int - 'A' as int + 10
    else -1
  }

  predicate IsHexDigit(c: char) {
    HexDigitValue(c) >= 0
  }

  /** White space and line terminators that `parseInt` skips before the number. */
  predicate IsJsWhitespace(c: char) {
    var k := c as int;
    k == 0x09 || k == 0x0A || k == 0x0B || k == 0x0C || k == 0x0D || k == 0x20
    || k == 0xA0 || k == 0x1680 || (0x2000 <= k <= 0x200A) || k == 0x2028 || k == 0x2029
    || k == 0x202F || k == 0x205F || k == 0x3000 || k == 0xFEFF
  }

  function TrimStart(s: string): string
    decreases |s|
  {
    if s != [] && IsJsWhitespace(s[0]) then TrimStart(s[1..]) else s
  }

  /** The number of leading hex digits of `s`. */
  function HexRunLength(s: string): (n: nat)
    ensures n <= |s|
    ensures forall i :: 0 <= i < n ==> IsHexDigit(s[i])
    ensures n == |s| || !IsHexDigit(s[n])
    decreases |s|
  {
    if s != [] && IsHexDigit(s[0]) then 1 + HexRunLength(s[1..]) else 0
  }

  /** The value of a run of hex digits, most significant first. */
  function HexRunValue(s: string): nat
    requires forall i :: 0 <= i < |s| ==> IsHexDigit(s[i])
    decreases |s|
  {
    if s == [] then 0
    else
      var last := s[|s| - 1];
      assert IsHexDigit(last);
      HexRunValue(s[..|s| - 1]) * 16 + HexDigitValue(last)
  }

  /** `parseInt(s, 16)`, with `None` standing for NaN: leading white space is
      skipped, one sign is read, a `0x`/`0X` prefix is dropped, and the longest
      run of hex digits that follows is the number. */
  function ParseIntHex(s: string): Option<int> {
    var t := TrimStart(s);
    var negative := t != [] && t[0] == '-';
    var u := if t != [] && (t[0] == '-' || t[0] == '+') then t[1..] else t;
    var v := if |u| >= 2 && u[0] == '0' && (u[1] == 'x' || u[1] == 'X') then u[2..] else u;
    var n := HexRunLength(v);
    if n == 0 then None
    else
      var magnitude: int := HexRunValue(v[..n]);
      Some(if negative then -magnitude else magnitude)
  }

  /** Storing a Number into a `Uint8Array` element: NaN becomes 0 and integers
      wrap modulo 256. */
  function ToUint8(v: Option<int>): Byte {
    match v
    case None => 0
    case Some(x) => x % 256
  }

  /** `hexToUint8(hex)`: an empty string gives no bytes; otherwise byte `i` is
      `parseInt` of characters `2i` and `2i+1`, and an odd last character is ignored. */
  function HexDecode(hex: string): seq<Byte> {
    if hex == "" then []
    else seq(|hex| / 2, i requires 0 <= i < |hex| / 2 => HexByteAt(hex, i))
  }

  /** `parseInt(hex.substr(i * 2, 2), 16)` stored into a `Uint8Array`. */
  function HexByteAt(hex: string, i: nat): Byte
    requires i < |hex| / 2
  {
    ToUint8(ParseIntHex(hex[2 * i .. 2 * i + 2]))
  }

  /** Two hex digits of either case read as the byte they spell. */
  lemma HexPairValue(c0: char, c1: char)
    requires IsHexDigit(c0) && IsHexDigit(c1)
    ensures ParseIntHex([c0, c1]) == Some(16 * HexDigitValue(c0) + HexDigitValue(c1))
    ensures ToUint8(ParseIntHex([c0, c1])) == 16 * HexDigitValue(c0) + HexDigitValue(c1)
  {
    var s := [c0, c1];
    assert TrimStart(s) == s;
    assert HexRunLength(s[1..][1..]) == 0;
    assert HexRunLength(s[1..]) == 1;
    assert HexRunLength(s) == 2;
    assert s[..2] == s;
    assert s[..1] == [c0] && [c0][..0] == [];
    assert HexRunValue([c0]) == HexDigitValue(c0);
  }

  /** For an even-length hex string, byte `i` is the value of digits `2i` and `2i+1`. */
  lemma HexDecodeAt(hex: string, i: nat)
    requires i < |hex| / 2
    requires IsHexDigit(hex[2 * i]) && IsHexDigit(hex[2 * i + 1])
    ensures |HexDecode(hex)| == |hex| / 2
    ensures HexDecode(hex)[i] == 16 * HexDigitValue(hex[2 * i]) + HexDigitValue(hex[2 * i + 1])
  {
    assert hex[2 * i .. 2 * i + 2] == [hex[2 * i], hex[2 * i + 1]];
    HexPairValue(hex[2 * i], hex[2 * i + 1]);
  }

  /** `hexToUint8` inverts the chunker's hex rendering. */
  lemma HexRoundTrip(bs: seq<Byte>)
    ensures HexDecode(HexOf(bs)) == bs
  {
    HexOfLength(bs);
    var h := HexOf(bs);
    if bs != [] {
      forall i | 0 <= i < |bs|
        ensures HexDecode(h)[i] == bs[i]
      {
        HexOfAt(bs, i);
        HexDecodeAt(h, i);
      }
    }
  }

  /** `hexToUint8`, filling a fresh `Uint8Array` in a loop. */
  method HexToUint8(hex: string) returns (r: seq<Byte>)
    ensures r == HexDecode(hex)
  {
    if hex == "" {
      return [];
    }
    ghost var decoded := HexDecode(hex);
    var u8 := new Byte[|hex| / 2];
    for i := 0 to u8.Length
      invariant u8[..i] == decoded[..i]
    {
      u8[i] := HexByteAt(hex, i);
      assert u8[..i + 1] == u8[..i] + [decoded[i]];
    }
    assert u8[..] == u8[..u8.Length];
    r := u8[..];
  }

  // ---------------------------------------------------------------------------
  // Base64 (RFC 4648 section 4)

  /** The base64 alphabet: one character per 6-bit value. */
  function SextetChar(v: int): char
    requires 0 <= v < 64
  {
    if v < 26 then ('A' as int + v) as char
    else if v < 52 then ('a' as int + v - 26) as char
    else if v < 62 then ('0' as int + v - 52) as char
    else if v == 62 then '+'
    else '/'
  }

  predicate IsBase64Char(c: char) {
    'A' <= c <= 'Z' || 'a' <= c <= 'z' || '0' <= c <= '9' || c == '+' || c == '/'
  }

  /** The 6-bit value of an alphabet character. */
  function SextetOf(c: char): (v: int)
    requires IsBase64Char(c)
    ensures 0 <= v < 64
  {
    if 'A' <= c <= 'Z' then c as int - 'A' as int
    else if 'a' <= c <= 'z' then c as int - 'a' as int + 26
    else if '0' <= c <= '9' then c as int - '0' as int + 52
    else if c == '+' then 62
    else 63
  }

  /** Three bytes as four characters. */
  function EncodeTriple(b0: Byte, b1: Byte, b2: Byte): string {
    [SextetChar(b0 / 4), SextetChar((b0 % 4) * 16 + b1 / 16), SextetChar((b1 % 16) * 4 + b2 / 64), SextetChar(b2 % 64)]
  }

  /** The encoding without its `=` padding. */
  function EncodeUnpadded(bs: seq<Byte>): string
    decreases |bs|
  {
    if |bs| >= 3 then EncodeTriple(bs[0], bs[1], bs[2]) + EncodeUnpadded(bs[3..])
    else if |bs| == 2 then [SextetChar(bs[0] / 4), SextetChar((bs[0] % 4) * 16 + bs[1] / 16), SextetChar((bs[1] % 16) * 4)]
    else if |bs| == 1 then [SextetChar(bs[0] / 4), SextetChar((bs[0] % 4) * 16)]
    else ""
  }

  function Padding(n: nat): string {
    if n % 3 == 1 then "==" else if n % 3 == 2 then "=" else ""
  }

  /** `btoa` of the binary string whose character codes are `bs`. */
  function Base64Encode(bs: seq<Byte>): string {
    EncodeUnpadded(bs) + Padding(|bs|)
  }

  /** The binary string `String.fromCharCode(...bs)`: one character per byte. */
  function Latin1(bs: seq<Byte>): (s: string)
    ensures |s| == |bs|
    ensures forall i :: 0 <= i < |bs| ==> s[i] as int == bs[i] as int
  {
    seq(|bs|, i requires 0 <= i < |bs| => bs[i] as char)
  }

  predicate IsLatin1(s: string) {
    forall i :: 0 <= i < |s| ==> s[i] as int < 256
  }

  function CharCodes(s: string): seq<Byte>
    requires IsLatin1(s)
  {
    seq(|s|, i requires 0 <= i < |s| => s[i] as int)
  }

  /** `btoa(s)` for a string of Latin-1 characters. */
  function Btoa(s: string): string
    requires IsLatin1(s)
  {
    Base64Encode(CharCodes(s))
  }

  /** ASCII white space, which `atob` removes first. */
  predicate IsAsciiWhitespace(c: char) {
    c == '\t' || c == '\n' || c as int == 0x0C || c == '\r' || c == ' '
  }

  function RemoveWhitespace(s: string): string
    decreases |s|
  {
    if s == [] then []
    else if IsAsciiWhitespace(s[0]) then RemoveWhitespace(s[1..])
    else [s[0]] + RemoveWhitespace(s[1..])
  }

  /** When the length is a multiple of four, one or two trailing `=` are removed. */
  function StripPadding(s: string): string {
    if |s| % 4 == 0 && |s| >= 2 && s[|s| - 2] == '=' && s[|s| - 1] == '=' then s[..|s| - 2]
    else if |s| % 4 == 0 && |s| >= 1 && s[|s| - 1] == '=' then s[..|s| - 1]
    else s
  }

  predicate AllBase64(s: string) {
    forall i :: 0 <= i < |s| ==> IsBase64Char(s[i])
  }

  /** Four characters as three bytes. */
  function DecodeQuad(c0: char, c1: char, c2: char, c3: char): seq<Byte>
    requires IsBase64Char(c0) && IsBase64Char(c1) && IsBase64Char(c2) && IsBase64Char(c3)
  {
    var v0, v1, v2, v3 := SextetOf(c0), SextetOf(c1), SextetOf(c2), SextetOf(c3);
    [v0 * 4 + v1 / 16, (v1 % 16) * 16 + v2 / 4, (v2 % 4) * 64 + v3]
  }

  /** Decodes alphabet characters; a tail of two or three characters gives one
      or two bytes and its leftover bits are discarded. */
  function DecodeSextets(s: string): seq<Byte>
    requires AllBase64(s) && |s| % 4 != 1
    decreases |s|
  {
    if |s| >= 4 then DecodeQuad(s[0], s[1], s[2], s[3]) + DecodeSextets(s[4..])
    else if |s| == 3 then
      var v0, v1, v2 := SextetOf(s[0]), SextetOf(s[1]), SextetOf(s[2]);
      [v0 * 4 + v1 / 16, (v1 % 16) * 16 + v2 / 4]
    else if |s| == 2 then [SextetOf(s[0]) * 4 + SextetOf(s[1]) / 16]
    else []
  }

  /** The name of the exception `atob` throws on a string that is not base64;
      both workers report it as the error text. */
  const INVALID_CHARACTER := "InvalidCharacterError"

  /** `atob`'s forgiving-base64 decode: `None` is the InvalidCharacterError it throws. */
  function ForgivingDecode(s: string): Option<seq<Byte>> {
    var t := StripPadding(RemoveWhitespace(s));
    if |t| % 4 == 1 || !AllBase64(t) then None else Some(DecodeSextets(t))
  }

  /** `atob(s)`: the decoded bytes as a binary string. */
  function Atob(s: string): Option<string> {
    match ForgivingDecode(s)
    case None => None
    case Some(bs) => Some(Latin1(bs))
  }

  lemma {:induction false} EncodeUnpaddedShape(bs: seq<Byte>)
    ensures AllBase64(EncodeUnpadded(bs))
    ensures |EncodeUnpadded(bs)| == 4 * (|bs| / 3) + (if |bs| % 3 == 0 then 0 else |bs| % 3 + 1)
    decreases |bs|
  {
    if |bs| >= 3 {
      EncodeUnpaddedShape(bs[3..]);
      var e := EncodeUnpadded(bs);
      var t := EncodeTriple(bs[0], bs[1], bs[2]);
      assert e == t + EncodeUnpadded(bs[3..]);
      forall i | 0 <= i < |e| ensures IsBase64Char(e[i]) {
        if i >= 4 {
          assert e[i] == EncodeUnpadded(bs[3..])[i - 4];
        }
      }
    }
  }

  lemma SextetRoundTrip(v: int)
    requires 0 <= v < 64
    ensures IsBase64Char(SextetChar(v)) && SextetOf(SextetChar(v)) == v
  {
  }

  /** Splitting a number into a multiple of 16 and a remainder below 16. */
  lemma Split16(q: int, r: int)
    requires 0 <= r < 16
    ensures (q * 16 + r) / 16 == q && (q * 16 + r) % 16 == r
  {
  }

  /** Splitting a number into a multiple of 4 and a remainder below 4. */
  lemma Split4(q: int, r: int)
    requires 0 <= r < 4
    ensures (q * 4 + r) / 4 == q && (q * 4 + r) % 4 == r
  {
  }

  /** Four sextets written as characters read back as the three bytes they pack. */
  lemma DecodeSextetQuad(v0: int, v1: int, v2: int, v3: int)
    requires 0 <= v0 < 64 && 0 <= v1 < 64 && 0 <= v2 < 64 && 0 <= v3 < 64
    ensures var e := [SextetChar(v0), SextetChar(v1), SextetChar(v2), SextetChar(v3)];
      AllBase64(e) && DecodeQuad(e[0], e[1], e[2], e[3]) == [v0 * 4 + v1 / 16, (v1 % 16) * 16 + v2 / 4, (v2 % 4) * 64 + v3]
  {
    SextetRoundTrip(v0);
    SextetRoundTrip(v1);
    SextetRoundTrip(v2);
    SextetRoundTrip(v3);
  }

  /** The four sextets of three bytes recombine into those bytes. */
  lemma TripleSextets(b0: Byte, b1: Byte, b2: Byte)
    ensures var v0, v1, v2, v3 := b0 / 4, (b0 % 4) * 16 + b1 / 16, (b1 % 16) * 4 + b2 / 64, b2 % 64;
      v0 * 4 + v1 / 16 == b0 && (v1 % 16) * 16 + v2 / 4 == b1 && (v2 % 4) * 64 + v3 == b2
  {
    Split16(b0 % 4, b1 / 16);
    Split4(b1 % 16, b2 / 64);
  }

  lemma DecodeTriple(b0: Byte, b1: Byte, b2: Byte)
    ensures AllBase64(EncodeTriple(b0, b1, b2))
    ensures var e := EncodeTriple(b0, b1, b2); DecodeQuad(e[0], e[1], e[2], e[3]) == [b0, b1, b2]
  {
    var v0, v1, v2, v3 := b0 / 4, (b0 % 4) * 16 + b1 / 16, (b1 % 16) * 4 + b2 / 64, b2 % 64;
    TripleSextets(b0, b1, b2);
    DecodeSextetQuad(v0, v1, v2, v3);
  }

  lemma DecodeTail2(b0: Byte, b1: Byte)
    ensures AllBase64(EncodeUnpadded([b0, b1])) && |EncodeUnpadded([b0, b1])| == 3
    ensures DecodeSextets(EncodeUnpadded([b0, b1])) == [b0, b1]
  {
    var v0, v1, v2 := b0 / 4, (b0 % 4) * 16 + b1 / 16, (b1 % 16) * 4;
    SextetRoundTrip(v0);
    SextetRoundTrip(v1);
    SextetRoundTrip(v2);
    Split16(b0 % 4, b1 / 16);
    Split4(b1 % 16, 0);
    var e := EncodeUnpadded([b0, b1]);
    assert e == [SextetChar(v0), SextetChar(v1), SextetChar(v2)];
    assert DecodeSextets(e) == [v0 * 4 + v1 / 16, (v1 % 16) * 16 + v2 / 4];
  }

  lemma DecodeTail1(b0: Byte)
    ensures AllBase64(EncodeUnpadded([b0])) && |EncodeUnpadded([b0])| == 2
    ensures DecodeSextets(EncodeUnpadded([b0])) == [b0]
  {
    var v0, v1 := b0 / 4, (b0 % 4) * 16;
    SextetRoundTrip(v0);
    SextetRoundTrip(v1);
    Split16(b0 % 4, 0);
    var e := EncodeUnpadded([b0]);
    assert e == [SextetChar(v0), SextetChar(v1)];
    assert DecodeSextets(e) == [v0 * 4 + v1 / 16];
  }

  /** Decoding proceeds four characters at a time. */
  lemma DecodeConcat(t: string, rest: string)
    requires |t| == 4 && AllBase64(t) && AllBase64(rest) && |rest| % 4 != 1
    ensures AllBase64(t + rest) && |t + rest| % 4 != 1
    ensures DecodeSextets(t + rest) == DecodeQuad(t[0], t[1], t[2], t[3]) + DecodeSextets(rest)
  {
    var e := t + rest;
    assert e[4..] == rest;
  }

  /** A whole triple in front decodes to itself, given that the rest does. */
  lemma DecodeEncodeStep(bs: seq<Byte>)
    requires |bs| >= 3
    requires AllBase64(EncodeUnpadded(bs[3..])) && |EncodeUnpadded(bs[3..])| % 4 != 1
    requires DecodeSextets(EncodeUnpadded(bs[3..])) == bs[3..]
    ensures AllBase64(EncodeUnpadded(bs)) && |EncodeUnpadded(bs)| % 4 != 1
    ensures DecodeSextets(EncodeUnpadded(bs)) == bs
  {
    var t := EncodeTriple(bs[0], bs[1], bs[2]);
    var rest := EncodeUnpadded(bs[3..]);
    assert EncodeUnpadded(bs) == t + rest;
    DecodeTriple(bs[0], bs[1], bs[2]);
    DecodeConcat(t, rest);
    assert bs[..3] == [bs[0], bs[1], bs[2]];
    assert bs[..3] + bs[3..] == bs;
  }

  lemma {:induction false} DecodeEncodeUnpadded(bs: seq<Byte>)
    ensures AllBase64(EncodeUnpadded(bs)) && |EncodeUnpadded(bs)| % 4 != 1
    ensures DecodeSextets(EncodeUnpadded(bs)) == bs
    decreases |bs|
  {
    EncodeUnpaddedShape(bs);
    if |bs| >= 3 {
      DecodeEncodeUnpadded(bs[3..]);
      DecodeEncodeStep(bs);
    } else if |bs| == 2 {
      DecodeTail2(bs[0], bs[1]);
      assert bs == [bs[0], bs[1]];
    } else if |bs| == 1 {
      DecodeTail1(bs[0]);
      assert bs == [bs[0]];
    }
  }

  /** Stripping the padding that completes a string of alphabet characters to
      a multiple of four leaves that string. */
  lemma StripPaddingOf(u: string, n: nat)
    requires AllBase64(u)
    requires |u| % 4 == (if n % 3 == 0 then 0 else n % 3 + 1)
    ensures StripPadding(u + Padding(n)) == u
  {
    var e := u + Padding(n);
    if n % 3 == 1 {
      assert e[..|e| - 2] == u;
    } else if n % 3 == 2 {
      assert IsBase64Char(u[|u| - 1]);
      assert e[|e| - 2] == u[|u| - 1];
      assert e[..|e| - 1] == u;
    } else {
      assert e == u;
      if u != [] {
        assert IsBase64Char(u[|u| - 1]);
      }
    }
  }

  /** Stripping the padding of an encoding leaves the unpadded encoding. */
  lemma StripEncodedPadding(bs: seq<Byte>)
    ensures StripPadding(Base64Encode(bs)) == EncodeUnpadded(bs)
  {
    EncodeUnpaddedShape(bs);
    var u := EncodeUnpadded(bs);
    var r := if |bs| % 3 == 0 then 0 else |bs| % 3 + 1;
    Split4(|bs| / 3, r);
    assert |u| % 4 == r;
    StripPaddingOf(u, |bs|);
  }

  /** `atob(btoa(x))` returns `x`: decoding the padded encoding gives the bytes back. */
  lemma Base64RoundTrip(bs: seq<Byte>)
    ensures ForgivingDecode(Base64Encode(bs)) == Some(bs)
  {
    var u := EncodeUnpadded(bs);
    var e := Base64Encode(bs);
    EncodeUnpaddedShape(bs);
    forall i | 0 <= i < |e|
      ensures IsBase64Char(e[i]) || e[i] == '='
    {
      if i >= |u| {
        assert e[i] == Padding(|bs|)[i - |u|];
      }
    }
    NoWhitespace(e);
    StripEncodedPadding(bs);
    DecodeEncodeUnpadded(bs);
  }

  /** A string of alphabet characters and `=` has no white space to remove. */
  lemma {:induction false} NoWhitespace(s: string)
    requires forall i :: 0 <= i < |s| ==> IsBase64Char(s[i]) || s[i] == '='
    ensures RemoveWhitespace(s) == s
    decreases |s|
  {
    if s != [] {
      NoWhitespace(s[1..]);
    }
  }

  /** `uint8ToBase64`: the binary string is built in blocks of 0x8000 bytes
      (`String.fromCharCode.apply` on each block) and then passed to `btoa`. */
  method Uint8ToBase64(u8: seq<Byte>) returns (r: string)
    ensures r == Base64Encode(u8)
  {
    var block := 0x8000;
    var index := 0;
    var result := "";
    while index < |u8|
      invariant result == Latin1(u8[..Min(index, |u8|)])
      decreases |u8| - index
    {
      var slice := u8[index .. Min(index + block, |u8|)];
      assert u8[..Min(index + block, |u8|)] == u8[..index] + slice;
      result := result + Latin1(slice);
      index := index + block;
    }
    assert u8[..Min(index, |u8|)] == u8;
    assert CharCodes(result) == u8;
    r := Btoa(result);
  }

  /** `base64ToUint8`: `atob`, then the character codes copied into a fresh
      `Uint8Array`; `None` is the exception `atob` throws. */
  method Base64ToUint8(b64: string) returns (r: Option<seq<Byte>>)
    ensures r == ForgivingDecode(b64)
  {
    var bin := Atob(b64);
    if bin.None? {
      return None;
    }
    var s := bin.value;
    var u8 := new Byte[|s|];
    for i := 0 to |s|
      invariant forall k :: 0 <= k < i ==> u8[k] == s[k] as int
    {
      u8[i] := s[i] as int;
    }
    assert u8[..] == ForgivingDecode(b64).value;
    r := Some(u8[..]);
  }
}
