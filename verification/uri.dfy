/**
 `encodeURIComponent` (section 19.2.6.5 of ECMA-262): percent-encoding in
 the sense of section 2.1 of RFC 3986 of the UTF-8 bytes (section 3 of
 RFC 3629) of every character outside the unreserved set of section 2.3 of
 RFC 3986 and `! * ' ( )`, with upper-case hexadecimal digits.

 `Decode` is its inverse in the manner of `decodeURIComponent`: it reads
 literal characters and `%XX` groups and rejects malformed groups, invalid
 UTF-8, overlong forms, surrogates and code points above U+10FFFF.
 */
module UriComponent {
  import opened Js

  /** The characters `encodeURIComponent` copies unchanged. */
  predicate IsUnescaped(c: char) {
    ('A' <= c <= 'Z') || ('a' <= c <= 'z') || ('0' <= c <= '9')
    || c == '-' || c == '_' || c == '.' || c == '!' || c == '~'
    || c == '*' || c == '\'' || c == '(' || c == ')'
  }

  predicate IsUpperHexDigit(c: char) {
    ('0' <= c <= '9') || ('A' <= c <= 'F')
  }

  function UpperHex(d: nat): (c: char)
    requires d < 16
    ensures IsUpperHexDigit(c)
  {
    "0123456789ABCDEF"[d]
  }

  predicate IsByte(b: nat) {
    b < 256
  }

  /** The UTF-8 bytes of one code point, shortest form. */
  function Utf8(c: char): (bytes: seq<nat>)
    ensures 1 <= |bytes| <= 4
    ensures forall i :: 0 <= i < |bytes| ==> IsByte(bytes[i])
  {
    var n := c as int;
    if n < 0x80 then [n]
    else if n < 0x800 then [0xC0 + n / 64, 0x80 + n % 64]
    else if n < 0x10000 then [0xE0 + n / 4096, 0x80 + n / 64 % 64, 0x80 + n % 64]
    else [0xF0 + n / 262144, 0x80 + n / 4096 % 64, 0x80 + n / 64 % 64, 0x80 + n % 64]
  }

  function PercentByte(b: nat): (r: string)
    requires IsByte(b)
    ensures |r| == 3 && r[0] == '%'
  {
    ['%', UpperHex(b / 16), UpperHex(b % 16)]
  }

  function PercentBytes(bytes: seq<nat>): (r: string)
    requires forall i :: 0 <= i < |bytes| ==> IsByte(bytes[i])
    ensures |r| == 3 * |bytes|
    ensures forall i :: 0 <= i < |r| ==> r[i] == '%' || IsUpperHexDigit(r[i])
  {
    if bytes == [] then "" else PercentByte(bytes[0]) + PercentBytes(bytes[1..])
  }

  function EncodeChar(c: char): (r: string)
    ensures forall i :: 0 <= i < |r| ==> IsUnescaped(r[i]) || r[i] == '%' || IsUpperHexDigit(r[i])
  {
    if IsUnescaped(c) then [c] else PercentBytes(Utf8(c))
  }

  /** `encodeURIComponent(s)` */
  function Encode(s: string): (r: string)
    ensures forall i :: 0 <= i < |r| ==> IsUnescaped(r[i]) || r[i] == '%' || IsUpperHexDigit(r[i])
  {
    if s == [] then "" else EncodeChar(s[0]) + Encode(s[1..])
  }

  // ---------------------------------------------------------------------
  // Decoding
  // ---------------------------------------------------------------------

  /** The byte written as `%XX` at position `i` of `s`, if there is one. */
  function OctetAt(s: string, i: nat): (r: Option<nat>)
    ensures r.Some? ==> IsByte(r.value) && i + 3 <= |s|
  {
    if i + 3 <= |s| && s[i] == '%' then
      match (HexValue(s[i + 1]), HexValue(s[i + 2]))
      case (Some(h), Some(l)) => Some(16 * h + l)
      case _ => None
    else None
  }

  /** The six payload bits of the `k`-th `%XX` group when it is a UTF-8
      continuation byte. */
  function ContinuationAt(s: string, k: nat): (r: Option<nat>)
    ensures r.Some? ==> r.value < 64
  {
    match OctetAt(s, 3 * k)
    case Some(b) => if 0x80 <= b < 0xC0 then Some(b - 0x80) else None
    case None => None
  }

  /** Appends the payload of groups `k` up to `n - 1` to `acc`. */
  function Accumulate(s: string, k: nat, n: nat, acc: nat): Option<nat>
    decreases n - k
  {
    if k >= n then Some(acc)
    else match ContinuationAt(s, k)
      case None => None
      case Some(v) => Accumulate(s, k + 1, n, acc * 64 + v)
  }

  /** A multi-byte sequence of `n` groups whose lead byte carries `lead`;
      `least` is the smallest code point that needs `n` bytes. */
  function DecodeMulti(s: string, n: nat, lead: nat, least: nat): (r: Option<(char, nat)>)
    requires 2 <= n <= 4
    ensures r.Some? ==> r.value.1 == 3 * n
  {
    match Accumulate(s, 1, n, lead)
    case None => None
    case Some(cp) =>
      if least <= cp < 0x110000 && !(0xD800 <= cp < 0xE000) then Some((cp as char, 3 * n)) else None
  }

  /** The character written by the `%XX` groups at the front of `s`, and how
      many characters of `s` they take. */
  function DecodeSequence(s: string): (r: Option<(char, nat)>)
    ensures r.Some? ==> 3 <= r.value.1 <= |s|
  {
    match OctetAt(s, 0)
    case None => None
    case Some(b0) =>
      if b0 < 0x80 then Some((b0 as char, 3))
      else if 0xC0 <= b0 < 0xE0 then CheckedMulti(s, 2, b0 - 0xC0, 0x80)
      else if 0xE0 <= b0 < 0xF0 then CheckedMulti(s, 3, b0 - 0xE0, 0x800)
      else if 0xF0 <= b0 < 0xF8 then CheckedMulti(s, 4, b0 - 0xF0, 0x10000)
      else None
  }

  function CheckedMulti(s: string, n: nat, lead: nat, least: nat): (r: Option<(char, nat)>)
    requires 2 <= n <= 4
    ensures r.Some? ==> 3 <= r.value.1 <= |s|
  {
    var r := DecodeMulti(s, n, lead, least);
    if r.Some? && OctetAt(s, 3 * (n - 1)).Some? then r else None
  }

  function Prepend(c: char, r: Option<string>): Option<string>
  {
    match r
    case Some(t) => Some([c] + t)
    case None => None
  }

  /** `decodeURIComponent(s)`, with `None` for a URIError. */
  function Decode(s: string): Option<string>
    decreases |s|
  {
    if s == [] then Some("")
    else if s[0] != '%' then Prepend(s[0], Decode(s[1..]))
    else match DecodeSequence(s)
      case None => None
      case Some((c, k)) => Prepend(c, Decode(s[k..]))
  }

  // ---------------------------------------------------------------------
  // Properties
  // ---------------------------------------------------------------------

  lemma HexRoundTrip(d: nat)
    requires d < 16
    ensures HexValue(UpperHex(d)) == Some(d)
  {
  }

  lemma {:induction false} OctetOfPercentByte(b: nat, t: string)
    requires IsByte(b)
    ensures OctetAt(PercentByte(b) + t, 0) == Some(b)
  {
    HexRoundTrip(b / 16);
    HexRoundTrip(b % 16);
  }

  /** The `k`-th group of an encoded byte string reads back the `k`-th byte. */
  lemma {:induction false} OctetOfPercentBytes(bytes: seq<nat>, t: string, k: nat)
    requires forall i :: 0 <= i < |bytes| ==> IsByte(bytes[i])
    requires k < |bytes|
    ensures OctetAt(PercentBytes(bytes) + t, 3 * k) == Some(bytes[k])
  {
    var s := PercentBytes(bytes) + t;
    var rest := PercentBytes(bytes[1..]) + t;
    assert s == PercentByte(bytes[0]) + rest;
    if k == 0 {
      OctetOfPercentByte(bytes[0], rest);
    } else {
      OctetOfPercentBytes(bytes[1..], t, k - 1);
      OctetShift(PercentByte(bytes[0]), rest, 3 * (k - 1));
    }
  }

  /** A group is read the same after a prefix is put in front of it. */
  lemma OctetShift(p: string, r: string, i: nat)
    ensures OctetAt(p + r, |p| + i) == OctetAt(r, i)
  {
    if i + 3 <= |r| {
      assert (p + r)[|p| + i] == r[i];
      assert (p + r)[|p| + i + 1] == r[i + 1];
      assert (p + r)[|p| + i + 2] == r[i + 2];
    }
  }

  lemma Recombine(n: nat)
    ensures n / 64 * 64 + n % 64 == n
  {
  }

  lemma DivideTwice(n: nat)
    ensures n / 64 / 64 == n / 4096
  {
    var q, r := n / 4096, n % 4096;
    assert n == 64 * (64 * q + r / 64) + r % 64;
  }

  lemma DivideThrice(n: nat)
    ensures n / 4096 / 64 == n / 262144
  {
    var q, r := n / 262144, n % 262144;
    assert n == 4096 * (64 * q + r / 4096) + r % 4096;
  }

  /** A group holding a continuation byte carries its low six bits. */
  lemma ContinuationOf(s: string, k: nat, b: nat)
    requires OctetAt(s, 3 * k) == Some(b) && 0x80 <= b < 0xC0
    ensures ContinuationAt(s, k) == Some(b - 0x80)
  {
  }

  /** Two groups: a lead byte with five bits of `n`, then six bits. */
  lemma TwoGroups(s: string, n: nat)
    requires 0x80 <= n < 0x800
    requires OctetAt(s, 0) == Some(0xC0 + n / 64)
    requires ContinuationAt(s, 1) == Some(n % 64)
    ensures DecodeSequence(s) == Some((n as char, 6))
  {
    Recombine(n);
    assert Accumulate(s, 2, 2, n / 64 * 64 + n % 64) == Some(n);
    assert DecodeMulti(s, 2, n / 64, 0x80) == Some((n as char, 6));
  }

  /** Three groups: a lead byte with four bits of `n`, then six and six. */
  lemma ThreeGroups(s: string, n: nat)
    requires 0x800 <= n < 0x10000 && !(0xD800 <= n < 0xE000)
    requires OctetAt(s, 0) == Some(0xE0 + n / 4096) && n / 4096 < 16
    requires ContinuationAt(s, 1) == Some(n / 64 % 64)
    requires ContinuationAt(s, 2) == Some(n % 64)
    ensures DecodeSequence(s) == Some((n as char, 9))
  {
    DivideTwice(n);
    Recombine(n);
    Recombine(n / 64);
    assert Accumulate(s, 3, 3, n / 64 * 64 + n % 64) == Some(n);
    assert Accumulate(s, 2, 3, n / 64) == Some(n);
    assert DecodeMulti(s, 3, n / 4096, 0x800) == Some((n as char, 9));
  }

  /** Four groups: a lead byte with three bits of `n`, then three times six. */
  lemma FourGroups(s: string, n: nat)
    requires 0x10000 <= n < 0x110000
    requires OctetAt(s, 0) == Some(0xF0 + n / 262144) && n / 262144 < 8
    requires ContinuationAt(s, 1) == Some(n / 4096 % 64)
    requires ContinuationAt(s, 2) == Some(n / 64 % 64)
    requires ContinuationAt(s, 3) == Some(n % 64)
    ensures DecodeSequence(s) == Some((n as char, 12))
  {
    FourByteValue(s, n);
    assert DecodeMulti(s, 4, n / 262144, 0x10000) == Some((n as char, 12));
  }

  lemma FourByteValue(s: string, n: nat)
    requires ContinuationAt(s, 1) == Some(n / 4096 % 64)
    requires ContinuationAt(s, 2) == Some(n / 64 % 64)
    requires ContinuationAt(s, 3) == Some(n % 64)
    ensures Accumulate(s, 1, 4, n / 262144) == Some(n)
  {
    DivideTwice(n);
    DivideThrice(n);
    Recombine(n);
    Recombine(n / 64);
    Recombine(n / 4096);
    assert Accumulate(s, 4, 4, n / 64 * 64 + n % 64) == Some(n);
    assert Accumulate(s, 3, 4, n / 64) == Some(n);
    assert Accumulate(s, 2, 4, n / 4096) == Some(n);
  }

  lemma TwoByteForm(c: char)
    requires 0x80 <= c as int < 0x800
    ensures var n := c as int; Utf8(c) == [0xC0 + n / 64, 0x80 + n % 64]
  {
  }

  lemma ThreeByteForm(c: char)
    requires 0x800 <= c as int < 0x10000
    ensures var n := c as int;
      Utf8(c) == [0xE0 + n / 4096, 0x80 + n / 64 % 64, 0x80 + n % 64] && n / 4096 < 16
  {
  }

  lemma FourByteForm(c: char)
    requires 0x10000 <= c as int
    ensures var n := c as int;
      Utf8(c) == [0xF0 + n / 262144, 0x80 + n / 4096 % 64, 0x80 + n / 64 % 64, 0x80 + n % 64] && n / 262144 < 8
  {
  }

  lemma {:induction false} DecodeTwoBytes(c: char, t: string)
    requires 0x80 <= c as int < 0x800
    ensures DecodeSequence(PercentBytes(Utf8(c)) + t) == Some((c, 6))
  {
    var bytes := Utf8(c);
    var s := PercentBytes(bytes) + t;
    TwoByteForm(c);
    OctetOfPercentBytes(bytes, t, 0);
    OctetOfPercentBytes(bytes, t, 1);
    ContinuationOf(s, 1, bytes[1]);
    TwoGroups(s, c as int);
  }

  lemma {:induction false} DecodeThreeBytes(c: char, t: string)
    requires 0x800 <= c as int < 0x10000
    ensures DecodeSequence(PercentBytes(Utf8(c)) + t) == Some((c, 9))
  {
    var bytes := Utf8(c);
    var s := PercentBytes(bytes) + t;
    ThreeByteForm(c);
    OctetOfPercentBytes(bytes, t, 0);
    OctetOfPercentBytes(bytes, t, 1);
    OctetOfPercentBytes(bytes, t, 2);
    ContinuationOf(s, 1, bytes[1]);
    ContinuationOf(s, 2, bytes[2]);
    ThreeGroups(s, c as int);
  }

  lemma {:induction false} DecodeFourBytes(c: char, t: string)
    requires 0x10000 <= c as int
    ensures DecodeSequence(PercentBytes(Utf8(c)) + t) == Some((c, 12))
  {
    var bytes := Utf8(c);
    var s := PercentBytes(bytes) + t;
    FourByteForm(c);
    OctetOfPercentBytes(bytes, t, 0);
    OctetOfPercentBytes(bytes, t, 1);
    OctetOfPercentBytes(bytes, t, 2);
    OctetOfPercentBytes(bytes, t, 3);
    ContinuationOf(s, 1, bytes[1]);
    ContinuationOf(s, 2, bytes[2]);
    ContinuationOf(s, 3, bytes[3]);
    FourGroups(s, c as int);
  }

  /** Decoding the encoding of one character yields that character and
      leaves the rest of the text to be decoded. */
  lemma {:induction false} DecodeEncodeChar(c: char, rest: string)
    ensures Decode(EncodeChar(c) + rest) == Prepend(c, Decode(rest))
  {
    var s := EncodeChar(c) + rest;
    if IsUnescaped(c) {
      assert s[1..] == rest;
    } else {
      var bytes := Utf8(c);
      if c as int < 0x80 {
        OctetOfPercentByte(c as int, rest);
        assert s == PercentByte(c as int) + rest;
        assert s[3..] == rest;
      } else {
        if c as int < 0x800 {
          DecodeTwoBytes(c, rest);
        } else if c as int < 0x10000 {
          DecodeThreeBytes(c, rest);
        } else {
          DecodeFourBytes(c, rest);
        }
        assert s[3 * |bytes|..] == rest;
      }
    }
  }

  /** Round trip: decoding the encoding of any text gives the text back. */
  lemma {:induction false} DecodeEncode(s: string)
    ensures Decode(Encode(s)) == Some(s)
  {
    if s != [] {
      DecodeEncode(s[1..]);
      DecodeEncodeChar(s[0], Encode(s[1..]));
      assert [s[0]] + s[1..] == s;
    }
  }

  /** A text made only of unescaped characters is its own encoding. */
  lemma {:induction false} EncodeUnescaped(s: string)
    requires forall i :: 0 <= i < |s| ==> IsUnescaped(s[i])
    ensures Encode(s) == s
  {
    if s != [] {
      EncodeUnescaped(s[1..]);
      assert [s[0]] + s[1..] == s;
    }
  }
}
