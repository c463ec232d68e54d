// The text encodings of the stored formats: strict UTF-8 (RFC 3629) for file
// ids and ASCII for algorithm names.

module Text {
  import opened Results
  import opened ByteStrings

  function EncodeChar(c: char): (b: Bytes)
    ensures 1 <= |b| <= 4
  {
    var n := c as int;
    if n < 0x80 then [n]
    else if n < 0x800 then [0xC0 + n / 0x40, 0x80 + n % 0x40]
    else if n < 0x1_0000 then [0xE0 + n / 0x1000, 0x80 + n / 0x40 % 0x40, 0x80 + n % 0x40]
    else [0xF0 + n / 0x4_0000, 0x80 + n / 0x1000 % 0x40, 0x80 + n / 0x40 % 0x40, 0x80 + n % 0x40]
  }

  /** The payload bits of a byte above its marker. */
  function Bits(b: Byte, marker: int): int {
    b - marker
  }

  predicate Continues(b: Byte) {
    0x80 <= b < 0xC0
  }

  predicate IsScalar(n: int) {
    0 <= n < 0xD800 || 0xE000 <= n < 0x11_0000
  }

  /** The first character of b and the number of bytes it takes; overlong forms,
      surrogates and stray continuation bytes are rejected. */
  function DecodeFirst(b: Bytes): (r: Option<(char, nat)>)
    requires b != []
    ensures r.Some? ==> 1 <= r.value.1 <= |b|
  {
    if b[0] < 0x80 then Some((b[0] as char, 1))
    else if 0xC0 <= b[0] < 0xE0 && |b| >= 2 && Continues(b[1]) then
      var n := Bits(b[0], 0xC0) * 0x40 + Bits(b[1], 0x80);
      if 0x80 <= n then Some((n as char, 2)) else None
    else if 0xE0 <= b[0] < 0xF0 && |b| >= 3 && Continues(b[1]) && Continues(b[2]) then
      var n := Bits(b[0], 0xE0) * 0x1000 + Bits(b[1], 0x80) * 0x40 + Bits(b[2], 0x80);
      if 0x800 <= n && IsScalar(n) then Some((n as char, 3)) else None
    else if 0xF0 <= b[0] < 0xF8 && |b| >= 4 && Continues(b[1]) && Continues(b[2]) && Continues(b[3]) then
      var n := Bits(b[0], 0xF0) * 0x4_0000 + Bits(b[1], 0x80) * 0x1000 + Bits(b[2], 0x80) * 0x40 + Bits(b[3], 0x80);
      if 0x1_0000 <= n && IsScalar(n) then Some((n as char, 4)) else None
    else None
  }

  function Encode(s: string): Bytes {
    if s == "" then [] else EncodeChar(s[0]) + Encode(s[1..])
  }

  function Decode(b: Bytes): Option<string> {
    if b == [] then Some("")
    else match DecodeFirst(b)
      case None => None
      case Some((c, k)) =>
        match Decode(b[k..])
        case None => None
        case Some(rest) => Some([c] + rest)
  }

  lemma {:induction false} FirstDecodes(c: char, rest: Bytes)
    ensures DecodeFirst(EncodeChar(c) + rest) == Some((c, |EncodeChar(c)|))
  {
    var n, e := c as int, EncodeChar(c);
    assert forall i :: 0 <= i < |e| ==> (e + rest)[i] == e[i];
    assert n / 0x1000 == n / 0x40 / 0x40 && n / 0x4_0000 == n / 0x1000 / 0x40;
  }

  lemma {:induction false} DecodesWhatWasEncoded(s: string)
    ensures Decode(Encode(s)) == Some(s)
  {
    if s != "" {
      DecodesWhatWasEncoded(s[1..]);
      FirstDecodes(s[0], Encode(s[1..]));
      assert Encode(s)[|EncodeChar(s[0])|..] == Encode(s[1..]);
      assert [s[0]] + s[1..] == s;
    }
  }

  lemma SixBits(high: nat, low: nat)
    requires low < 0x40
    ensures (high * 0x40 + low) / 0x40 == high && (high * 0x40 + low) % 0x40 == low
  {}

  lemma TwoSixes(n: nat)
    ensures n / 0x40 / 0x40 == n / 0x1000 && n / 0x1000 / 0x40 == n / 0x4_0000
  {}

  lemma TwoByteForm(a: Byte, b: Byte, n: int)
    requires 0xC0 <= a < 0xE0 && Continues(b) && n == Bits(a, 0xC0) * 0x40 + Bits(b, 0x80) && 0x80 <= n
    ensures EncodeChar(n as char) == [a, b]
  {
    SixBits(Bits(a, 0xC0), Bits(b, 0x80));
  }

  lemma ThreeByteForm(a: Byte, b: Byte, c: Byte, n: int)
    requires 0xE0 <= a < 0xF0 && Continues(b) && Continues(c) && IsScalar(n) && 0x800 <= n
    requires n == Bits(a, 0xE0) * 0x1000 + Bits(b, 0x80) * 0x40 + Bits(c, 0x80)
    ensures EncodeChar(n as char) == [a, b, c]
  {
    TwoSixes(n);
    SixBits(Bits(a, 0xE0), Bits(b, 0x80));
    SixBits(Bits(a, 0xE0) * 0x40 + Bits(b, 0x80), Bits(c, 0x80));
  }

  lemma FourByteForm(a: Byte, b: Byte, c: Byte, d: Byte, n: int)
    requires 0xF0 <= a < 0xF8 && Continues(b) && Continues(c) && Continues(d) && IsScalar(n) && 0x1_0000 <= n
    requires n == Bits(a, 0xF0) * 0x4_0000 + Bits(b, 0x80) * 0x1000 + Bits(c, 0x80) * 0x40 + Bits(d, 0x80)
    ensures EncodeChar(n as char) == [a, b, c, d]
  {
    var high := Bits(a, 0xF0) * 0x40 + Bits(b, 0x80);
    TwoSixes(n);
    SixBits(Bits(a, 0xF0), Bits(b, 0x80));
    SixBits(high, Bits(c, 0x80));
    SixBits(high * 0x40 + Bits(c, 0x80), Bits(d, 0x80));
  }

  lemma {:induction false} FirstIsCanonical(b: Bytes)
    requires b != [] && DecodeFirst(b).Some?
    ensures var (c, k) := DecodeFirst(b).value; EncodeChar(c) == b[..k]
  {
    hide EncodeChar;
    var (c, k) := DecodeFirst(b).value;
    if k == 1 {
      OneByteForm(b[0]);
    } else if k == 2 {
      TwoByteForm(b[0], b[1], c as int);
    } else if k == 3 {
      ThreeByteForm(b[0], b[1], b[2], c as int);
    } else {
      FourByteForm(b[0], b[1], b[2], b[3], c as int);
    }
  }

  lemma OneByteForm(a: Byte)
    requires a < 0x80
    ensures EncodeChar(a as char) == [a]
  {}

  lemma EncodeEmpty()
    ensures Encode("") == []
  {}

  lemma EncodeFirst(c: char, rest: string)
    ensures Encode([c] + rest) == EncodeChar(c) + Encode(rest)
  {
    assert ([c] + rest)[1..] == rest;
  }

  /** Decoding accepts only what encoding produces. */
  lemma {:induction false} OnlyEncodingsDecode(b: Bytes)
    requires Decode(b).Some?
    ensures Encode(Decode(b).value) == b
  {
    hide EncodeChar, DecodeFirst, Encode;
    if b == [] {
      assert Encode("") == [] by { EncodeEmpty(); }
    } else {
      FirstIsCanonical(b);
      var (c, k) := DecodeFirst(b).value;
      OnlyEncodingsDecode(b[k..]);
      EncodeFirst(c, Decode(b[k..]).value);
      assert b[..k] + b[k..] == b;
    }
  }

  lemma EncodeInjective(s: string, t: string)
    requires Encode(s) == Encode(t)
    ensures s == t
  {
    DecodesWhatWasEncoded(s);
    DecodesWhatWasEncoded(t);
  }

  lemma {:induction false} EncodeAppend(s: string, t: string)
    ensures Encode(s + t) == Encode(s) + Encode(t)
  {
    hide EncodeChar;
    if s == "" {
      assert s + t == t;
    } else {
      EncodeAppend(s[1..], t);
      assert (s + t)[1..] == s[1..] + t;
    }
  }

  lemma {:induction false} EncodedLength(s: string)
    ensures |s| <= |Encode(s)| <= 4 * |s|
  {
    if s != "" {
      EncodedLength(s[1..]);
    }
  }

  lemma {:induction false} AsciiLength(s: string)
    requires IsAscii(s)
    ensures |Encode(s)| == |s|
  {
    if s != "" {
      assert s[0] in s && forall c :: c in s[1..] ==> c in s;
      AsciiLength(s[1..]);
    }
  }

  // ---- ASCII --------------------------------------------------------------

  predicate IsAscii(s: string) {
    forall c :: c in s ==> c as int < 0x80
  }

  function AsciiCode(c: char): Byte
    requires c as int < 0x80
  {
    c as int
  }

  function EncodeAscii(s: string): (b: Bytes)
    requires IsAscii(s)
    ensures |b| == |s|
  {
    seq(|s|, i requires 0 <= i < |s| => assert s[i] in s; AsciiCode(s[i]))
  }

  function DecodeAscii(b: Bytes): (s: Option<string>) {
    if forall i :: 0 <= i < |b| ==> b[i] < 0x80
    then Some(seq(|b|, i requires 0 <= i < |b| && b[i] < 0x80 => b[i] as char))
    else None
  }

  lemma AsciiRoundTrip(s: string)
    requires IsAscii(s)
    ensures DecodeAscii(EncodeAscii(s)) == Some(s)
  {
    var b := EncodeAscii(s);
    assert forall i :: 0 <= i < |b| ==> s[i] in s;
    assert DecodeAscii(b).value == s;
  }
}
