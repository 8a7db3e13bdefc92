/**
  `append_codepoint` and the UTF-8 encoding of section 3 of RFC 3629.

  A string is a sequence of bytes held as characters below 256. The shifts and masks of the
  source act on disjoint bit fields, so `code >> 6` is written `code / 64`, `code & 0x3F` is
  `code % 64`, and `|` of disjoint fields is `+`.
 */
module Utf8 {
  import opened Wrappers

  /** Truncation of an unsigned code to one byte. */
  function MakeChar(code: nat): (c: char)
    ensures c as int == code % 256
  {
    (code % 256) as char
  }

  predicate IsSurrogate(code: nat) {
    0xD800 <= code <= 0xDFFF
  }

  /** A Unicode scalar value: a code point that is not a surrogate. */
  predicate IsScalar(code: nat) {
    code < 0x110000 && !IsSurrogate(code)
  }

  predicate NoSurrogates(codes: seq<nat>) {
    forall i | 0 <= i < |codes| :: !IsSurrogate(codes[i])
  }

  predicate Scalars(codes: seq<nat>) {
    NoSurrogates(codes) && forall i | 0 <= i < |codes| :: codes[i] < 0x110000
  }

  /** The bytes `append_codepoint` appends: none at all for a code above U+10FFFF. */
  function Encode(code: nat): (bytes: string)
    requires !IsSurrogate(code)
  {
    if code < 0x80 then
      [MakeChar(code)]
    else if code < 0x800 then
      [MakeChar(0xC0 + code / 64), MakeChar(0x80 + code % 64)]
    else if code < 0x10000 then
      [MakeChar(0xE0 + code / 4096), MakeChar(0x80 + code / 64 % 64), MakeChar(0x80 + code % 64)]
    else if code < 0x110000 then
      [MakeChar(0xF0 + code / 262144), MakeChar(0x80 + code / 4096 % 64),
       MakeChar(0x80 + code / 64 % 64), MakeChar(0x80 + code % 64)]
    else
      []
  }

  function EncodeAll(codes: seq<nat>): (bytes: string)
    requires NoSurrogates(codes)
  {
    if codes == [] then [] else Encode(codes[0]) + EncodeAll(codes[1..])
  }

  /** Appends byte by byte, and throws on a surrogate. */
  method AppendCodepoint(str: string, code: nat) returns (r: Result<string>)
    ensures IsSurrogate(code) <==> r.Thrown?
    ensures r.Returned? ==> r.value == str + Encode(code)
  {
    var out := str;
    if code < 0x80 {
      out := out + [MakeChar(code)];
    } else if code < 0x800 {
      out := out + [MakeChar(0xC0 + code / 64)];
      out := out + [MakeChar(0x80 + code % 64)];
    } else if code < 0x10000 {
      if 0xD800 <= code && code <= 0xDFFF {
        return Thrown;
      }
      out := out + [MakeChar(0xE0 + code / 4096)];
      out := out + [MakeChar(0x80 + code / 64 % 64)];
      out := out + [MakeChar(0x80 + code % 64)];
    } else if code < 0x110000 {
      out := out + [MakeChar(0xF0 + code / 262144)];
      out := out + [MakeChar(0x80 + code / 4096 % 64)];
      out := out + [MakeChar(0x80 + code / 64 % 64)];
      out := out + [MakeChar(0x80 + code % 64)];
    }
    r := Returned(out);
  }

  // ----- the reference decoder, from the byte table of section 3 of RFC 3629 -----

  datatype Decoded = Invalid | Decoded(code: nat, used: nat)

  /** A continuation byte `10xxxxxx` at position i. */
  predicate Tail(s: string, i: nat) {
    i < |s| && 0x80 <= s[i] as int < 0xC0
  }

  function TailBits(s: string, i: nat): nat
    requires Tail(s, i)
  {
    s[i] as int - 0x80
  }

  /** The code point at the front of s; over-long forms, surrogates and codes above U+10FFFF are invalid. */
  function DecodeFirst(s: string): (d: Decoded)
    requires s != []
    ensures d.Decoded? ==> 0 < d.used <= |s|
  {
    var lead := s[0] as int;
    if lead < 0x80 then
      Decoded(lead, 1)
    else if 0xC0 <= lead < 0xE0 && Tail(s, 1) then
      var code := (lead - 0xC0) * 64 + TailBits(s, 1);
      if code >= 0x80 then Decoded(code, 2) else Invalid
    else if 0xE0 <= lead < 0xF0 && Tail(s, 1) && Tail(s, 2) then
      var code := (lead - 0xE0) * 4096 + TailBits(s, 1) * 64 + TailBits(s, 2);
      if code >= 0x800 && !IsSurrogate(code) then Decoded(code, 3) else Invalid
    else if 0xF0 <= lead < 0xF8 && Tail(s, 1) && Tail(s, 2) && Tail(s, 3) then
      var code := (lead - 0xF0) * 262144 + TailBits(s, 1) * 4096 + TailBits(s, 2) * 64 + TailBits(s, 3);
      if 0x10000 <= code < 0x110000 then Decoded(code, 4) else Invalid
    else
      Invalid
  }

  function Decode(s: string): (codes: Option<seq<nat>>) {
    if s == [] then
      Some([])
    else
      match DecodeFirst(s)
      case Invalid => None
      case Decoded(code, used) =>
        match Decode(s[used..])
        case None => None
        case Some(rest) => Some([code] + rest)
  }

  /** The shifts and masks of `append_codepoint` split a code into six-bit digits. */
  lemma {:induction false} SixBitDigits(code: nat)
    ensures code == code / 64 * 64 + code % 64
    ensures code / 64 == code / 4096 * 64 + code / 64 % 64
    ensures code / 4096 == code / 262144 * 64 + code / 4096 % 64
  {
  }

  // One lemma per row of the byte table, on the six-bit digits themselves.

  lemma {:induction false} TwoByteRow(s: string, d1: nat, d0: nat)
    requires d1 < 32 && d0 < 64 && d1 * 64 + d0 >= 0x80
    ensures Encode(d1 * 64 + d0) == [(0xC0 + d1) as char, (0x80 + d0) as char]
    ensures Encode(d1 * 64 + d0) <= s ==> DecodeFirst(s) == Decoded(d1 * 64 + d0, 2)
  {
    var code := d1 * 64 + d0;
    assert code / 64 == d1 && code % 64 == d0;
  }

  lemma {:induction false} ThreeByteRow(s: string, d2: nat, d1: nat, d0: nat)
    requires d2 < 16 && d1 < 64 && d0 < 64
    requires d2 * 4096 + d1 * 64 + d0 >= 0x800 && !IsSurrogate(d2 * 4096 + d1 * 64 + d0)
    ensures Encode(d2 * 4096 + d1 * 64 + d0) == [(0xE0 + d2) as char, (0x80 + d1) as char, (0x80 + d0) as char]
    ensures Encode(d2 * 4096 + d1 * 64 + d0) <= s ==> DecodeFirst(s) == Decoded(d2 * 4096 + d1 * 64 + d0, 3)
  {
    var code := d2 * 4096 + d1 * 64 + d0;
    assert code / 64 == d2 * 64 + d1 && code % 64 == d0;
    assert code / 4096 == d2 && code / 64 % 64 == d1;
  }

  lemma {:induction false} FourByteRow(s: string, d3: nat, d2: nat, d1: nat, d0: nat)
    requires d3 < 8 && d2 < 64 && d1 < 64 && d0 < 64
    requires 0x10000 <= d3 * 262144 + d2 * 4096 + d1 * 64 + d0 < 0x110000
    ensures Encode(d3 * 262144 + d2 * 4096 + d1 * 64 + d0)
         == [(0xF0 + d3) as char, (0x80 + d2) as char, (0x80 + d1) as char, (0x80 + d0) as char]
    ensures Encode(d3 * 262144 + d2 * 4096 + d1 * 64 + d0) <= s
        ==> DecodeFirst(s) == Decoded(d3 * 262144 + d2 * 4096 + d1 * 64 + d0, 4)
  {
    FourDigits(d3, d2, d1, d0, d3 * 262144 + d2 * 4096 + d1 * 64 + d0);
    var bytes := FourBytes(d3, d2, d1, d0, d3 * 262144 + d2 * 4096 + d1 * 64 + d0);
    if bytes <= s {
      assert |s| >= 4 && forall i | 0 <= i < 4 :: s[i] == bytes[i];
      FourBytesDecode(s, d3, d2, d1, d0);
    }
  }

  lemma FourBytes(d3: nat, d2: nat, d1: nat, d0: nat, code: nat) returns (bytes: string)
    requires 0x10000 <= code < 0x110000 && d3 < 8
    requires code % 64 == d0 && code / 64 % 64 == d1 && code / 4096 % 64 == d2 && code / 262144 == d3
    ensures bytes == Encode(code)
    ensures bytes == [(0xF0 + d3) as char, (0x80 + d2) as char, (0x80 + d1) as char, (0x80 + d0) as char]
  {
    bytes := [MakeChar(0xF0 + d3), MakeChar(0x80 + d2), MakeChar(0x80 + d1), MakeChar(0x80 + d0)];
    assert bytes == Encode(code);
  }

  lemma FourBytesDecode(s: string, d3: nat, d2: nat, d1: nat, d0: nat)
    requires d3 < 8 && d2 < 64 && d1 < 64 && d0 < 64
    requires 0x10000 <= d3 * 262144 + d2 * 4096 + d1 * 64 + d0 < 0x110000
    requires |s| >= 4 && s[0] as int == 0xF0 + d3 && s[1] as int == 0x80 + d2 && s[2] as int == 0x80 + d1 &&
             s[3] as int == 0x80 + d0
    ensures DecodeFirst(s) == Decoded(d3 * 262144 + d2 * 4096 + d1 * 64 + d0, 4)
  {
  }

  lemma FourDigits(d3: nat, d2: nat, d1: nat, d0: nat, code: nat)
    requires d2 < 64 && d1 < 64 && d0 < 64 && code == d3 * 262144 + d2 * 4096 + d1 * 64 + d0
    ensures code % 64 == d0 && code / 64 % 64 == d1 && code / 4096 % 64 == d2 && code / 262144 == d3
  {
    assert code / 64 == d3 * 4096 + d2 * 64 + d1;
    assert code / 4096 == d3 * 64 + d2;
  }

  lemma {:induction false} DecodeFirstOfEncode(code: nat, rest: string)
    requires IsScalar(code)
    ensures Encode(code) != []
    ensures DecodeFirst(Encode(code) + rest) == Decoded(code, |Encode(code)|)
  {
    SixBitDigits(code);
    var s := Encode(code) + rest;
    if code < 0x80 {
    } else if code < 0x800 {
      TwoByteRow(s, code / 64, code % 64);
    } else if code < 0x10000 {
      ThreeByteRow(s, code / 4096, code / 64 % 64, code % 64);
    } else {
      FourByteRow(s, code / 262144, code / 4096 % 64, code / 64 % 64, code % 64);
    }
  }

  lemma {:induction false} EncodeOfDecodeFirst(s: string)
    requires s != [] && DecodeFirst(s).Decoded?
    ensures IsScalar(DecodeFirst(s).code)
    ensures Encode(DecodeFirst(s).code) == s[..DecodeFirst(s).used]
  {
    var used := DecodeFirst(s).used;
    if used == 2 {
      TwoByteRow(s, s[0] as int - 0xC0, TailBits(s, 1));
    } else if used == 3 {
      ThreeByteRow(s, s[0] as int - 0xE0, TailBits(s, 1), TailBits(s, 2));
    } else if used == 4 {
      FourByteRow(s, s[0] as int - 0xF0, TailBits(s, 1), TailBits(s, 2), TailBits(s, 3));
    }
  }

  lemma {:induction false} DecodeCons(code: nat, tail: string, rest: seq<nat>)
    requires IsScalar(code) && Decode(tail) == Some(rest)
    ensures Decode(Encode(code) + tail) == Some([code] + rest)
  {
    var e := Encode(code);
    DecodeFirstOfEncode(code, tail);
    assert (e + tail)[|e|..] == tail;
  }

  lemma {:induction false} DecodeUncons(s: string)
    requires s != [] && Decode(s).Some?
    ensures exists code: nat, used: nat ::
              0 < used <= |s| && IsScalar(code) && Encode(code) == s[..used] &&
              Decode(s[used..]).Some? && Decode(s).value == [code] + Decode(s[used..]).value
  {
    EncodeOfDecodeFirst(s);
    var d := DecodeFirst(s);
    assert 0 < d.used <= |s| && IsScalar(d.code) && Encode(d.code) == s[..d.used];
  }

  lemma {:induction false} EncodeAllUncons(codes: seq<nat>)
    requires Scalars(codes) && codes != []
    ensures IsScalar(codes[0]) && Scalars(codes[1..])
    ensures EncodeAll(codes) == Encode(codes[0]) + EncodeAll(codes[1..])
  {
  }

  lemma {:induction false} DecodeEncodeStep(codes: seq<nat>)
    requires Scalars(codes) && codes != []
    requires Decode(EncodeAll(codes[1..])) == Some(codes[1..])
    ensures Decode(EncodeAll(codes)) == Some(codes)
  {
    var first, tail := codes[0], codes[1..];
    EncodeAllUncons(codes);
    DecodeCons(first, EncodeAll(tail), tail);
    assert codes == [first] + tail;
  }

  /** Decoding recovers every sequence of Unicode scalar values. */
  lemma {:induction false} DecodeEncode(codes: seq<nat>)
    requires Scalars(codes)
    ensures Decode(EncodeAll(codes)) == Some(codes)
  {
    if codes != [] {
      DecodeEncode(codes[1..]);
      DecodeEncodeStep(codes);
    }
  }

  /** Every byte string the decoder accepts is the encoding of what it decodes to: no second spelling. */
  lemma {:induction false} EncodeDecode(s: string)
    requires Decode(s).Some?
    ensures Scalars(Decode(s).value)
    ensures EncodeAll(Decode(s).value) == s
  {
    if s != [] {
      DecodeUncons(s);
      var code: nat, used: nat :|
        0 < used <= |s| && IsScalar(code) && Encode(code) == s[..used] &&
        Decode(s[used..]).Some? && Decode(s).value == [code] + Decode(s[used..]).value;
      var tail := Decode(s[used..]).value;
      EncodeDecode(s[used..]);
      EncodeAllCons(code, tail);
      assert s == s[..used] + s[used..];
    }
  }

  lemma {:induction false} EncodeAllCons(code: nat, codes: seq<nat>)
    requires IsScalar(code) && Scalars(codes)
    ensures Scalars([code] + codes)
    ensures EncodeAll([code] + codes) == Encode(code) + EncodeAll(codes)
  {
    assert ([code] + codes)[1..] == codes;
  }

  /** On 32-bit words, the shifts, masks and bitwise ors of the source are the arithmetic used above. */
  lemma BitFields(code: bv32)
    ensures code >> 6 == code / 64 && code >> 12 == code / 4096 && code >> 18 == code / 262144
    ensures code & 0x3F == code % 64
    ensures code < 0x800 ==> (0xC0 | (code >> 6)) == 0xC0 + (code >> 6)
    ensures code < 0x10000 ==> (0xE0 | (code >> 12)) == 0xE0 + (code >> 12)
    ensures code < 0x110000 ==> (0xF0 | (code >> 18)) == 0xF0 + (code >> 18)
    ensures (0x80 | (code & 0x3F)) == 0x80 + (code & 0x3F)
  {
  }
}
