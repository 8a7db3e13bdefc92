/** Backslash escapes: `add_escaped_characters` and `remove_escaped_characters`. */
module Escapes {
  import opened Wrappers
  import opened Text
  import Utf8

  /** The letter that stands for an escapable character, from the two parallel tables of the source. */
  function EscapeCode(c: char): Option<char> {
    if c == BACKSPACE then Some('b')
    else if c == '\t' then Some('t')
    else if c == '\n' then Some('n')
    else if c == FORM_FEED then Some('f')
    else if c == '\r' then Some('r')
    else if c == '"' then Some('"')
    else if c == '\\' then Some('\\')
    else None
  }

  function UnescapeCode(code: char): Option<char> {
    if code == 'b' then Some(BACKSPACE)
    else if code == 't' then Some('\t')
    else if code == 'n' then Some('\n')
    else if code == 'f' then Some(FORM_FEED)
    else if code == 'r' then Some('\r')
    else if code == '"' then Some('"')
    else if code == '\\' then Some('\\')
    else None
  }

  predicate HasEscapable(s: string) {
    exists i | 0 <= i < |s| :: EscapeCode(s[i]).Some?
  }

  function EscapeChar(c: char): (e: string) {
    match EscapeCode(c)
    case Some(code) => ['\\', code]
    case None => [c]
  }

  function AddEscapes(s: string): (e: string) {
    if s == "" then "" else EscapeChar(s[0]) + AddEscapes(s[1..])
  }

  lemma {:induction false} AddEscapesStep(out: string, str: string, i: nat)
    requires i < |str|
    ensures out + AddEscapes(str[i..]) == out + EscapeChar(str[i]) + AddEscapes(str[i + 1..])
  {
    assert str[i..][1..] == str[i + 1..];
  }

  method AddEscapedCharacters(str: string) returns (out: string)
    ensures out == AddEscapes(str)
  {
    out := "";
    ghost var whole := AddEscapes(str);
    assert str[0..] == str;
    for i := 0 to |str|
      invariant out + AddEscapes(str[i..]) == whole
    {
      var s := str[i];
      AddEscapesStep(out, str, i);
      match EscapeCode(s) {
        case Some(code) =>
          assert out + ['\\'] + [code] == out + ['\\', code];
          out := out + ['\\'];
          out := out + [code];
        case None =>
          out := out + [s];
      }
    }
  }

  // ----- hexadecimal digits -----

  const UINT32_LIMIT := 0x1_0000_0000

  /** The digit's value; any other character is -1 converted to 32 bits, which is above 0x0F. */
  function HexConvert(c: char): (v: nat)
    ensures v < UINT32_LIMIT
  {
    if '0' <= c <= '9' then c as int - '0' as int
    else if 'A' <= c <= 'F' then c as int - 'A' as int + 10
    else if 'a' <= c <= 'f' then c as int - 'a' as int + 10
    else UINT32_LIMIT - 1
  }

  predicate IsHexDigit(c: char) {
    HexConvert(c) <= 0x0F
  }

  predicate AllHex(s: string) {
    forall i | 0 <= i < |s| :: IsHexDigit(s[i])
  }

  function Pow16(n: nat): (p: nat)
    ensures p >= 1
  {
    if n == 0 then 1 else 16 * Pow16(n - 1)
  }

  /** The number a hex digit string denotes in base 16. */
  function HexValue(s: string): (v: nat)
    requires AllHex(s)
    ensures v < Pow16(|s|)
  {
    if s == "" then 0 else 16 * HexValue(s[..|s| - 1]) + HexConvert(s[|s| - 1])
  }

  /**
    Reads n hex digits at `first`, weighting each by a multiplier that starts at 16^(n-1).
    None when a character is not a hex digit. The 32-bit accumulator never wraps.
   */
  method ReadHex(str: string, first: nat, n: nat) returns (code: Option<nat>)
    requires 1 <= n <= 8 && first + n <= |str|
    ensures code.Some? <==> AllHex(str[first..first + n])
    ensures code.Some? ==> code.value == HexValue(str[first..first + n]) && code.value < UINT32_LIMIT
  {
    ghost var digits := str[first..first + n];
    var acc, mplier := 0, Pow16(n - 1);
    AccumulatorStart(digits);
    for ii := 0 to n
      invariant Accumulated(digits, ii, acc, mplier)
    {
      var res := HexConvert(str[first + ii]);
      assert res == HexConvert(digits[ii]);
      if res > 0x0F {
        return None;
      }
      AccumulatorStep(digits, ii, acc, mplier, res);
      acc := acc + res * mplier;
      mplier := mplier / 16;
    }
    AccumulatorEnd(digits, acc, mplier);
    code := Some(acc);
  }

  lemma {:induction false} ThirtyTwoBits(n: nat)
    requires n <= 8
    ensures Pow16(n) <= UINT32_LIMIT
  {
    Pow16Monotone(n, 8);
    assert Pow16(4) == 0x1_0000;
    assert Pow16(6) == 0x100_0000;
  }

  /** Adding the next digit at its weight keeps the accumulator equal to the value read so far. */
  lemma {:induction false} AccumulateDigit(digits: string, i: nat)
    requires i < |digits| && AllHex(digits[..i]) && IsHexDigit(digits[i])
    ensures AllHex(digits[..i + 1])
    ensures HexValue(digits[..i]) * Pow16(|digits| - i) + HexConvert(digits[i]) * Pow16(|digits| - 1 - i)
         == HexValue(digits[..i + 1]) * Pow16(|digits| - 1 - i)
    ensures HexValue(digits[..i + 1]) * Pow16(|digits| - 1 - i) < Pow16(|digits|)
  {
    var head := digits[..i + 1];
    assert head[..i] == digits[..i];
    assert forall j | 0 <= j < i :: head[j] == digits[..i][j];
    ShiftDigit(HexValue(digits[..i]), HexConvert(digits[i]), Pow16(|digits| - 1 - i));
    Pow16Product(HexValue(head), i + 1, |digits|);
  }

  /** The first i digits, each at its weight. */
  function Weighted(digits: string, i: nat): nat
    requires i <= |digits|
  {
    if i == 0 then 0 else Weighted(digits, i - 1) + HexConvert(digits[i - 1]) * Pow16(|digits| - i)
  }

  lemma {:induction false} WeightedIsValue(digits: string, i: nat)
    requires i <= |digits| && AllHex(digits[..i])
    ensures Weighted(digits, i) == HexValue(digits[..i]) * Pow16(|digits| - i) < Pow16(|digits|)
  {
    if i == 0 {
      assert digits[..0] == "";
      Pow16Product(0, 0, |digits|);
    } else {
      assert digits[..i][..i - 1] == digits[..i - 1] && digits[..i][i - 1] == digits[i - 1];
      assert forall j | 0 <= j < i - 1 :: digits[..i - 1][j] == digits[..i][j];
      WeightedIsValue(digits, i - 1);
      AccumulateDigit(digits, i - 1);
    }
  }

  /** Half-way: the accumulator holds the first i digits, below 2^32, and the next weight is known. */
  predicate Accumulated(digits: string, i: nat, acc: nat, weight: nat) {
    i <= |digits| <= 8 && AllHex(digits[..i]) && acc == Weighted(digits, i) && acc < UINT32_LIMIT &&
    weight == if i < |digits| then Pow16(|digits| - 1 - i) else 0
  }

  lemma {:induction false} AccumulatorStart(digits: string)
    requires 1 <= |digits| <= 8
    ensures Accumulated(digits, 0, 0, Pow16(|digits| - 1))
  {
  }

  /** One round of the loop: the accumulator takes in a digit, stays below 2^32, and the weight is divided by 16. */
  lemma {:induction false} AccumulatorStep(digits: string, i: nat, acc: nat, weight: nat, res: nat)
    requires Accumulated(digits, i, acc, weight) && i < |digits| && res == HexConvert(digits[i]) <= 0x0F
    ensures res * weight >= 0 && weight / 16 >= 0
    ensures Accumulated(digits, i + 1, acc + res * weight, weight / 16)
  {
    assert forall j | 0 <= j < i :: digits[..i + 1][j] == digits[..i][j];
    WeightedIsValue(digits, i + 1);
    ThirtyTwoBits(|digits|);
    SixteenthOfPow(|digits| - 1 - i);
    NaturalProduct(res, weight);
  }

  lemma NaturalProduct(a: nat, b: nat)
    ensures a * b >= 0
  {
  }

  lemma SixteenthOfPow(n: nat)
    ensures Pow16(n) / 16 == if n > 0 then Pow16(n - 1) else 0
  {
  }

  lemma {:induction false} AccumulatorEnd(digits: string, acc: nat, weight: nat)
    requires Accumulated(digits, |digits|, acc, weight)
    ensures AllHex(digits) && acc == HexValue(digits) < UINT32_LIMIT
  {
    assert digits[..|digits|] == digits;
    WeightedIsValue(digits, |digits|);
  }

  lemma {:induction false} ShiftDigit(high: nat, digit: nat, weight: nat)
    ensures high * (16 * weight) + digit * weight == (16 * high + digit) * weight
  {
  }

  lemma {:induction false} Pow16Monotone(a: nat, b: nat)
    requires a <= b
    ensures Pow16(a) <= Pow16(b)
    decreases b - a
  {
    if a < b {
      Pow16Monotone(a, b - 1);
    }
  }

  lemma {:induction false} Pow16Product(v: nat, i: nat, n: nat)
    requires i <= n && v < Pow16(i)
    ensures v * Pow16(n - i) < Pow16(n)
    decreases n - i
  {
    if i < n {
      Pow16Product(v, i, n - 1);
      var w := Pow16(n - 1 - i);
      assert v * (16 * w) == 16 * (v * w);
    }
  }

  // ----- remove_escaped_characters -----

  /** What one step of the scan appends and how many characters it reads. */
  datatype Piece = Piece(out: string, used: nat)

  function CodepointPiece(digits: string, used: nat): (r: Result<Piece>) {
    if !AllHex(digits) || Utf8.IsSurrogate(HexValue(digits)) then Thrown
    else Returned(Piece(Utf8.Encode(HexValue(digits)), used))
  }

  function UnescapeOne(s: string): (r: Result<Piece>)
    requires s != ""
    ensures r.Returned? ==> 0 < r.value.used <= |s|
  {
    if s[0] != '\\' then Returned(Piece([s[0]], 1))
    else if |s| < 2 then Thrown
    else if UnescapeCode(s[1]).Some? then Returned(Piece([UnescapeCode(s[1]).value], 2))
    else if s[1] == 'u' then if |s| < 6 then Thrown else CodepointPiece(s[2..6], 6)
    else if s[1] == 'U' then if |s| < 10 then Thrown else CodepointPiece(s[2..10], 10)
    else if s[1] == '0' then Returned(Piece([NUL], 2))
    else Thrown
  }

  function RemoveEscapes(s: string): (r: Result<string>) {
    if s == "" then
      Returned("")
    else
      match UnescapeOne(s)
      case Thrown => Thrown
      case Returned(piece) =>
        match RemoveEscapes(s[piece.used..])
        case Thrown => Thrown
        case Returned(rest) => Returned(piece.out + rest)
  }

  /** The result when `out` has been produced and `s` is still to be scanned. */
  function After(out: string, s: string): Result<string> {
    match RemoveEscapes(s)
    case Thrown => Thrown
    case Returned(rest) => Returned(out + rest)
  }

  lemma {:induction false} AfterPiece(out: string, s: string)
    requires s != "" && UnescapeOne(s).Returned?
    ensures After(out, s) == After(out + UnescapeOne(s).value.out, s[UnescapeOne(s).value.used..])
  {
    var piece := UnescapeOne(s).value;
    match RemoveEscapes(s[piece.used..])
    case Thrown =>
    case Returned(rest) => assert out + (piece.out + rest) == out + piece.out + rest;
  }

  method RemoveEscapedCharacters(str: string) returns (r: Result<string>)
    ensures r == RemoveEscapes(str)
  {
    var out := "";
    var loc := 0;
    AfterNothing(str);
    while loc < |str|
      invariant 0 <= loc <= |str|
      invariant After(out, str[loc..]) == RemoveEscapes(str)
    {
      ghost var rest := str[loc..];
      ghost var produced := out;
      ghost var at := loc;
      if str[loc] == '\\' {
        if |str| - loc < 2 {
          return Thrown;
        }
        match UnescapeCode(str[loc + 1]) {
          case Some(c) =>
            out := out + [c];
            loc := loc + 1;
          case None =>
            if str[loc + 1] == 'u' || str[loc + 1] == 'U' {
              var n := if str[loc + 1] == 'u' then 4 else 8;
              if |str| - loc < n + 2 {
                return Thrown;
              }
              assert rest[2..n + 2] == str[loc + 2..loc + 2 + n];
              var code := ReadHex(str, loc + 2, n);
              if code == None {
                return Thrown;
              }
              var appended := Utf8.AppendCodepoint(out, code.value);
              if appended.Thrown? {
                return Thrown;
              }
              out := appended.value;
              loc := loc + n + 1;
            } else if str[loc + 1] == '0' {
              out := out + [NUL];
              loc := loc + 1;
            } else {
              return Thrown;
            }
        }
      } else {
        out := out + [str[loc]];
      }
      loc := loc + 1;
      assert UnescapeOne(rest).Returned? && out == produced + UnescapeOne(rest).value.out;
      assert loc == at + UnescapeOne(rest).value.used;
      AfterPiece(produced, rest);
      assert rest[UnescapeOne(rest).value.used..] == str[loc..];
    }
    assert str[loc..] == "";
    assert After(out, "") == Returned(out + "");
    assert out + "" == out;
    r := Returned(out);
  }

  lemma AfterNothing(s: string)
    ensures After("", s[0..]) == RemoveEscapes(s)
  {
    assert s[0..] == s;
    match RemoveEscapes(s)
    case Thrown =>
    case Returned(rest) => assert "" + rest == rest;
  }

  // ----- properties -----

  lemma {:induction false} UnescapeEscapedChar(c: char, rest: string)
    ensures UnescapeOne(EscapeChar(c) + rest) == Returned(Piece([c], |EscapeChar(c)|))
  {
    var s := EscapeChar(c) + rest;
    assert s[0] == EscapeChar(c)[0];
    if EscapeCode(c).Some? {
      assert s[1] == EscapeChar(c)[1];
    }
  }

  /** Every string survives escaping and unescaping. */
  lemma {:induction false} RemoveAfterAdd(s: string)
    ensures RemoveEscapes(AddEscapes(s)) == Returned(s)
  {
    if s != "" {
      var e, tail := EscapeChar(s[0]), AddEscapes(s[1..]);
      UnescapeEscapedChar(s[0], tail);
      assert (e + tail)[|e|..] == tail;
      RemoveAfterAdd(s[1..]);
      assert s == [s[0]] + s[1..];
    }
  }

  /** Text without a backslash is its own unescaped form. */
  lemma {:induction false} RemoveFromPlain(s: string)
    requires '\\' !in s
    ensures RemoveEscapes(s) == Returned(s)
  {
    if s != "" {
      RemoveFromPlain(s[1..]);
      assert s == [s[0]] + s[1..];
    }
  }

  // ----- eight-digit Unicode escapes -----

  predicate EightDigitHex(digits: seq<string>) {
    forall i | 0 <= i < |digits| :: |digits[i]| == 8 && AllHex(digits[i])
  }

  function WideEscapes(digits: seq<string>): string {
    if digits == [] then "" else ("\\U" + digits[0]) + WideEscapes(digits[1..])
  }

  function CodesOf(digits: seq<string>): (codes: seq<nat>)
    requires EightDigitHex(digits)
    ensures |codes| == |digits|
    ensures forall i | 0 <= i < |digits| :: codes[i] == HexValue(digits[i])
  {
    if digits == [] then [] else [HexValue(digits[0])] + CodesOf(digits[1..])
  }

  lemma {:induction false} UnescapeWide(d: string, rest: string)
    requires |d| == 8 && AllHex(d)
    ensures UnescapeOne(("\\U" + d) + rest) == CodepointPiece(d, 10)
  {
    var s := ("\\U" + d) + rest;
    assert s[0] == '\\' && s[1] == 'U';
    assert s[2..10] == d;
  }

  /**
    A run of `\U` escapes yields the UTF-8 bytes of its codes, and throws if and only if
    one of the codes is a surrogate.
   */
  lemma {:induction false} WideEscapesToUtf8(digits: seq<string>)
    requires EightDigitHex(digits)
    ensures RemoveEscapes(WideEscapes(digits)).Returned? <==> Utf8.NoSurrogates(CodesOf(digits))
    ensures Utf8.NoSurrogates(CodesOf(digits)) ==>
              RemoveEscapes(WideEscapes(digits)) == Returned(Utf8.EncodeAll(CodesOf(digits)))
  {
    if digits != [] {
      var d, tail, codes := digits[0], WideEscapes(digits[1..]), CodesOf(digits);
      UnescapeWide(d, tail);
      assert (("\\U" + d) + tail)[10..] == tail;
      WideEscapesToUtf8(digits[1..]);
      assert codes[1..] == CodesOf(digits[1..]);
      assert codes[0] == HexValue(d);
      assert Utf8.NoSurrogates(codes) ==> Utf8.NoSurrogates(codes[1..]);
      if !Utf8.IsSurrogate(codes[0]) && Utf8.NoSurrogates(codes[1..]) {
        assert Utf8.NoSurrogates(codes) by {
          forall i | 0 <= i < |codes| ensures !Utf8.IsSurrogate(codes[i]) {
            if i > 0 { assert codes[i] == codes[1..][i - 1]; }
          }
        }
      }
    }
  }

  /**
    Written as `\U` escapes, a sequence of codes is recovered by a UTF-8 decoder from what the
    scan emits if and only if every code is a Unicode scalar value: surrogates throw, and codes
    above U+10FFFF are dropped without an error.
   */
  lemma {:induction false} WideEscapesRoundTrip(digits: seq<string>)
    requires EightDigitHex(digits)
    ensures Utf8.Scalars(CodesOf(digits)) <==>
              RemoveEscapes(WideEscapes(digits)).Returned? &&
              Utf8.Decode(RemoveEscapes(WideEscapes(digits)).value) == Some(CodesOf(digits))
  {
    WideEscapesToUtf8(digits);
    var codes := CodesOf(digits);
    if Utf8.Scalars(codes) {
      Utf8.DecodeEncode(codes);
    } else if Utf8.NoSurrogates(codes) && Utf8.Decode(Utf8.EncodeAll(codes)) == Some(codes) {
      Utf8.EncodeDecode(Utf8.EncodeAll(codes));
    }
  }

  lemma HexValueSnoc(s: string, c: char)
    requires AllHex(s) && IsHexDigit(c)
    ensures AllHex(s + [c]) && HexValue(s + [c]) == 16 * HexValue(s) + HexConvert(c)
  {
    assert (s + [c])[..|s|] == s;
  }

  lemma TwoZeros(s: string)
    requires AllHex(s)
    ensures AllHex(s + "00") && HexValue(s + "00") == 256 * HexValue(s)
  {
    HexValueSnoc(s, '0');
    HexValueSnoc(s + ['0'], '0');
    assert s + "00" == s + ['0'] + ['0'];
  }

  lemma FirstCodeAboveRange()
    ensures AllHex("00110000") && HexValue("00110000") == 0x110000
  {
    var high := "0011";
    assert HexConvert('0') == 0 && HexConvert('1') == 1;
    assert high[..0] == "" && high[..1] == "" + ['0'] && high[..2] == high[..1] + ['0'];
    HexValueSnoc("", '0');
    HexValueSnoc(high[..1], '0');
    assert high[..3] == high[..2] + ['1'] && high == high[..3] + ['1'];
    HexValueSnoc(high[..2], '1');
    HexValueSnoc(high[..3], '1');
    TwoZeros(high);
    TwoZeros(high + "00");
    assert high + "00" + "00" == "00110000";
  }

  /** The first code above the Unicode range is dropped without an error. */
  lemma CodeAboveRangeIsDropped()
    ensures RemoveEscapes("\\U00110000") == Returned("")
  {
    var d := "00110000";
    FirstCodeAboveRange();
    WideEscapesToUtf8([d]);
    assert WideEscapes([d]) == "\\U" + d + WideEscapes([]) && WideEscapes([]) == "";
    assert "\\U" + d + "" == "\\U00110000";
    assert CodesOf([d])[0] == 0x110000;
    assert Utf8.EncodeAll(CodesOf([d])) == "";
  }
}
