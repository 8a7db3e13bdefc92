/**
  `remove_escaped_characters` against a grammar written out in full: a text is a list of units, each with its
  spelling and its meaning, and the scan gives the meaning or throws exactly as the grammar says.
 */
module EscapeGrammar {
  import opened Wrappers
  import Escapes
  import Utf8

  datatype Unit =
    | Plain(c: char)
    | Letter(letter: char)
    | Short(digits: string)
    | Wide(digits: string)
    | Nul

  function DigitOf(c: char): Option<nat> {
    match c
    case '0' => Some(0) case '1' => Some(1) case '2' => Some(2) case '3' => Some(3) case '4' => Some(4)
    case '5' => Some(5) case '6' => Some(6) case '7' => Some(7) case '8' => Some(8) case '9' => Some(9)
    case 'a' | 'A' => Some(10) case 'b' | 'B' => Some(11) case 'c' | 'C' => Some(12)
    case 'd' | 'D' => Some(13) case 'e' | 'E' => Some(14) case 'f' | 'F' => Some(15)
    case _ => None
  }

  predicate AllDigits(s: string) {
    forall i | 0 <= i < |s| :: DigitOf(s[i]).Some?
  }

  /** The number that hexadecimal digits stand for. */
  function Number(s: string): nat
    requires AllDigits(s)
  {
    if s == "" then 0 else 16 * Number(s[..|s| - 1]) + DigitOf(s[|s| - 1]).value
  }

  /** What a backslash and this letter stand for. */
  function LetterCode(letter: char): Option<nat> {
    match letter
    case 'b' => Some(8) case 't' => Some(9) case 'n' => Some(10) case 'f' => Some(12) case 'r' => Some(13)
    case '"' => Some(34) case '\\' => Some(92)
    case _ => None
  }

  predicate Proper(u: Unit) {
    match u
    case Plain(c) => c != '\\'
    case Letter(letter) => LetterCode(letter).Some?
    case Short(digits) => |digits| == 4 && AllDigits(digits)
    case Wide(digits) => |digits| == 8 && AllDigits(digits)
    case Nul => true
  }

  predicate AllProper(us: seq<Unit>) {
    forall i | 0 <= i < |us| :: Proper(us[i])
  }

  function Spelling(u: Unit): string {
    match u
    case Plain(c) => [c]
    case Letter(letter) => ['\\', letter]
    case Short(digits) => "\\u" + digits
    case Wide(digits) => "\\U" + digits
    case Nul => "\\0"
  }

  function Text(us: seq<Unit>): string {
    if us == [] then "" else Spelling(us[0]) + Text(us[1..])
  }

  /** The code of a unit: a byte that stands for itself, or the code point that is spelled out. */
  function Code(u: Unit): nat
    requires Proper(u)
  {
    match u
    case Plain(c) => c as int
    case Letter(letter) => LetterCode(letter).value
    case Short(digits) => Number(digits)
    case Wide(digits) => Number(digits)
    case Nul => 0
  }

  predicate IsSurrogate(u: Unit)
    requires Proper(u)
  {
    (u.Short? || u.Wide?) && 0xD800 <= Code(u) <= 0xDFFF
  }

  predicate NoSurrogates(us: seq<Unit>)
    requires AllProper(us)
  {
    forall i | 0 <= i < |us| :: !IsSurrogate(us[i])
  }

  /** The bytes of a unit: UTF-8 for a code that is spelled out in digits, none above U+10FFFF. */
  function Bytes(u: Unit): string
    requires Proper(u) && !IsSurrogate(u)
  {
    match u
    case Plain(c) => [c]
    case Letter(_) => [Code(u) as char]
    case Short(_) => Utf8.Encode(Code(u))
    case Wide(_) => Utf8.Encode(Code(u))
    case Nul => [0 as char]
  }

  function AllBytes(us: seq<Unit>): string
    requires AllProper(us) && NoSurrogates(us)
  {
    if us == [] then "" else Bytes(us[0]) + AllBytes(us[1..])
  }

  // ----- digits -----

  lemma {:induction false} DigitIs(c: char)
    ensures DigitOf(c).Some? <==> Escapes.IsHexDigit(c)
    ensures DigitOf(c).Some? ==> Escapes.HexConvert(c) == DigitOf(c).value
  {
  }

  lemma {:induction false} DigitsAre(s: string)
    ensures AllDigits(s) <==> Escapes.AllHex(s)
  {
    forall i | 0 <= i < |s| ensures DigitOf(s[i]).Some? <==> Escapes.IsHexDigit(s[i]) {
      DigitIs(s[i]);
    }
  }

  lemma {:induction false} NumberIs(s: string)
    requires AllDigits(s)
    ensures Escapes.AllHex(s) && Escapes.HexValue(s) == Number(s)
  {
    DigitsAre(s);
    if s != "" {
      NumberIs(s[..|s| - 1]);
      DigitIs(s[|s| - 1]);
    }
  }

  // ----- one unit -----

  lemma {:induction false} CodepointIs(digits: string, used: nat)
    requires AllDigits(digits)
    ensures Escapes.CodepointPiece(digits, used)
         == if 0xD800 <= Number(digits) <= 0xDFFF then Thrown
            else Returned(Escapes.Piece(Utf8.Encode(Number(digits)), used))
  {
    NumberIs(digits);
  }

  /** A unit in front of any text is scanned as that unit. */
  lemma {:induction false} UnitIsScanned(u: Unit, rest: string)
    requires Proper(u)
    ensures Spelling(u) + rest != ""
    ensures Escapes.UnescapeOne(Spelling(u) + rest)
         == if IsSurrogate(u) then Thrown else Returned(Escapes.Piece(Bytes(u), |Spelling(u)|))
  {
    var e, s := Spelling(u), Spelling(u) + rest;
    assert s[0] == e[0];
    match u {
      case Plain(_) =>
      case Letter(letter) => assert s[1] == e[1] == letter;
      case Short(digits) =>
        assert s[1] == e[1] == 'u' && s[2..6] == digits;
        CodepointIs(digits, 6);
      case Wide(digits) =>
        assert s[1] == e[1] == 'U' && s[2..10] == digits;
        CodepointIs(digits, 10);
      case Nul => assert s[1] == e[1] == '0';
    }
  }

  lemma {:induction false} DigitsScanned(s: string)
    requires s != "" && Escapes.UnescapeOne(s).Returned?
    requires s[0] == '\\' && Escapes.UnescapeCode(s[1]).None? && s[1] != '0'
    ensures var n := if s[1] == 'u' then 4 else 8;
            (s[1] == 'u' || s[1] == 'U') && Escapes.UnescapeOne(s).value.used == n + 2 &&
            AllDigits(s[2..n + 2]) && !(0xD800 <= Number(s[2..n + 2]) <= 0xDFFF) &&
            s[..n + 2] == ['\\', s[1]] + s[2..n + 2]
  {
    var digits := s[2..if s[1] == 'u' then 6 else 10];
    DigitsAre(digits);
    NumberIs(digits);
  }

  /** Where the scan goes on, a unit stands. */
  lemma {:induction false} ScannedIsUnit(s: string) returns (u: Unit)
    requires s != "" && Escapes.UnescapeOne(s).Returned?
    ensures Proper(u) && !IsSurrogate(u)
    ensures s == Spelling(u) + s[Escapes.UnescapeOne(s).value.used..]
  {
    var used := Escapes.UnescapeOne(s).value.used;
    assert s == s[..used] + s[used..];
    if s[0] != '\\' {
      u := Plain(s[0]);
      assert s[..1] == [s[0]];
    } else if Escapes.UnescapeCode(s[1]).Some? {
      u := Letter(s[1]);
      assert s[..2] == [s[0], s[1]];
    } else if s[1] == '0' {
      u := Nul;
      assert s[..2] == "\\0";
    } else {
      DigitsScanned(s);
      u := if s[1] == 'u' then Short(s[2..6]) else Wide(s[2..10]);
    }
  }

  // ----- whole texts -----

  /** A text of proper units gives their bytes, and throws if and only if one of its codes is a surrogate. */
  lemma {:induction false} UnescapedText(us: seq<Unit>)
    requires AllProper(us)
    ensures Escapes.RemoveEscapes(Text(us)) == if NoSurrogates(us) then Returned(AllBytes(us)) else Thrown
  {
    if us != [] {
      var e, rest := Spelling(us[0]), Text(us[1..]);
      UnitIsScanned(us[0], rest);
      assert (e + rest)[|e|..] == rest;
      UnescapedText(us[1..]);
      FirstAndOthers(us);
    }
  }

  lemma {:induction false} FirstAndOthers(us: seq<Unit>)
    requires AllProper(us) && us != []
    ensures NoSurrogates(us) <==> !IsSurrogate(us[0]) && NoSurrogates(us[1..])
  {
    if !IsSurrogate(us[0]) && NoSurrogates(us[1..]) {
      forall i | 0 <= i < |us| ensures !IsSurrogate(us[i]) {
        if i > 0 {
          assert us[i] == us[1..][i - 1];
        }
      }
    }
  }

  lemma {:induction false} ScannedText(s: string) returns (us: seq<Unit>)
    requires Escapes.RemoveEscapes(s).Returned?
    ensures AllProper(us) && NoSurrogates(us) && Text(us) == s
  {
    us := [];
    if s != "" {
      var u := ScannedIsUnit(s);
      var others := ScannedText(s[Escapes.UnescapeOne(s).value.used..]);
      us := [u] + others;
      assert us[1..] == others;
    }
  }

  /** The scan does not throw if and only if the text is made of proper units without a surrogate. */
  lemma {:induction false} ThrowsUnlessProper(s: string)
    ensures Escapes.RemoveEscapes(s).Returned? <==>
            exists us :: AllProper(us) && NoSurrogates(us) && Text(us) == s
  {
    if Escapes.RemoveEscapes(s).Returned? {
      var us := ScannedText(s);
    } else if us :| AllProper(us) && NoSurrogates(us) && Text(us) == s {
      UnescapedText(us);
    }
  }

  // ----- what a decoder recovers -----

  function Codes(us: seq<Unit>): (codes: seq<nat>)
    requires AllProper(us)
    ensures |codes| == |us| && forall i | 0 <= i < |us| :: codes[i] == Code(us[i])
  {
    if us == [] then [] else [Code(us[0])] + Codes(us[1..])
  }

  /** Every plain character is ASCII. */
  predicate AsciiOutside(us: seq<Unit>) {
    forall i | 0 <= i < |us| && us[i].Plain? :: us[i].c as int < 0x80
  }

  lemma {:induction false} BytesAreCodes(us: seq<Unit>)
    requires AllProper(us) && NoSurrogates(us) && AsciiOutside(us)
    ensures Utf8.NoSurrogates(Codes(us)) && AllBytes(us) == Utf8.EncodeAll(Codes(us))
  {
    if us != [] {
      BytesAreCodes(us[1..]);
      assert Codes(us)[1..] == Codes(us[1..]);
      assert Bytes(us[0]) == Utf8.Encode(Code(us[0]));
    }
  }

  /**
    ASCII text, letter escapes, `\0` and escapes of four and of eight digits in any mixture: a UTF-8 decoder
    recovers the codes from the result if and only if all are Unicode scalar values.
   */
  lemma {:induction false} MixedRoundTrip(us: seq<Unit>)
    requires AllProper(us) && AsciiOutside(us)
    ensures Utf8.Scalars(Codes(us)) <==>
              Escapes.RemoveEscapes(Text(us)).Returned? &&
              Utf8.Decode(Escapes.RemoveEscapes(Text(us)).value) == Some(Codes(us))
  {
    UnescapedText(us);
    if NoSurrogates(us) {
      BytesAreCodes(us);
      if Utf8.Scalars(Codes(us)) {
        Utf8.DecodeEncode(Codes(us));
      } else if Utf8.Decode(AllBytes(us)) == Some(Codes(us)) {
        Utf8.EncodeDecode(AllBytes(us));
      }
    } else {
      var i :| 0 <= i < |us| && IsSurrogate(us[i]);
      assert Utf8.IsSurrogate(Codes(us)[i]);
    }
  }
}
