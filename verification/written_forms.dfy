/** Which values are written to a configuration file as they stand, told from the characters of the value. */
module WrittenForms {
  import opened IniValues
  import BinaryEscape
  import EscapeGrammar
  import Escapes

  predicate IsOneOf(c: char, chars: string) {
    c in chars
  }

  predicate Only(s: string, chars: string) {
    forall i | 0 <= i < |s| :: IsOneOf(s[i], chars)
  }

  predicate OnlyDigits(s: string, base: nat) {
    forall i | 0 <= i < |s| :: EscapeGrammar.DigitOf(s[i]).Some? && EscapeGrammar.DigitOf(s[i]).value < base
  }

  /**
    A keyword, a number spelled with the characters of decimal numbers, or digits behind `0x`, `0o` or `0b`. What
    is a number is for the classifier to say.
   */
  predicate StandsAsItIs(classify: Classifier, arg: string) {
    arg != "" &&
    (arg == "true" || arg == "false" || arg == "nan" || arg == "inf" ||
     (!("0x" <= arg) && !("0X" <= arg) && classify.number(arg) && Only(arg, "0123456789.-+eE")) ||
     ("0x" <= arg && OnlyDigits(arg[2..], 16)) ||
     ("0o" <= arg && OnlyDigits(arg[2..], 8)) ||
     ("0b" <= arg && OnlyDigits(arg[2..], 2)))
  }

  lemma {:induction false} NumeralsAre(c: char)
    ensures IsNumeralChar(c) <==> IsOneOf(c, "0123456789.-+eE")
  {
    var chars := "0123456789.-+eE";
    if '0' <= c <= '9' {
      assert c == chars[c as int - '0' as int];
    } else if IsNumeralChar(c) {
      assert chars[10] == '.' && chars[11] == '-' && chars[12] == '+' && chars[13] == 'e' && chars[14] == 'E';
    }
  }

  lemma {:induction false} OnlyNumerals(s: string)
    ensures AllNumeral(s) <==> Only(s, "0123456789.-+eE")
  {
    forall i | 0 <= i < |s| ensures IsNumeralChar(s[i]) <==> IsOneOf(s[i], "0123456789.-+eE") {
      NumeralsAre(s[i]);
    }
  }

  lemma {:induction false} DigitsBelow(s: string, base: nat)
    requires base <= 16
    ensures AllDigits(s, base) <==> OnlyDigits(s, base)
  {
    forall i | 0 <= i < |s|
      ensures Escapes.HexConvert(s[i]) < base <==>
              EscapeGrammar.DigitOf(s[i]).Some? && EscapeGrammar.DigitOf(s[i]).value < base
    {
      EscapeGrammar.DigitIs(s[i]);
    }
  }

  lemma PrefixIs(s: string, second: char)
    ensures HasPrefix(s, second) <==> ['0', second] <= s
  {
    if |s| >= 2 {
      assert s[..2] == [s[0], s[1]];
    }
  }

  lemma {:induction false} BareIs(classify: Classifier, arg: string)
    requires arg != ""
    ensures IsBare(classify, arg) <==> StandsAsItIs(classify, arg)
  {
    OnlyNumerals(arg);
    PrefixIs(arg, 'x');
    PrefixIs(arg, 'X');
    PrefixIs(arg, 'o');
    PrefixIs(arg, 'b');
    if |arg| >= 2 {
      DigitsBelow(arg[2..], 16);
      DigitsBelow(arg[2..], 8);
      DigitsBelow(arg[2..], 2);
    }
  }

  lemma {:induction false} AddEscapesIsNoShorter(s: string)
    ensures |Escapes.AddEscapes(s)| >= |s|
  {
    if s != "" {
      AddEscapesIsNoShorter(s[1..]);
    }
  }

  lemma {:induction false} QuotesAreNoShorter(s: string)
    ensures |BinaryEscape.EscapeQuotes(s)| >= |s|
  {
    if s != "" {
      QuotesAreNoShorter(s[1..]);
    }
  }

  lemma {:induction false} EscapedIsLonger(printable: char -> bool, s: string, force: bool)
    requires force || exists i :: 0 <= i < |s| && !printable(s[i])
    ensures |BinaryEscape.BinaryEscaped(printable, s, force)| > |s|
  {
    var escaped := BinaryEscape.EscapeFrom(printable, s, false);
    BinaryEscape.EscapeIfNeeded(printable, s, false);
    QuotesAreNoShorter(escaped);
    if !force {
      var i :| 0 <= i < |s| && !printable(s[i]);
      assert BinaryEscape.NeedsEscapeAt(printable, s, i, false);
    }
  }

  /**
    With any quotes, and with long text allowed to be written over several lines or not, a value is written as it
    stands if and only if it is a keyword or a number in one of the spellings; any other is written longer.
   */
  lemma {:induction false} WrittenAsItIs(classify: Classifier, arg: string, stringQuote: char, literalQuote: char,
                                         disableMultiLine: bool)
    ensures ConvertArg(classify, arg, stringQuote, literalQuote, disableMultiLine) == arg <==>
            StandsAsItIs(classify, arg)
  {
    if arg != "" {
      BareIs(classify, arg);
      if !IsBare(classify, arg) {
        AddEscapesIsNoShorter(arg);
        if |arg| == 1 && !classify.printable(arg[0]) {
          EscapedIsLonger(classify.printable, arg, false);
        } else if |arg| > 1 && !IsPrintable(classify.printable, arg) {
          EscapedIsLonger(classify.printable, arg, false);
        } else {
          EscapedIsLonger(classify.printable, arg, true);
        }
      }
    }
  }

  // ----- the other forms, character by character -----

  /** How a character is written between double quotes. */
  function Spelled(c: char): string {
    match c
    case '"' => "\\\""
    case '\\' => "\\\\"
    case '\t' => "\\t"
    case '\n' => "\\n"
    case '\r' => "\\r"
    case _ => if c as int == 8 then "\\b" else if c as int == 12 then "\\f" else [c]
  }

  function AllSpelled(s: string): string {
    if s == "" then "" else Spelled(s[0]) + AllSpelled(s[1..])
  }

  lemma {:induction false} SpelledIs(s: string)
    ensures Escapes.AddEscapes(s) == AllSpelled(s)
  {
    if s != "" {
      SpelledIs(s[1..]);
      CharacterSpelled(s[0]);
    }
  }

  lemma {:induction false} CharacterSpelled(c: char)
    ensures Escapes.EscapeChar(c) == Spelled(c)
    ensures Escapes.EscapeCode(c).None? ==> Spelled(c) == [c]
  {
  }

  lemma {:induction false} NothingToSpell(s: string)
    requires forall i | 0 <= i < |s| :: Escapes.EscapeCode(s[i]).None?
    ensures AllSpelled(s) == s
  {
    if s != "" {
      CharacterSpelled(s[0]);
      NothingToSpell(s[1..]);
      assert s == [s[0]] + s[1..];
    }
  }

  const HEX := "0123456789abcdef"

  /** A byte in the binary form. */
  function ByteSpelled(c: char): string {
    "\\x" + [HEX[c as int % 256 / 16], HEX[c as int % 16]]
  }

  /** The binary form in one pass: `after` says that a backslash stands before the text. */
  function BinarySpelled(printable: char -> bool, s: string, after: bool): string {
    if s == "" then ""
    else
      var c := s[0];
      (if !printable(c) || c == '\'' || ((c == 'x' || c == 'X') && after) then ByteSpelled(c) else [c])
      + BinarySpelled(printable, s[1..], printable(c) && c == '\\')
  }

  lemma {:induction false} ByteSpelledIs(c: char)
    ensures BinaryEscape.ByteEscape(c) == ByteSpelled(c)
  {
    var v := c as int % 256;
    HexIs(v / 16);
    HexIs(v % 16);
    assert v % 16 == c as int % 16;
  }

  lemma HexIs(v: nat)
    requires v < 16
    ensures BinaryEscape.HexDigit(v) == HEX[v]
  {
  }

  lemma {:induction false} ByteHasNoQuotes(c: char)
    ensures BinaryEscape.EscapeQuotes(ByteSpelled(c)) == ByteSpelled(c)
    ensures !BinaryEscape.EndsInBackslash(ByteSpelled(c))
  {
    var e := ByteSpelled(c);
    assert e[2] == HEX[c as int % 256 / 16] && e[3] == HEX[c as int % 16];
    assert '\'' !in HEX && '\\' !in HEX;
    assert forall i | 0 <= i < |e| :: e[i] == '\\' || e[i] == 'x' || e[i] in HEX;
    BinaryEscape.EscapeNoQuotes(e);
  }

  /** Whether a character is written as a byte. */
  predicate AsByte(printable: char -> bool, c: char, after: bool) {
    !printable(c) || ((c == 'x' || c == 'X') && after)
  }

  lemma {:induction false} FirstPassIs(printable: char -> bool, c: char, after: bool)
    ensures BinaryEscape.EscapeChar(printable, c, after)
         == if AsByte(printable, c, after) then ByteSpelled(c) else [c]
  {
    ByteSpelledIs(c);
    assert HEX[7] == '7' && HEX[5] == '5' && HEX[8] == '8';
  }

  lemma {:induction false} OneQuote(c: char)
    ensures BinaryEscape.EscapeQuotes([c]) == if c == '\'' then ByteSpelled(c) else [c]
  {
    assert [c][1..] == "" && HEX[2] == '2' && HEX[7] == '7';
  }

  lemma {:induction false} CharacterIs(printable: char -> bool, c: char, after: bool)
    ensures var e := BinaryEscape.EscapeChar(printable, c, after);
            BinaryEscape.EscapeQuotes(e)
            == (if AsByte(printable, c, after) || c == '\'' then ByteSpelled(c) else [c]) &&
            (BinaryEscape.EndsInBackslash(e) <==> printable(c) && c == '\\')
  {
    FirstPassIs(printable, c, after);
    ByteHasNoQuotes(c);
    OneQuote(c);
  }

  lemma {:induction false} BinaryIs(printable: char -> bool, s: string, after: bool)
    ensures BinaryEscape.EscapeQuotes(BinaryEscape.EscapeFrom(printable, s, after))
         == BinarySpelled(printable, s, after)
  {
    if s != "" {
      var e := BinaryEscape.EscapeChar(printable, s[0], after);
      var ends := BinaryEscape.EndsInBackslash(e);
      CharacterIs(printable, s[0], after);
      BinaryIs(printable, s[1..], ends);
      BinaryEscape.EscapeQuotesConcat(e, BinaryEscape.EscapeFrom(printable, s[1..], ends));
    }
  }

  /** What is written for a value that does not stand as it is, where lines are not kept apart. */
  function QuotedForm(classify: Classifier, arg: string): string {
    if arg == "'" && classify.printable('\'') then "\"'\""
    else if |arg| == 1 && classify.printable(arg[0]) then "'" + arg + "'"
    else if exists i :: 0 <= i < |arg| && !classify.printable(arg[i]) &&
                        (|arg| == 1 || (arg[i] != '\n' && arg[i] != '\t')) then
      "'B\"(" + BinarySpelled(classify.printable, arg, false) + ")\"'"
    else "\"" + AllSpelled(arg) + "\""
  }

  lemma {:induction false} BinaryFormIs(classify: Classifier, arg: string)
    requires exists i :: 0 <= i < |arg| && !classify.printable(arg[i])
    ensures BinaryEscape.BinaryEscaped(classify.printable, arg, false)
         == "'B\"(" + BinarySpelled(classify.printable, arg, false) + ")\"'"
  {
    BinaryIs(classify.printable, arg, false);
    EscapedIsLonger(classify.printable, arg, false);
    BinaryEscape.EscapeIfNeeded(classify.printable, arg, false);
    var i :| 0 <= i < |arg| && !classify.printable(arg[i]);
    assert BinaryEscape.NeedsEscapeAt(classify.printable, arg, i, false);
  }

  /** An item of a list in every case. */
  lemma {:induction false} ItemIs(classify: Classifier, arg: string)
    ensures ConvertArg(classify, arg, '"', '\'', true)
         == if StandsAsItIs(classify, arg) then arg else QuotedForm(classify, arg)
  {
    SpelledIs(arg);
    if !Escapes.HasEscapable(arg) {
      NothingToSpell(arg);
    }
    if arg != "" {
      BareIs(classify, arg);
      if exists i :: 0 <= i < |arg| && !classify.printable(arg[i]) {
        BinaryFormIs(classify, arg);
      }
    }
  }

  /** The items of a list with a comma and a blank between them. */
  function Listed(classify: Classifier, args: seq<string>): string
    requires args != []
  {
    var item := if StandsAsItIs(classify, args[0]) then args[0] else QuotedForm(classify, args[0]);
    if |args| == 1 then item else item + ", " + Listed(classify, args[1..])
  }

  lemma {:induction false} JoinIs(classify: Classifier, args: seq<string>)
    requires args != []
    ensures Join(Converted(classify, DEFAULT_STYLE, args, true), ", ") == Listed(classify, args)
  {
    ItemIs(classify, args[0]);
    if |args| > 1 {
      JoinIs(classify, args[1..]);
      assert Converted(classify, DEFAULT_STYLE, args, true)[1..]
          == Converted(classify, DEFAULT_STYLE, args[1..], true);
    }
  }

  /** A list of two or more values as it stands in the file. */
  lemma {:induction false} ListIs(classify: Classifier, args: seq<string>)
    requires |args| >= 2
    ensures Joined(classify, DEFAULT_STYLE, args) == "[" + Listed(classify, args) + "]"
  {
    JoinIs(classify, args);
    assert Separator(DEFAULT_STYLE) == ", ";
  }
}
