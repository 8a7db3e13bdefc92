/**
  Writing option values to a configuration file: `convert_arg_for_ini` and `ini_join`.
  Number recognition and printability are arbitrary predicates.
 */
module IniValues {
  import opened Text
  import BinaryEscape
  import Escapes

  datatype Classifier = Classifier(printable: char -> bool, number: string -> bool)

  const MULTILINE_LITERAL_QUOTE := "'''"

  predicate IsNumeralChar(c: char) {
    '0' <= c <= '9' || c == '.' || c == '-' || c == '+' || c == 'e' || c == 'E'
  }

  predicate AllNumeral(s: string) {
    forall i | 0 <= i < |s| :: IsNumeralChar(s[i])
  }

  /** Digits below the base, as the hexadecimal, octal and binary checks read them. */
  predicate AllDigits(s: string, base: nat) {
    forall i | 0 <= i < |s| :: Escapes.HexConvert(s[i]) < base
  }

  predicate HasPrefix(s: string, second: char) {
    |s| >= 2 && s[0] == '0' && s[1] == second
  }

  predicate IsBaseNumber(s: string) {
    (HasPrefix(s, 'x') && AllDigits(s[2..], 16)) ||
    (HasPrefix(s, 'o') && AllDigits(s[2..], 8)) ||
    (HasPrefix(s, 'b') && AllDigits(s[2..], 2))
  }

  /** `is_printable`: newlines and tabs count as printable. */
  predicate IsPrintable(printable: char -> bool, s: string) {
    forall i | 0 <= i < |s| :: printable(s[i]) || s[i] == '\n' || s[i] == '\t'
  }

  predicate Contains(s: string, part: string) {
    part <= s || (s != "" && Contains(s[1..], part))
  }

  predicate IsLineEnd(c: char) {
    c == '\n' || c == '\r'
  }

  function MultiLine(arg: string): string
    requires arg != ""
  {
    MULTILINE_LITERAL_QUOTE + (if IsLineEnd(arg[0]) then "\n" else "") + arg +
    (if IsLineEnd(arg[|arg| - 1]) then "\n" else "") + MULTILINE_LITERAL_QUOTE
  }

  /** Written as it stands: a keyword, a decimal numeral, or a number with a base prefix. */
  predicate IsBare(classify: Classifier, arg: string) {
    arg == "true" || arg == "false" || arg == "nan" || arg == "inf" ||
    (!HasPrefix(arg, 'x') && !HasPrefix(arg, 'X') && classify.number(arg) && AllNumeral(arg)) ||
    IsBaseNumber(arg)
  }

  function ConvertArg(classify: Classifier, arg: string, stringQuote: char, literalQuote: char,
                      disableMultiLine: bool): string
  {
    if arg == "" then
      [stringQuote, stringQuote]
    else if IsBare(classify, arg) then
      arg
    else if |arg| == 1 then
      if !classify.printable(arg[0]) then BinaryEscape.BinaryEscaped(classify.printable, arg, false)
      else if arg == "'" then [stringQuote, '\'', stringQuote]
      else [literalQuote] + arg + [literalQuote]
    else if !IsPrintable(classify.printable, arg) then
      BinaryEscape.BinaryEscaped(classify.printable, arg, false)
    else if Escapes.HasEscapable(arg) then
      if |arg| > 100 && !disableMultiLine then
        if Contains(arg, MULTILINE_LITERAL_QUOTE) then BinaryEscape.BinaryEscaped(classify.printable, arg, true)
        else MultiLine(arg)
      else [stringQuote] + Escapes.AddEscapes(arg) + [stringQuote]
    else
      [stringQuote] + arg + [stringQuote]
  }

  /** The same decisions in the order the source takes them. */
  method ConvertArgForIni(classify: Classifier, arg: string, stringQuote: char, literalQuote: char,
                          disableMultiLine: bool) returns (text: string)
    ensures text == ConvertArg(classify, arg, stringQuote, literalQuote, disableMultiLine)
  {
    if arg == "" {
      return [stringQuote, stringQuote];
    }
    if arg == "true" || arg == "false" || arg == "nan" || arg == "inf" {
      return arg;
    }
    if !HasPrefix(arg, 'x') && !HasPrefix(arg, 'X') {
      if classify.number(arg) && AllNumeral(arg) {
        return arg;
      }
    }
    if |arg| == 1 {
      if !classify.printable(arg[0]) {
        text := BinaryEscape.BinaryEscapeString(classify.printable, arg, false);
        return;
      }
      if arg == "'" {
        return [stringQuote] + "'" + [stringQuote];
      }
      return [literalQuote] + arg + [literalQuote];
    }
    if arg[0] == '0' {
      if arg[1] == 'x' {
        if AllDigits(arg[2..], 16) {
          return arg;
        }
      } else if arg[1] == 'o' {
        if AllDigits(arg[2..], 8) {
          return arg;
        }
      } else if arg[1] == 'b' {
        if AllDigits(arg[2..], 2) {
          return arg;
        }
      }
    }
    assert !IsBare(classify, arg);
    if !IsPrintable(classify.printable, arg) {
      text := BinaryEscape.BinaryEscapeString(classify.printable, arg, false);
      return;
    }
    if Escapes.HasEscapable(arg) {
      if |arg| > 100 && !disableMultiLine {
        if Contains(arg, MULTILINE_LITERAL_QUOTE) {
          text := BinaryEscape.BinaryEscapeString(classify.printable, arg, true);
          return;
        }
        text := MULTILINE_LITERAL_QUOTE;
        if IsLineEnd(arg[0]) {
          text := text + "\n";
        }
        text := text + arg;
        if IsLineEnd(arg[|arg| - 1]) {
          text := text + "\n";
        }
        text := text + MULTILINE_LITERAL_QUOTE;
        return;
      }
      var escaped := Escapes.AddEscapedCharacters(arg);
      return [stringQuote] + escaped + [stringQuote];
    }
    text := [stringQuote] + arg + [stringQuote];
  }

  // ----- joining -----

  datatype ArrayStyle = ArrayStyle(separator: char, start: char, end: char, stringQuote: char, literalQuote: char)

  /** `ConfigBase` as it is constructed. */
  const DEFAULT_STYLE := ArrayStyle(',', '[', ']', '"', '\'')

  predicate IsList(style: ArrayStyle, args: seq<string>) {
    |args| > 1 && style.start != NUL
  }

  function Converted(classify: Classifier, style: ArrayStyle, args: seq<string>,
                     disableMultiLine: bool): (items: seq<string>)
    ensures |items| == |args|
  {
    if args == [] then []
    else [ConvertArg(classify, args[0], style.stringQuote, style.literalQuote, disableMultiLine)]
         + Converted(classify, style, args[1..], disableMultiLine)
  }

  /** The separator, with a blank after it unless it is whitespace itself. */
  function Separator(style: ArrayStyle): string {
    if IsSpace(style.separator) then [style.separator] else [style.separator, ' ']
  }

  function Join(items: seq<string>, separator: string): string {
    if items == [] then ""
    else if |items| == 1 then items[0]
    else items[0] + separator + Join(items[1..], separator)
  }

  function Joined(classify: Classifier, style: ArrayStyle, args: seq<string>): string {
    (if IsList(style, args) then [style.start] else "") +
    Join(Converted(classify, style, args, IsList(style, args)), Separator(style)) +
    (if |args| > 1 && style.end != NUL then [style.end] else "")
  }

  lemma {:induction false} JoinSnoc(items: seq<string>, last: string, separator: string)
    ensures Join(items + [last], separator)
         == Join(items, separator) + (if items == [] then "" else separator) + last
  {
    if |items| == 1 {
      assert (items + [last])[1..] == [last];
    } else if |items| > 1 {
      assert (items + [last])[1..] == items[1..] + [last];
      JoinSnoc(items[1..], last, separator);
    }
  }

  lemma {:induction false} ConvertedSnoc(classify: Classifier, style: ArrayStyle, args: seq<string>, i: nat,
                                         disableMultiLine: bool)
    requires i < |args|
    ensures Converted(classify, style, args[..i + 1], disableMultiLine)
         == Converted(classify, style, args[..i], disableMultiLine)
          + [ConvertArg(classify, args[i], style.stringQuote, style.literalQuote, disableMultiLine)]
  {
    if i > 0 {
      assert args[..i + 1][1..] == args[1..][..i] && args[..i][1..] == args[1..][..i - 1];
      ConvertedSnoc(classify, style, args[1..], i - 1, disableMultiLine);
    }
  }

  /** The text joined from the first i arguments. */
  function JoinedPrefix(classify: Classifier, style: ArrayStyle, args: seq<string>, i: nat,
                        disableMultiLine: bool): string
    requires i <= |args|
  {
    Join(Converted(classify, style, args[..i], disableMultiLine), Separator(style))
  }

  lemma {:induction false} JoinStep(classify: Classifier, style: ArrayStyle, args: seq<string>, i: nat,
                                    disableMultiLine: bool)
    requires i < |args|
    ensures JoinedPrefix(classify, style, args, i + 1, disableMultiLine)
         == JoinedPrefix(classify, style, args, i, disableMultiLine)
          + (if i == 0 then "" else Separator(style))
          + ConvertArg(classify, args[i], style.stringQuote, style.literalQuote, disableMultiLine)
  {
    ConvertedSnoc(classify, style, args, i, disableMultiLine);
    JoinSnoc(Converted(classify, style, args[..i], disableMultiLine),
             ConvertArg(classify, args[i], style.stringQuote, style.literalQuote, disableMultiLine), Separator(style));
  }

  lemma {:induction false} Regroup(opening: string, done: string, separator: string, text: string)
    ensures opening + (done + separator + text) == opening + done + separator + text
  {
  }

  method AddSeparator(style: ArrayStyle, text: string) returns (joined: string)
    ensures joined == text + Separator(style)
  {
    joined := text + [style.separator];
    if !IsSpace(style.separator) {
      joined := joined + [' '];
    }
  }

  method IniJoin(classify: Classifier, args: seq<string>, style: ArrayStyle) returns (joined: string)
    ensures joined == Joined(classify, style, args)
  {
    var disableMultiLine := false;
    joined := "";
    if |args| > 1 && style.start != NUL {
      joined := joined + [style.start];
      disableMultiLine := true;
    }
    ghost var opening := joined;
    var start := 0;
    for i := 0 to |args|
      invariant start == i
      invariant joined == opening + JoinedPrefix(classify, style, args, i, disableMultiLine)
    {
      JoinStep(classify, style, args, i, disableMultiLine);
      ghost var done := JoinedPrefix(classify, style, args, i, disableMultiLine);
      ghost var separator := if i == 0 then "" else Separator(style);
      start := start + 1;
      if start - 1 > 0 {
        joined := AddSeparator(style, joined);
      }
      assert joined == opening + done + separator;
      var text := ConvertArgForIni(classify, args[i], style.stringQuote, style.literalQuote, disableMultiLine);
      Regroup(opening, done, separator, text);
      joined := joined + text;
    }
    assert args[..|args|] == args;
    if |args| > 1 && style.end != NUL {
      joined := joined + [style.end];
    }
  }
}
