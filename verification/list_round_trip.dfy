/**
  Writing a list with `ini_join` and reading it back: brackets stripped, `split_up` on the
  separator, `process_quoted_string` on each item and `_add_result` on each value.
 */
module ListRoundTrip {
  import opened Wrappers
  import opened Text
  import opened IniValues
  import BinaryEscape
  import Brackets
  import Escapes
  import OptionResults
  import QuotedString

  // ----- reading -----

  /** Unquotes every item; the first exception ends the reading. */
  function UnquoteAll(items: seq<string>): Result<seq<string>> {
    if items == [] then
      Returned([])
    else
      match QuotedString.ProcessQuoted(items[0], '"', '\'', false)
      case Thrown => Thrown
      case Returned(first) =>
        match UnquoteAll(items[1..])
        case Thrown => Thrown
        case Returned(rest) => Returned([first.text] + rest)
  }

  function AddAll(opt: OptionResults.OptionConfig, values: seq<string>): seq<string> {
    if values == [] then [] else OptionResults.Added(opt, values[0]) + AddAll(opt, values[1..])
  }

  /** The values an option stores for a bracketed list in a configuration file. */
  function ReadList(opt: OptionResults.OptionConfig, item: string): Result<seq<string>>
    requires |item| >= 2
  {
    match UnquoteAll(Brackets.Split(item[1..|item| - 1], ','))
    case Thrown => Thrown
    case Returned(values) => Returned(AddAll(opt, values))
  }

  // ----- the forms a written item takes -----

  predicate IsBareChar(c: char) {
    '0' <= c <= '9' || 'a' <= c <= 'z' || 'A' <= c <= 'Z' || c == '.' || c == '-' || c == '+'
  }

  predicate BareText(s: string) {
    s != "" && forall i | 0 <= i < |s| :: IsBareChar(s[i])
  }

  predicate LiteralText(s: string) {
    |s| >= 2 && s[0] == '\'' && s[|s| - 1] == '\'' && '\'' !in s[1..|s| - 1]
  }

  function Item(classify: Classifier, arg: string): string {
    ConvertArg(classify, arg, '"', '\'', true)
  }

  lemma {:induction false} BareIsBareText(classify: Classifier, arg: string)
    requires arg != "" && IsBare(classify, arg)
    ensures BareText(arg)
  {
    if IsBaseNumber(arg) {
      forall i | 0 <= i < |arg| ensures IsBareChar(arg[i]) {
        if i >= 2 {
          assert arg[i] == arg[2..][i - 2];
        }
      }
    }
  }

  lemma {:induction false} AddEscapesPlain(s: string)
    requires !Escapes.HasEscapable(s)
    ensures Escapes.AddEscapes(s) == s
  {
    if s != "" {
      assert Escapes.EscapeCode(s[0]).None?;
      assert !Escapes.HasEscapable(s[1..]) by {
        forall i | 0 <= i < |s[1..]| ensures Escapes.EscapeCode(s[1..][i]).None? {
          assert s[1..][i] == s[i + 1];
        }
      }
      AddEscapesPlain(s[1..]);
      assert s == [s[0]] + s[1..];
    }
  }

  /** The quoted binary form of an argument with an unprintable character. */
  function BinaryItem(classify: Classifier, arg: string): string {
    BinaryEscape.BinaryEscaped(classify.printable, arg, true)
  }

  lemma {:induction false} BinaryWhenUnprintable(classify: Classifier, arg: string)
    requires exists i | 0 <= i < |arg| :: !classify.printable(arg[i])
    ensures BinaryEscape.BinaryEscaped(classify.printable, arg, false) == BinaryItem(classify, arg)
  {
    var i :| 0 <= i < |arg| && !classify.printable(arg[i]);
    assert BinaryEscape.NeedsEscapeAt(classify.printable, arg, i, false);
    BinaryEscape.EscapeIfNeeded(classify.printable, arg, false);
  }

  /** In a list every argument is written in one of four forms. */
  lemma {:induction false} ItemForms(classify: Classifier, arg: string)
    ensures Item(classify, arg) == QuotedString.Quoted(arg)
         || (Item(classify, arg) == arg && BareText(arg))
         || (Item(classify, arg) == "'" + arg + "'" && |arg| == 1 && arg != "'")
         || Item(classify, arg) == BinaryItem(classify, arg)
  {
    if arg == "" {
    } else if IsBare(classify, arg) {
      BareIsBareText(classify, arg);
    } else if |arg| == 1 && !classify.printable(arg[0]) {
      BinaryWhenUnprintable(classify, arg);
    } else if arg == "'" {
      assert arg[1..] == "";
      assert Escapes.AddEscapes(arg) == "'";
    } else if |arg| == 1 {
    } else if !IsPrintable(classify.printable, arg) {
      BinaryWhenUnprintable(classify, arg);
    } else if !Escapes.HasEscapable(arg) {
      AddEscapesPlain(arg);
    }
  }

  lemma {:induction false} EscapedHasNoQuote(s: string)
    ensures '\'' !in BinaryEscape.EscapeQuotes(s)
  {
    if s != "" {
      EscapedHasNoQuote(s[1..]);
    }
  }

  lemma {:induction false} BinaryItemIsLiteral(classify: Classifier, arg: string)
    ensures LiteralText(BinaryItem(classify, arg))
  {
    var e := BinaryEscape.EscapeQuotes(BinaryEscape.EscapeFrom(classify.printable, arg, false));
    EscapedHasNoQuote(BinaryEscape.EscapeFrom(classify.printable, arg, false));
    var item := BinaryItem(classify, arg);
    assert item[1..|item| - 1] == "B\"(" + e + ")\"";
  }

  // ----- each item is found and unquoted -----

  /** An item keeps its bounds in front of a separator or at the end of the text, and neither end is blank. */
  predicate Delimited(item: string) {
    item != "" && !IsSpace(item[0]) && !IsSpace(item[|item| - 1])
  }

  lemma {:induction false} LiteralLength(item: string, after: string)
    requires LiteralText(item)
    ensures Brackets.ItemLength(item + after, ',') == |item|
  {
    var s := item + after;
    var end := Find(s, '\'', 1);
    assert s[|item| - 1] == '\'';
    assert forall i | 1 <= i < |item| - 1 :: s[i] == item[1..|item| - 1][i - 1];
    assert end == |item| - 1;
  }

  lemma {:induction false} QuotedLength(arg: string, after: string)
    ensures Brackets.ItemLength(QuotedString.Quoted(arg) + after, ',') == |QuotedString.Quoted(arg)|
  {
    QuotedString.QuotedEndsAtLastQuote(arg, after);
    assert (QuotedString.Quoted(arg) + after)[0] == '"';
  }

  lemma {:induction false} BareLength(arg: string, after: string)
    requires BareText(arg) && (after == "" || after[0] == ',')
    ensures Brackets.ItemLength(arg + after, ',') == |arg|
  {
    var s := arg + after;
    assert s[0] == arg[0];
    var end := Find(s, ',', 0);
    assert forall i | 0 <= i < |arg| :: s[i] == arg[i] && IsBareChar(arg[i]);
    assert after != "" ==> s[|arg|] == ',';
  }

  lemma {:induction false} ItemIsDelimited(classify: Classifier, arg: string, after: string)
    requires after == "" || after[0] == ','
    ensures Delimited(Item(classify, arg))
    ensures Brackets.ItemLength(Item(classify, arg) + after, ',') == |Item(classify, arg)|
  {
    ItemForms(classify, arg);
    var item := Item(classify, arg);
    if item == QuotedString.Quoted(arg) {
      QuotedLength(arg, after);
    } else if item == arg && BareText(arg) {
      BareLength(arg, after);
      assert IsBareChar(arg[0]) && IsBareChar(arg[|arg| - 1]);
    } else {
      if item == BinaryItem(classify, arg) {
        BinaryItemIsLiteral(classify, arg);
      } else {
        assert item[1..|item| - 1] == arg;
      }
      LiteralLength(item, after);
    }
  }

  /** Unquoting a written item gives the argument, marked when it would read as an array. */
  lemma {:induction false} UnquoteItem(classify: Classifier, arg: string)
    requires IsBytes(arg)
    ensures QuotedString.ProcessQuoted(Item(classify, arg), '"', '\'', false).Returned?
    ensures QuotedString.ProcessQuoted(Item(classify, arg), '"', '\'', false).value.text
            == QuotedString.ArrayMarked(arg)
  {
    ItemForms(classify, arg);
    var item := Item(classify, arg);
    if item == QuotedString.Quoted(arg) {
      QuotedString.UnquoteQuoted(arg, '\'', false);
    } else if item == arg && BareText(arg) {
      assert IsBareChar(arg[0]) && IsBareChar(arg[|arg| - 1]);
    } else if item == BinaryItem(classify, arg) {
      BinaryEscape.ExtractQuoted(classify.printable, arg);
    } else {
      assert QuotedString.RemoveOuter(item, '\'') == arg;
    }
  }

  // ----- the whole list -----

  function Items(classify: Classifier, args: seq<string>): (items: seq<string>)
    ensures items == Converted(classify, DEFAULT_STYLE, args, true)
  {
    if args == [] then [] else [Item(classify, args[0])] + Items(classify, args[1..])
  }

  lemma {:induction false} JoinIsDelimited(classify: Classifier, args: seq<string>)
    requires args != []
    ensures Delimited(Join(Items(classify, args), ", "))
  {
    ItemIsDelimited(classify, args[0], "");
    if |args| > 1 {
      JoinIsDelimited(classify, args[1..]);
      var rest := Join(Items(classify, args[1..]), ", ");
      var whole := Item(classify, args[0]) + ", " + rest;
      assert whole[|whole| - 1] == rest[|rest| - 1];
    }
  }

  lemma {:induction false} SplitCons(first: string, rest: string)
    requires first != "" && Delimited(rest)
    requires Brackets.ItemLength(first + (", " + rest), ',') == |first|
    ensures Brackets.SplitTrimmed(first + ", " + rest, ',') == [first] + Brackets.SplitTrimmed(rest, ',')
  {
    var whole := first + (", " + rest);
    assert first + ", " + rest == whole;
    assert whole[..|first|] == first;
    assert Brackets.AfterItem(whole, ',') == " " + rest;
    TrimClean(rest);
    assert Brackets.SplitTrimmed(whole, ',') == [first] + Brackets.SplitTrimmed(rest, ',');
  }

  lemma {:induction false} SplitLast(item: string)
    requires item != "" && Brackets.ItemLength(item, ',') == |item|
    ensures Brackets.SplitTrimmed(item, ',') == [item]
  {
    assert item[..|item|] == item;
    assert Trim("") == "";
  }

  /** Splitting the joined text gives back the written items. */
  lemma {:induction false} SplitJoined(classify: Classifier, args: seq<string>)
    requires args != []
    ensures Brackets.SplitTrimmed(Join(Items(classify, args), ", "), ',') == Items(classify, args)
  {
    var first := Item(classify, args[0]);
    if |args| == 1 {
      ItemIsDelimited(classify, args[0], "");
      assert first + "" == first;
      SplitLast(first);
      assert Items(classify, args) == [first];
    } else {
      var rest := Join(Items(classify, args[1..]), ", ");
      JoinIsDelimited(classify, args[1..]);
      SplitJoined(classify, args[1..]);
      ItemIsDelimited(classify, args[0], ", " + rest);
      SplitCons(first, rest);
    }
  }

  function Marked(args: seq<string>): (values: seq<string>) {
    if args == [] then [] else [QuotedString.ArrayMarked(args[0])] + Marked(args[1..])
  }

  lemma {:induction false} UnquoteItems(classify: Classifier, args: seq<string>)
    requires forall i | 0 <= i < |args| :: IsBytes(args[i])
    ensures UnquoteAll(Items(classify, args)) == Returned(Marked(args))
  {
    if args != [] {
      UnquoteItem(classify, args[0]);
      UnquoteItems(classify, args[1..]);
    }
  }

  lemma {:induction false} AddMarked(opt: OptionResults.OptionConfig, args: seq<string>)
    ensures (forall i | 0 <= i < |args| :: OptionResults.Unbroken(opt, args[i])) ==> AddAll(opt, Marked(args)) == args
    ensures forall t | t in AddAll(opt, Marked(args)) :: OptionResults.Unbroken(opt, t)
  {
    if args != [] {
      AddMarked(opt, args[1..]);
      OptionResults.StoredIsUnbroken(opt, args[0]);
      assert Marked(args)[1..] == Marked(args[1..]);
      if forall i | 0 <= i < |args| :: OptionResults.Unbroken(opt, args[i]) {
        OptionResults.MarkIsUndone(opt, args[0]);
        assert args == [args[0]] + args[1..];
      }
    }
  }

  /**
    A list of two or more byte strings is stored again exactly as it was written if and only if
    the option's delimiter breaks up none of its values; an option without a delimiter keeps
    every list. What counts as printable or as a number, and how many values the option takes,
    make no difference.
   */
  lemma {:induction false} WriteThenRead(classify: Classifier, opt: OptionResults.OptionConfig, args: seq<string>)
    requires |args| >= 2
    requires forall i | 0 <= i < |args| :: IsBytes(args[i])
    ensures |Joined(classify, DEFAULT_STYLE, args)| >= 2
    ensures ReadList(opt, Joined(classify, DEFAULT_STYLE, args)) == Returned(args)
      <==> forall i | 0 <= i < |args| :: OptionResults.Unbroken(opt, args[i])
  {
    var inner := Join(Items(classify, args), ", ");
    var text := Joined(classify, DEFAULT_STYLE, args);
    assert text == "[" + inner + "]";
    assert text[1..|text| - 1] == inner;
    JoinIsDelimited(classify, args);
    TrimClean(inner);
    SplitJoined(classify, args);
    UnquoteItems(classify, args);
    AddMarked(opt, args);
  }

  /** An option with the delimiter `;` stores the value "a;b" of a written list as two values. */
  lemma DelimiterBreaksValue(classify: Classifier, opt: OptionResults.OptionConfig)
    requires opt.delimiter == ';'
    ensures |Joined(classify, DEFAULT_STYLE, ["a;b", "c"])| >= 2
    ensures ReadList(opt, Joined(classify, DEFAULT_STYLE, ["a;b", "c"])) != Returned(["a;b", "c"])
  {
    WriteThenRead(classify, opt, ["a;b", "c"]);
    assert ';' == "a;b"[1];
    assert !OptionResults.Unbroken(opt, ["a;b", "c"][0]);
  }
}
