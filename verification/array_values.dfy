/**
  What `_add_result` stores for an array, a value with delimiters in it and a plain value, against trees of
  nested arrays.
 */
module ArrayValues {
  import opened OptionResults
  import opened Text
  import opened Wrappers
  import Brackets
  import BracketGroups

  /** The items of an array, in order: values, and arrays in turn. */
  datatype Items =
    | End
    | Value(text: string, rest: Items)
    | Nested(inner: Items, rest: Items)

  /** The items with commas between them. */
  function Listed(x: Items): string
    decreases x, 0
  {
    match x
    case End => ""
    case Value(text, rest) => text + Tail(rest)
    case Nested(inner, rest) => "[" + Listed(inner) + "]" + Tail(rest)
  }

  function Tail(x: Items): string
    decreases x, 1
  {
    if x.End? then "" else "," + Listed(x)
  }

  function ArrayText(x: Items): string {
    "[" + Listed(x) + "]"
  }

  /** All values, at whatever depth, in order. */
  function Flattened(x: Items): seq<string> {
    match x
    case End => []
    case Value(text, rest) => [text] + Flattened(rest)
    case Nested(inner, rest) => Flattened(inner) + Flattened(rest)
  }

  /** A value with no blank at either end and nothing in it that an array, a group or the delimiter is made of. */
  predicate PlainValue(opt: OptionConfig, text: string) {
    text != "" && !IsSpace(text[0]) && !IsSpace(text[|text| - 1]) &&
    (opt.delimiter == NUL || opt.delimiter !in text) &&
    forall i | 0 <= i < |text| :: !BracketGroups.Opens(text[i]) && text[i] != ']' && text[i] != ','
  }

  predicate PlainValues(opt: OptionConfig, x: Items) {
    match x
    case End => true
    case Value(text, rest) => PlainValue(opt, text) && PlainValues(opt, rest)
    case Nested(inner, rest) => PlainValues(opt, inner) && PlainValues(opt, rest)
  }

  /** Between `[[` and `]]` every character stands twice: such text is the marked form of one value. */
  predicate ReadsAsMarked(s: string) {
    |s| >= 4 && s[0] == '[' && s[1] == '[' && s[|s| - 2] == ']' && s[|s| - 1] == ']' && PairsFrom(s, 2)
  }

  predicate PairsFrom(s: string, i: nat)
    requires |s| >= 4
    decreases |s| - i
  {
    i >= |s| - 2 || (s[i] == s[i + 1] && PairsFrom(s, i + 2))
  }

  lemma {:induction false} PairsAreHalved(s: string, i: nat)
    requires |s| >= 4
    ensures PairsFrom(s, i) <==> Halved(s, i).Some?
    decreases |s| - i
  {
    if i < |s| - 2 {
      PairsAreHalved(s, i + 2);
    }
  }

  /** An array is taken apart only where its text, and the text of each array in it, does not read as marked. */
  predicate NoneMarked(x: Items) {
    !ReadsAsMarked(ArrayText(x)) && NoneMarkedIn(x)
  }

  predicate NoneMarkedIn(x: Items) {
    match x
    case End => true
    case Value(_, rest) => NoneMarkedIn(rest)
    case Nested(inner, rest) => !ReadsAsMarked(ArrayText(inner)) && NoneMarkedIn(inner) && NoneMarkedIn(rest)
  }

  // ----- the items as fields of a list -----

  function Chars(text: string, rest: BracketGroups.Items): BracketGroups.Items {
    if text == "" then rest else BracketGroups.Plain(text[0], Chars(text[1..], rest))
  }

  /** The same text as the content of a group. */
  function Content(x: Items): BracketGroups.Items
    decreases x, 0
  {
    match x
    case End => BracketGroups.End
    case Value(text, rest) => Chars(text, ContentTail(rest))
    case Nested(inner, rest) => BracketGroups.Group(BracketGroups.Square, Content(inner), ContentTail(rest))
  }

  function ContentTail(x: Items): BracketGroups.Items
    decreases x, 1
  {
    if x.End? then BracketGroups.End else BracketGroups.Plain(',', Content(x))
  }

  lemma {:induction false} CharsPrint(text: string, rest: BracketGroups.Items)
    ensures BracketGroups.Print(Chars(text, rest)) == text + BracketGroups.Print(rest)
    decreases |text|
  {
    var printed := BracketGroups.Print(rest);
    if text == "" {
      BehindNothing(printed);
    } else {
      CharsPrint(text[1..], rest);
      FirstBehind(text, printed);
    }
  }

  lemma BehindNothing(t: string)
    ensures "" + t == t
  {
  }

  lemma FirstBehind(text: string, after: string)
    requires text != ""
    ensures [text[0]] + (text[1..] + after) == text + after
  {
  }

  lemma {:induction false} CharsProper(opt: OptionConfig, text: string, rest: BracketGroups.Items)
    requires forall i | 0 <= i < |text| :: !BracketGroups.Opens(text[i]) && text[i] != ']'
    requires BracketGroups.Proper(rest, ']')
    ensures BracketGroups.Proper(Chars(text, rest), ']')
    decreases |text|
  {
    if text != "" {
      CharsProper(opt, text[1..], rest);
    }
  }

  lemma {:induction false} ContentPrint(x: Items)
    ensures BracketGroups.Print(Content(x)) == Listed(x)
    ensures BracketGroups.Print(ContentTail(x)) == Tail(x)
    decreases x
  {
    match x {
      case End =>
      case Value(text, rest) =>
        ContentPrint(rest);
        CharsPrint(text, ContentTail(rest));
      case Nested(inner, rest) =>
        ContentPrint(inner);
        ContentPrint(rest);
    }
  }

  lemma {:induction false} ContentProper(opt: OptionConfig, x: Items)
    requires PlainValues(opt, x)
    ensures BracketGroups.Proper(Content(x), ']') && BracketGroups.Proper(ContentTail(x), ']')
    decreases x
  {
    match x {
      case End =>
      case Value(text, rest) =>
        ContentProper(opt, rest);
        CharsProper(opt, text, ContentTail(rest));
      case Nested(inner, rest) =>
        ContentProper(opt, inner);
        ContentProper(opt, rest);
    }
  }

  function Fielded(x: Items): (fields: seq<BracketGroups.Field>)
    ensures fields == [] <==> x.End?
  {
    match x
    case End => []
    case Value(text, rest) => [BracketGroups.Bare(text)] + Fielded(rest)
    case Nested(inner, rest) =>
      [BracketGroups.Sectioned(BracketGroups.Bracketed(BracketGroups.Square, Content(inner)))] + Fielded(rest)
  }

  /** The texts that the array is split up into. */
  function ItemTexts(x: Items): seq<string> {
    match x
    case End => []
    case Value(text, rest) => [text] + ItemTexts(rest)
    case Nested(inner, rest) => [ArrayText(inner)] + ItemTexts(rest)
  }

  lemma {:induction false} FieldedProper(opt: OptionConfig, x: Items)
    requires PlainValues(opt, x)
    ensures BracketGroups.ProperFields(Fielded(x), ',')
    decreases x
  {
    match x {
      case End =>
      case Value(text, rest) => FieldedProper(opt, rest);
      case Nested(inner, rest) =>
        ContentProper(opt, inner);
        FieldedProper(opt, rest);
    }
  }

  lemma {:induction false} FieldedJoined(x: Items)
    requires !x.End?
    ensures BracketGroups.Joined(Fielded(x), ',') == Listed(x)
    decreases x
  {
    var rest, fields := x.rest, Fielded(x);
    if x.Nested? {
      ContentPrint(x.inner);
    }
    assert fields[1..] == Fielded(rest);
    if rest.End? {
      assert BracketGroups.FieldText(fields[0]) + "" == BracketGroups.FieldText(fields[0]);
    } else {
      FieldedJoined(rest);
      var first := BracketGroups.FieldText(fields[0]);
      assert first + [','] + Listed(rest) == first + ("," + Listed(rest));
    }
  }

  lemma {:induction false} FieldedTexts(x: Items)
    ensures BracketGroups.Texts(Fielded(x)) == ItemTexts(x)
    decreases x
  {
    if !x.End? {
      assert Fielded(x)[1..] == Fielded(x.rest);
      FieldedTexts(x.rest);
      if x.Nested? {
        ContentPrint(x.inner);
      }
    }
  }

  /** The text between the brackets of an array is split up into its items. */
  lemma {:induction false} ArraySplit(opt: OptionConfig, x: Items)
    requires PlainValues(opt, x)
    ensures Brackets.Split(Listed(x), ',') == ItemTexts(x)
  {
    if !x.End? {
      FieldedProper(opt, x);
      FieldedJoined(x);
      FieldedTexts(x);
      BracketGroups.SplitFields(Fielded(x), ',', ',');
    }
  }

  // ----- what is stored -----

  predicate HasBracket(values: seq<string>) {
    exists i | 0 <= i < |values| :: '[' in values[i]
  }

  lemma {:induction false} MarkedOrNot(s: string)
    ensures UnmarkedArray(s).Some? <==> ReadsAsMarked(s)
    ensures ReadsAsMarked(s) ==> '[' in UnmarkedArray(s).value
  {
    if MaybeMarkedArray(s) {
      PairsAreHalved(s, 2);
      if ReadsAsMarked(s) {
        assert UnmarkedArray(s).value[0] == '[';
      }
    }
  }

  lemma {:induction false} PlainIsStored(opt: OptionConfig, text: string)
    requires PlainValue(opt, text)
    ensures Added(opt, text) == [text]
  {
    assert text[0] != '[';
  }

  lemma BracketsJoin(a: seq<string>, b: seq<string>)
    requires HasBracket(a) || HasBracket(b)
    ensures HasBracket(a + b)
  {
    if HasBracket(a) {
      var i :| 0 <= i < |a| && '[' in a[i];
      assert (a + b)[i] == a[i];
    } else {
      var i :| 0 <= i < |b| && '[' in b[i];
      assert (a + b)[|a| + i] == b[i];
    }
  }

  /** What an array adds: its values, or a text with a bracket in it where one is read as marked. */
  predicate Stores(values: seq<string>, flattened: seq<string>, unmarked: bool) {
    if unmarked then values == flattened else HasBracket(values)
  }

  lemma StoresBoth(a: seq<string>, b: seq<string>, fa: seq<string>, fb: seq<string>, ua: bool, ub: bool)
    requires Stores(a, fa, ua) && Stores(b, fb, ub)
    ensures Stores(a + b, fa + fb, ua && ub)
  {
    if !ua || !ub {
      BracketsJoin(a, b);
    }
  }

  lemma {:induction false} ItemsStored(opt: OptionConfig, x: Items, bound: nat)
    requires TakesSeveral(opt) && PlainValues(opt, x)
    requires forall i | 0 <= i < |ItemTexts(x)| :: |ItemTexts(x)[i]| <= bound
    ensures Stores(AddedItems(opt, ItemTexts(x), bound), Flattened(x), NoneMarkedIn(x))
    decreases x, 0
  {
    match x {
      case End =>
      case Value(text, rest) =>
        assert ItemTexts(x)[0] == text && ItemTexts(x)[1..] == ItemTexts(rest);
        PlainIsStored(opt, text);
        ItemsStored(opt, rest, bound);
        StoresBoth([text], AddedItems(opt, ItemTexts(rest), bound), [text], Flattened(rest), true, NoneMarkedIn(rest));
      case Nested(inner, rest) =>
        assert ItemTexts(x)[0] == ArrayText(inner) && ItemTexts(x)[1..] == ItemTexts(rest);
        ArrayStored(opt, inner);
        ItemsStored(opt, rest, bound);
        StoresBoth(Added(opt, ArrayText(inner)), AddedItems(opt, ItemTexts(rest), bound), Flattened(inner),
                   Flattened(rest), NoneMarked(inner), NoneMarkedIn(rest));
    }
  }

  lemma {:induction false} ArrayStored(opt: OptionConfig, x: Items)
    requires TakesSeveral(opt) && PlainValues(opt, x)
    ensures Stores(Added(opt, ArrayText(x)), Flattened(x), NoneMarked(x))
    decreases x, 1
  {
    var s := ArrayText(x);
    if !ReadsAsMarked(s) {
      ArraySplit(opt, x);
      ArrayIsTakenApart(opt, x);
      ItemsStored(opt, x, |s| - 2);
    } else {
      MarkedIsStored(opt, s);
    }
  }

  /** Marked text is stored as one value, which has a bracket in it. */
  lemma {:induction false} MarkedIsStored(opt: OptionConfig, s: string)
    requires ReadsAsMarked(s)
    ensures |Added(opt, s)| == 1 && HasBracket(Added(opt, s))
  {
    MarkedOrNot(s);
    assert Added(opt, s)[0] == UnmarkedArray(s).value;
  }

  lemma {:induction false} ArrayIsTakenApart(opt: OptionConfig, x: Items)
    requires TakesSeveral(opt) && !ReadsAsMarked(ArrayText(x)) && Brackets.Split(Listed(x), ',') == ItemTexts(x)
    ensures forall i | 0 <= i < |ItemTexts(x)| :: |ItemTexts(x)[i]| <= |ArrayText(x)| - 2
    ensures Added(opt, ArrayText(x)) == AddedItems(opt, ItemTexts(x), |ArrayText(x)| - 2)
  {
    var s := ArrayText(x);
    MarkedOrNot(s);
    assert s[1..|s| - 1] == Listed(x) && s[0] == '[' && s[|s| - 1] == ']';
  }

  lemma {:induction false} FlattenedIsPlain(opt: OptionConfig, x: Items)
    requires PlainValues(opt, x)
    ensures !HasBracket(Flattened(x))
    decreases x
  {
    match x {
      case End =>
      case Value(text, rest) =>
        FlattenedIsPlain(opt, rest);
        forall i | 0 <= i < |Flattened(x)| ensures '[' !in Flattened(x)[i] {
          assert i > 0 ==> Flattened(x)[i] == Flattened(rest)[i - 1];
        }
      case Nested(inner, rest) =>
        FlattenedIsPlain(opt, inner);
        FlattenedIsPlain(opt, rest);
        forall i | 0 <= i < |Flattened(x)| ensures '[' !in Flattened(x)[i] {
          var n := |Flattened(inner)|;
          assert Flattened(x)[i] == if i < n then Flattened(inner)[i] else Flattened(rest)[i - n];
        }
    }
  }

  /**
    An option that takes several values stores the values of an array, and of the arrays in it, in order, if and
    only if neither its text nor that of an array in it reads as marked.
   */
  lemma {:induction false} ArrayIsFlattened(opt: OptionConfig, x: Items)
    requires TakesSeveral(opt) && PlainValues(opt, x)
    ensures Added(opt, ArrayText(x)) == Flattened(x) <==> NoneMarked(x)
  {
    ArrayStored(opt, x);
    FlattenedIsPlain(opt, x);
  }

  /** Values that are not arrays, however many. */
  function OneLevel(texts: seq<string>): Items {
    if texts == [] then End else Value(texts[0], OneLevel(texts[1..]))
  }

  lemma {:induction false} OneLevelFlattened(opt: OptionConfig, texts: seq<string>)
    requires forall i | 0 <= i < |texts| :: PlainValue(opt, texts[i])
    ensures PlainValues(opt, OneLevel(texts)) && NoneMarkedIn(OneLevel(texts)) && Flattened(OneLevel(texts)) == texts
    ensures '[' !in Listed(OneLevel(texts)) && '[' !in Tail(OneLevel(texts))
  {
    if texts != [] {
      OneLevelFlattened(opt, texts[1..]);
    }
  }

  /** A list of plain values in brackets, commas between them, is stored as these values. */
  lemma {:induction false} ListIsStored(opt: OptionConfig, texts: seq<string>)
    requires TakesSeveral(opt) && forall i | 0 <= i < |texts| :: PlainValue(opt, texts[i])
    ensures Added(opt, ArrayText(OneLevel(texts))) == texts
  {
    var x := OneLevel(texts);
    OneLevelFlattened(opt, texts);
    var s := ArrayText(x);
    if |s| >= 4 {
      assert s[1] == Listed(x)[0];
    }
    ArrayIsFlattened(opt, x);
  }

  /** An array of one array of two equal characters is stored as one value. */
  lemma MarkedArrayIsOneValue(opt: OptionConfig)
    requires TakesSeveral(opt) && (opt.delimiter == NUL || opt.delimiter != 'a')
    ensures var x := Nested(Value("aa", End), End);
            PlainValues(opt, x) && ArrayText(x) == "[[aa]]" && Flattened(x) == ["aa"] &&
            Added(opt, ArrayText(x)) == ["[a]"]
  {
    var s := "[[aa]]";
    assert Halved(s, 4) == Some("");
    assert ['a'] + "" == "a";
    assert Halved(s, 2) == Some("a");
    assert "[" + "a" + "]" == "[a]";
    assert UnmarkedArray(s) == Some("[a]");
  }

  // ----- a delimiter -----

  function Delimited(fields: seq<string>, delimiter: char): string
    requires fields != []
  {
    if |fields| == 1 then fields[0] else fields[0] + [delimiter] + Delimited(fields[1..], delimiter)
  }

  function WithoutEmpty(fields: seq<string>): seq<string> {
    if fields == [] then []
    else if fields[0] == "" then WithoutEmpty(fields[1..])
    else [fields[0]] + WithoutEmpty(fields[1..])
  }

  lemma {:induction false} FieldsOfDelimited(fields: seq<string>, delimiter: char)
    requires fields != [] && forall i | 0 <= i < |fields| :: delimiter !in fields[i]
    ensures NonEmpty(Fields(Delimited(fields, delimiter), delimiter)) == WithoutEmpty(fields)
  {
    var first, s := fields[0], Delimited(fields, delimiter);
    if |fields| > 1 {
      var rest := Delimited(fields[1..], delimiter);
      FieldsOfDelimited(fields[1..], delimiter);
      assert s[..|first|] == first && s[|first|] == delimiter && s[|first| + 1..] == rest;
      FirstDelimiter(first, delimiter, rest);
      var split := Fields(rest, delimiter);
      assert Fields(s, delimiter) == [first] + split && ([first] + split)[1..] == split;
    } else {
      FirstDelimiter(first, delimiter, "");
      assert fields[1..] == [];
      assert s == first;
      if first != "" {
        assert Fields(s, delimiter) == [first] && NonEmpty([first][1..]) == [];
      }
    }
  }

  lemma {:induction false} FirstDelimiter(first: string, delimiter: char, rest: string)
    requires delimiter !in first
    ensures Find(first + [delimiter] + rest, delimiter, 0) == |first| && Find(first, delimiter, 0) == |first|
  {
    var s := first + [delimiter] + rest;
    assert forall i | 0 <= i < |first| :: s[i] == first[i];
    assert s[|first|] == delimiter;
  }

  /** A value that is no array and not marked. */
  predicate NoArray(opt: OptionConfig, s: string) {
    !ReadsAsMarked(s) && !(TakesSeveral(opt) && s != "" && s[0] == '[' && s[|s| - 1] == ']')
  }

  /** Two or more fields with the option's delimiter between them are stored in order, empty ones left out. */
  lemma {:induction false} DelimitedIsStored(opt: OptionConfig, fields: seq<string>)
    requires |fields| >= 2 && opt.delimiter != NUL
    requires forall i | 0 <= i < |fields| :: opt.delimiter !in fields[i]
    requires NoArray(opt, Delimited(fields, opt.delimiter))
    ensures Added(opt, Delimited(fields, opt.delimiter)) == WithoutEmpty(fields)
  {
    var s := Delimited(fields, opt.delimiter);
    MarkedOrNot(s);
    FieldsOfDelimited(fields, opt.delimiter);
    assert s[|fields[0]|] == opt.delimiter;
  }

  /** Any other value is stored as it is. */
  lemma {:induction false} OtherIsStored(opt: OptionConfig, s: string)
    requires NoArray(opt, s) && (opt.delimiter == NUL || opt.delimiter !in s)
    ensures Added(opt, s) == [s]
  {
    MarkedOrNot(s);
  }
}
