/** How an option stores one parsed value: `Option::_add_result`. */
module OptionResults {
  import opened Wrappers
  import opened Text
  import Brackets
  import QuotedString

  /** The settings of an option that `_add_result` reads. */
  datatype OptionConfig = OptionConfig(allowExtraArgs: bool, expectedMax: int, typeSize: int, delimiter: char)

  predicate TakesSeveral(opt: OptionConfig) {
    opt.allowExtraArgs || opt.expectedMax > 1 || opt.typeSize > 1
  }

  predicate MaybeMarkedArray(s: string) {
    |s| >= 4 && s[0] == '[' && s[1] == '[' && s[|s| - 1] == ']' && s[|s| - 2] == ']'
  }

  /** The first of each pair of equal characters between `[[` and `]]`; None when a pair differs. */
  function Halved(s: string, ii: nat): Option<string>
    requires |s| >= 4
    decreases |s| - ii
  {
    if ii >= |s| - 2 then Some("")
    else if s[ii] != s[ii + 1] then None
    else
      match Halved(s, ii + 2)
      case None => None
      case Some(rest) => Some([s[ii]] + rest)
  }

  function UnmarkedArray(s: string): Option<string> {
    if !MaybeMarkedArray(s) then None
    else
      match Halved(s, 2)
      case None => None
      case Some(inner) => Some("[" + inner + "]")
  }

  /** `split`: fields separated by the delimiter, with no empty field after a final one. */
  function Fields(s: string, delimiter: char): seq<string>
    decreases |s|
  {
    if s == "" then []
    else
      var k := Find(s, delimiter, 0);
      if k == |s| then [s] else [s[..k]] + Fields(s[k + 1..], delimiter)
  }

  function NonEmpty(items: seq<string>): (kept: seq<string>) {
    if items == [] then [] else (if items[0] == "" then [] else [items[0]]) + NonEmpty(items[1..])
  }

  /** The values one argument adds. An array is split and each of its items is added in the same way. */
  function Added(opt: OptionConfig, value: string): seq<string>
    decreases |value|, 0
  {
    match UnmarkedArray(value)
    case Some(text) => [text]
    case None =>
      if TakesSeveral(opt) && value != "" && value[0] == '[' && value[|value| - 1] == ']' then
        AddedItems(opt, Brackets.Split(value[1..|value| - 1], ','), |value| - 2)
      else if opt.delimiter != NUL && opt.delimiter in value then
        NonEmpty(Fields(value, opt.delimiter))
      else
        [value]
  }

  function AddedItems(opt: OptionConfig, items: seq<string>, bound: nat): seq<string>
    requires forall i | 0 <= i < |items| :: |items[i]| <= bound
    decreases bound, |items| + 1
  {
    if items == [] then []
    else (if items[0] == "" then [] else Added(opt, items[0])) + AddedItems(opt, items[1..], bound)
  }

  /** Appends to `res` and returns how many values were appended. */
  method AddResult(opt: OptionConfig, value: string, res: seq<string>) returns (count: nat, results: seq<string>)
    ensures results == res + Added(opt, value)
    ensures count == |Added(opt, value)|
    decreases |value|, 2
  {
    if MaybeMarkedArray(value) {
      var unmarked := CollectPairs(value);
      if unmarked.Some? {
        return 1, res + [unmarked.value];
      }
    }
    if TakesSeveral(opt) && value != "" && value[0] == '[' && value[|value| - 1] == ']' {
      var items := Brackets.SplitUp(value[1..|value| - 1], ',');
      count, results := AddItems(opt, items, |value| - 2, res);
      assert Added(opt, value) == AddedItems(opt, items, |value| - 2);
    } else if opt.delimiter == NUL {
      results := res + [value];
      count := 1;
    } else if Find(value, opt.delimiter, 0) != |value| {
      count, results := AddFields(Fields(value, opt.delimiter), res);
    } else {
      results := res + [value];
      count := 1;
    }
  }

  /** The array branch: every non-empty item is added by the same rules. */
  method AddItems(opt: OptionConfig, items: seq<string>, bound: nat, res: seq<string>)
    returns (count: nat, results: seq<string>)
    requires forall i | 0 <= i < |items| :: |items[i]| <= bound
    ensures results == res + AddedItems(opt, items, bound)
    ensures count == |AddedItems(opt, items, bound)|
    decreases bound, 3
  {
    count, results := 0, res;
    ghost var whole := res + AddedItems(opt, items, bound);
    assert items[0..] == items;
    for i := 0 to |items|
      invariant results + AddedItems(opt, items[i..], bound) == whole
      invariant count == |results| - |res|
    {
      AddedItemsStep(opt, items, i, bound, results, whole);
      if items[i] != "" {
        var n;
        n, results := AddResult(opt, items[i], results);
        count := count + n;
      }
    }
    assert items[|items|..] == [];
  }

  lemma {:induction false} AddedItemsStep(opt: OptionConfig, items: seq<string>, i: nat, bound: nat,
                                          done: seq<string>, whole: seq<string>)
    requires i < |items|
    requires forall j | 0 <= j < |items| :: |items[j]| <= bound
    requires done + AddedItems(opt, items[i..], bound) == whole
    ensures items[i] == "" ==> done + AddedItems(opt, items[i + 1..], bound) == whole
    ensures items[i] != "" ==> done + Added(opt, items[i]) + AddedItems(opt, items[i + 1..], bound) == whole
  {
    assert items[i..][1..] == items[i + 1..];
    assert [] + AddedItems(opt, items[i + 1..], bound) == AddedItems(opt, items[i + 1..], bound);
  }

  method AddFields(fields: seq<string>, res: seq<string>) returns (count: nat, results: seq<string>)
    ensures results == res + NonEmpty(fields)
    ensures count == |NonEmpty(fields)|
  {
    count, results := 0, res;
    for i := 0 to |fields|
      invariant results + NonEmpty(fields[i..]) == res + NonEmpty(fields)
      invariant count == |results| - |res|
    {
      assert fields[i..][1..] == fields[i + 1..];
      if fields[i] != "" {
        results := results + [fields[i]];
        count := count + 1;
      }
    }
    assert fields[|fields|..] == [];
  }

  /** The duplicated-pair check: builds the candidate and stops at the first unequal pair. */
  method CollectPairs(value: string) returns (unmarked: Option<string>)
    requires MaybeMarkedArray(value)
    ensures unmarked == UnmarkedArray(value)
  {
    var nstrs := "[";
    var ii := 2;
    while ii < |value| - 2
      invariant 2 <= ii
      invariant match Halved(value, ii)
                case None => UnmarkedArray(value) == None
                case Some(rest) => UnmarkedArray(value) == Some(nstrs + rest + "]")
    {
      if value[ii] == value[ii + 1] {
        if Halved(value, ii + 2).Some? {
          assert nstrs + ([value[ii]] + Halved(value, ii + 2).value) + "]"
              == nstrs + [value[ii]] + Halved(value, ii + 2).value + "]";
        }
        nstrs := nstrs + [value[ii]];
      } else {
        return None;
      }
      ii := ii + 2;
    }
    assert nstrs + "" == nstrs;
    nstrs := nstrs + [']'];
    unmarked := Some(nstrs);
  }

  // ----- the array mark is undone -----

  lemma {:induction false} HalvedOfDoubled(s: string, i: nat)
    requires |s| >= 1 && i < |s|
    ensures Halved("[[" + QuotedString.DoubleEach(s), 2 + 2 * i) == Some(s[i..|s| - 1])
    decreases |s| - i
  {
    var t := "[[" + QuotedString.DoubleEach(s);
    if i < |s| - 1 {
      QuotedString.DoubleEachAt(s, i);
      assert t[2 + 2 * i] == s[i] && t[3 + 2 * i] == s[i];
      HalvedOfDoubled(s, i + 1);
      assert s[i..|s| - 1] == [s[i]] + s[i + 1..|s| - 1];
    } else {
      assert s[i..|s| - 1] == "";
    }
  }

  /** A value that the option's delimiter does not break up: an array is protected by its mark. */
  predicate Unbroken(opt: OptionConfig, s: string) {
    opt.delimiter == NUL || QuotedString.LooksLikeArray(s) || opt.delimiter !in s
  }

  /** Whatever else the option's settings are, such a value is stored once, without its mark. */
  lemma {:induction false} MarkIsUndone(opt: OptionConfig, s: string)
    requires Unbroken(opt, s)
    ensures Added(opt, QuotedString.ArrayMarked(s)) == [s]
  {
    if QuotedString.LooksLikeArray(s) {
      var tail := s[1..];
      var marked := "[[" + QuotedString.DoubleEach(tail);
      QuotedString.DoubleEachAt(tail, |tail| - 1);
      assert marked[|marked| - 1] == ']' && marked[|marked| - 2] == ']';
      HalvedOfDoubled(tail, 0);
      assert s == "[" + tail[..|tail| - 1] + "]";
      assert UnmarkedArray(marked) == Some(s);
    }
  }

  lemma {:induction false} FieldsHaveNoDelimiter(s: string, delimiter: char)
    ensures forall i | 0 <= i < |Fields(s, delimiter)| :: delimiter !in Fields(s, delimiter)[i]
    decreases |s|
  {
    if s != "" {
      var k := Find(s, delimiter, 0);
      if k < |s| {
        FieldsHaveNoDelimiter(s[k + 1..], delimiter);
      }
    }
  }

  lemma {:induction false} NonEmptyKeepsMembers(items: seq<string>)
    ensures forall t | t in NonEmpty(items) :: t in items
  {
    if items != [] {
      NonEmptyKeepsMembers(items[1..]);
    }
  }

  /** Every stored piece of a plain value is itself unbroken. */
  lemma {:induction false} StoredIsUnbroken(opt: OptionConfig, s: string)
    ensures forall t | t in Added(opt, QuotedString.ArrayMarked(s)) :: Unbroken(opt, t)
  {
    if Unbroken(opt, s) {
      MarkIsUndone(opt, s);
    } else {
      FieldsHaveNoDelimiter(s, opt.delimiter);
      NonEmptyKeepsMembers(Fields(s, opt.delimiter));
      assert Added(opt, s) == NonEmpty(Fields(s, opt.delimiter));
    }
  }
}
