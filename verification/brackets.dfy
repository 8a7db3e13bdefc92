/**
  Finding where a bracketed or quoted section ends (`close_string_quote`,
  `close_literal_quote`, `close_sequence`) and splitting text outside such sections
  (`split_up`).
 */
module Brackets {
  import opened Text

  predicate IsQuote(c: char) {
    c == '"' || c == '\'' || c == '`'
  }

  predicate IsOpenBracket(c: char) {
    c == '[' || c == '(' || c == '<' || c == '{'
  }

  /** A character of the table `bracketChars`. */
  predicate IsOpening(c: char) {
    IsQuote(c) || IsOpenBracket(c)
  }

  predicate IsCloseBracket(c: char) {
    c == ']' || c == ')' || c == '>' || c == '}'
  }

  /** The entry of `matchBracketChars` at the position of c in `bracketChars`. */
  function Closing(c: char): (d: char)
    requires IsOpening(c)
    ensures IsQuote(c) ==> d == c
    ensures IsOpenBracket(c) ==> IsCloseBracket(d)
  {
    if c == '[' then ']'
    else if c == '(' then ')'
    else if c == '<' then '>'
    else if c == '{' then '}'
    else c
  }

  // ----- quotes -----

  /** The closing character's position from loc on, a backslash hiding the character after it. */
  function StringQuoteEnd(s: string, loc: nat, closure: char): (end: nat)
    ensures loc <= end
    ensures loc <= |s| + 1 ==> end <= |s| + 1
    ensures end < |s| ==> s[end] == closure
    decreases |s| - loc
  {
    if loc >= |s| || s[loc] == closure then loc
    else if s[loc] == '\\' then StringQuoteEnd(s, loc + 2, closure)
    else StringQuoteEnd(s, loc + 1, closure)
  }

  method CloseStringQuote(str: string, start: nat, closure: char) returns (loc: nat)
    requires start < |str|
    ensures loc == StringQuoteEnd(str, start + 1, closure)
  {
    loc := start + 1;
    while loc < |str|
      invariant StringQuoteEnd(str, loc, closure) == StringQuoteEnd(str, start + 1, closure)
    {
      if str[loc] == closure {
        break;
      }
      if str[loc] == '\\' {
        loc := loc + 1;
      }
      loc := loc + 1;
    }
  }

  /** `close_literal_quote`: the next closing character, no escapes, or the end of the text. */
  function LiteralQuoteEnd(s: string, start: nat, closure: char): (end: nat)
    requires start < |s|
    ensures start < end <= |s|
  {
    Find(s, closure, start + 1)
  }

  /** The end of the quoted section that starts at loc. */
  function QuoteEnd(s: string, loc: nat): (end: nat)
    requires loc < |s| && IsQuote(s[loc])
    ensures loc < end <= |s| + 1
  {
    if s[loc] == '"' then StringQuoteEnd(s, loc + 1, '"') else LiteralQuoteEnd(s, loc, s[loc])
  }

  // ----- nested brackets -----

  /**
    A recursive-descent matcher: the position of the `closer` of a bracket opened before loc,
    or |s| when it is never closed. Quoted sections are skipped, inner brackets are matched
    first, and any other closer is an ordinary character.
   */
  function Match(s: string, loc: nat, closer: char): (end: nat)
    ensures end <= |s|
    ensures loc <= |s| ==> loc <= end
    ensures end < |s| ==> s[end] == closer
    decreases |s| - loc
  {
    if loc >= |s| then |s|
    else if s[loc] == closer then loc
    else if IsQuote(s[loc]) then Match(s, QuoteEnd(s, loc) + 1, closer)
    else if IsOpenBracket(s[loc]) then
      var inner := Match(s, loc + 1, Closing(s[loc]));
      Match(s, inner + 1, closer)
    else Match(s, loc + 1, closer)
  }

  /** Closes every pending bracket from the innermost, the last of `closers`, outward. */
  function MatchAll(s: string, loc: nat, closers: string): (end: nat)
    requires closers != ""
    decreases |closers|
  {
    var end := Match(s, loc, closers[|closers| - 1]);
    if |closers| == 1 then end else MatchAll(s, end + 1, closers[..|closers| - 1])
  }

  predicate AllCloseBrackets(s: string) {
    forall i | 0 <= i < |s| :: IsCloseBracket(s[i])
  }

  lemma {:induction false} MatchAllPastEnd(s: string, loc: nat, closers: string)
    requires closers != "" && loc >= |s|
    ensures MatchAll(s, loc, closers) == |s|
    decreases |closers|
  {
    if |closers| > 1 {
      MatchAllPastEnd(s, |s| + 1, closers[..|closers| - 1]);
    }
  }

  /** Opening a bracket pushes its closer: matching the longer stack is matching the bracket, then going on. */
  lemma {:induction false} MatchAllPush(s: string, loc: nat, closers: string)
    requires closers != "" && AllCloseBrackets(closers)
    requires loc < |s| && IsOpenBracket(s[loc])
    ensures MatchAll(s, loc, closers) == MatchAll(s, loc + 1, closers + [Closing(s[loc])])
  {
    var pushed := closers + [Closing(s[loc])];
    assert pushed[..|pushed| - 1] == closers;
    assert s[loc] != closers[|closers| - 1];
    var inner := Match(s, loc + 1, Closing(s[loc]));
    assert Match(s, loc, closers[|closers| - 1]) == Match(s, inner + 1, closers[|closers| - 1]);
  }

  /** The pending closer pops the stack, and ends the matching when it is the last one. */
  lemma {:induction false} MatchAllPop(s: string, loc: nat, closers: string)
    requires closers != "" && loc < |s| && s[loc] == closers[|closers| - 1]
    ensures MatchAll(s, loc, closers) == if |closers| == 1 then loc else MatchAll(s, loc + 1, closers[..|closers| - 1])
  {
    assert Match(s, loc, closers[|closers| - 1]) == loc;
  }

  /** A quoted section is skipped, and any other character is passed. */
  lemma {:induction false} MatchAllPass(s: string, loc: nat, closers: string)
    requires closers != "" && AllCloseBrackets(closers)
    requires loc < |s| && s[loc] != closers[|closers| - 1] && !IsOpenBracket(s[loc])
    ensures MatchAll(s, loc, closers) == MatchAll(s, if IsQuote(s[loc]) then QuoteEnd(s, loc) + 1 else loc + 1, closers)
  {
    var next := if IsQuote(s[loc]) then QuoteEnd(s, loc) + 1 else loc + 1;
    assert Match(s, loc, closers[|closers| - 1]) == Match(s, next, closers[|closers| - 1]);
  }

  /** The explicit closure stack finds what the recursive descent finds. */
  method CloseNested(str: string, start: nat, closure: char) returns (loc: nat)
    requires start < |str| && IsCloseBracket(closure)
    ensures loc == Match(str, start + 1, closure)
  {
    var closures := [closure];
    loc := start + 1;
    ghost var whole := Match(str, loc, closure);
    while loc < |str|
      invariant closures != "" && AllCloseBrackets(closures)
      invariant start < loc
      invariant MatchAll(str, loc, closures) == whole
    {
      if str[loc] == closures[|closures| - 1] {
        MatchAllPop(str, loc, closures);
        closures := closures[..|closures| - 1];
        if closures == "" {
          return loc;
        }
      } else if !IsOpenBracket(str[loc]) {
        MatchAllPass(str, loc, closures);
      }
      if IsOpening(str[loc]) {
        if str[loc] == '"' {
          loc := CloseStringQuote(str, loc, str[loc]);
        } else if IsQuote(str[loc]) {
          loc := LiteralQuoteEnd(str, loc, str[loc]);
        } else {
          MatchAllPush(str, loc, closures);
          closures := closures + [Closing(str[loc])];
        }
      }
      loc := loc + 1;
    }
    MatchAllPastEnd(str, loc, closures);
    if loc > |str| {
      loc := |str|;
    }
  }

  /** `close_sequence` for a section whose opening character is at `start`. */
  function SequenceEnd(s: string, start: nat, closure: char): (end: nat)
    requires start < |s|
    ensures start < end <= |s| + 1
    ensures end < |s| ==> s[end] == closure
  {
    if closure == '"' then StringQuoteEnd(s, start + 1, closure)
    else if IsCloseBracket(closure) then Match(s, start + 1, closure)
    else LiteralQuoteEnd(s, start, closure)
  }

  method CloseSequence(str: string, start: nat, closure: char) returns (end: nat)
    requires start < |str|
    ensures end == SequenceEnd(str, start, closure)
    ensures start < end <= |str| + 1
  {
    if closure == '"' {
      end := CloseStringQuote(str, start, closure);
    } else if !IsCloseBracket(closure) {
      end := LiteralQuoteEnd(str, start, closure);
    } else {
      end := CloseNested(str, start, closure);
    }
  }

  // ----- splitting -----

  /** Where the next separator is; the NUL separator stands for any whitespace. */
  function FindSeparator(s: string, delimiter: char): (loc: nat)
    ensures loc <= |s|
  {
    if delimiter == NUL then FindSpace(s, 0) else Find(s, delimiter, 0)
  }

  /** How much of the text its first item takes. */
  function ItemLength(s: string, delimiter: char): (n: nat)
    requires s != ""
    ensures n <= |s|
    ensures IsOpening(s[0]) ==> n > 0
  {
    if IsOpening(s[0]) then
      var end := SequenceEnd(s, 0, Closing(s[0]));
      if end >= |s| then |s| else end + 1
    else
      FindSeparator(s, delimiter)
  }

  /** What is left for the next item: the character after the item is dropped with it. */
  function AfterItem(s: string, delimiter: char): (rest: string)
    requires s != ""
    ensures |rest| < |s|
  {
    var n := ItemLength(s, delimiter);
    if n < |s| then s[n + 1..] else ""
  }

  /** The items of trimmed text. */
  function SplitTrimmed(s: string, delimiter: char): (items: seq<string>)
    ensures forall i | 0 <= i < |items| :: |items[i]| <= |s|
    decreases |s|
  {
    if s == "" then [] else [s[..ItemLength(s, delimiter)]] + SplitTrimmed(Trim(AfterItem(s, delimiter)), delimiter)
  }

  function Split(s: string, delimiter: char): (items: seq<string>)
    ensures forall i | 0 <= i < |items| :: |items[i]| <= |s|
  {
    SplitTrimmed(Trim(s), delimiter)
  }

  /** One round of the loop of `split_up`, before the trim that ends it. */
  method TakeItem(str: string, delimiter: char) returns (item: string, rest: string)
    requires str != ""
    ensures item == str[..ItemLength(str, delimiter)]
    ensures rest == AfterItem(str, delimiter)
  {
    if IsOpening(str[0]) {
      var end := CloseSequence(str, 0, Closing(str[0]));
      if end >= |str| {
        return str, "";
      }
      item := str[..end + 1];
      if end + 2 < |str| {
        rest := str[end + 2..];
      } else {
        rest := "";
      }
    } else {
      var it := FindSeparator(str, delimiter);
      if it != |str| {
        item := str[..it];
        rest := str[it + 1..];
      } else {
        return str, "";
      }
    }
  }

  lemma {:induction false} SplitStep(done: seq<string>, s: string, delimiter: char, whole: seq<string>)
    requires s != "" && done + SplitTrimmed(s, delimiter) == whole
    ensures done + [s[..ItemLength(s, delimiter)]] + SplitTrimmed(Trim(AfterItem(s, delimiter)), delimiter) == whole
  {
    var item, rest := s[..ItemLength(s, delimiter)], SplitTrimmed(Trim(AfterItem(s, delimiter)), delimiter);
    assert SplitTrimmed(s, delimiter) == [item] + rest;
    assert done + ([item] + rest) == done + [item] + rest;
  }

  /** Each round removes an item and the character after it, so the text gets strictly shorter. */
  method SplitUp(text: string, delimiter: char) returns (output: seq<string>)
    ensures output == Split(text, delimiter)
  {
    var str := Trim(text);
    output := [];
    ghost var whole := SplitTrimmed(str, delimiter);
    while str != ""
      invariant output + SplitTrimmed(str, delimiter) == whole
      decreases |str|
    {
      SplitStep(output, str, delimiter, whole);
      var item, rest := TakeItem(str, delimiter);
      output := output + [item];
      str := Trim(rest);
    }
    assert output + [] == output;
  }
}
