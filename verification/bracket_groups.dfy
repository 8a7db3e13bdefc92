/**
  `close_sequence` and `split_up` against texts printed from a tree: groups in the four kinds of brackets,
  quoted sections and other characters, nested in any way.
 */
module BracketGroups {
  import opened Text
  import Brackets

  datatype Kind = Square | Round | Angle | Curly

  /** A list of what stands in a group, in order. */
  datatype Items =
    | End
    | Plain(c: char, rest: Items)
    | StringQuote(body: string, rest: Items)
    | LiteralQuote(q: char, body: string, rest: Items)
    | Group(kind: Kind, inner: Items, rest: Items)

  function Opener(kind: Kind): char {
    match kind
    case Square => '['
    case Round => '('
    case Angle => '<'
    case Curly => '{'
  }

  function Closer(kind: Kind): char {
    match kind
    case Square => ']'
    case Round => ')'
    case Angle => '>'
    case Curly => '}'
  }

  function Print(x: Items): string {
    match x
    case End => ""
    case Plain(c, rest) => [c] + Print(rest)
    case StringQuote(body, rest) => (['"'] + body + ['"']) + Print(rest)
    case LiteralQuote(q, body, rest) => ([q] + body + [q]) + Print(rest)
    case Group(kind, inner, rest) => ([Opener(kind)] + Print(inner) + [Closer(kind)]) + Print(rest)
  }

  /** Between double quotes: no quote but behind a backslash, and no backslash alone at the end. */
  predicate EscapedBody(body: string) {
    body == "" ||
    if body[0] == '\\' then |body| >= 2 && EscapedBody(body[2..]) else body[0] != '"' && EscapedBody(body[1..])
  }

  /** A double quote ends at the next one that is not escaped; the other two quotes know no escapes. */
  predicate ProperQuote(q: char, body: string) {
    if q == '"' then EscapedBody(body) else (q == '\'' || q == '`') && q !in body
  }

  predicate Opens(c: char) {
    c == '"' || c == '\'' || c == '`' || c == '[' || c == '(' || c == '<' || c == '{'
  }

  /** In a group, a plain character opens nothing and is not the group's closer; the other closers may stand there. */
  predicate Proper(x: Items, closer: char) {
    match x
    case End => true
    case Plain(c, rest) => !Opens(c) && c != closer && Proper(rest, closer)
    case StringQuote(body, rest) => ProperQuote('"', body) && Proper(rest, closer)
    case LiteralQuote(q, body, rest) => q != '"' && ProperQuote(q, body) && Proper(rest, closer)
    case Group(kind, inner, rest) => Proper(inner, Closer(kind)) && Proper(rest, closer)
  }

  // ----- text at a position -----

  predicate Holds(s: string, loc: nat, t: string) {
    loc + |t| <= |s| && forall i | 0 <= i < |t| :: s[loc + i] == t[i]
  }

  lemma HoldsFirst(s: string, loc: nat, t: string)
    requires Holds(s, loc, t) && t != ""
    ensures s[loc] == t[0]
  {
    assert s[loc + 0] == t[0];
  }

  lemma HoldsParts(s: string, loc: nat, a: string, b: string)
    requires Holds(s, loc, a + b)
    ensures Holds(s, loc, a) && Holds(s, loc + |a|, b)
  {
    assert forall i | 0 <= i < |a| :: (a + b)[i] == a[i];
    assert forall i | 0 <= i < |b| :: (a + b)[|a| + i] == b[i];
  }

  lemma HoldsBetween(s: string, loc: nat, first: char, t: string, last: char)
    requires Holds(s, loc, [first] + t + [last])
    ensures s[loc] == first && Holds(s, loc + 1, t) && s[loc + 1 + |t|] == last
  {
    var whole := [first] + t + [last];
    assert whole[0] == first && whole[1 + |t|] == last;
    assert s[loc + 0] == first && s[loc + (1 + |t|)] == last;
    assert forall i | 0 <= i < |t| :: s[loc + (1 + i)] == whole[1 + i] == t[i];
  }

  // ----- quoted sections -----

  lemma {:induction false} BodyEnds(s: string, loc: nat, body: string)
    requires Holds(s, loc, body) && loc + |body| < |s| && s[loc + |body|] == '"' && EscapedBody(body)
    ensures Brackets.StringQuoteEnd(s, loc, '"') == loc + |body|
    decreases |body|
  {
    if body != "" {
      var n := if body[0] == '\\' then 2 else 1;
      HoldsFirst(s, loc, body);
      assert body == body[..n] + body[n..];
      HoldsParts(s, loc, body[..n], body[n..]);
      BodyEnds(s, loc + n, body[n..]);
    }
  }

  lemma {:induction false} LiteralEnds(s: string, loc: nat, q: char, body: string)
    requires Holds(s, loc, body) && loc + |body| < |s| && s[loc + |body|] == q && q !in body
    ensures Find(s, q, loc) == loc + |body|
    decreases |body|
  {
    if body != "" {
      HoldsFirst(s, loc, body);
      assert body == body[..1] + body[1..];
      HoldsParts(s, loc, body[..1], body[1..]);
      LiteralEnds(s, loc + 1, q, body[1..]);
    }
  }

  // ----- matching -----

  lemma {:induction false} QuoteEnds(s: string, loc: nat, q: char, body: string)
    requires ProperQuote(q, body) && Holds(s, loc, [q] + body + [q])
    ensures s[loc] == q && Brackets.QuoteEnd(s, loc) == loc + 1 + |body|
  {
    HoldsBetween(s, loc, q, body, q);
    if q == '"' {
      BodyEnds(s, loc + 1, body);
    } else {
      LiteralEnds(s, loc + 1, q, body);
    }
  }

  lemma {:induction false} QuoteStep(s: string, loc: nat, q: char, body: string, tail: string, closer: char)
    requires Brackets.IsCloseBracket(closer) && ProperQuote(q, body) && Holds(s, loc, ([q] + body + [q]) + tail)
    ensures Brackets.Match(s, loc, closer) == Brackets.Match(s, loc + |body| + 2, closer)
    ensures Holds(s, loc + |body| + 2, tail)
  {
    HoldsParts(s, loc, [q] + body + [q], tail);
    QuoteEnds(s, loc, q, body);
  }

  lemma {:induction false} PlainStep(s: string, loc: nat, c: char, tail: string, closer: char)
    requires !Opens(c) && c != closer && Holds(s, loc, [c] + tail)
    ensures Brackets.Match(s, loc, closer) == Brackets.Match(s, loc + 1, closer) && Holds(s, loc + 1, tail)
  {
    HoldsParts(s, loc, [c], tail);
    HoldsFirst(s, loc, [c]);
  }

  lemma {:induction false} GroupParts(s: string, loc: nat, kind: Kind, t: string, tail: string)
    requires Holds(s, loc, ([Opener(kind)] + t + [Closer(kind)]) + tail)
    ensures loc + 1 + |t| < |s| && s[loc] == Opener(kind) && s[loc + 1 + |t|] == Closer(kind)
    ensures Holds(s, loc + 1, t) && Holds(s, loc + |t| + 2, tail)
  {
    HoldsParts(s, loc, [Opener(kind)] + t + [Closer(kind)], tail);
    HoldsBetween(s, loc, Opener(kind), t, Closer(kind));
  }

  lemma {:induction false} GroupStep(s: string, loc: nat, kind: Kind, n: nat, closer: char)
    requires loc + 1 + n < |s| && s[loc] == Opener(kind) && Brackets.IsCloseBracket(closer)
    requires Brackets.Match(s, loc + 1, Closer(kind)) == loc + 1 + n
    ensures Brackets.Match(s, loc, closer) == Brackets.Match(s, loc + n + 2, closer)
  {
    assert Brackets.Closing(s[loc]) == Closer(kind);
  }

  /** The matcher passes all of a proper text, however deep its groups, and stops at the closer behind it. */
  lemma {:induction false} Matched(s: string, loc: nat, x: Items, closer: char)
    requires Proper(x, closer) && Brackets.IsCloseBracket(closer) && Holds(s, loc, Print(x))
    requires loc + |Print(x)| < |s| && s[loc + |Print(x)|] == closer
    ensures Brackets.Match(s, loc, closer) == loc + |Print(x)|
    decreases x, 1
  {
    match x {
      case End =>
      case Plain(c, rest) =>
        PlainStep(s, loc, c, Print(rest), closer);
        Matched(s, loc + 1, rest, closer);
      case StringQuote(body, rest) => MatchedQuote(s, loc, '"', body, rest, closer);
      case LiteralQuote(q, body, rest) => MatchedQuote(s, loc, q, body, rest, closer);
      case Group(kind, inner, rest) => MatchedGroup(s, loc, kind, inner, rest, closer);
    }
  }

  lemma {:induction false} MatchedQuote(s: string, loc: nat, q: char, body: string, rest: Items, closer: char)
    requires ProperQuote(q, body) && Proper(rest, closer) && Brackets.IsCloseBracket(closer)
    requires Holds(s, loc, ([q] + body + [q]) + Print(rest))
    requires loc + |body| + 2 + |Print(rest)| < |s| && s[loc + |body| + 2 + |Print(rest)|] == closer
    ensures Brackets.Match(s, loc, closer) == loc + |body| + 2 + |Print(rest)|
    decreases rest, 2
  {
    QuoteStep(s, loc, q, body, Print(rest), closer);
    Matched(s, loc + |body| + 2, rest, closer);
  }

  lemma {:induction false} MatchedGroup(s: string, loc: nat, kind: Kind, inner: Items, rest: Items, closer: char)
    requires Proper(inner, Closer(kind)) && Proper(rest, closer) && Brackets.IsCloseBracket(closer)
    requires Holds(s, loc, ([Opener(kind)] + Print(inner) + [Closer(kind)]) + Print(rest))
    requires loc + |Print(inner)| + 2 + |Print(rest)| < |s| && s[loc + |Print(inner)| + 2 + |Print(rest)|] == closer
    ensures Brackets.Match(s, loc, closer) == loc + |Print(inner)| + 2 + |Print(rest)|
    decreases Group(kind, inner, rest), 0
  {
    GroupParts(s, loc, kind, Print(inner), Print(rest));
    Matched(s, loc + 1, inner, Closer(kind));
    GroupStep(s, loc, kind, |Print(inner)|, closer);
    Matched(s, loc + |Print(inner)| + 2, rest, closer);
  }

  // ----- sections -----

  /** A group or a quoted section, and nothing else. */
  datatype Section =
    | Bracketed(kind: Kind, inner: Items)
    | InString(body: string)
    | InLiteral(q: char, body: string)

  predicate ProperSection(x: Section) {
    match x
    case Bracketed(kind, inner) => Proper(inner, Closer(kind))
    case InString(body) => EscapedBody(body)
    case InLiteral(q, body) => (q == '\'' || q == '`') && q !in body
  }

  /** The characters around a section. */
  function First(x: Section): char {
    match x
    case Bracketed(kind, _) => Opener(kind)
    case InString(_) => '"'
    case InLiteral(q, _) => q
  }

  function Last(x: Section): char {
    match x
    case Bracketed(kind, _) => Closer(kind)
    case InString(_) => '"'
    case InLiteral(q, _) => q
  }

  function Between(x: Section): string {
    match x
    case Bracketed(_, inner) => Print(inner)
    case InString(body) => body
    case InLiteral(_, body) => body
  }

  function SectionText(x: Section): string {
    [First(x)] + Between(x) + [Last(x)]
  }

  /** Whatever follows, a section ends at its own last character. */
  lemma {:induction false} SectionEnds(x: Section, after: string)
    requires ProperSection(x)
    ensures Brackets.SequenceEnd(SectionText(x) + after, 0, Last(x)) == |SectionText(x)| - 1
  {
    var s := SectionText(x) + after;
    assert Holds(s, 0, SectionText(x));
    HoldsBetween(s, 0, First(x), Between(x), Last(x));
    match x {
      case Bracketed(kind, inner) => Matched(s, 1, inner, Closer(kind));
      case InString(body) => BodyEnds(s, 1, body);
      case InLiteral(q, body) => LiteralEnds(s, 1, q, body);
    }
  }

  // ----- splitting -----

  /** The NUL separator stands for any whitespace. */
  predicate Separates(separator: char, c: char) {
    if separator == NUL then IsSpace(c) else c == separator
  }

  /** An item of a list: a section, or text that opens nothing at its start and has no separator in it. */
  datatype Field = Sectioned(section: Section) | Bare(text: string)

  function FieldText(f: Field): string {
    match f
    case Sectioned(x) => SectionText(x)
    case Bare(text) => text
  }

  predicate ProperField(f: Field, separator: char) {
    match f
    case Sectioned(x) => ProperSection(x)
    case Bare(text) =>
      text != "" && !Opens(text[0]) && !IsSpace(text[0]) && !IsSpace(text[|text| - 1]) &&
      forall i | 0 <= i < |text| :: !Separates(separator, text[i])
  }

  predicate ProperFields(fields: seq<Field>, separator: char) {
    forall i | 0 <= i < |fields| :: ProperField(fields[i], separator)
  }

  function Texts(fields: seq<Field>): (texts: seq<string>)
    ensures |texts| == |fields| && forall i | 0 <= i < |fields| :: texts[i] == FieldText(fields[i])
  {
    if fields == [] then [] else [FieldText(fields[0])] + Texts(fields[1..])
  }

  /** The fields with the character c between them. */
  function Joined(fields: seq<Field>, c: char): string
    requires fields != []
  {
    if |fields| == 1 then FieldText(fields[0])
    else FieldText(fields[0]) + [c] + Joined(fields[1..], c)
  }

  /** With nothing or a separator behind it, a field is the next item. */
  lemma {:induction false} FieldIsItem(f: Field, separator: char, after: string)
    requires ProperField(f, separator) && (after == "" || Separates(separator, after[0]))
    ensures FieldText(f) + after != "" && Brackets.ItemLength(FieldText(f) + after, separator) == |FieldText(f)|
  {
    var s := FieldText(f) + after;
    assert s[0] == FieldText(f)[0];
    match f {
      case Sectioned(x) =>
        SectionEnds(x, after);
        assert Brackets.Closing(s[0]) == Last(x);
      case Bare(text) =>
        assert forall i | 0 <= i < |text| :: s[i] == text[i];
        assert after != "" ==> Separates(separator, s[|text|]);
    }
  }

  /** A group that is never closed takes all there is. */
  lemma {:induction false} UnclosedTakesAll(kind: Kind, text: string, separator: char)
    requires Closer(kind) !in text
    ensures Brackets.ItemLength([Opener(kind)] + text, separator) == 1 + |text|
  {
    var s := [Opener(kind)] + text;
    assert forall i | 1 <= i < |s| :: s[i] in text;
  }

  lemma {:induction false} FieldHasNoBlankEnds(f: Field, separator: char)
    requires ProperField(f, separator)
    ensures var t := FieldText(f); t != "" && !IsSpace(t[0]) && !IsSpace(t[|t| - 1])
  {
  }

  lemma {:induction false} JoinedHasNoBlankEnds(fields: seq<Field>, separator: char, c: char)
    requires fields != [] && ProperFields(fields, separator)
    ensures var t := Joined(fields, c); t != "" && !IsSpace(t[0]) && !IsSpace(t[|t| - 1])
  {
    FieldHasNoBlankEnds(fields[0], separator);
    if |fields| > 1 {
      var rest := Joined(fields[1..], c);
      JoinedHasNoBlankEnds(fields[1..], separator, c);
      var t := FieldText(fields[0]) + [c] + rest;
      assert t[|t| - 1] == rest[|rest| - 1];
    }
  }

  lemma {:induction false} SplitOff(first: string, separator: char, c: char, rest: string)
    requires first != "" && rest != "" && !IsSpace(rest[0]) && !IsSpace(rest[|rest| - 1])
    requires Brackets.ItemLength(first + ([c] + rest), separator) == |first|
    ensures Brackets.SplitTrimmed(first + [c] + rest, separator) == [first] + Brackets.SplitTrimmed(rest, separator)
  {
    var s := first + ([c] + rest);
    assert first + [c] + rest == s;
    assert s[..|first|] == first && s[|first| + 1..] == rest;
    TrimClean(rest);
  }

  lemma {:induction false} SplitLast(text: string, separator: char)
    requires text != "" && Brackets.ItemLength(text, separator) == |text|
    ensures Brackets.SplitTrimmed(text, separator) == [text]
  {
    assert text[..|text|] == text;
    assert Brackets.SplitTrimmed(Trim(""), separator) == [];
  }

  /**
    Fields with a separator between them are split up into these fields: no separator in a group or a quoted
    section counts.
   */
  lemma {:induction false} SplitFields(fields: seq<Field>, separator: char, c: char)
    requires fields != [] && ProperFields(fields, separator) && Separates(separator, c)
    ensures Brackets.Split(Joined(fields, c), separator) == Texts(fields)
  {
    JoinedHasNoBlankEnds(fields, separator, c);
    TrimClean(Joined(fields, c));
    var first := FieldText(fields[0]);
    if |fields| == 1 {
      FieldIsItem(fields[0], separator, "");
      assert first + "" == first;
      SplitLast(first, separator);
      assert Texts(fields) == [first];
    } else {
      var rest := Joined(fields[1..], c);
      SplitFields(fields[1..], separator, c);
      JoinedHasNoBlankEnds(fields[1..], separator, c);
      TrimClean(rest);
      FieldIsItem(fields[0], separator, [c] + rest);
      SplitOff(first, separator, c, rest);
    }
  }
}
