/** What `process_quoted_string` makes of every quoted form, told from the characters between the quotes. */
module QuotedForms {
  import opened Wrappers
  import BinaryEscape
  import EscapeGrammar
  import QuotedString

  /** Every character twice. */
  function Twice(s: string): string {
    if s == "" then "" else [s[0]] + [s[0]] + Twice(s[1..])
  }

  /** Text in brackets is marked, so that it does not read as an array, unless that is switched off. */
  function Marked(s: string, off: bool): string {
    if !off && |s| >= 2 && s[0] == '[' && s[|s| - 1] == ']' then "[[" + Twice(s[1..]) else s
  }

  lemma {:induction false} TwiceIs(s: string)
    ensures QuotedString.DoubleEach(s) == Twice(s)
  {
    if s != "" {
      TwiceIs(s[1..]);
    }
  }

  lemma {:induction false} MarkedIs(s: string, off: bool)
    ensures QuotedString.FinishArray(s, off) == Marked(s, off)
  {
    if s != "" {
      TwiceIs(s[1..]);
    }
  }

  /** The two binary forms. */
  predicate LooksBinary(s: string) {
    ("B\"(" <= s && |s| >= 5 && s[|s| - 2..] == ")\"") || ("'B\"(" <= s && |s| >= 7 && s[|s| - 3..] == ")\"'")
  }

  lemma {:induction false} BinaryIs(s: string)
    ensures BinaryEscape.IsBinaryEscaped(s) <==> LooksBinary(s)
  {
    if BinaryEscape.HasBareForm(s) {
      assert s[..3] == "B\"(" && s[|s| - 2..] == ")\"";
    }
    if BinaryEscape.HasQuotedForm(s) {
      assert s[..4] == "'B\"(" && s[|s| - 3..] == ")\"'";
    }
    if LooksBinary(s) {
      LooksBinaryIs(s);
    }
  }

  lemma {:induction false} LooksBinaryIs(s: string)
    requires LooksBinary(s)
    ensures BinaryEscape.IsBinaryEscaped(s)
  {
    if "B\"(" <= s && |s| >= 5 && s[|s| - 2..] == ")\"" {
      assert s[|s| - 2] == s[|s| - 2..][0] && s[|s| - 1] == s[|s| - 2..][1];
    } else {
      var end := s[|s| - 3..];
      assert s[|s| - 3] == end[0] && s[|s| - 2] == end[1] && s[|s| - 1] == end[2];
    }
  }

  /** Between literal quotes nothing is an escape. */
  lemma {:induction false} LiteralUnquoted(t: string, q: char, stringChar: char, literalChar: char, off: bool)
    requires (q == literalChar || q == '`') && q != stringChar && !LooksBinary([q] + t + [q])
    ensures QuotedString.ProcessQuoted([q] + t + [q], stringChar, literalChar, off)
         == Returned(QuotedString.Processed(Marked(t, off), true))
  {
    var s := [q] + t + [q];
    BinaryIs(s);
    assert s[1..|s| - 1] == t;
    MarkedIs(t, off);
  }

  /** Between string quotes the text is unescaped, and a surrogate among its codes throws. */
  lemma {:induction false} StringUnquoted(us: seq<EscapeGrammar.Unit>, q: char, literalChar: char, off: bool)
    requires EscapeGrammar.AllProper(us) && !LooksBinary([q] + EscapeGrammar.Text(us) + [q])
    ensures QuotedString.ProcessQuoted([q] + EscapeGrammar.Text(us) + [q], q, literalChar, off)
         == if EscapeGrammar.NoSurrogates(us)
            then Returned(QuotedString.Processed(Marked(EscapeGrammar.AllBytes(us), off), true)) else Thrown
  {
    var t := EscapeGrammar.Text(us);
    var s := [q] + t + [q];
    BinaryIs(s);
    assert s[1..|s| - 1] == t;
    EscapeGrammar.UnescapedText(us);
    if EscapeGrammar.NoSurrogates(us) {
      MarkedIs(EscapeGrammar.AllBytes(us), off);
    }
  }

  /** Any other text is left as it is. */
  lemma {:induction false} OtherUnchanged(s: string, stringChar: char, literalChar: char, off: bool)
    requires |s| <= 1 || s[0] != s[|s| - 1] || (s[0] != stringChar && s[0] != literalChar && s[0] != '`')
    requires !LooksBinary(s)
    ensures QuotedString.ProcessQuoted(s, stringChar, literalChar, off) == Returned(QuotedString.Processed(s, false))
  {
    BinaryIs(s);
  }

  // ----- the binary form -----

  /** A character, or two hexadecimal digits behind `\x` or `\X`. */
  datatype Byte = Plain(c: char) | Coded(x: char, high: char, low: char)

  function Spelling(b: Byte): string {
    match b
    case Plain(c) => [c]
    case Coded(x, high, low) => ['\\', x, high, low]
  }

  function Text(bs: seq<Byte>): string {
    if bs == [] then "" else Spelling(bs[0]) + Text(bs[1..])
  }

  predicate ReadsAsByte(s: string) {
    |s| >= 4 && s[0] == '\\' && (s[1] == 'x' || s[1] == 'X') &&
    EscapeGrammar.DigitOf(s[2]).Some? && EscapeGrammar.DigitOf(s[3]).Some?
  }

  /** Every coded byte has its digits, and no plain backslash reads as one with what follows it. */
  predicate Proper(bs: seq<Byte>) {
    bs == [] || ((bs[0].Coded? <==> ReadsAsByte(Text(bs))) && Proper(bs[1..]))
  }

  function Value(b: Byte): char
    requires b.Coded? ==> EscapeGrammar.DigitOf(b.high).Some? && EscapeGrammar.DigitOf(b.low).Some?
  {
    match b
    case Plain(c) => c
    case Coded(_, high, low) =>
      (EscapeGrammar.DigitOf(high).value * 16 + EscapeGrammar.DigitOf(low).value) as char
  }

  lemma {:induction false} CodedHasDigits(bs: seq<Byte>)
    requires Proper(bs) && bs != []
    ensures bs[0].Coded? ==>
              EscapeGrammar.DigitOf(bs[0].high).Some? && EscapeGrammar.DigitOf(bs[0].low).Some? &&
              (bs[0].x == 'x' || bs[0].x == 'X')
  {
    var t := Text(bs);
    if bs[0].Coded? {
      assert t[1] == bs[0].x && t[2] == bs[0].high && t[3] == bs[0].low;
    }
  }

  function Values(bs: seq<Byte>): string
    requires Proper(bs)
  {
    if bs == [] then ""
    else
      CodedHasDigits(bs);
      [Value(bs[0])] + Values(bs[1..])
  }

  /** The scan between the markers gives the bytes. */
  lemma {:induction false} BytesAreRead(bs: seq<Byte>)
    requires Proper(bs)
    ensures BinaryEscape.Unescape(Text(bs)) == Values(bs)
  {
    if bs != [] {
      var t, e, rest := Text(bs), Spelling(bs[0]), Text(bs[1..]);
      assert t == e + rest && t[|e|..] == rest;
      BytesAreRead(bs[1..]);
      if bs[0].Coded? {
        CodedHasDigits(bs);
        assert t[1] == bs[0].x && t[2] == bs[0].high && t[3] == bs[0].low;
        EscapeGrammar.DigitIs(t[2]);
        EscapeGrammar.DigitIs(t[3]);
      } else if |t| >= 4 {
        EscapeGrammar.DigitIs(t[2]);
        EscapeGrammar.DigitIs(t[3]);
      }
    }
  }

  /** Both binary forms are read as the bytes between their markers. */
  lemma {:induction false} BinaryUnquoted(bs: seq<Byte>, stringChar: char, literalChar: char, off: bool)
    requires Proper(bs)
    ensures QuotedString.ProcessQuoted("'B\"(" + Text(bs) + ")\"'", stringChar, literalChar, off)
         == Returned(QuotedString.Processed(Marked(Values(bs), off), true))
    ensures QuotedString.ProcessQuoted("B\"(" + Text(bs) + ")\"", stringChar, literalChar, off)
         == Returned(QuotedString.Processed(Marked(Values(bs), off), true))
  {
    var s, t := "'B\"(" + Text(bs) + ")\"'", "B\"(" + Text(bs) + ")\"";
    BytesAreRead(bs);
    MarkedIs(Values(bs), off);
    assert s[4..|s| - 3] == Text(bs) && t[3..|t| - 2] == Text(bs);
    assert BinaryEscape.HasQuotedForm(s) && BinaryEscape.HasBareForm(t);
  }
}
