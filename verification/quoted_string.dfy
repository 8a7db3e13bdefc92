/** Undoing the quoting of one value: `process_quoted_string` and its helpers. */
module QuotedString {
  import opened Wrappers
  import opened Text
  import Brackets
  import BinaryEscape
  import Escapes

  /** `remove_outer`: drops the first and last characters when both are the key. */
  function RemoveOuter(s: string, key: char): string {
    if |s| > 1 && s[0] == key && s[0] == s[|s| - 1] then s[1..|s| - 1] else s
  }

  predicate LooksLikeArray(s: string) {
    |s| >= 2 && s[0] == '[' && s[|s| - 1] == ']'
  }

  function DoubleEach(s: string): (d: string)
    ensures |d| == 2 * |s|
  {
    if s == "" then "" else [s[0], s[0]] + DoubleEach(s[1..])
  }

  lemma {:induction false} DoubleEachAt(s: string, i: nat)
    requires i < |s|
    ensures DoubleEach(s)[2 * i] == s[i] && DoubleEach(s)[2 * i + 1] == s[i]
  {
    if i > 0 {
      DoubleEachAt(s[1..], i - 1);
    }
  }

  /** A value that would read as an array is marked by doubling every character after `[[`. */
  function ArrayMarked(s: string): string {
    if LooksLikeArray(s) then "[[" + DoubleEach(s[1..]) else s
  }

  method HandleSecondaryArray(str: string) returns (marked: string)
    ensures marked == ArrayMarked(str)
  {
    marked := str;
    if |str| >= 2 && str[0] == '[' && str[|str| - 1] == ']' {
      var tstr := "[[";
      for ii := 1 to |str|
        invariant tstr + DoubleEach(str[ii..]) == "[[" + DoubleEach(str[1..])
      {
        assert str[ii..][1..] == str[ii + 1..];
        tstr := tstr + [str[ii]];
        tstr := tstr + [str[ii]];
      }
      assert str[|str|..] == "";
      marked := tstr;
    }
  }

  /** The text left in the reference parameter, and whether anything was unquoted. */
  datatype Processed = Processed(text: string, changed: bool)

  function FinishArray(s: string, disableSecondaryArray: bool): string {
    if disableSecondaryArray then s else ArrayMarked(s)
  }

  function ProcessQuoted(s: string, stringChar: char, literalChar: char,
                         disableSecondaryArray: bool): Result<Processed> {
    if |s| <= 1 then
      Returned(Processed(s, false))
    else if BinaryEscape.IsBinaryEscaped(s) then
      Returned(Processed(FinishArray(BinaryEscape.Extracted(s), disableSecondaryArray), true))
    else if s[0] == stringChar && s[|s| - 1] == stringChar then
      match Escapes.RemoveEscapes(RemoveOuter(s, stringChar))
      case Thrown => Thrown
      case Returned(t) => Returned(Processed(FinishArray(t, disableSecondaryArray), true))
    else if (s[0] == literalChar || s[0] == '`') && s[|s| - 1] == s[0] then
      Returned(Processed(FinishArray(RemoveOuter(s, s[0]), disableSecondaryArray), true))
    else
      Returned(Processed(s, false))
  }

  /** Escapes are looked for only when there is a backslash; the specification always removes them. */
  method ProcessQuotedString(text: string, stringChar: char, literalChar: char, disableSecondaryArray: bool)
    returns (r: Result<Processed>)
    ensures r == ProcessQuoted(text, stringChar, literalChar, disableSecondaryArray)
  {
    var str := text;
    if |str| <= 1 {
      return Returned(Processed(str, false));
    }
    if BinaryEscape.IsBinaryEscaped(str) {
      str := BinaryEscape.ExtractBinaryString(str);
      if !disableSecondaryArray {
        str := HandleSecondaryArray(str);
      }
      return Returned(Processed(str, true));
    }
    if str[0] == stringChar && str[|str| - 1] == stringChar {
      str := RemoveOuter(str, stringChar);
      if Find(str, '\\', 0) != |str| {
        var unescaped := Escapes.RemoveEscapedCharacters(str);
        if unescaped.Thrown? {
          return Thrown;
        }
        str := unescaped.value;
      } else {
        Escapes.RemoveFromPlain(str);
      }
      if !disableSecondaryArray {
        str := HandleSecondaryArray(str);
      }
      return Returned(Processed(str, true));
    }
    if (str[0] == literalChar || str[0] == '`') && str[|str| - 1] == str[0] {
      str := RemoveOuter(str, str[0]);
      if !disableSecondaryArray {
        str := HandleSecondaryArray(str);
      }
      return Returned(Processed(str, true));
    }
    r := Returned(Processed(str, false));
  }

  // ----- quoting and unquoting a string -----

  function Quoted(s: string): (q: string)
    ensures |q| >= 2 && q[0] == '"' && q[|q| - 1] == '"'
  {
    "\"" + Escapes.AddEscapes(s) + "\""
  }

  /** In escaped text every quote is behind a backslash, so the scan runs to the character after the text. */
  lemma {:induction false} QuoteScanPassesEscapes(before: string, s: string, after: string)
    requires after != "" && after[0] == '"'
    ensures Brackets.StringQuoteEnd(before + Escapes.AddEscapes(s) + after, |before|, '"')
         == |before| + |Escapes.AddEscapes(s)|
    decreases |s|
  {
    var whole := before + Escapes.AddEscapes(s) + after;
    if s == "" {
      assert whole[|before|] == after[0];
    } else {
      var e := Escapes.EscapeChar(s[0]);
      assert whole == (before + e) + Escapes.AddEscapes(s[1..]) + after;
      QuoteScanPassesEscapes(before + e, s[1..], after);
      assert whole[|before|] == e[0];
    }
  }

  /** Followed by anything, a quoted string ends exactly at its own closing quote. */
  lemma {:induction false} QuotedEndsAtLastQuote(s: string, after: string)
    ensures Brackets.StringQuoteEnd(Quoted(s) + after, 1, '"') == |Quoted(s)| - 1
  {
    QuoteScanPassesEscapes("\"", s, "\"" + after);
    assert Quoted(s) + after == "\"" + Escapes.AddEscapes(s) + ("\"" + after);
  }

  /** Unquoting a quoted string never throws and yields the string. */
  lemma {:induction false} UnquoteQuoted(s: string, literalChar: char, disableSecondaryArray: bool)
    ensures ProcessQuoted(Quoted(s), '"', literalChar, disableSecondaryArray)
         == Returned(Processed(FinishArray(s, disableSecondaryArray), true))
  {
    var q := Quoted(s);
    assert RemoveOuter(q, '"') == Escapes.AddEscapes(s);
    Escapes.RemoveAfterAdd(s);
  }

  /** The two together: the section a quoted string opens is the string, and it unquotes to the text. */
  lemma {:induction false} QuotedStringRoundTrip(s: string)
    ensures Brackets.SequenceEnd(Quoted(s), 0, '"') == |Quoted(s)| - 1
    ensures ProcessQuoted(Quoted(s), '"', '\'', true) == Returned(Processed(s, true))
  {
    QuotedEndsAtLastQuote(s, "");
    assert Quoted(s) + "" == Quoted(s);
    UnquoteQuoted(s, '\'', true);
  }
}
