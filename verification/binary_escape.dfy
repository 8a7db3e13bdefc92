/**
  The binary-safe string form `'B"(...)"'`: `binary_escape_string`, `is_binary_escaped_string`
  and `extract_binary_string`. Printability is an arbitrary predicate on characters.
 */
module BinaryEscape {
  import opened Text
  import Escapes

  const OPENING := "'B\"("
  const CLOSING := ")\"'"

  // ----- escaping -----

  function HexDigit(v: nat): (c: char)
    requires v < 16
    ensures Escapes.IsHexDigit(c) && Escapes.HexConvert(c) == v
  {
    if v < 10 then ('0' as int + v) as char else ('a' as int + v - 10) as char
  }

  /** `\x` and two lower-case hex digits for the character's byte value. */
  function ByteEscape(c: char): (e: string)
    ensures |e| == 4
  {
    var v := c as int % 256;
    ['\\', 'x', HexDigit(v / 16), HexDigit(v % 16)]
  }

  predicate EndsInBackslash(s: string) {
    s != "" && s[|s| - 1] == '\\'
  }

  /** What one character adds, given whether the text so far ends in a backslash. */
  function EscapeChar(printable: char -> bool, c: char, afterBackslash: bool): string {
    if !printable(c) then ByteEscape(c)
    else if (c == 'x' || c == 'X') && afterBackslash then "\\x" + (if c == 'x' then "78" else "58")
    else [c]
  }

  /** First pass: unprintable characters, and an `x` that would read as part of an escape. */
  function EscapeFrom(printable: char -> bool, s: string, afterBackslash: bool): string {
    if s == "" then
      ""
    else
      var e := EscapeChar(printable, s[0], afterBackslash);
      e + EscapeFrom(printable, s[1..], EndsInBackslash(e))
  }

  /** Second pass: every single quote becomes its byte escape. */
  function EscapeQuotes(s: string): string {
    if s == "" then "" else (if s[0] == '\'' then "\\x27" else [s[0]]) + EscapeQuotes(s[1..])
  }

  function BinaryEscaped(printable: char -> bool, s: string, force: bool): string {
    var escaped := EscapeFrom(printable, s, false);
    if escaped != s || force then OPENING + EscapeQuotes(escaped) + CLOSING else escaped
  }

  function CountQuotes(s: string): (n: nat) {
    if s == "" then 0 else (if s[0] == '\'' then 1 else 0) + CountQuotes(s[1..])
  }

  lemma {:induction false} EscapeQuotesConcat(s: string, t: string)
    ensures EscapeQuotes(s + t) == EscapeQuotes(s) + EscapeQuotes(t)
    ensures CountQuotes(s + t) == CountQuotes(s) + CountQuotes(t)
  {
    if s == "" {
      assert s + t == t;
    } else {
      assert (s + t)[1..] == s[1..] + t;
      EscapeQuotesConcat(s[1..], t);
    }
  }

  /** Overwriting the first quote and inserting the rest of its escape leaves the final text the same. */
  lemma {:induction false} ReplaceQuote(s: string, loc: nat)
    requires loc < |s| && s[loc] == '\''
    ensures EscapeQuotes(s[..loc] + "\\x27" + s[loc + 1..]) == EscapeQuotes(s)
    ensures CountQuotes(s[..loc] + "\\x27" + s[loc + 1..]) < CountQuotes(s)
  {
    var head, escape, tail := s[..loc], "\\x27", s[loc + 1..];
    assert s == head + ("'" + tail);
    EscapeQuotesConcat(head, "'" + tail);
    assert ("'" + tail)[1..] == tail;
    assert head + escape + tail == head + (escape + tail);
    EscapeQuotesConcat(head, escape + tail);
    EscapeQuotesConcat(escape, tail);
    EscapeNoQuotes(escape);
  }

  lemma {:induction false} EscapeNoQuotes(s: string)
    requires '\'' !in s
    ensures EscapeQuotes(s) == s && CountQuotes(s) == 0
  {
    if s != "" {
      EscapeNoQuotes(s[1..]);
      assert s == [s[0]] + s[1..];
    }
  }

  /** Escaping one more character moves it from the pending text to the produced text. */
  lemma {:induction false} EscapeStep(printable: char -> bool, escaped: string, str: string, i: nat, e: string)
    requires i < |str| && e == EscapeChar(printable, str[i], EndsInBackslash(escaped))
    ensures EndsInBackslash(escaped + e) == EndsInBackslash(e)
    ensures escaped + EscapeFrom(printable, str[i..], EndsInBackslash(escaped))
         == (escaped + e) + EscapeFrom(printable, str[i + 1..], EndsInBackslash(e))
  {
    assert str[i..][1..] == str[i + 1..];
    assert (escaped + e)[|escaped + e| - 1] == e[|e| - 1];
    var rest := EscapeFrom(printable, str[i + 1..], EndsInBackslash(e));
    assert escaped + (e + rest) == (escaped + e) + rest;
  }

  /** The first loop of `binary_escape_string`. */
  method EscapeUnprintable(printable: char -> bool, str: string) returns (escaped: string)
    ensures escaped == EscapeFrom(printable, str, false)
  {
    escaped := "";
    assert str[0..] == str;
    for i := 0 to |str|
      invariant escaped + EscapeFrom(printable, str[i..], EndsInBackslash(escaped)) == EscapeFrom(printable, str, false)
    {
      var c := str[i];
      EscapeStep(printable, escaped, str, i, EscapeChar(printable, c, EndsInBackslash(escaped)));
      if !printable(c) {
        escaped := escaped + ByteEscape(c);
      } else if c == 'x' || c == 'X' {
        if escaped != "" && escaped[|escaped| - 1] == '\\' {
          escaped := escaped + ("\\x" + if c == 'x' then "78" else "58");
        } else {
          escaped := escaped + [c];
        }
      } else {
        escaped := escaped + [c];
      }
    }
    assert str[|str|..] == "";
  }

  /** The second loop: each round replaces the first remaining quote. */
  method ReplaceQuotes(str: string) returns (escaped: string)
    ensures escaped == EscapeQuotes(str)
    ensures '\'' !in escaped
  {
    escaped := str;
    var sqLoc := Find(escaped, '\'', 0);
    while sqLoc != |escaped|
      invariant sqLoc == Find(escaped, '\'', 0)
      invariant EscapeQuotes(escaped) == EscapeQuotes(str)
      decreases CountQuotes(escaped)
    {
      ReplaceQuote(escaped, sqLoc);
      ghost var target := escaped[..sqLoc] + "\\x27" + escaped[sqLoc + 1..];
      escaped := escaped[sqLoc := '\\'];
      escaped := escaped[..sqLoc + 1] + "x27" + escaped[sqLoc + 1..];
      assert escaped == target;
      sqLoc := Find(escaped, '\'', 0);
    }
    EscapeNoQuotes(escaped);
  }

  method BinaryEscapeString(printable: char -> bool, str: string, force: bool) returns (escaped: string)
    ensures escaped == BinaryEscaped(printable, str, force)
  {
    escaped := EscapeUnprintable(printable, str);
    if escaped != str || force {
      escaped := ReplaceQuotes(escaped);
      escaped := OPENING + escaped;
      escaped := escaped + [')'];
      escaped := escaped + ['"'];
      escaped := escaped + ['\''];
    }
  }

  // ----- recognising and extracting -----

  /** `B"(` ... `)"`. The two ends never share a character. */
  predicate HasBareForm(s: string)
    ensures HasBareForm(s) ==> |s| >= 5
  {
    |s| >= 3 && s[0] == 'B' && s[1] == '"' && s[2] == '(' &&
    s[|s| - 2] == ')' && s[|s| - 1] == '"'
  }

  /** `'B"(` ... `)"'`. The two ends never share a character. */
  predicate HasQuotedForm(s: string)
    ensures HasQuotedForm(s) ==> |s| >= 7
  {
    |s| >= 4 && s[0] == '\'' && s[1] == 'B' && s[2] == '"' && s[3] == '(' &&
    s[|s| - 3] == ')' && s[|s| - 2] == '"' && s[|s| - 1] == '\''
  }

  predicate IsBinaryEscaped(s: string) {
    HasBareForm(s) || HasQuotedForm(s)
  }

  predicate StartsByteEscape(s: string) {
    |s| >= 4 && s[0] == '\\' && (s[1] == 'x' || s[1] == 'X') &&
    Escapes.IsHexDigit(s[2]) && Escapes.IsHexDigit(s[3])
  }

  function Unescape(s: string): string {
    if s == "" then
      ""
    else if StartsByteEscape(s) then
      [(Escapes.HexConvert(s[2]) * 16 + Escapes.HexConvert(s[3])) as char] + Unescape(s[4..])
    else
      [s[0]] + Unescape(s[1..])
  }

  function Extracted(s: string): (r: string) {
    if HasBareForm(s) then Unescape(s[3..|s| - 2])
    else if HasQuotedForm(s) then Unescape(s[4..|s| - 3])
    else s
  }

  /** Reading an escape at loc, as the scan does: the closing `)` stops it from running past the end. */
  lemma {:induction false} UnescapeAtEscape(s: string, loc: nat, end: nat)
    requires loc < end && end + 1 < |s| && s[end] == ')'
    requires s[loc] == '\\' && (s[loc + 1] == 'x' || s[loc + 1] == 'X')
    requires Escapes.IsHexDigit(s[loc + 2]) && Escapes.IsHexDigit(s[loc + 3])
    ensures loc + 4 <= end
    ensures Unescape(s[loc..end])
         == [(Escapes.HexConvert(s[loc + 2]) * 16 + Escapes.HexConvert(s[loc + 3])) as char]
           + Unescape(s[loc + 4..end])
  {
    assert s[loc..end][4..] == s[loc + 4..end];
    assert StartsByteEscape(s[loc..end]);
  }

  lemma {:induction false} UnescapePlain(s: string, loc: nat, end: nat)
    requires loc < end <= |s| && !StartsByteEscape(s[loc..end])
    ensures Unescape(s[loc..end]) == [s[loc]] + Unescape(s[loc + 1..end])
  {
    assert s[loc..end][1..] == s[loc + 1..end];
  }

  method ExtractBinaryString(escaped: string) returns (out: string)
    ensures out == Extracted(escaped)
  {
    var start, tail := 0, 0;
    var ssize := |escaped|;
    if HasBareForm(escaped) {
      start, tail := 3, 2;
    } else if HasQuotedForm(escaped) {
      start, tail := 4, 3;
    }
    if start == 0 {
      return escaped;
    }
    out := ExtractRange(escaped, start, ssize - tail);
  }

  /** One turn of the scan: a byte escape gives one character for four, anything else stands for itself. */
  method ExtractOne(escaped: string, loc: nat, end: nat) returns (c: char, used: nat)
    requires loc < end && end + 1 < |escaped| && escaped[end] == ')'
    ensures 0 < used && loc + used <= end
    ensures Unescape(escaped[loc..end]) == [c] + Unescape(escaped[loc + used..end])
  {
    if escaped[loc] == '\\' && (escaped[loc + 1] == 'x' || escaped[loc + 1] == 'X') {
      // at `end` stands a `)`, so the escape letter stands before it and the second digit at most one behind it
      var res1 := Escapes.HexConvert(escaped[loc + 2]);
      var res2 := Escapes.HexConvert(escaped[loc + 3]);
      if res1 <= 0x0F && res2 <= 0x0F {
        UnescapeAtEscape(escaped, loc, end);
        return (res1 * 16 + res2) as char, 4;
      }
    }
    UnescapePlain(escaped, loc, end);
    return escaped[loc], 1;
  }

  lemma JoinCharacter(out: string, c: char, rest: string)
    ensures out + ([c] + rest) == out + [c] + rest
  {
  }

  /** The scanning loop of `extract_binary_string`. */
  method ExtractRange(escaped: string, start: nat, end: nat) returns (out: string)
    requires start <= end && end + 1 < |escaped| && escaped[end] == ')'
    ensures out == Unescape(escaped[start..end])
  {
    out := "";
    var loc := start;
    ghost var whole := Unescape(escaped[start..end]);
    while loc < end
      invariant start <= loc <= end
      invariant out + Unescape(escaped[loc..end]) == whole
    {
      var c, used := ExtractOne(escaped, loc, end);
      JoinCharacter(out, c, Unescape(escaped[loc + used..end]));
      out := out + [c];
      loc := loc + used;
    }
    assert escaped[loc..end] == "";
  }

  // ----- round trips -----

  /** Text escaped after a backslash never begins with an `x`. */
  lemma {:induction false} NoInadvertentEscape(printable: char -> bool, s: string)
    ensures var t := EscapeQuotes(EscapeFrom(printable, s, true)); t == "" || (t[0] != 'x' && t[0] != 'X')
  {
    if s != "" {
      var e := EscapeChar(printable, s[0], true);
      assert e[0] != 'x' && e[0] != 'X';
      assert EscapeFrom(printable, s, true)[0] == e[0];
    }
  }

  lemma {:induction false} EscapeQuotesOfByteEscape(c: char, rest: string)
    ensures EscapeQuotes(ByteEscape(c) + rest) == ByteEscape(c) + EscapeQuotes(rest)
  {
    var e := ByteEscape(c);
    assert '\'' !in e;
    EscapeNoQuotes(e);
    EscapeQuotesConcat(e, rest);
  }

  lemma {:induction false} UnescapeByteEscape(c: char, rest: string)
    requires c as int < 256
    ensures Unescape(ByteEscape(c) + rest) == [c] + Unescape(rest)
  {
    var s := ByteEscape(c) + rest;
    assert s[0] == '\\' && s[1] == 'x';
    assert s[2] == ByteEscape(c)[2] && s[3] == ByteEscape(c)[3];
    assert s[4..] == rest;
  }

  /** The two escaping passes are undone by the one extracting pass, whatever is printable. */
  lemma {:induction false} UnescapeAfterEscape(printable: char -> bool, s: string, afterBackslash: bool)
    requires IsBytes(s)
    ensures Unescape(EscapeQuotes(EscapeFrom(printable, s, afterBackslash))) == s
  {
    if s != "" {
      var c, e := s[0], EscapeChar(printable, s[0], afterBackslash);
      var rest := EscapeFrom(printable, s[1..], EndsInBackslash(e));
      assert IsBytes(s[1..]);
      UnescapeAfterEscape(printable, s[1..], EndsInBackslash(e));
      assert s == [c] + s[1..];
      if e == ByteEscape(c) {
        EscapeQuotesOfByteEscape(c, rest);
        UnescapeByteEscape(c, EscapeQuotes(rest));
      } else {
        EscapedXIsByteEscape();
        assert e == [c];
        assert ([c] + rest)[1..] == rest;
        if c == '\'' {
          assert EscapeQuotes(e + rest) == ByteEscape(c) + EscapeQuotes(rest);
          UnescapeByteEscape(c, EscapeQuotes(rest));
        } else {
          NoInadvertentEscape(printable, s[1..]);
          var t := [c] + EscapeQuotes(rest);
          assert t[1..] == EscapeQuotes(rest);
          assert !StartsByteEscape(t);
        }
      }
    }
  }

  lemma EscapedXIsByteEscape()
    ensures "\\x" + "78" == ByteEscape('x') && "\\x" + "58" == ByteEscape('X') && "\\x27" == ByteEscape('\'')
  {
    assert 'x' as int == 0x78 && 'X' as int == 0x58 && '\'' as int == 0x27;
  }

  /** The escaped form of text that is changed, or of any text when forced, extracts to the text. */
  lemma {:induction false} ExtractQuoted(printable: char -> bool, s: string)
    requires IsBytes(s)
    ensures Extracted(OPENING + EscapeQuotes(EscapeFrom(printable, s, false)) + CLOSING) == s
    ensures IsBinaryEscaped(OPENING + EscapeQuotes(EscapeFrom(printable, s, false)) + CLOSING)
  {
    var e := EscapeQuotes(EscapeFrom(printable, s, false));
    var whole := OPENING + e + CLOSING;
    assert HasQuotedForm(whole);
    assert whole[4..|whole| - 3] == e;
    UnescapeAfterEscape(printable, s, false);
  }

  lemma {:induction false} ForcedRoundTrip(printable: char -> bool, s: string)
    requires IsBytes(s)
    ensures Extracted(BinaryEscaped(printable, s, true)) == s
  {
    ExtractQuoted(printable, s);
  }

  lemma {:induction false} UnescapeNeverLonger(s: string)
    ensures |Unescape(s)| <= |s|
  {
    if s != "" {
      if StartsByteEscape(s) {
        UnescapeNeverLonger(s[4..]);
      } else {
        UnescapeNeverLonger(s[1..]);
      }
    }
  }

  lemma {:induction false} ExtractChangesEscapedForm(s: string)
    requires IsBinaryEscaped(s)
    ensures Extracted(s) != s
  {
    UnescapeNeverLonger(s[3..|s| - 2]);
    if HasQuotedForm(s) {
      UnescapeNeverLonger(s[4..|s| - 3]);
    }
  }

  /** An unprintable character, or an `x` that stands behind a backslash. */
  predicate NeedsEscapeAt(printable: char -> bool, s: string, i: nat, afterBackslash: bool)
    requires i < |s|
  {
    !printable(s[i]) || ((s[i] == 'x' || s[i] == 'X') && (if i == 0 then afterBackslash else s[i - 1] == '\\'))
  }

  predicate NeedsEscape(printable: char -> bool, s: string, afterBackslash: bool) {
    exists i :: 0 <= i < |s| && NeedsEscapeAt(printable, s, i, afterBackslash)
  }

  lemma {:induction false} NeedsEscapeFurther(printable: char -> bool, s: string, afterBackslash: bool)
    requires s != "" && !NeedsEscapeAt(printable, s, 0, afterBackslash)
    ensures NeedsEscape(printable, s, afterBackslash) <==> NeedsEscape(printable, s[1..], s[0] == '\\')
  {
    var rest, behind := s[1..], s[0] == '\\';
    if i :| 0 <= i < |s| && NeedsEscapeAt(printable, s, i, afterBackslash) {
      assert NeedsEscapeAt(printable, rest, i - 1, behind);
    }
    if i :| 0 <= i < |rest| && NeedsEscapeAt(printable, rest, i, behind) {
      assert NeedsEscapeAt(printable, s, i + 1, afterBackslash);
    }
  }

  /** The first pass makes text longer if something in it needs an escape, and leaves it alone otherwise. */
  lemma {:induction false} EscapeIfNeeded(printable: char -> bool, s: string, afterBackslash: bool)
    ensures if NeedsEscape(printable, s, afterBackslash) then |EscapeFrom(printable, s, afterBackslash)| > |s|
            else EscapeFrom(printable, s, afterBackslash) == s
  {
    if s != "" {
      var e := EscapeChar(printable, s[0], afterBackslash);
      EscapeIfNeeded(printable, s[1..], EndsInBackslash(e));
      if NeedsEscapeAt(printable, s, 0, afterBackslash) {
        assert |e| == 4;
      } else {
        NeedsEscapeFurther(printable, s, afterBackslash);
        assert s == [s[0]] + s[1..];
      }
    }
  }

  /**
    Unforced, the round trip fails exactly for text that already has the binary-escaped form and holds neither
    an unprintable character nor an `x` behind a backslash.
   */
  lemma {:induction false} UnforcedRoundTrip(printable: char -> bool, s: string)
    requires IsBytes(s)
    ensures Extracted(BinaryEscaped(printable, s, false)) == s
      <==> (IsBinaryEscaped(s) ==> NeedsEscape(printable, s, false))
  {
    EscapeIfNeeded(printable, s, false);
    if NeedsEscape(printable, s, false) {
      ForcedRoundTrip(printable, s);
      assert BinaryEscaped(printable, s, false) == BinaryEscaped(printable, s, true);
    } else {
      assert BinaryEscaped(printable, s, false) == s;
      if IsBinaryEscaped(s) {
        ExtractChangesEscapedForm(s);
      }
    }
  }

  lemma ExtractsInside(inside: string)
    requires inside == "x"
    ensures Extracted("B\"(" + inside + ")\"") == "x"
  {
    var s := "B\"(" + inside + ")\"";
    assert s[3..|s| - 2] == inside;
    assert Unescape(inside[1..]) == "";
  }

  /** Printable text that already has the form is left as it is, and is then read as something else. */
  lemma UnforcedLosesForm(printable: char -> bool, s: string)
    requires s == "B\"(" + "x" + ")\"" && forall c | c in s :: printable(c)
    ensures BinaryEscaped(printable, s, false) == s
    ensures Extracted(BinaryEscaped(printable, s, false)) == "x"
  {
    EscapeIfNeeded(printable, s, false);
    ExtractsInside("x");
  }
}
