/** Character classes and `std::string` searches used by the string codec. */
module Text {

  const NUL: char := '\0'
  const BACKSPACE: char := 8 as char
  const FORM_FEED: char := 12 as char
  const VERTICAL_TAB: char := 11 as char

  /** ASCII whitespace, the classic locale's `isspace`. */
  predicate IsSpace(c: char) {
    c == ' ' || c == '\t' || c == '\n' || c == VERTICAL_TAB || c == FORM_FEED || c == '\r'
  }

  /** A string whose characters are bytes, as every C++ `std::string` is. */
  predicate IsBytes(s: string) {
    forall i | 0 <= i < |s| :: s[i] as int < 256
  }

  /** `find_first_of(c, from)`: the first position at or after `from` holding c, or |s| when there is none. */
  function Find(s: string, c: char, from: nat): (loc: nat)
    ensures from <= |s| ==> from <= loc <= |s|
    ensures from > |s| ==> loc == |s|
    ensures loc < |s| ==> s[loc] == c
    ensures forall i | from <= i < loc && i < |s| :: s[i] != c
    decreases |s| - from
  {
    if from >= |s| then |s|
    else if s[from] == c then from
    else Find(s, c, from + 1)
  }

  /** `find_if` with `isspace`: the first position at or after `from` holding whitespace, or |s|. */
  function FindSpace(s: string, from: nat): (loc: nat)
    requires from <= |s|
    ensures from <= loc <= |s|
    ensures loc < |s| ==> IsSpace(s[loc])
    ensures forall i | from <= i < loc :: !IsSpace(s[i])
    decreases |s| - from
  {
    if from == |s| || IsSpace(s[from]) then from else FindSpace(s, from + 1)
  }

  function LeftTrim(s: string): (t: string)
    ensures |t| <= |s|
    ensures t != "" ==> !IsSpace(t[0])
  {
    if s == "" || !IsSpace(s[0]) then s else LeftTrim(s[1..])
  }

  function RightTrim(s: string): (t: string)
    ensures t <= s
    ensures t != "" ==> !IsSpace(t[|t| - 1])
  {
    if s == "" || !IsSpace(s[|s| - 1]) then s else RightTrim(s[..|s| - 1])
  }

  function Trim(s: string): (t: string)
    ensures |t| <= |s|
    ensures t != "" ==> !IsSpace(t[0])
  {
    LeftTrim(RightTrim(s))
  }

  /** Text with no whitespace at either end is left alone; a leading blank is dropped. */
  lemma {:induction false} TrimClean(s: string)
    requires s != "" && !IsSpace(s[0]) && !IsSpace(s[|s| - 1])
    ensures Trim(s) == s && Trim(" " + s) == s
  {
    var t := " " + s;
    assert t[|t| - 1] == s[|s| - 1];
    assert RightTrim(t) == t;
    assert t[1..] == s;
    assert LeftTrim(t) == LeftTrim(s);
  }

  predicate AllSpace(s: string) {
    forall i | 0 <= i < |s| :: IsSpace(s[i])
  }

  lemma FirstBack(s: string, a: string, b: string)
    requires s != "" && s[1..] == a + b
    ensures s == [s[0]] + a + b
  {
    assert s == [s[0]] + s[1..];
  }

  lemma {:induction false} LeftTrimCuts(s: string) returns (before: string)
    ensures s == before + LeftTrim(s) && AllSpace(before)
  {
    before := "";
    if s != "" && IsSpace(s[0]) {
      var tail := LeftTrimCuts(s[1..]);
      FirstBack(s, tail, LeftTrim(s));
      before := [s[0]] + tail;
    }
  }

  lemma {:induction false} RightTrimCuts(s: string) returns (after: string)
    ensures s == RightTrim(s) + after && AllSpace(after)
  {
    after := "";
    if s != "" && IsSpace(s[|s| - 1]) {
      var last := s[|s| - 1];
      after := RightTrimCuts(s[..|s| - 1]);
      assert s == s[..|s| - 1] + [last] == (RightTrim(s) + after) + [last] == RightTrim(s) + (after + [last]);
      after := after + [last];
    }
  }

  /** Trimming takes away whitespace at the two ends and nothing else, and leaves none there. */
  lemma {:induction false} TrimCuts(s: string) returns (before: string, after: string)
    ensures s == before + Trim(s) + after && AllSpace(before) && AllSpace(after)
    ensures Trim(s) != "" ==> !IsSpace(Trim(s)[0]) && !IsSpace(Trim(s)[|Trim(s)| - 1])
  {
    after := RightTrimCuts(s);
    var t := RightTrim(s);
    before := LeftTrimCuts(t);
    assert s == (before + Trim(s)) + after;
    if Trim(s) != "" {
      assert t[|t| - 1] == Trim(s)[|Trim(s)| - 1];
    }
  }
}
