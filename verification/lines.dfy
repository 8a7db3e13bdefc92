/** Delimited text: what a stream's complete lines are and what is left over. */
module Lines {

  /** The length of the text up to and including its last delimiter; 0 when it has none. */
  function Cut(s: string, delim: char): (n: nat)
    ensures n <= |s|
    ensures n > 0 ==> s[n - 1] == delim
    ensures forall i | n <= i < |s| :: s[i] != delim
  {
    if s == "" then 0
    else if s[|s| - 1] == delim then |s|
    else Cut(s[..|s| - 1], delim)
  }

  /** All complete lines, delimiters included. */
  function Complete(s: string, delim: char): string {
    s[..Cut(s, delim)]
  }

  /** The unfinished line after the last delimiter. */
  function Rest(s: string, delim: char): (r: string)
    ensures delim !in r
  {
    s[Cut(s, delim)..]
  }

  /** The length of the first line with its delimiter; 0 when no line is complete. */
  function FirstLength(s: string, delim: char): (n: nat)
    ensures n <= |s|
    ensures n > 0 ==> s[n - 1] == delim && delim !in s[..n - 1]
    ensures n == 0 ==> delim !in s
  {
    FirstLengthFrom(s, delim, 0)
  }

  function FirstLengthFrom(s: string, delim: char, from: nat): (n: nat)
    requires from <= |s|
    ensures n <= |s|
    ensures n > 0 ==> from < n && s[n - 1] == delim && delim !in s[from..n - 1]
    ensures n == 0 ==> delim !in s[from..]
    decreases |s| - from
  {
    if from == |s| then 0
    else if s[from] == delim then from + 1
    else FirstLengthFrom(s, delim, from + 1)
  }

  /** The complete lines one by one. */
  function Split(s: string, delim: char): (lines: seq<string>)
    decreases |s|
  {
    var n := FirstLength(s, delim);
    if n == 0 then [] else [s[..n]] + Split(s[n..], delim)
  }

  /** Nothing, or text that stops at the end of a line. */
  predicate WholeLines(s: string, delim: char) {
    s == "" || s[|s| - 1] == delim
  }

  /** Nothing, or a proper beginning of the first line of the text. */
  predicate Fragment(partial: string, text: string, delim: char) {
    partial == "" || (|partial| < FirstLength(text, delim) && partial <= text)
  }

  function Concat(parts: seq<string>): string {
    if parts == [] then "" else parts[0] + Concat(parts[1..])
  }

  lemma {:induction false} CutIs(s: string, delim: char, n: nat)
    requires n <= |s|
    requires n > 0 ==> s[n - 1] == delim
    requires forall i | n <= i < |s| :: s[i] != delim
    ensures Cut(s, delim) == n
  {
    if n > 0 {
      assert s[n - 1] == delim;
    }
  }

  lemma {:induction false} CompleteAndRest(s: string, delim: char)
    ensures Complete(s, delim) + Rest(s, delim) == s
  {
  }

  lemma {:induction false} CutAfterLines(lines: string, u: string, delim: char)
    requires WholeLines(lines, delim)
    ensures Complete(lines + u, delim) == lines + Complete(u, delim)
    ensures Rest(lines + u, delim) == Rest(u, delim)
  {
    var n, whole := |lines|, lines + u;
    var m := Cut(u, delim);
    forall i | n + m <= i < |whole| ensures whole[i] != delim {
      assert whole[i] == u[i - n];
    }
    assert n + m > 0 ==> whole[n + m - 1] == delim;
    CutIs(whole, delim, n + m);
  }

  /** Reading more of a stream: only the left-over line and the new bytes matter. */
  lemma {:induction false} CompleteAppend(s: string, t: string, delim: char)
    ensures Complete(s + t, delim) == Complete(s, delim) + Complete(Rest(s, delim) + t, delim)
    ensures Rest(s + t, delim) == Rest(Rest(s, delim) + t, delim)
  {
    var lines, rest := Complete(s, delim), Rest(s, delim);
    CutAfterLines(lines, rest + t, delim);
    assert s + t == lines + (rest + t);
  }

  /** A line that ends somewhere is complete: the first line comes first, then the others. */
  lemma {:induction false} CompleteFirst(s: string, delim: char)
    requires FirstLength(s, delim) > 0
    ensures Complete(s, delim) == s[..FirstLength(s, delim)] + Complete(s[FirstLength(s, delim)..], delim)
    ensures Rest(s, delim) == Rest(s[FirstLength(s, delim)..], delim)
  {
    var n := FirstLength(s, delim);
    var head, tail := s[..n], s[n..];
    CutAfterLines(head, tail, delim);
    assert s == head + tail;
  }

  lemma {:induction false} CompleteNone(s: string, delim: char)
    requires delim !in s
    ensures Complete(s, delim) == "" && Rest(s, delim) == s
  {
    CutIs(s, delim, 0);
  }

  /** The lines one by one, put together, are the complete lines. */
  lemma {:induction false} SplitConcat(s: string, delim: char)
    ensures Concat(Split(s, delim)) == Complete(s, delim)
    decreases |s|
  {
    var n := FirstLength(s, delim);
    if n == 0 {
      CompleteNone(s, delim);
    } else {
      SplitConcat(s[n..], delim);
      CompleteFirst(s, delim);
    }
  }

  lemma AppendNothing(a: string, b: string)
    requires b == ""
    ensures a + b == a
  {
  }

  /** Text with no delimiter adds no complete line. */
  lemma {:induction false} NothingComplete(before: string, s: string, delim: char)
    requires delim !in s
    ensures before + Complete(s, delim) == before && Rest(s, delim) == s
  {
    CompleteNone(s, delim);
    AppendNothing(before, Complete(s, delim));
  }

  lemma {:induction false} WholeLinesAppend(a: string, b: string, delim: char)
    requires WholeLines(a, delim) && WholeLines(b, delim)
    ensures WholeLines(a + b, delim)
  {
  }

  /** A first line that is there stays the first line when more text arrives. */
  lemma {:induction false} FirstLengthStays(text: string, more: string, delim: char)
    requires FirstLength(text, delim) > 0
    ensures FirstLength(text + more, delim) == FirstLength(text, delim)
  {
    var n, m := FirstLength(text, delim), FirstLength(text + more, delim);
    assert (text + more)[n - 1] == delim;
    assert forall i | 0 <= i < n - 1 :: (text + more)[i] == text[..n - 1][i];
    assert m > 0 && forall i | 0 <= i < m - 1 :: (text + more)[i] == (text + more)[..m - 1][i] != delim;
  }

  lemma {:induction false} FragmentStays(partial: string, text: string, more: string, delim: char)
    requires Fragment(partial, text, delim)
    ensures Fragment(partial, text + more, delim)
  {
    if partial != "" {
      FirstLengthStays(text, more, delim);
    }
  }
}
