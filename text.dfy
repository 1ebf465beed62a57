/** The string primitives lsrepos.js relies on: `String.prototype.trim`
    and `String.prototype.split('\n')`, over `seq<char>`. */
module Text {

  /** The white space that `trim` strips and that `\s` matches, restricted
      to the ASCII characters: space, tab, line feed, carriage return,
      vertical tab and form feed. */
  predicate IsSpace(c: char)
  {
    c == ' ' || c == '\t' || c == '\n' || c == '\r' || c == '\U{000B}' || c == '\U{000C}'
  }

  predicate AllSpace(s: string)
  {
    forall k :: 0 <= k < |s| ==> IsSpace(s[k])
  }

  /** Number of white-space characters at the front of `s`. */
  function LeadingSpaces(s: string): (n: nat)
    ensures n <= |s|
    ensures AllSpace(s[..n])
    ensures n < |s| ==> !IsSpace(s[n])
  {
    if s == [] || !IsSpace(s[0]) then 0
    else
      var m := LeadingSpaces(s[1..]);
      assert s[1..][..m] == s[1..m + 1];
      1 + m
  }

  /** Number of white-space characters at the end of `s`. */
  function TrailingSpaces(s: string): (n: nat)
    ensures n <= |s|
    ensures AllSpace(s[|s| - n..])
    ensures n < |s| ==> !IsSpace(s[|s| - n - 1])
  {
    if s == [] || !IsSpace(s[|s| - 1]) then 0
    else
      var m := TrailingSpaces(s[..|s| - 1]);
      assert s[..|s| - 1][|s| - 1 - m..] == s[|s| - 1 - m..|s| - 1];
      1 + m
  }

  /** `s.trim()`: the part of `s` left once the leading and trailing white
      space is gone. The result is a slice of `s`, everything outside it is
      white space, and it neither starts nor ends with white space. */
  function Trim(s: string): (r: string)
    ensures var i := LeadingSpaces(s);
      i + |r| <= |s| && r == s[i..i + |r|] && AllSpace(s[..i]) && AllSpace(s[i + |r|..])
    ensures r == [] || (!IsSpace(r[0]) && !IsSpace(r[|r| - 1]))
    ensures r == [] <==> AllSpace(s)
  {
    var i := LeadingSpaces(s);
    if i == |s| then
      assert s[..i] == s;
      []
    else
      var j := |s| - TrailingSpaces(s);
      assert i < j;
      assert !AllSpace(s) by { assert !IsSpace(s[i]); }
      s[i..j]
  }

  /** A line with no white space at either end is its own trim. */
  lemma TrimUnchanged(line: string)
    requires line != [] && !IsSpace(line[0]) && !IsSpace(line[|line| - 1])
    ensures Trim(line) == line
  {
  }

  /** A line that `trim` reduces to the empty string. */
  predicate IsBlank(line: string)
  {
    Trim(line) == []
  }

  lemma {:induction false} TrimIdempotent(s: string)
    ensures Trim(Trim(s)) == Trim(s)
  {
  }

  /** Length of the first line of `s`: the index of its first line feed,
      or `|s|` when it has none. */
  function LineEnd(s: string): (p: nat)
    ensures p <= |s|
    ensures forall k :: 0 <= k < p ==> s[k] != '\n'
    ensures p < |s| ==> s[p] == '\n'
  {
    if s == [] || s[0] == '\n' then 0 else 1 + LineEnd(s[1..])
  }

  /** `s.split('\n')`: the pieces of `s` between its line feeds. There is
      always at least one piece. */
  function SplitLines(s: string): (lines: seq<string>)
    ensures |lines| >= 1
    decreases |s|
  {
    var p := LineEnd(s);
    if p == |s| then [s] else [s[..p]] + SplitLines(s[p + 1..])
  }

  /** A line without a line feed, then a line feed, splits off as the first
      piece. */
  lemma SplitAfterLine(first: string, rest: string)
    requires '\n' !in first
    ensures SplitLines(first + "\n" + rest) == [first] + SplitLines(rest)
  {
    var s := first + "\n" + rest;
    assert s[|first|] == '\n';
    assert forall k :: 0 <= k < |first| ==> s[k] == first[k];
    assert LineEnd(s) == |first|;
    assert s[..|first|] == first;
    assert s[|first| + 1..] == rest;
  }

  /** No piece holds a line feed. */
  lemma {:induction false} SplitLinesHaveNoNewline(s: string)
    ensures forall i :: 0 <= i < |SplitLines(s)| ==> '\n' !in SplitLines(s)[i]
    decreases |s|
  {
    var p := LineEnd(s);
    if p < |s| {
      SplitLinesHaveNoNewline(s[p + 1..]);
      assert SplitLines(s) == [s[..p]] + SplitLines(s[p + 1..]);
      assert '\n' !in s[..p];
    } else {
      assert SplitLines(s) == [s];
      assert s[..p] == s;
    }
  }

  /** `lines.join('\n')`, the inverse of `SplitLines`. */
  function JoinLines(lines: seq<string>): string
    requires |lines| >= 1
  {
    if |lines| == 1 then lines[0] else lines[0] + "\n" + JoinLines(lines[1..])
  }

  lemma {:induction false} JoinSplit(s: string)
    ensures JoinLines(SplitLines(s)) == s
    decreases |s|
  {
    var p := LineEnd(s);
    if p < |s| {
      var rest := SplitLines(s[p + 1..]);
      JoinSplit(s[p + 1..]);
      var lines := [s[..p]] + rest;
      assert SplitLines(s) == lines;
      assert |lines| > 1 && lines[0] == s[..p] && lines[1..] == rest;
      assert JoinLines(lines) == s[..p] + "\n" + JoinLines(rest);
      assert s == s[..p] + "\n" + s[p + 1..];
    } else {
      assert SplitLines(s) == [s];
    }
  }

  lemma {:induction false} SplitJoin(lines: seq<string>)
    requires |lines| >= 1
    requires forall i :: 0 <= i < |lines| ==> '\n' !in lines[i]
    ensures SplitLines(JoinLines(lines)) == lines
  {
    if |lines| > 1 {
      var rest := lines[1..];
      assert JoinLines(lines) == lines[0] + "\n" + JoinLines(rest);
      assert forall i :: 0 <= i < |rest| ==> rest[i] == lines[i + 1];
      SplitAfterLine(lines[0], JoinLines(rest));
      SplitJoin(rest);
      assert lines == [lines[0]] + rest;
    } else {
      assert '\n' !in lines[0];
      assert LineEnd(lines[0]) == |lines[0]|;
    }
  }

  /** Text around a line feed is all white space exactly when both sides
      are. */
  lemma AllSpaceAroundNewline(s: string, p: nat)
    requires p < |s| && s[p] == '\n'
    ensures AllSpace(s) <==> AllSpace(s[..p]) && AllSpace(s[p + 1..])
  {
  }

  /** `lines.some(line => line.trim() !== '')`. */
  predicate SomeNonBlank(lines: seq<string>)
  {
    lines != [] && (!IsBlank(lines[0]) || SomeNonBlank(lines[1..]))
  }

  /** Some piece of `s.split('\n')` has non-white-space content exactly
      when `s` does. */
  lemma {:induction false} SomeLineNonBlank(s: string)
    ensures SomeNonBlank(SplitLines(s)) <==> !AllSpace(s)
    decreases |s|
  {
    var lines := SplitLines(s);
    var p := LineEnd(s);
    if p < |s| {
      var t := s[p + 1..];
      SomeLineNonBlank(t);
      assert lines == [s[..p]] + SplitLines(t);
      assert lines[1..] == SplitLines(t);
      assert IsBlank(lines[0]) <==> AllSpace(s[..p]);
      AllSpaceAroundNewline(s, p);
    } else {
      assert lines == [s];
      assert IsBlank(lines[0]) <==> AllSpace(s);
    }
  }
}
