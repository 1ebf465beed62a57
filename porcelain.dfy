/** `getGitInfo` (lsrepos.js:11-32) without its subprocess: reading the
    branch and the dirty flag out of the text printed by
    `git status -b --porcelain`. */
module Porcelain {
  import opened Wrappers
  import opened Text

  /** Branch reported when the first line does not have the expected shape. */
  const Unknown: string := "(unknown)"

  /** A character of the class `[^\s.]`. */
  predicate IsBranchChar(c: char)
  {
    !IsSpace(c) && c != '.'
  }

  /** What group 1 of `([^\s.]+)` can capture. */
  predicate IsBranchName(b: string)
  {
    b != [] && forall k :: 0 <= k < |b| ==> IsBranchChar(b[k])
  }

  /** What `(\.{3}|$)` accepts after the branch: the end of the line, or an
      ellipsis followed by anything (the regular expression is not anchored
      at the end after `...`). */
  predicate TrackingRest(rest: string)
  {
    rest == [] || (|rest| >= 3 && rest[..3] == "...")
  }

  /** `line` is `"## " + b + rest` with `rest` accepted by `(\.{3}|$)`. */
  predicate IsBranchLine(line: string, b: string)
  {
    |line| >= 3 + |b| && line[..3] == "## " && line[3..3 + |b|] == b && TrackingRest(line[3 + |b|..])
  }

  /** Length of the longest prefix of `s` made of branch characters: what
      the greedy `[^\s.]+` consumes. */
  function BranchRun(s: string): (n: nat)
    ensures n <= |s|
    ensures forall k :: 0 <= k < n ==> IsBranchChar(s[k])
    ensures n < |s| ==> !IsBranchChar(s[n])
  {
    if s == [] || !IsBranchChar(s[0]) then 0 else 1 + BranchRun(s[1..])
  }

  /** The match of `/^## ([^\s.]+)(\.{3}|$)/` against `line`, giving
      group 1 on success. A shorter run than the greedy one can never be
      followed by `...` or the end, since its next character is itself a
      branch character, so backtracking adds no matches. */
  function MatchBranch(line: string): (m: Option<string>)
    ensures m.Some? ==> IsBranchName(m.value) && IsBranchLine(line, m.value)
  {
    if |line| < 3 || line[..3] != "## " then None
    else
      var n := BranchRun(line[3..]);
      var b := line[3..3 + n];
      if n > 0 && TrackingRest(line[3 + n..]) then
        assert forall k :: 0 <= k < n ==> b[k] == line[3..][k];
        Some(b)
      else None
  }

  /** Every line of the form `"## " + b + rest`, with `b` a branch name and
      `rest` empty or starting with `...`, matches, and group 1 is `b`.
      With the postcondition of `MatchBranch` this makes the match exactly
      the set of such lines. */
  lemma MatchBranchComplete(b: string, rest: string)
    requires IsBranchName(b) && TrackingRest(rest)
    ensures MatchBranch("## " + b + rest) == Some(b)
  {
    var line := "## " + b + rest;
    var s := line[3..];
    assert s == b + rest;
    var n := BranchRun(s);
    assert n == |b| by {
      if |b| < |s| { assert s[|b|] == rest[0] == '.'; }
      assert forall k :: 0 <= k < |b| ==> s[k] == b[k];
    }
    assert line[3..3 + n] == b;
    assert line[3 + n..] == rest;
  }

  /** No line whose match is `None` has the branch-line shape. */
  lemma MatchBranchNone(line: string, b: string)
    requires MatchBranch(line) == None
    ensures !IsBranchLine(line, b) || !IsBranchName(b)
  {
    if IsBranchLine(line, b) && IsBranchName(b) {
      assert line == "## " + b + line[3 + |b|..];
      MatchBranchComplete(b, line[3 + |b|..]);
    }
  }

  /** The outcome of one status query: the branch and whether the working
      tree has changes. */
  datatype Status = Status(branch: string, dirty: bool)

  /** The first line of the output, trimmed (`lines[0].trim()`). */
  function BranchLine(output: string): string
  {
    Trim(SplitLines(output)[0])
  }

  /** The parse in `getGitInfo` once `execSync` has returned `output`. */
  function ParseStatus(output: string): Status
  {
    var lines := SplitLines(output);
    var branch := match MatchBranch(Trim(lines[0])) case Some(b) => b case None => Unknown;
    Status(branch, SomeNonBlank(lines[1..]))
  }

  /** The branch is `(unknown)` whenever the trimmed first line does not
      match; any other branch is a branch name that the trimmed first line
      carries after `## `, followed by the end of the line or `...`. */
  lemma ParseStatusBranch(output: string)
    ensures MatchBranch(BranchLine(output)) == None ==> ParseStatus(output).branch == Unknown
    ensures MatchBranch(BranchLine(output)).Some? ==> ParseStatus(output).branch == MatchBranch(BranchLine(output)).value
    ensures var b := ParseStatus(output).branch;
      b != Unknown ==> IsBranchName(b) && IsBranchLine(BranchLine(output), b)
  {
  }

  /** A line feed followed by `t` is all white space exactly when `t` is. */
  lemma NewlineThenSpace(t: string)
    ensures AllSpace("\n" + t) <==> AllSpace(t)
  {
    var after := "\n" + t;
    if AllSpace(t) {
      forall k | 0 <= k < |after| ensures IsSpace(after[k]) {
        if k > 0 { assert after[k] == t[k - 1]; }
      }
    }
    if AllSpace(after) {
      forall k | 0 <= k < |t| ensures IsSpace(t[k]) { assert t[k] == after[k + 1]; }
    }
  }

  /** The dirty flag is set exactly when some character after the first
      line is not white space: a line of content after the branch line.
      A lone branch line, a trailing line feed and blank extra lines all
      count as clean. */
  lemma {:induction false} DirtyIffContentAfterBranchLine(output: string)
    ensures ParseStatus(output).dirty <==> !AllSpace(output[LineEnd(output)..])
  {
    var lines := SplitLines(output);
    var p := LineEnd(output);
    if p < |output| {
      var t := output[p + 1..];
      assert lines == [output[..p]] + SplitLines(t);
      assert lines[1..] == SplitLines(t);
      SomeLineNonBlank(t);
      assert output[p..] == "\n" + t;
      NewlineThenSpace(t);
    } else {
      assert lines == [output];
      assert lines[1..] == [];
      assert output[p..] == [];
    }
  }

  /** Output of a single line, with or without a trailing line feed, is
      clean. */
  lemma SingleLineIsClean(line: string, trailer: string)
    requires '\n' !in line
    requires trailer == [] || trailer == "\n"
    ensures !ParseStatus(line + trailer).dirty
  {
    var output := line + trailer;
    assert forall k :: 0 <= k < |line| ==> output[k] == line[k];
    assert LineEnd(output) == |line| by {
      if trailer != [] { assert output[|line|] == '\n'; }
    }
    assert output[|line|..] == trailer;
    assert AllSpace(trailer);
    DirtyIffContentAfterBranchLine(output);
  }

  /** `getGitInfo(dir)`: `null` (here `None`) exactly when `execSync`
      throws, which is the only step inside its `try` that can fail. */
  datatype Probe = Output(text: string) | ProbeError

  function GetGitInfo(probe: Probe): (info: Option<Status>)
    ensures info.None? <==> probe.ProbeError?
    ensures info.Some? ==> info.value == ParseStatus(probe.text)
  {
    match probe
    case Output(text) => Some(ParseStatus(text))
    case ProbeError => None
  }

  lemma TrackingExample()
    ensures MatchBranch("## main...origin/main") == Some("main")
  {
    assert "## main...origin/main" == "## " + "main" + "...origin/main";
    MatchBranchComplete("main", "...origin/main");
  }

  lemma NoTrackingExample()
    ensures MatchBranch("## feature-x") == Some("feature-x")
  {
    assert "## feature-x" == "## " + "feature-x" + "";
    MatchBranchComplete("feature-x", "");
  }

  /** A dot inside the name stops the run before the end of the line and
      not at an ellipsis, so `## v1.2` does not match. */
  lemma DottedNameExample()
    ensures MatchBranch("## v1.2") == None
  {
  }

  lemma EmptyOutputExample()
    ensures ParseStatus("") == Status(Unknown, false)
  {
  }

  /** The branch depends on the first line alone and the dirty flag on the
      lines after it alone. */
  lemma ParseFirstThenRest(first: string, rest: string)
    requires '\n' !in first
    ensures ParseStatus(first + "\n" + rest).dirty == SomeNonBlank(SplitLines(rest))
    ensures ParseStatus(first + "\n" + rest).branch == ParseStatus(first).branch
  {
    SplitAfterLine(first, rest);
    assert SplitLines(first + "\n" + rest)[1..] == SplitLines(rest);
    assert LineEnd(first) == |first|;
    assert SplitLines(first) == [first];
  }
}
