/** The row-building loop of `main` (lsrepos.js:45-73), with the directory
    listing, the `.git` test and the status subprocess made into inputs. */
module Scanner {
  import opened Wrappers
  import opened Porcelain

  /** Sentinels placed in rows. */
  const NotRepo: string := "<not repo>"
  const Changed: string := "changed"

  /** One entry of `fs.readdirSync(baseDir, { withFileTypes: true })`, with
      what the program would learn about it: whether `<entry>/.git` exists
      and what `git status -b --porcelain` run in it yields. */
  datatype Entry = Entry(name: string, isDirectory: bool, hasGit: bool, probe: Probe)

  /** One line of the report: a directory's name, branch and status. */
  datatype Row = Row(name: string, branch: string, status: string)

  /** The two ways a run ends without a table. */
  datatype Error = UsageError | ProbeFailed(dir: string)

  /** The text written to standard error for each failure. */
  function Message(e: Error): string
  {
    match e
    case UsageError => "Usage: lsrepos <directory>"
    case ProbeFailed(dir) => "Can't get git info for " + dir
  }

  /** A directory with a `.git` whose status query fails: the entry that
      makes `main` throw. */
  predicate ProbeFails(e: Entry)
  {
    e.isDirectory && e.hasGit && e.probe.ProbeError?
  }

  /** The status column for a parsed status query. */
  function StatusText(st: Status): string
  {
    if st.dirty then Changed else ""
  }

  /** The row pushed for a directory whose probe, if any, succeeded. */
  function RowFor(e: Entry): Row
    requires e.isDirectory && !ProbeFails(e)
  {
    if e.hasGit then
      var st := ParseStatus(e.probe.text);
      Row(e.name, st.branch, StatusText(st))
    else Row(e.name, NotRepo, "")
  }

  /** Every row is a plain directory's `(name, "<not repo>", "")` or a
      repository's `(name, branch, "changed" or "")`. */
  lemma RowForShape(e: Entry)
    requires e.isDirectory && !ProbeFails(e)
    ensures RowFor(e).name == e.name
    ensures !e.hasGit ==> RowFor(e) == Row(e.name, NotRepo, "")
    ensures e.hasGit ==> e.probe.Output? && RowFor(e).branch == ParseStatus(e.probe.text).branch
    ensures e.hasGit ==> (RowFor(e).status == Changed <==> ParseStatus(e.probe.text).dirty)
    ensures RowFor(e).status == Changed || RowFor(e).status == ""
  {
  }

  /** One pass of the loop body on `e`, given the rows pushed so far. */
  function Step(rows: seq<Row>, e: Entry): Result<seq<Row>, Error>
  {
    if !e.isDirectory then Ok(rows)
    else if e.hasGit then
      match GetGitInfo(e.probe)
      case Some(_) => Ok(rows + [RowFor(e)])
      case None => Err(ProbeFailed(e.name))
    else Ok(rows + [RowFor(e)])
  }

  /** What the loop leaves after the given entries: the rows pushed, or the
      error thrown. */
  function Scan(entries: seq<Entry>): Result<seq<Row>, Error>
    decreases |entries|
  {
    if entries == [] then Ok([])
    else
      match Scan(entries[..|entries| - 1])
      case Err(err) => Err(err)
      case Ok(rows) => Step(rows, entries[|entries| - 1])
  }

  /** The directory entries of a listing, in listing order. */
  function Directories(entries: seq<Entry>): (dirs: seq<Entry>)
    ensures forall e :: e in dirs ==> e in entries && e.isDirectory
    ensures forall e :: e in entries && e.isDirectory ==> e in dirs
    ensures |dirs| <= |entries|
    decreases |entries|
  {
    if entries == [] then []
    else
      var last := entries[|entries| - 1];
      var prefix := entries[..|entries| - 1];
      assert entries == prefix + [last];
      Directories(prefix) + (if last.isDirectory then [last] else [])
  }

  /** Filtering a listing keeps the order: the directories of a
      concatenation are those of the first part followed by those of the
      second. */
  lemma {:induction false} DirectoriesAppend(a: seq<Entry>, b: seq<Entry>)
    ensures Directories(a + b) == Directories(a) + Directories(b)
    decreases |b|
  {
    if b == [] {
      assert a + b == a;
    } else {
      var last := b[|b| - 1];
      var prefix := b[..|b| - 1];
      var tail := if last.isDirectory then [last] else [];
      assert (a + b)[..|a + b| - 1] == a + prefix;
      assert (a + b)[|a + b| - 1] == last;
      DirectoriesAppend(a, prefix);
      calc {
        Directories(a + b);
        Directories(a + prefix) + tail;
        Directories(a) + Directories(prefix) + tail;
        Directories(a) + (Directories(prefix) + tail);
      }
    }
  }

  /** A single entry is kept exactly when it is a directory. */
  lemma DirectoriesSingle(e: Entry)
    ensures Directories([e]) == if e.isDirectory then [e] else []
  {
  }

  /** Once the loop has thrown, later entries change nothing. */
  lemma {:induction false} ScanErrSticky(entries: seq<Entry>, n: nat)
    requires n <= |entries|
    requires Scan(entries[..n]).Err?
    ensures Scan(entries) == Scan(entries[..n])
    decreases |entries|
  {
    if n < |entries| {
      var prefix := entries[..|entries| - 1];
      assert prefix[..n] == entries[..n];
      ScanErrSticky(prefix, n);
    } else {
      assert entries[..n] == entries;
    }
  }

  /** When no probe fails, the loop pushes exactly one row per directory
      entry, in listing order, and the row is the one `RowFor` describes. */
  lemma {:induction false} ScanRows(entries: seq<Entry>)
    requires forall i :: 0 <= i < |entries| ==> !ProbeFails(entries[i])
    ensures Scan(entries).Ok?
    ensures var rows := Scan(entries).value; var dirs := Directories(entries);
      |rows| == |dirs| &&
      forall k :: 0 <= k < |rows| ==> !ProbeFails(dirs[k]) && rows[k] == RowFor(dirs[k])
    decreases |entries|
  {
    if entries != [] {
      var last := entries[|entries| - 1];
      var prefix := entries[..|entries| - 1];
      assert forall i :: 0 <= i < |prefix| ==> prefix[i] == entries[i];
      ScanRows(prefix);
      assert !ProbeFails(last);
      var dirs := Directories(entries);
      var rows := Scan(entries).value;
      assert forall k :: 0 <= k < |dirs| ==> dirs[k] in dirs;
      forall k | 0 <= k < |rows|
        ensures !ProbeFails(dirs[k]) && rows[k] == RowFor(dirs[k])
      {
        assert dirs[k] in entries;
      }
    }
  }

  /** When some probe fails, the loop throws for the first failing entry,
      whatever the entries after it are and whatever the rows before it. */
  lemma {:induction false} ScanFailsAtFirst(entries: seq<Entry>, i: nat)
    requires i < |entries| && ProbeFails(entries[i])
    requires forall j :: 0 <= j < i ==> !ProbeFails(entries[j])
    ensures Scan(entries) == Err(ProbeFailed(entries[i].name))
  {
    var prefix := entries[..i];
    assert forall j :: 0 <= j < |prefix| ==> prefix[j] == entries[j];
    ScanRows(prefix);
    assert entries[..i + 1][..i] == prefix;
    assert Scan(entries[..i + 1]) == Err(ProbeFailed(entries[i].name));
    ScanErrSticky(entries, i + 1);
  }

  /** The loop completes exactly when no directory probe fails. */
  lemma ScanOkIff(entries: seq<Entry>)
    ensures Scan(entries).Ok? <==> forall i :: 0 <= i < |entries| ==> !ProbeFails(entries[i])
  {
  }

  /** Index of the first entry whose probe fails. */
  function FirstFailure(entries: seq<Entry>): (i: nat)
    requires exists i :: 0 <= i < |entries| && ProbeFails(entries[i])
    ensures i < |entries| && ProbeFails(entries[i])
    ensures forall j :: 0 <= j < i ==> !ProbeFails(entries[j])
  {
    if ProbeFails(entries[0]) then 0
    else
      assert exists i :: 0 <= i < |entries[1..]| && ProbeFails(entries[1..][i]) by {
        var i :| 0 <= i < |entries| && ProbeFails(entries[i]);
        assert entries[1..][i - 1] == entries[i];
      }
      1 + FirstFailure(entries[1..])
  }

  /** The loop of `main`: walk the listing, push one row per directory, and
      stop at the first repository whose status query fails. */
  method BuildRows(entries: seq<Entry>) returns (result: Result<seq<Row>, Error>)
    ensures result == Scan(entries)
  {
    var results: seq<Row> := [];
    var i := 0;
    while i < |entries|
      invariant 0 <= i <= |entries|
      invariant Scan(entries[..i]) == Ok(results)
    {
      var entry := entries[i];
      assert entries[..i + 1][..i] == entries[..i];
      if entry.isDirectory {
        if entry.hasGit {
          var info := GetGitInfo(entry.probe);
          if info.Some? {
            results := results + [Row(entry.name, info.value.branch, StatusText(info.value))];
          } else {
            ScanErrSticky(entries, i + 1);
            return Err(ProbeFailed(entry.name));
          }
        } else {
          results := results + [Row(entry.name, NotRepo, "")];
        }
      }
      i := i + 1;
    }
    assert entries[..i] == entries;
    return Ok(results);
  }
}
