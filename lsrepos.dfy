/** `main` (lsrepos.js:38-89) as one run from inputs to outcome: the
    command-line argument and the directory listing go in, and either the
    strings of the table, one per `console.log` call, or the error that ends
    the run come out. */
module LsRepos {
  import opened Wrappers
  import opened Scanner
  import opened Layout

  /** `process.argv[2]` is truthy: present and not the empty string. */
  predicate HasDirectory(arg: Option<string>)
  {
    arg.Some? && arg.value != []
  }

  /** A run of the program. `arg` is `process.argv[2]` and `entries` is what
      `fs.readdirSync` lists for it. */
  method Run(arg: Option<string>, entries: seq<Entry>) returns (out: Result<seq<string>, Error>)
    ensures !HasDirectory(arg) ==> out == Err(UsageError)
    ensures HasDirectory(arg) ==> out == match Scan(entries)
                                        case Ok(rows) => Ok(Table(rows))
                                        case Err(e) => Err(e)
    ensures out.Ok? <==> HasDirectory(arg) && forall i :: 0 <= i < |entries| ==> !ProbeFails(entries[i])
    ensures out.Ok? ==> |out.value| == |Directories(entries)| + 2
    ensures HasDirectory(arg) && out.Err? ==>
      exists i :: 0 <= i < |entries| && ProbeFails(entries[i]) && out.error == ProbeFailed(entries[i].name) &&
        forall j :: 0 <= j < i ==> !ProbeFails(entries[j])
  {
    if !HasDirectory(arg) {
      return Err(UsageError);
    }
    var built := BuildRows(entries);
    ScanOkIff(entries);
    match built
    case Err(e) =>
      var i := FirstFailure(entries);
      ScanFailsAtFirst(entries, i);
      return Err(e);
    case Ok(rows) =>
      ScanRows(entries);
      TableLayout(rows);
      var lines := Render(rows);
      return Ok(lines);
  }
}
