# lsrepos in Dafny

`lsrepos <directory>` lists the immediate subdirectories of a directory as a
three-column table: the name, the current git branch and whether the working
tree has changes. This project models the part of `lsrepos.js` that does not
touch the outside world, and proves what it does:

- **Text** (`text.dfy`): the JavaScript string operations the program relies
  on: `split('\n')`, `trim()`, and the "some later line is not blank" test.
- **Porcelain** (`porcelain.dfy`): `getGitInfo`. It reads the output of
  `git status -b --porcelain`. The branch is taken from the first line by the
  regular expression `^## ([^\s.]+)(\.{3}|$)`, or is `(unknown)`. The tree is
  dirty when a later line is not blank. A failed subprocess yields no result.
- **Scanner** (`scanner.dfy`): the loop of `main`. It walks the directory
  listing and pushes one row per directory: `<not repo>` with an empty status
  when there is no `.git`, and the branch with `changed` or an empty status
  when there is. It throws on the first repository whose status query fails.
- **Layout** (`layout.dfy`): `pad`, the column widths (the longest value, and
  at least 10), and the printed table: header, dashed separator, one line per
  row.
- **LsRepos** (`lsrepos.dfy`): `main` as one run, from the argument and the
  listing to the strings printed by `console.log`, one per call, or the error.

The file system and the `git` subprocess become inputs. Each listing entry is
an `Entry` that records its name, whether it is a directory, whether
`<entry>/.git` exists, and what the status query returns (`Probe`: its text,
or a failure). Wrappers (`wrappers.dfy`) holds the `Option` and `Result`
types.

The regular expression is modelled as a greedy run of branch characters. The
run is everything that is neither whitespace nor `.`. It must be followed by
the end of the line or by `...`. Backtracking cannot help: a shorter capture
stops before a branch character, and that character is neither `.` nor the
end. So the match exists exactly when the maximal run is followed by one of
the two. `Porcelain.MatchBranchComplete` and `Porcelain.MatchBranchNone` prove
both directions against the declarative `IsBranchLine`.

## Model

| member | source | states |
|---|---|---|
| Text.Trim | lsrepos.js:19-20 | the result is the input without its leading and trailing whitespace: a contiguous slice, with only whitespace cut on each side, and neither end of the result is whitespace; it is empty exactly when the input is all whitespace |
| Text.IsSpace | lsrepos.js:19-22 | definition of the whitespace that `trim()` removes and `\s` matches, restricted to the six ASCII whitespace characters |
| Text.TrimIdempotent | lsrepos.js:19-20 | trimming a trimmed line changes nothing |
| Text.IsBlank | lsrepos.js:20 | definition of `line.trim() === ''`; `Text.Trim` proves it is blank exactly when every character is whitespace |
| Text.LeadingSpaces | lsrepos.js:19 | the length of the whitespace prefix: all of it is whitespace and the next character is not |
| Text.TrailingSpaces | lsrepos.js:19 | the length of the whitespace suffix: all of it is whitespace and the character before it is not |
| Text.LineEnd | lsrepos.js:18 | the position of the first newline, or the length when there is none |
| Text.SplitLines | lsrepos.js:18 | `split('\n')` always yields at least one piece |
| Text.SplitAfterLine | lsrepos.js:18 | splitting `first + "\n" + rest`, where `first` has no newline, yields `first` and then the pieces of `rest` |
| Text.SplitLinesHaveNoNewline | lsrepos.js:18 | no piece of a split contains a newline |
| Text.JoinSplit | lsrepos.js:18 | joining the pieces with newlines gives back the input |
| Text.SplitJoin | lsrepos.js:18 | splitting lines that have no newline, once they are joined with newlines, gives back those lines |
| Text.JoinLines | lsrepos.js:18 | definition of joining pieces with line feeds, the inverse of `split('\n')` that `Text.JoinSplit` and `Text.SplitJoin` relate it to |
| Text.SomeLineNonBlank | lsrepos.js:18-20 | some piece of a split is non-blank exactly when the text is not all whitespace |
| Text.SomeNonBlank | lsrepos.js:20 | definition of `lines.some(line => line.trim() !== '')`; `Text.SomeLineNonBlank` characterises it on the pieces of a split |
| Porcelain.BranchRun | lsrepos.js:22 | the length of the longest prefix made only of branch characters (not whitespace, not `.`) |
| Porcelain.IsBranchChar | lsrepos.js:22 | definition of the class `[^\s.]`: any character that is neither whitespace nor `.` |
| Porcelain.IsBranchName | lsrepos.js:22 | definition of what group 1 `([^\s.]+)` captures: a non-empty string of branch characters |
| Porcelain.TrackingRest | lsrepos.js:22 | definition of what the group after the capture, three dots or the end of input, accepts: the end of the line, or `...` followed by anything |
| Porcelain.IsBranchLine | lsrepos.js:22 | definition of the match as a pattern: `## `, then the branch, then a tracking rest; `Porcelain.MatchBranchComplete` and `Porcelain.MatchBranchNone` prove `Porcelain.MatchBranch` agrees with it both ways |
| Porcelain.MatchBranch | lsrepos.js:22-23 | a captured branch is a non-empty run of branch characters that follows `## ` and is followed by the end of the line or by `...` |
| Porcelain.MatchBranchComplete | lsrepos.js:22-23 | every line `## ` + a branch name + (nothing or `...` + anything) matches with that branch |
| Porcelain.MatchBranchNone | lsrepos.js:22-23 | when there is no match, no branch name fits the line in that shape |
| Porcelain.BranchLine | lsrepos.js:18-19 | definition of `lines[0].trim()`: the first piece of the split, trimmed |
| Porcelain.ParseStatus | lsrepos.js:18-28 | definition of the parse in `getGitInfo`; its properties are proved in `Porcelain.ParseStatusBranch`, `Porcelain.DirtyIffContentAfterBranchLine`, `Porcelain.ParseFirstThenRest`, `Porcelain.SingleLineIsClean` and the examples |
| Porcelain.ParseStatusBranch | lsrepos.js:18-23 | the branch is `(unknown)` when the trimmed first line does not match and the captured branch when it does; any other value is a branch name that the trimmed first line carries in the matching shape |
| Porcelain.DirtyIffContentAfterBranchLine | lsrepos.js:18-20 | the tree is dirty exactly when something other than whitespace comes after the first line |
| Porcelain.SingleLineIsClean | lsrepos.js:18-20 | output of one line, with or without a final newline, is never dirty |
| Porcelain.ParseFirstThenRest | lsrepos.js:18-23 | for output `first + "\n" + rest`, the branch depends only on `first`, and the dirty flag only on whether some line of `rest` is non-blank |
| Text.TrimUnchanged | lsrepos.js:19 | a line that neither starts nor ends with whitespace is its own trim |
| Porcelain.GetGitInfo | lsrepos.js:11-32 | there is no result exactly when the status query fails; otherwise the result is the parse of its output |
| Porcelain.TrackingExample | lsrepos.js:22-23 | `## main...origin/main` gives branch `main` |
| Porcelain.NoTrackingExample | lsrepos.js:22-23 | `## feature-x` gives branch `feature-x` |
| Porcelain.DottedNameExample | lsrepos.js:22-23 | `## v1.2` does not match, because a branch stops at the first `.` |
| Porcelain.EmptyOutputExample | lsrepos.js:18-23 | empty output gives `(unknown)` and a clean tree |
| Scanner.RowForShape | lsrepos.js:49-71 | a row carries its directory's name; it is `<not repo>` with an empty status when there is no `.git`; otherwise it carries the parsed branch and the status `changed` exactly when the tree is dirty; the status is always `changed` or empty |
| Scanner.ProbeFails | lsrepos.js:49-61 | definition of the entry that makes the loop throw: a directory with a `.git` whose status query fails |
| Scanner.RowFor | lsrepos.js:53-70 | definition of the row pushed for a directory; its shape is proved in `Scanner.RowForShape` |
| Scanner.StatusText | lsrepos.js:57 | definition of `info.dirty ? 'changed' : ''`; `Scanner.RowForShape` proves the status is `changed` exactly when the tree is dirty |
| Scanner.Message | lsrepos.js:41-61 | definition of the error texts, `Usage: lsrepos <directory>` and `Can't get git info for ` + name |
| Scanner.Step | lsrepos.js:49-71 | definition of one pass of the loop body: a file changes nothing, a directory appends its `RowFor` row, a failed probe throws; `Scanner.BuildRows` is proved against it through `Scanner.Scan` |
| Scanner.Scan | lsrepos.js:48-73 | definition of the loop's outcome over a listing; its properties are proved in `Scanner.ScanRows`, `Scanner.ScanFailsAtFirst`, `Scanner.ScanOkIff` and `Scanner.ScanErrSticky` |
| Scanner.Directories | lsrepos.js:48-49 | the directory entries of the listing, and only those |
| Scanner.DirectoriesAppend | lsrepos.js:48-49 | the directories of a concatenated listing are those of the first part followed by those of the second, so listing order is kept |
| Scanner.DirectoriesSingle | lsrepos.js:48-49 | a single entry is kept exactly when it is a directory |
| Scanner.ScanErrSticky | lsrepos.js:61 | once the loop has thrown, later entries do not change the outcome |
| Scanner.ScanRows | lsrepos.js:48-73 | when no probe fails, the loop completes with exactly one row per directory entry, in listing order, each as `RowForShape` describes |
| Scanner.ScanFailsAtFirst | lsrepos.js:52-61 | when some probe fails, the outcome is the error for the first failing entry |
| Scanner.ScanOkIff | lsrepos.js:48-73 | the loop completes exactly when no directory with a `.git` has a failing probe |
| Scanner.FirstFailure | lsrepos.js:48-61 | the index of a failing entry, with no failing entry before it |
| Scanner.BuildRows | lsrepos.js:45-73 | the imperative loop, pushing rows and returning on the first failure, ends in the outcome `Scan` specifies |
| Layout.Repeat | lsrepos.js:80 | a string of `n` copies of the character |
| Layout.Pad | lsrepos.js:34-36 | the result is `s` followed by spaces up to `length`, and it is `s` itself when `s` is already that long |
| Layout.ColumnWidth | lsrepos.js:76-77 | the width is at least 10, no value is wider, and it is 10 or the length of some value |
| Layout.Names | lsrepos.js:76 | definition of `results.map(r => r.name)` |
| Layout.Branches | lsrepos.js:77 | definition of `results.map(r => r.branch)` |
| Layout.NameWidth | lsrepos.js:76 | definition of `nameColWidth`; `Layout.RowsFit` and `Layout.ColumnWidth` give its bounds |
| Layout.BranchWidth | lsrepos.js:77 | definition of `branchColWidth`; `Layout.RowsFit` and `Layout.ColumnWidth` give its bounds |
| Layout.RowsFit | lsrepos.js:76-77 | every name and branch fits its column, and both columns are at least 10 wide |
| Layout.WidthExamples | lsrepos.js:76-77 | values `a` and `verylongname` give width 12; short values and no values at all give 10 |
| Layout.PaddedField | lsrepos.js:34-36 | a padded field plus two spaces is `w + 2` long and holds the value and then spaces |
| Layout.Header | lsrepos.js:79 | definition of the header line; `Layout.HeaderAligned` proves its titles sit in the row columns |
| Layout.Separator | lsrepos.js:80 | definition of the dashed line; `Layout.TableLayout` proves it is `nw + bw + 10` dashes |
| Layout.RowLine | lsrepos.js:83-87 | definition of one row's line; `Layout.RowAligned` proves its fields sit in the three columns |
| Layout.RowLines | lsrepos.js:82-88 | definition of the row lines in row order; `Layout.RowLinesSnoc` relates it to the printing loop |
| Layout.Table | lsrepos.js:79-88 | definition of everything printed; its properties are proved in `Layout.TableShape` and `Layout.TableLayout`, and `Layout.Render` is proved equal to it |
| Layout.FieldsAligned | lsrepos.js:79-87 | a line built as the program builds it starts the name at offset 0, the branch at `nw + 2` and the status at `nw + bw + 4`, with only spaces in between |
| Layout.TableShape | lsrepos.js:79-88 | the table is the header, then the separator, then the line of each row in order |
| Layout.HeaderAligned | lsrepos.js:79 | the titles `Subdir`, `Branch` and `Status` sit in the same columns as the row values |
| Layout.RowAligned | lsrepos.js:76-87 | each row line holds its fields in the three columns the widths define |
| Layout.TableLayout | lsrepos.js:76-88 | the table has rows + 2 lines; the separator is `nw + bw + 10` dashes; the header and every row are aligned |
| Layout.RowLinesSnoc | lsrepos.js:82-88 | printing one more row appends its line |
| Layout.Render | lsrepos.js:76-88 | the imperative printing loop outputs exactly the lines of `Table` |
| LsRepos.HasDirectory | lsrepos.js:39-40 | definition of a truthy `process.argv[2]`: present and not the empty string |
| LsRepos.Run | lsrepos.js:38-89 | a missing or empty argument gives the usage error; otherwise the outcome is the table of the rows the loop built, or the loop's error; the run succeeds exactly when no probe fails, then with one `console.log` string per directory plus two; a failure names the first failing directory |

## Left out

- Text.IsSpace: `trim()` and `\s` also treat Unicode spaces (U+00A0, U+2028, U+FEFF and others) as whitespace. The model treats only the six ASCII whitespace characters as whitespace, so a branch name next to a Unicode space is parsed differently.
- String lengths: JavaScript's `.length` and `padEnd` count UTF-16 code units. The model counts characters, so the two agree only for text within the Basic Multilingual Plane.
- The file system: `fs.readdirSync`, `path.join` and `fs.existsSync` are not modelled. Their results are inputs: the `Entry` sequence and its `isDirectory` and `hasGit` fields. An unreadable or missing base directory, which makes `readdirSync` throw, is not modelled.
- The subprocess: `execSync` is not modelled. What it returns is the `Probe` input, and any exception it throws is `ProbeError`. The environment of the subprocess (`cwd`, encoding) is not modelled.
- Output and exit: `console.log`, `console.error` and `process.exit` are not run. A run's outcome is a `Result`: the strings passed to `console.log`, one per call (a directory name holding a line feed prints as several terminal lines), `UsageError` (the message and exit code 1), or `ProbeFailed(name)`, which is the uncaught exception of line 61. `Scanner.Message` gives the error text.
- Layout.ColumnWidth: it does not model the engine's limit on the number of arguments to `Math.max(...)`. Very large listings would throw before reaching it.
- Porcelain.ParseStatusBranch: concrete outputs with several lines (a branch line followed by changed files) have no worked example. Their behaviour follows from `Porcelain.ParseFirstThenRest` and `Porcelain.DirtyIffContentAfterBranchLine` for all inputs.
- Scanner.ScanRows: no fixed directory listing is worked through as an example. The general row lemmas cover every listing.
