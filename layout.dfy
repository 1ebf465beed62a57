/** The table printed at the end of `main` (lsrepos.js:34-36, 75-88). */
module Layout {
  import opened Scanner

  /** The least width of a column, whatever its values. */
  const MinWidth: nat := 10

  /** `c.repeat(n)` for a one-character string `c`. */
  function Repeat(c: char, n: nat): (r: string)
    ensures |r| == n
    ensures forall k :: 0 <= k < n ==> r[k] == c
  {
    if n == 0 then [] else [c] + Repeat(c, n - 1)
  }

  /** `pad(s, length)`, that is `s.padEnd(length, ' ')`: `s` followed by as
      many spaces as it takes to reach `length`, and `s` itself when it is
      already that long. */
  function Pad(s: string, length: nat): (r: string)
    ensures |r| == if length <= |s| then |s| else length
    ensures r[..|s|] == s
    ensures forall k :: |s| <= k < |r| ==> r[k] == ' '
    ensures length <= |s| ==> r == s
  {
    if length <= |s| then s else s + Repeat(' ', length - |s|)
  }

  /** `Math.max(...fields.map(f => f.length), 10)`: the largest length
      among `fields`, or 10 when that is larger. */
  function ColumnWidth(fields: seq<string>): (w: nat)
    ensures w >= MinWidth
    ensures forall i :: 0 <= i < |fields| ==> |fields[i]| <= w
    ensures w == MinWidth || exists i :: 0 <= i < |fields| && |fields[i]| == w
    decreases |fields|
  {
    if fields == [] then MinWidth
    else
      var prefix := fields[..|fields| - 1];
      var w0 := ColumnWidth(prefix);
      var n := |fields[|fields| - 1]|;
      assert forall i :: 0 <= i < |prefix| ==> prefix[i] == fields[i];
      if n > w0 then n else w0
  }

  function Names(rows: seq<Row>): seq<string>
  {
    seq(|rows|, k requires 0 <= k < |rows| => rows[k].name)
  }

  function Branches(rows: seq<Row>): seq<string>
  {
    seq(|rows|, k requires 0 <= k < |rows| => rows[k].branch)
  }

  /** `nameColWidth` and `branchColWidth`. */
  function NameWidth(rows: seq<Row>): nat
  {
    ColumnWidth(Names(rows))
  }

  function BranchWidth(rows: seq<Row>): nat
  {
    ColumnWidth(Branches(rows))
  }

  /** No value is wider than its column. */
  lemma RowsFit(rows: seq<Row>, k: nat)
    requires k < |rows|
    ensures |rows[k].name| <= NameWidth(rows) && |rows[k].branch| <= BranchWidth(rows)
    ensures NameWidth(rows) >= MinWidth && BranchWidth(rows) >= MinWidth
  {
    assert Names(rows)[k] == rows[k].name;
    assert Branches(rows)[k] == rows[k].branch;
  }

  function Header(nameColWidth: nat, branchColWidth: nat): string
  {
    Pad("Subdir", nameColWidth) + "  " + Pad("Branch", branchColWidth) + "  Status"
  }

  function Separator(nameColWidth: nat, branchColWidth: nat): string
  {
    Repeat('-', nameColWidth + branchColWidth + 10)
  }

  function RowLine(r: Row, nameColWidth: nat, branchColWidth: nat): string
  {
    Pad(r.name, nameColWidth) + "  " + Pad(r.branch, branchColWidth) + "  " + r.status
  }

  function RowLines(rows: seq<Row>, nameColWidth: nat, branchColWidth: nat): seq<string>
  {
    seq(|rows|, k requires 0 <= k < |rows| => RowLine(rows[k], nameColWidth, branchColWidth))
  }

  /** The lines `main` prints for `rows`: header, separator, one per row. */
  function Table(rows: seq<Row>): seq<string>
  {
    var nw := NameWidth(rows);
    var bw := BranchWidth(rows);
    [Header(nw, bw), Separator(nw, bw)] + RowLines(rows, nw, bw)
  }

  /** `line` shows `name` at offset 0, `branch` at offset `nw + 2` and
      `status` at offset `nw + bw + 4`, with only spaces in between. */
  predicate Aligned(line: string, name: string, branch: string, status: string, nw: nat, bw: nat)
  {
    |name| <= nw && |branch| <= bw &&
    |line| == nw + bw + 4 + |status| &&
    line[..|name|] == name &&
    (forall j :: |name| <= j < nw + 2 ==> line[j] == ' ') &&
    line[nw + 2..nw + 2 + |branch|] == branch &&
    (forall j :: nw + 2 + |branch| <= j < nw + bw + 4 ==> line[j] == ' ') &&
    line[nw + bw + 4..] == status
  }

  /** A padded field and the two spaces after it. */
  lemma PaddedField(s: string, w: nat)
    requires |s| <= w
    ensures var f := Pad(s, w) + "  ";
      |f| == w + 2 && f[..|s|] == s && forall j :: |s| <= j < w + 2 ==> f[j] == ' '
  {
  }

  lemma FieldsAligned(name: string, branch: string, status: string, nw: nat, bw: nat)
    requires |name| <= nw && |branch| <= bw
    ensures Aligned(Pad(name, nw) + "  " + Pad(branch, bw) + "  " + status, name, branch, status, nw, bw)
  {
  }

  /** The table has a header, a separator and then the row lines. */
  lemma TableShape(rows: seq<Row>)
    ensures |Table(rows)| == |rows| + 2
    ensures Table(rows)[0] == Header(NameWidth(rows), BranchWidth(rows))
    ensures Table(rows)[1] == Separator(NameWidth(rows), BranchWidth(rows))
    ensures forall k :: 0 <= k < |rows| ==> Table(rows)[k + 2] == RowLine(rows[k], NameWidth(rows), BranchWidth(rows))
  {
    // Not needed for soundness: naming the two parts keeps the solver's
    // search small and stable.
    var top := [Header(NameWidth(rows), BranchWidth(rows)), Separator(NameWidth(rows), BranchWidth(rows))];
    var body := RowLines(rows, NameWidth(rows), BranchWidth(rows));
    assert Table(rows) == top + body;
    assert forall k :: 0 <= k < |rows| ==> (top + body)[k + 2] == body[k];
  }

  /** The header line keeps its titles in the columns of the rows. */
  lemma HeaderAligned(nw: nat, bw: nat)
    requires nw >= MinWidth && bw >= MinWidth
    ensures Aligned(Header(nw, bw), "Subdir", "Branch", "Status", nw, bw)
  {
  }

  /** Row `k` is printed with its fields in the three columns. */
  lemma RowAligned(rows: seq<Row>, k: nat)
    requires k < |rows|
    ensures Aligned(RowLine(rows[k], NameWidth(rows), BranchWidth(rows)),
                    rows[k].name, rows[k].branch, rows[k].status, NameWidth(rows), BranchWidth(rows))
  {
    RowsFit(rows, k);
    FieldsAligned(rows[k].name, rows[k].branch, rows[k].status, NameWidth(rows), BranchWidth(rows));
  }

  /** The table has a header, a separator of `nw + bw + 10` dashes and one
      line per row; the header and every row line keep their fields in the
      same three columns. */
  lemma {:induction false} TableLayout(rows: seq<Row>)
    ensures |Table(rows)| == |rows| + 2
    ensures |Table(rows)[1]| == NameWidth(rows) + BranchWidth(rows) + 10
    ensures forall j :: 0 <= j < |Table(rows)[1]| ==> Table(rows)[1][j] == '-'
    ensures Aligned(Table(rows)[0], "Subdir", "Branch", "Status", NameWidth(rows), BranchWidth(rows))
    ensures forall k :: 0 <= k < |rows| ==>
      Aligned(Table(rows)[k + 2], rows[k].name, rows[k].branch, rows[k].status, NameWidth(rows), BranchWidth(rows))
  {
    TableShape(rows);
    HeaderAligned(NameWidth(rows), BranchWidth(rows));
    forall k | 0 <= k < |rows|
      ensures Aligned(Table(rows)[k + 2], rows[k].name, rows[k].branch, rows[k].status, NameWidth(rows), BranchWidth(rows))
    {
      RowAligned(rows, k);
    }
  }

  lemma WidthExamples()
    ensures ColumnWidth(["a", "verylongname"]) == 12
    ensures ColumnWidth(["a", "b"]) == MinWidth
    ensures ColumnWidth([]) == MinWidth
  {
  }

  /** The output half of `main`: compute the widths, then print the header,
      the separator and one line per row. */
  method Render(rows: seq<Row>) returns (lines: seq<string>)
    ensures lines == Table(rows)
  {
    var nameColWidth := ColumnWidth(Names(rows));
    var branchColWidth := ColumnWidth(Branches(rows));
    var top := [Header(nameColWidth, branchColWidth), Separator(nameColWidth, branchColWidth)];
    lines := top;
    var i := 0;
    while i < |rows|
      invariant 0 <= i <= |rows|
      invariant lines == top + RowLines(rows[..i], nameColWidth, branchColWidth)
    {
      RowLinesSnoc(rows, i, nameColWidth, branchColWidth);
      lines := lines + [RowLine(rows[i], nameColWidth, branchColWidth)];
      i := i + 1;
    }
    assert rows[..i] == rows;
  }

  lemma RowLinesSnoc(rows: seq<Row>, i: nat, nw: nat, bw: nat)
    requires i < |rows|
    ensures RowLines(rows[..i + 1], nw, bw) == RowLines(rows[..i], nw, bw) + [RowLine(rows[i], nw, bw)]
  {
  }
}
