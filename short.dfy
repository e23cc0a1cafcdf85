/**
  * The default short renderer: the three type groups side by side, each
  * sorted by name. Without a row cap each group is one column and there are
  * as many lines as the largest group has entries; with a row cap of `m`
  * each group wraps column-major into `ceil(len / m)` columns of `m` rows.
  */
module Short {
  import opened Strings
  import opened Styled
  import opened FileEntries
  import opened Sorting
  import opened Layout
  import Sort
  import Config

  function Max(a: nat, b: nat): nat
  {
    if a < b then b else a
  }

  /** `column_spacing` blanks when `present`, nothing otherwise. */
  function Gap(present: bool, spacing: nat): (line: Line)
    ensures present ==> line == [Spaces(spacing)]
    ensures !present ==> line == []
  {
    if present then [Spaces(spacing)] else []
  }

  /** The lines a `for i in 0..n` loop prints when it prints `row(i)` every time. */
  function Rows(n: nat, row: nat -> Line): (lines: seq<Line>)
    ensures |lines| == n
    ensures forall i :: 0 <= i < n ==> lines[i] == row(i)
  {
    if n == 0 then [] else Rows(n - 1, row) + [row(n - 1)]
  }

  /** The lines a `for i in 0..n` loop prints when it prints `row(i)` only if `keep(i)`. */
  function PrintedRows(n: nat, keep: nat -> bool, row: nat -> Line): seq<Line>
  {
    if n == 0 then [] else PrintedRows(n - 1, keep, row) + (if keep(n - 1) then [row(n - 1)] else [])
  }

  /** When exactly the rows below `k` are kept, the printed lines are the first `min(n, k)` rows. */
  lemma {:induction false} PrintedPrefix(n: nat, k: nat, keep: nat -> bool, row: nat -> Line)
    requires forall i: nat :: keep(i) <==> i < k
    ensures PrintedRows(n, keep, row) == Rows(if n < k then n else k, row)
  {
    if n > 0 {
      PrintedPrefix(n - 1, k, keep, row);
    }
  }

  /** The groups in the order `format_short` hands them on: by type, each sorted by name. */
  function Group(entries: seq<FileEntry>, t: FileType): seq<FileEntry>
  {
    SortSeq(OfType(entries, t), Sort.ByName)
  }

  /** `format_short`: single column per type when `max_rows` is 0, else the wrapped layout. */
  function ShortLines(entries: seq<FileEntry>, display: Config.DisplayConfig, theme: Theme): seq<Line>
  {
    var d, x, f := Group(entries, Directory), Group(entries, Executable), Group(entries, RegularFile);
    if display.maxRows > 0 then WrapLines(d, x, f, display.maxRows, display.columnSpacing, theme)
    else SingleColumnLines(d, x, f, display.columnSpacing, theme)
  }

  method FormatShort(entries: seq<FileEntry>, display: Config.DisplayConfig, theme: Theme) returns (lines: seq<Line>)
    ensures lines == ShortLines(entries, display, theme)
  {
    var directories, executables, regularFiles := Partition(entries);
    directories := SortGroupByName(directories);
    executables := SortGroupByName(executables);
    regularFiles := SortGroupByName(regularFiles);
    if display.maxRows > 0 {
      lines := FormatWithMaxRows(directories, executables, regularFiles, display.maxRows, display.columnSpacing, theme);
    } else {
      lines := FormatSingleColumnPerType(directories, executables, regularFiles, display.columnSpacing, theme);
    }
  }

  /** The groups `format_short` lays out partition the listing, each ascending by name. */
  lemma ShortGroups(entries: seq<FileEntry>, t: FileType)
    ensures forall e :: e in Group(entries, t) ==> GetFileType(e) == t
    ensures multiset(Group(entries, Directory)) + multiset(Group(entries, Executable))
          + multiset(Group(entries, RegularFile)) == multiset(entries)
    ensures var g := Group(entries, t);
      forall i, j :: 0 <= i < j < |g| ==> StrCmp(g[i].path, g[j].path) != Greater
  {
    SortedGroupHasType(entries, t);
    SortPermutes(OfType(entries, Directory), Sort.ByName);
    SortPermutes(OfType(entries, Executable), Sort.ByName);
    SortPermutes(OfType(entries, RegularFile), Sort.ByName);
    PartitionPermutes(entries);
    Layout.SortedGroup(OfType(entries, t));
  }

  // ---------------------------------------------------------------------
  // One column per type (no row cap)

  /** A group's column in row `i`: the padded cell of its `i`-th entry, or blanks of the column width. */
  function ColumnPart(g: seq<FileEntry>, i: nat, width: nat, bold: bool, theme: Theme): (line: Line)
    ensures i < |g| ==> line == Cell(g[i], theme, bold, width)
    ensures i >= |g| ==> line == [Spaces(width)]
  {
    if i < |g| then Cell(g[i], theme, bold, width) else [Spaces(width)]
  }

  /**
    * The section of a group with column width `width` in row `i`: nothing
    * when the width is 0 (an empty group), else its column part followed by
    * `column_spacing` blanks when a later column exists.
    */
  function Section(g: seq<FileEntry>, i: nat, width: nat, bold: bool, later: bool, spacing: nat, theme: Theme): (line: Line)
    ensures width == 0 ==> line == []
    ensures width > 0 ==> line == ColumnPart(g, i, width, bold, theme) + Gap(later, spacing)
  {
    if width > 0 then ColumnPart(g, i, width, bold, theme) + Gap(later, spacing) else []
  }

  /** The regular-file cell of row `i`, if there is one; the last column has no gap. */
  function FileSection(f: seq<FileEntry>, i: nat, width: nat, theme: Theme): (line: Line)
    ensures i < |f| ==> line == Cell(f[i], theme, false, width)
    ensures i >= |f| ==> line == []
  {
    if i < |f| then Cell(f[i], theme, false, width) else []
  }

  /** Row `i` for given column widths, before trimming. */
  function RowWith(d: seq<FileEntry>, x: seq<FileEntry>, f: seq<FileEntry>, i: nat, dw: nat, xw: nat, fw: nat,
                   spacing: nat, theme: Theme): Line
  {
    Section(d, i, dw, true, xw > 0 || fw > 0, spacing, theme)
      + Section(x, i, xw, true, fw > 0, spacing, theme)
      + FileSection(f, i, fw, theme)
  }

  /** Row `i` trimmed, for given column widths: what `println!("{}", line.trim_end())` prints. */
  function TrimmedRow(d: seq<FileEntry>, x: seq<FileEntry>, f: seq<FileEntry>, dw: nat, xw: nat, fw: nat,
                      spacing: nat, theme: Theme): nat -> Line
  {
    (i: nat) => TrimEnd(RowWith(d, x, f, i, dw, xw, fw, spacing, theme))
  }

  /** `format_single_column_per_type`: one trimmed line per row, as many rows as the largest group. */
  function SingleColumnLines(d: seq<FileEntry>, x: seq<FileEntry>, f: seq<FileEntry>, spacing: nat, theme: Theme): seq<Line>
  {
    Rows(Max(Max(|d|, |x|), |f|), TrimmedRow(d, x, f, GroupWidth(d, theme), GroupWidth(x, theme), GroupWidth(f, theme), spacing, theme))
  }

  /**
    * Without a row cap there is one line per row up to the largest group's
    * length, and line `i` is row `i` trimmed.
    */
  lemma SingleColumnShape(d: seq<FileEntry>, x: seq<FileEntry>, f: seq<FileEntry>, spacing: nat, theme: Theme)
    ensures var lines := SingleColumnLines(d, x, f, spacing, theme);
      |lines| == Max(Max(|d|, |x|), |f|) &&
      forall i :: 0 <= i < |lines| ==>
        lines[i] == TrimEnd(RowWith(d, x, f, i, GroupWidth(d, theme), GroupWidth(x, theme), GroupWidth(f, theme), spacing, theme))
  {
    var row := TrimmedRow(d, x, f, GroupWidth(d, theme), GroupWidth(x, theme), GroupWidth(f, theme), spacing, theme);
    var lines := Rows(Max(Max(|d|, |x|), |f|), row);
    forall i | 0 <= i < |lines|
      ensures lines[i]
           == TrimEnd(RowWith(d, x, f, i, GroupWidth(d, theme), GroupWidth(x, theme), GroupWidth(f, theme), spacing, theme))
    {
      assert lines[i] == row(i);
    }
  }

  method FormatSingleColumnPerType(d: seq<FileEntry>, x: seq<FileEntry>, f: seq<FileEntry>, spacing: nat, theme: Theme)
    returns (lines: seq<Line>)
    ensures lines == SingleColumnLines(d, x, f, spacing, theme)
  {
    var dirWidth, execWidth, fileWidth := GroupWidth(d, theme), GroupWidth(x, theme), GroupWidth(f, theme);
    var maxRows := Max(Max(|d|, |x|), |f|);
    lines := [];
    var i := 0;
    while i < maxRows
      invariant 0 <= i <= maxRows
      invariant lines == Rows(i, TrimmedRow(d, x, f, dirWidth, execWidth, fileWidth, spacing, theme))
    {
      var line := AppendSection([], d, i, dirWidth, true, execWidth > 0 || fileWidth > 0, spacing, theme);
      line := AppendSection(line, x, i, execWidth, true, fileWidth > 0, spacing, theme);
      line := AppendFileSection(line, f, i, fileWidth, theme);
      assert [] + Section(d, i, dirWidth, true, execWidth > 0 || fileWidth > 0, spacing, theme)
          == Section(d, i, dirWidth, true, execWidth > 0 || fileWidth > 0, spacing, theme);
      lines := lines + [TrimEnd(line)];
      i := i + 1;
    }
  }

  /** The directory or executable column of one row. */
  method AppendSection(line: Line, g: seq<FileEntry>, i: nat, width: nat, bold: bool, later: bool, spacing: nat, theme: Theme)
    returns (out: Line)
    ensures out == line + Section(g, i, width, bold, later, spacing, theme)
  {
    var part: Line := [];
    if width > 0 {
      if i < |g| {
        part := AppendCell(part, g[i], theme, bold, width);
      } else {
        part := part + [Spaces(width)];
      }
      if later {
        part := part + [Spaces(spacing)];
      }
    }
    out := line + part;
  }

  /** The regular-file column of one row. */
  method AppendFileSection(line: Line, f: seq<FileEntry>, i: nat, width: nat, theme: Theme) returns (out: Line)
    ensures out == line + FileSection(f, i, width, theme)
  {
    if i < |f| {
      out := AppendCell(line, f[i], theme, false, width);
    } else {
      out := line;
    }
  }

  /**
    * Alignment without a row cap: in every row the directory section spans
    * the directory width (plus the gap) and the executable section the
    * executable width (plus the gap), whether or not the row has an entry of
    * that type, so each column starts at the same display column in every
    * row; a group with no entries contributes nothing at all.
    */
  lemma SingleColumnAligned(d: seq<FileEntry>, x: seq<FileEntry>, f: seq<FileEntry>, i: nat, spacing: nat, theme: Theme)
    ensures var dw, xw, fw := GroupWidth(d, theme), GroupWidth(x, theme), GroupWidth(f, theme);
      RowWith(d, x, f, i, dw, xw, fw, spacing, theme)
        == Section(d, i, dw, true, x != [] || f != [], spacing, theme)
         + Section(x, i, xw, true, f != [], spacing, theme)
         + FileSection(f, i, fw, theme) &&
      Columns(Section(d, i, dw, true, x != [] || f != [], spacing, theme), theme.width)
        == (if d == [] then 0 else dw + (if x != [] || f != [] then spacing else 0)) &&
      Columns(Section(x, i, xw, true, f != [], spacing, theme), theme.width)
        == (if x == [] then 0 else xw + (if f != [] then spacing else 0))
  {
    var dw, xw, fw := GroupWidth(d, theme), GroupWidth(x, theme), GroupWidth(f, theme);
    if d != [] {
      ColumnsAppend(ColumnPart(d, i, dw, true, theme), Gap(x != [] || f != [], spacing), theme.width);
      ColumnPartFills(d, i, true, theme);
      GapColumns(x != [] || f != [], spacing, theme.width);
    }
    if x != [] {
      ColumnsAppend(ColumnPart(x, i, xw, true, theme), Gap(f != [], spacing), theme.width);
      ColumnPartFills(x, i, true, theme);
      GapColumns(f != [], spacing, theme.width);
    }
  }

  lemma GapColumns(present: bool, spacing: nat, width: string -> nat)
    ensures Columns(Gap(present, spacing), width) == if present then spacing else 0
  {
    if present {
      assert [Spaces(spacing)][..0] == [];
    }
  }

  /** A group's column part fills exactly the group's width, entry or not. */
  lemma ColumnPartFills(g: seq<FileEntry>, i: nat, bold: bool, theme: Theme)
    ensures Columns(ColumnPart(g, i, GroupWidth(g, theme), bold, theme), theme.width) == GroupWidth(g, theme)
  {
    if i >= |g| {
      assert [Spaces(GroupWidth(g, theme))][..0] == [];
    } else {
      CellFillsGroupWidth(g, i, theme, bold);
    }
  }

  /**
    * Row `i` shows entry `i` of every group that has one, for any column
    * widths under which that group's section is present (`GroupWidth` is
    * positive for a non-empty group): the directory label opens the line,
    * the executable label follows the directory section, the regular-file
    * label follows both; trimming the line keeps all of them.
    */
  lemma RowShowsDirectory(d: seq<FileEntry>, x: seq<FileEntry>, f: seq<FileEntry>, i: nat, dw: nat, xw: nat, fw: nat,
                          spacing: nat, theme: Theme)
    requires i < |d| && dw > 0
    ensures ShowsAt(TrimEnd(RowWith(d, x, f, i, dw, xw, fw, spacing, theme)), 0, Label(d[i], theme, true))
  {
    var ds := Section(d, i, dw, true, xw > 0 || fw > 0, spacing, theme);
    SectionShowsLabel(d, i, dw, true, xw > 0 || fw > 0, spacing, theme);
    FirstSurvivesTrim(ds, Section(x, i, xw, true, fw > 0, spacing, theme), FileSection(f, i, fw, theme),
                      Label(d[i], theme, true));
  }

  lemma RowShowsExecutable(d: seq<FileEntry>, x: seq<FileEntry>, f: seq<FileEntry>, i: nat, dw: nat, xw: nat, fw: nat,
                           spacing: nat, theme: Theme)
    requires i < |x| && xw > 0
    ensures ShowsAt(TrimEnd(RowWith(d, x, f, i, dw, xw, fw, spacing, theme)),
                    |Section(d, i, dw, true, xw > 0 || fw > 0, spacing, theme)|, Label(x[i], theme, true))
  {
    var ds := Section(d, i, dw, true, xw > 0 || fw > 0, spacing, theme);
    var xs := Section(x, i, xw, true, fw > 0, spacing, theme);
    SectionShowsLabel(x, i, xw, true, fw > 0, spacing, theme);
    SecondSurvivesTrim(ds, xs, FileSection(f, i, fw, theme), Label(x[i], theme, true));
  }

  lemma RowShowsRegularFile(d: seq<FileEntry>, x: seq<FileEntry>, f: seq<FileEntry>, i: nat, dw: nat, xw: nat, fw: nat,
                            spacing: nat, theme: Theme)
    requires i < |f|
    ensures ShowsAt(TrimEnd(RowWith(d, x, f, i, dw, xw, fw, spacing, theme)),
                    |Section(d, i, dw, true, xw > 0 || fw > 0, spacing, theme)|
                      + |Section(x, i, xw, true, fw > 0, spacing, theme)|,
                    Label(f[i], theme, false))
  {
    var ds := Section(d, i, dw, true, xw > 0 || fw > 0, spacing, theme);
    var xs := Section(x, i, xw, true, fw > 0, spacing, theme);
    assert ShowsAt(FileSection(f, i, fw, theme), 0, Label(f[i], theme, false));
    ThirdSurvivesTrim(ds, xs, FileSection(f, i, fw, theme), Label(f[i], theme, false));
  }

  /** `line` holds the segments of `shown` from position `k` on. */
  predicate ShowsAt(line: Line, k: nat, shown: Line)
  {
    k + |shown| <= |line| && line[k..k + |shown|] == shown
  }

  /** A section of a group with an entry in row `i` opens with that entry's label. */
  lemma SectionShowsLabel(g: seq<FileEntry>, i: nat, width: nat, bold: bool, later: bool, spacing: nat, theme: Theme)
    requires i < |g|
    ensures width > 0 ==> ShowsAt(Section(g, i, width, bold, later, spacing, theme), 0, Label(g[i], theme, bold))
  {
    if width > 0 {
      var cell := Cell(g[i], theme, bold, width);
      assert (cell + Gap(later, spacing))[0..3] == cell[..3];
    }
  }

  /**
    * A label (three segments, the last painted) that opens one of the three
    * sections of a row is still whole, at the same position, after trimming.
    */
  lemma FirstSurvivesTrim(a: Line, b: Line, c: Line, shown: Line)
    requires |shown| == 3 && shown[2].style != Plain && ShowsAt(a, 0, shown)
    ensures ShowsAt(TrimEnd(a + b + c), 0, shown)
  {
    assert (a + b + c)[0..3] == a[0..3];
    TrimKeepsLabel(a + b + c, 0, shown);
  }

  lemma SecondSurvivesTrim(a: Line, b: Line, c: Line, shown: Line)
    requires |shown| == 3 && shown[2].style != Plain && ShowsAt(b, 0, shown)
    ensures ShowsAt(TrimEnd(a + b + c), |a|, shown)
  {
    assert (a + b + c)[|a|..|a| + 3] == b[0..3];
    TrimKeepsLabel(a + b + c, |a|, shown);
  }

  lemma ThirdSurvivesTrim(a: Line, b: Line, c: Line, shown: Line)
    requires |shown| == 3 && shown[2].style != Plain && ShowsAt(c, 0, shown)
    ensures ShowsAt(TrimEnd(a + b + c), |a| + |b|, shown)
  {
    assert (a + b + c)[|a| + |b|..|a| + |b| + 3] == c[0..3];
    TrimKeepsLabel(a + b + c, |a| + |b|, shown);
  }

  lemma TrimKeepsLabel(line: Line, k: nat, shown: Line)
    requires |shown| == 3 && shown[2].style != Plain
    requires ShowsAt(line, k, shown)
    ensures ShowsAt(TrimEnd(line), k, shown)
  {
    assert line[k + 2] == shown[2];
    TrimKeepsSegment(line, k + 2);
    assert TrimEnd(line)[k..k + 3] == TrimEnd(line)[..k + 3][k..];
  }

  // ---------------------------------------------------------------------
  // Column-major wrap (row cap `m` > 0)

  /** `(len + m - 1) / m` for a non-empty group, 0 for an empty one. */
  function NumCols(len: nat, m: nat): nat
    requires m > 0
  {
    if len == 0 then 0 else (len + m - 1) / m
  }

  lemma MulSucc(a: nat, m: nat)
    ensures (a + 1) * m == a * m + m
  {
  }

  lemma MulStep(n: nat, k: nat)
    requires n > 0
    ensures n * k == (n - 1) * k + k
  {
    MulSucc(n - 1, k);
  }

  lemma {:induction false} MulMonotone(a: nat, b: nat, m: nat)
    requires a <= b
    ensures a * m <= b * m
  {
    if a < b {
      MulMonotone(a, b - 1, m);
      MulSucc(b - 1, m);
    }
  }

  /** The column count is `ceil(len / m)`: the fewest columns of `m` rows that hold `len` entries. */
  lemma NumColsIsCeiling(len: nat, m: nat)
    requires m > 0
    ensures len == 0 <==> NumCols(len, m) == 0
    ensures NumCols(len, m) * m >= len
    ensures len > 0 ==> (NumCols(len, m) - 1) * m < len
  {
    if len > 0 {
      var c := (len + m - 1) / m;
      var r := (len + m - 1) % m;
      assert c * m + r == len + m - 1;
      MulSucc(c - 1, m);
    }
  }

  /** One more than the largest `usize` on a 64-bit target. */
  const UsizeModulus: nat := 0x1_0000_0000_0000_0000

  /**
    * The column count as written, in `usize` arithmetic: in a release build
    * the sum `len + max_rows - 1` wraps around modulo 2^64.
    */
  function NumColsAsWritten(len: nat, m: nat): nat
    requires 0 < m < UsizeModulus && len < UsizeModulus
  {
    if len == 0 then 0 else ((len + m - 1) % UsizeModulus) / m
  }

  /**
    * With a row cap of `usize::MAX`, a group of two entries gets no column as
    * written, because the sum wraps around to 0, so neither entry is printed.
    * `NumCols` gives the group the one column it needs.
    */
  lemma NumColsWrapsAround()
    ensures NumColsAsWritten(2, UsizeModulus - 1) == 0
    ensures NumCols(2, UsizeModulus - 1) == 1
  {
    assert 2 + (UsizeModulus - 1) - 1 == UsizeModulus;
  }

  /** The index of the entry shown in column `col`, row `row`, when columns hold `m` rows. */
  function CellIndex(col: nat, m: nat, row: nat): (i: nat)
    ensures i >= row && (col == 0 ==> i == row)
  {
    col * m + row
  }

  /**
    * Column-major placement: entry `i` of a group sits in row `i % m` and
    * column `i / m`, that column exists, and no other (row, column) pair
    * with a row below `m` addresses entry `i`, so every entry is printed
    * exactly once.
    */
  lemma Placement(i: nat, m: nat, len: nat, row: nat, col: nat)
    requires m > 0 && i < len
    ensures i % m < m && CellIndex(i / m, m, i % m) == i
    ensures i / m < NumCols(len, m)
    ensures row < m && CellIndex(col, m, row) == i ==> row == i % m && col == i / m
  {
    var q, r := i / m, i % m;
    assert CellIndex(q, m, r) == i;
    PlacementColumn(q, r, m, len);
    if row < m && CellIndex(col, m, row) == i {
      PlacementUnique(q, r, col, row, m);
    }
  }

  lemma PlacementColumn(q: nat, r: nat, m: nat, len: nat)
    requires m > 0 && q * m + r < len
    ensures q < NumCols(len, m)
  {
    NumColsIsCeiling(len, m);
    if NumCols(len, m) <= q {
      MulMonotone(NumCols(len, m), q, m);
    }
  }

  lemma PlacementUnique(q: nat, r: nat, col: nat, row: nat, m: nat)
    requires r < m && row < m && col * m + row == q * m + r
    ensures col == q && row == r
  {
    if col < q {
      MulMonotone(col + 1, q, m);
      MulSucc(col, m);
    } else if col > q {
      MulMonotone(q + 1, col, m);
      MulSucc(q, m);
    }
  }

  /** The cell in column `col` of a directory or executable section, for the entry index `idx`. */
  function WrapCell(g: seq<FileEntry>, idx: nat, col: nat, width: nat, spacing: nat, bold: bool, theme: Theme)
    : (line: Line)
    ensures idx < |g| ==> line == Gap(col > 0, spacing) + Cell(g[idx], theme, bold, width)
    ensures idx >= |g| ==> line == [Spaces(if col == 0 then width else spacing + width)]
  {
    if idx < |g| then Gap(col > 0, spacing) + Cell(g[idx], theme, bold, width)
    else if col == 0 then [Spaces(width)]
    else [Spaces(spacing + width)]
  }

  /** Columns `0 .. cols - 1` of a directory or executable section in row `row`. */
  function WrapCells(g: seq<FileEntry>, row: nat, m: nat, cols: nat, width: nat, spacing: nat, bold: bool, theme: Theme)
    : Line
  {
    if cols == 0 then []
    else
      WrapCells(g, row, m, cols - 1, width, spacing, bold, theme)
        + WrapCell(g, CellIndex(cols - 1, m, row), cols - 1, width, spacing, bold, theme)
  }

  /** A directory or executable section: its columns and, when a later section exists, the gap. */
  function WrapSection(g: seq<FileEntry>, row: nat, m: nat, cols: nat, width: nat, later: bool, spacing: nat,
                       bold: bool, theme: Theme): (line: Line)
    ensures cols == 0 ==> line == []
  {
    if cols > 0 then WrapCells(g, row, m, cols, width, spacing, bold, theme) + Gap(later, spacing) else []
  }

  /**
    * The cell in column `col` of the regular-file section: nothing past the
    * group's end, and no trailing padding in the last column.
    */
  function FileWrapCell(f: seq<FileEntry>, idx: nat, col: nat, cols: nat, width: nat, spacing: nat, theme: Theme)
    : (line: Line)
    ensures idx >= |f| ==> line == []
    ensures idx < |f| && col < cols - 1 ==> line == Gap(col > 0, spacing) + Cell(f[idx], theme, false, width)
    ensures idx < |f| && col >= cols - 1 ==> line == Gap(col > 0, spacing) + Label(f[idx], theme, false)
  {
    if idx < |f| then
      var e := f[idx];
      var actual := LabelWidth(e, theme);
      Gap(col > 0, spacing) + Label(e, theme, false)
        + (if col < cols - 1 && actual < width then [Spaces(width - actual)] else [])
    else []
  }

  /** Columns `0 .. upTo - 1` of the regular-file section, out of `cols`. */
  function FileWrapCells(f: seq<FileEntry>, row: nat, m: nat, upTo: nat, cols: nat, width: nat, spacing: nat, theme: Theme)
    : Line
  {
    if upTo == 0 then []
    else
      FileWrapCells(f, row, m, upTo - 1, cols, width, spacing, theme)
        + FileWrapCell(f, CellIndex(upTo - 1, m, row), upTo - 1, cols, width, spacing, theme)
  }

  /** Row `row` of the wrapped layout for given column counts and widths, before trimming. */
  function WrapRowWith(d: seq<FileEntry>, x: seq<FileEntry>, f: seq<FileEntry>, row: nat, m: nat,
                       dc: nat, xc: nat, fc: nat, dw: nat, xw: nat, fw: nat, spacing: nat, theme: Theme): Line
  {
    WrapSection(d, row, m, dc, dw, xc > 0 || fc > 0, spacing, true, theme)
      + WrapSection(x, row, m, xc, xw, fc > 0, spacing, true, theme)
      + FileWrapCells(f, row, m, fc, fc, fw, spacing, theme)
  }

  /** `has_any_content` for a row: some group has an entry in it. */
  predicate HasContent(d: seq<FileEntry>, x: seq<FileEntry>, f: seq<FileEntry>, row: nat)
  {
    row < |d| || row < |x| || row < |f|
  }

  function RowHasContent(d: seq<FileEntry>, x: seq<FileEntry>, f: seq<FileEntry>): nat -> bool
  {
    (row: nat) => HasContent(d, x, f, row)
  }

  /** Row `row` trimmed, for given column counts and widths. */
  function TrimmedWrapRow(d: seq<FileEntry>, x: seq<FileEntry>, f: seq<FileEntry>, m: nat,
                          dc: nat, xc: nat, fc: nat, dw: nat, xw: nat, fw: nat, spacing: nat, theme: Theme): nat -> Line
  {
    (row: nat) => TrimEnd(WrapRowWith(d, x, f, row, m, dc, xc, fc, dw, xw, fw, spacing, theme))
  }

  /** The wrapped layout for given column counts and widths: rows with content among the first `m`. */
  function WrapLinesWith(d: seq<FileEntry>, x: seq<FileEntry>, f: seq<FileEntry>, m: nat,
                         dc: nat, xc: nat, fc: nat, dw: nat, xw: nat, fw: nat, spacing: nat, theme: Theme): seq<Line>
  {
    PrintedRows(m, RowHasContent(d, x, f), TrimmedWrapRow(d, x, f, m, dc, xc, fc, dw, xw, fw, spacing, theme))
  }

  /** Row `row` of the wrapped layout with label widths, before trimming. */
  function WrapRow(d: seq<FileEntry>, x: seq<FileEntry>, f: seq<FileEntry>, row: nat, m: nat, spacing: nat, theme: Theme): Line
    requires m > 0
  {
    WrapRowWith(d, x, f, row, m, NumCols(|d|, m), NumCols(|x|, m), NumCols(|f|, m),
                GroupWidth(d, theme), GroupWidth(x, theme), GroupWidth(f, theme), spacing, theme)
  }

  /** The wrapped layout, every column as wide as its widest label. */
  function WrapLines(d: seq<FileEntry>, x: seq<FileEntry>, f: seq<FileEntry>, m: nat, spacing: nat, theme: Theme): seq<Line>
    requires m > 0
  {
    WrapLinesWith(d, x, f, m, NumCols(|d|, m), NumCols(|x|, m), NumCols(|f|, m),
                  GroupWidth(d, theme), GroupWidth(x, theme), GroupWidth(f, theme), spacing, theme)
  }

  /**
    * With a row cap, `min(m, largest group)` lines are printed and line `r`
    * is row `r`: rows without any entry are skipped, and every printed line is
    * trimmed.
    */
  lemma WrapLinesShape(d: seq<FileEntry>, x: seq<FileEntry>, f: seq<FileEntry>, m: nat, spacing: nat, theme: Theme)
    requires m > 0
    ensures var n := Max(Max(|d|, |x|), |f|);
      var lines := WrapLines(d, x, f, m, spacing, theme);
      |lines| == (if m < n then m else n) &&
      forall r :: 0 <= r < |lines| ==> lines[r] == TrimEnd(WrapRow(d, x, f, r, m, spacing, theme))
  {
    var n := Max(Max(|d|, |x|), |f|);
    var keep := RowHasContent(d, x, f);
    var row := TrimmedWrapRow(d, x, f, m, NumCols(|d|, m), NumCols(|x|, m), NumCols(|f|, m),
                              GroupWidth(d, theme), GroupWidth(x, theme), GroupWidth(f, theme), spacing, theme);
    assert forall r: nat :: keep(r) <==> r < n;
    PrintedPrefix(m, n, keep, row);
    var lines := WrapLines(d, x, f, m, spacing, theme);
    forall r | 0 <= r < |lines|
      ensures lines[r] == TrimEnd(WrapRow(d, x, f, r, m, spacing, theme))
    {
      assert lines[r] == row(r);
    }
  }

  /**
    * Where entry `i` of a directory or executable group is printed: row
    * `i % m` holds, as its column `i / m`, the entry's padded label.
    */
  lemma WrapCellPlacesEntry(g: seq<FileEntry>, i: nat, m: nat, spacing: nat, bold: bool, theme: Theme)
    requires m > 0 && i < |g|
    ensures i / m < NumCols(|g|, m) && CellIndex(i / m, m, i % m) == i
    ensures WrapCell(g, CellIndex(i / m, m, i % m), i / m, GroupWidth(g, theme), spacing, bold, theme)
         == Gap(i / m > 0, spacing) + Cell(g[i], theme, bold, GroupWidth(g, theme))
  {
    Placement(i, m, |g|, i % m, i / m);
  }

  /** `w` is at least every label of the group: each of its cells is padded to exactly `w`. */
  predicate FitsLabels(g: seq<FileEntry>, w: nat, theme: Theme)
  {
    forall i :: 0 <= i < |g| ==> LabelWidth(g[i], theme) <= w
  }

  /**
    * Every cell of a directory or executable section spans the column width,
    * plus the spacing before every column but the first, whether or not the
    * cell holds an entry.
    */
  lemma WrapCellSpan(g: seq<FileEntry>, idx: nat, col: nat, w: nat, spacing: nat, bold: bool, theme: Theme)
    requires FitsLabels(g, w, theme)
    ensures Columns(WrapCell(g, idx, col, w, spacing, bold, theme), theme.width) == (if col == 0 then 0 else spacing) + w
  {
    if idx < |g| {
      ColumnsAppend(Gap(col > 0, spacing), Cell(g[idx], theme, bold, w), theme.width);
      GapColumns(col > 0, spacing, theme.width);
      CellColumns(g[idx], theme, bold, w);
    } else {
      assert [Spaces(if col == 0 then w else spacing + w)][..0] == [];
    }
  }

  /** Display columns of `cols` cells of width `w` with `spacing` between neighbours. */
  function SectionSpan(cols: nat, w: nat, spacing: nat): nat
  {
    if cols == 0 then 0 else if cols == 1 then w else SectionSpan(cols - 1, w, spacing) + spacing + w
  }

  lemma {:induction false} SectionSpanIs(cols: nat, w: nat, spacing: nat)
    requires cols > 0
    ensures SectionSpan(cols, w, spacing) == cols * w + (cols - 1) * spacing
  {
    if cols > 1 {
      SectionSpanIs(cols - 1, w, spacing);
      MulStep(cols, w);
      MulStep(cols - 1, spacing);
    }
  }

  /** So `cols > 0` columns of a section always span `cols * w + (cols - 1) * spacing`. */
  lemma {:induction false} WrapCellsSpan(g: seq<FileEntry>, row: nat, m: nat, cols: nat, w: nat, spacing: nat, bold: bool,
                                         theme: Theme)
    requires cols > 0 && FitsLabels(g, w, theme)
    ensures Columns(WrapCells(g, row, m, cols, w, spacing, bold, theme), theme.width) == SectionSpan(cols, w, spacing)
  {
    var front := WrapCells(g, row, m, cols - 1, w, spacing, bold, theme);
    var last := WrapCell(g, CellIndex(cols - 1, m, row), cols - 1, w, spacing, bold, theme);
    assert WrapCells(g, row, m, cols, w, spacing, bold, theme) == front + last;
    WrapCellSpan(g, CellIndex(cols - 1, m, row), cols - 1, w, spacing, bold, theme);
    if cols > 1 {
      WrapCellsSpan(g, row, m, cols - 1, w, spacing, bold, theme);
    }
    SpanStep(front, last, cols, w, spacing, theme.width);
  }

  /** Appending one more cell (with its leading gap after the first) to `n - 1` cells. */
  lemma SpanStep(front: Line, last: Line, n: nat, w: nat, spacing: nat, width: string -> nat)
    requires n > 0
    requires Columns(front, width) == SectionSpan(n - 1, w, spacing)
    requires Columns(last, width) == (if n == 1 then 0 else spacing) + w
    ensures Columns(front + last, width) == SectionSpan(n, w, spacing)
  {
    ColumnsAppend(front, last, width);
  }

  /**
    * Alignment in the wrapped layout: with the group's label width, a
    * directory or executable section, gap included, spans the same number of
    * display columns in every row, so the next section starts at the same
    * display column in every row.
    */
  lemma WrapSectionAligned(g: seq<FileEntry>, row: nat, m: nat, cols: nat, later: bool, spacing: nat, bold: bool,
                           theme: Theme)
    requires cols > 0
    ensures Columns(WrapSection(g, row, m, cols, GroupWidth(g, theme), later, spacing, bold, theme), theme.width)
         == cols * GroupWidth(g, theme) + (cols - 1) * spacing + (if later then spacing else 0)
  {
    var w := GroupWidth(g, theme);
    WrapCellsSpan(g, row, m, cols, w, spacing, bold, theme);
    SectionSpanIs(cols, w, spacing);
    ColumnsAppend(WrapCells(g, row, m, cols, w, spacing, bold, theme), Gap(later, spacing), theme.width);
    GapColumns(later, spacing, theme.width);
  }

  /** One directory or executable section of a row: the `for col` loop, tracking whether it printed an entry. */
  method AppendWrapSection(line: Line, g: seq<FileEntry>, row: nat, m: nat, cols: nat, width: nat, later: bool,
                           spacing: nat, bold: bool, theme: Theme)
    returns (out: Line, found: bool)
    ensures out == line + WrapSection(g, row, m, cols, width, later, spacing, bold, theme)
    ensures found == (cols > 0 && row < |g|)
  {
    var cells: Line := [];
    found := false;
    var col := 0;
    while col < cols
      invariant 0 <= col <= cols
      invariant cells == WrapCells(g, row, m, col, width, spacing, bold, theme)
      invariant found == (col > 0 && row < |g|)
    {
      var idx := CellIndex(col, m, row);
      cells := AppendWrapCell(cells, g, idx, col, width, spacing, bold, theme);
      if idx < |g| {
        found := true;
      }
      col := col + 1;
    }
    if cols > 0 {
      cells := cells + Gap(later, spacing);
    }
    out := line + cells;
  }

  method AppendWrapCell(line: Line, g: seq<FileEntry>, idx: nat, col: nat, width: nat, spacing: nat, bold: bool, theme: Theme)
    returns (out: Line)
    ensures out == line + WrapCell(g, idx, col, width, spacing, bold, theme)
  {
    if idx < |g| {
      var cell := Gap(col > 0, spacing);
      cell := AppendCell(cell, g[idx], theme, bold, width);
      out := line + cell;
    } else if col == 0 {
      out := line + [Spaces(width)];
    } else {
      out := line + [Spaces(spacing + width)];
    }
  }

  /** The regular-file section of a row. */
  method AppendFileWrapSection(line: Line, f: seq<FileEntry>, row: nat, m: nat, cols: nat, width: nat, spacing: nat,
                               theme: Theme)
    returns (out: Line, found: bool)
    ensures out == line + FileWrapCells(f, row, m, cols, cols, width, spacing, theme)
    ensures found == (cols > 0 && row < |f|)
  {
    var cells: Line := [];
    found := false;
    var col := 0;
    while col < cols
      invariant 0 <= col <= cols
      invariant cells == FileWrapCells(f, row, m, col, cols, width, spacing, theme)
      invariant found == (col > 0 && row < |f|)
    {
      var idx := CellIndex(col, m, row);
      cells := AppendFileWrapCell(cells, f, idx, col, cols, width, spacing, theme);
      if idx < |f| {
        found := true;
      }
      col := col + 1;
    }
    out := line + cells;
  }

  method AppendFileWrapCell(line: Line, f: seq<FileEntry>, idx: nat, col: nat, cols: nat, width: nat, spacing: nat,
                            theme: Theme)
    returns (out: Line)
    ensures out == line + FileWrapCell(f, idx, col, cols, width, spacing, theme)
  {
    if idx < |f| {
      var cell := Gap(col > 0, spacing);
      var entry := f[idx];
      var actual := LabelWidth(entry, theme);
      cell := cell + Label(entry, theme, false);
      if col < cols - 1 && actual < width {
        cell := cell + [Spaces(width - actual)];
      }
      out := line + cell;
    } else {
      out := line;
    }
  }

  /** The row loop of `format_with_max_rows`, for given column counts and widths. */
  method PrintRows(d: seq<FileEntry>, x: seq<FileEntry>, f: seq<FileEntry>, m: nat,
                   dirCols: nat, execCols: nat, fileCols: nat, dirWidth: nat, execWidth: nat, fileWidth: nat,
                   spacing: nat, theme: Theme)
    returns (lines: seq<Line>)
    requires (dirCols == 0) == (d == []) && (execCols == 0) == (x == []) && (fileCols == 0) == (f == [])
    ensures lines == WrapLinesWith(d, x, f, m, dirCols, execCols, fileCols, dirWidth, execWidth, fileWidth, spacing, theme)
  {
    lines := [];
    var row := 0;
    while row < m
      invariant 0 <= row <= m
      invariant lines == PrintedRows(row, RowHasContent(d, x, f),
                                     TrimmedWrapRow(d, x, f, m, dirCols, execCols, fileCols, dirWidth, execWidth, fileWidth, spacing, theme))
    {
      var printed := PrintRow(d, x, f, row, m, dirCols, execCols, fileCols, dirWidth, execWidth, fileWidth, spacing, theme);
      lines := lines + printed;
      row := row + 1;
    }
  }

  /** One iteration of the row loop: the trimmed row if it has content, else nothing. */
  method PrintRow(d: seq<FileEntry>, x: seq<FileEntry>, f: seq<FileEntry>, row: nat, m: nat,
                  dirCols: nat, execCols: nat, fileCols: nat, dirWidth: nat, execWidth: nat, fileWidth: nat,
                  spacing: nat, theme: Theme)
    returns (printed: seq<Line>)
    requires (dirCols == 0) == (d == []) && (execCols == 0) == (x == []) && (fileCols == 0) == (f == [])
    ensures printed == if RowHasContent(d, x, f)(row)
      then [TrimmedWrapRow(d, x, f, m, dirCols, execCols, fileCols, dirWidth, execWidth, fileWidth, spacing, theme)(row)]
      else []
  {
    var line, hasAnyContent := BuildWrapRow(d, x, f, row, m, dirCols, execCols, fileCols,
                                            dirWidth, execWidth, fileWidth, spacing, theme);
    if hasAnyContent {
      printed := [TrimEnd(line)];
    } else {
      printed := [];
    }
  }

  /** The body of the row loop: the three sections and the `has_any_content` flag. */
  method BuildWrapRow(d: seq<FileEntry>, x: seq<FileEntry>, f: seq<FileEntry>, row: nat, m: nat,
                      dirCols: nat, execCols: nat, fileCols: nat, dirWidth: nat, execWidth: nat, fileWidth: nat,
                      spacing: nat, theme: Theme)
    returns (line: Line, hasAnyContent: bool)
    requires (dirCols == 0) == (d == []) && (execCols == 0) == (x == []) && (fileCols == 0) == (f == [])
    ensures line == WrapRowWith(d, x, f, row, m, dirCols, execCols, fileCols, dirWidth, execWidth, fileWidth, spacing, theme)
    ensures hasAnyContent == HasContent(d, x, f, row)
  {
    var found1, found2, found3: bool;
    line, found1 := AppendWrapSection([], d, row, m, dirCols, dirWidth, execCols > 0 || fileCols > 0, spacing, true, theme);
    assert line == WrapSection(d, row, m, dirCols, dirWidth, execCols > 0 || fileCols > 0, spacing, true, theme);
    line, found2 := AppendWrapSection(line, x, row, m, execCols, execWidth, fileCols > 0, spacing, true, theme);
    line, found3 := AppendFileWrapSection(line, f, row, m, fileCols, fileWidth, spacing, theme);
    hasAnyContent := found1 || found2 || found3;
  }

  /**
    * `format_with_max_rows` with each column as wide as its widest label,
    * the width every cell of the column is padded to.
    */
  method FormatWithMaxRows(d: seq<FileEntry>, x: seq<FileEntry>, f: seq<FileEntry>, m: nat, spacing: nat, theme: Theme)
    returns (lines: seq<Line>)
    requires m > 0
    ensures lines == WrapLines(d, x, f, m, spacing, theme)
  {
    NumColsIsCeiling(|d|, m);
    NumColsIsCeiling(|x|, m);
    NumColsIsCeiling(|f|, m);
    lines := PrintRows(d, x, f, m, NumCols(|d|, m), NumCols(|x|, m), NumCols(|f|, m),
                       GroupWidth(d, theme), GroupWidth(x, theme), GroupWidth(f, theme), spacing, theme);
  }

  // ---------------------------------------------------------------------
  // The wrapped layout's column widths as written

  /** The width `format_with_max_rows` measures for an entry: the built-in icon, not the configured one. */
  function BuiltInLabelWidth(e: FileEntry, theme: Theme): nat
  {
    theme.width(GetIcon(e)) + 1 + theme.width(e.path)
  }

  /** The column width `format_with_max_rows` computes for a group. */
  function BuiltInGroupWidth(g: seq<FileEntry>, theme: Theme): (w: nat)
    ensures forall i :: 0 <= i < |g| ==> BuiltInLabelWidth(g[i], theme) <= w
    ensures w == 0 <==> g == []
  {
    MaxOver(g, e => BuiltInLabelWidth(e, theme))
  }

  /** The wrapped layout as written, with the built-in icons' widths. */
  function WrapLinesAsWritten(d: seq<FileEntry>, x: seq<FileEntry>, f: seq<FileEntry>, m: nat, spacing: nat, theme: Theme)
    : seq<Line>
    requires m > 0
  {
    WrapLinesWith(d, x, f, m, NumCols(|d|, m), NumCols(|x|, m), NumCols(|f|, m),
                  BuiltInGroupWidth(d, theme), BuiltInGroupWidth(x, theme), BuiltInGroupWidth(f, theme), spacing, theme)
  }

  /**
    * `format_with_max_rows` with its widths as written (from `get_icon()`, while
    * labels use `get_icon_custom`), and with the ceiling column count.
    */
  method FormatWithMaxRowsAsWritten(d: seq<FileEntry>, x: seq<FileEntry>, f: seq<FileEntry>, m: nat, spacing: nat,
                                    theme: Theme)
    returns (lines: seq<Line>)
    requires m > 0
    ensures lines == WrapLinesAsWritten(d, x, f, m, spacing, theme)
  {
    NumColsIsCeiling(|d|, m);
    NumColsIsCeiling(|x|, m);
    NumColsIsCeiling(|f|, m);
    lines := PrintRows(d, x, f, m, NumCols(|d|, m), NumCols(|x|, m), NumCols(|f|, m),
                       BuiltInGroupWidth(d, theme), BuiltInGroupWidth(x, theme), BuiltInGroupWidth(f, theme),
                       spacing, theme);
  }

  /** A theme whose configured icon is two characters wide, with every character one column wide. */
  function WideIconTheme(): Theme
  {
    Theme(Palette(Blue, Green, White), e => "ab", e => Blue, s => |s|, n => "")
  }

  function Dir(path: string): FileEntry
  {
    FileEntry(path, true, false, 0, 0, 0, "", "", 0)
  }

  /**
    * With a configured icon wider than the built-in one, the column widths
    * as written are too small: with two rows, directories `aa` and `b` in the
    * first column and spacing 2, the directory section spans 7 display
    * columns in row 0 but 6 in row 1, so whatever follows it is misaligned.
    * Measured with the labels' own widths, it spans 7 in both rows.
    */
  lemma WrapWidthMisaligns()
    ensures var theme, d := WideIconTheme(), [Dir("aa"), Dir("b")];
      var w := BuiltInGroupWidth(d, theme);
      Columns(WrapSection(d, 0, 2, 1, w, true, 2, true, theme), theme.width) == 7 &&
      Columns(WrapSection(d, 1, 2, 1, w, true, 2, true, theme), theme.width) == 6 &&
      Columns(WrapSection(d, 0, 2, 1, GroupWidth(d, theme), true, 2, true, theme), theme.width) == 7 &&
      Columns(WrapSection(d, 1, 2, 1, GroupWidth(d, theme), true, 2, true, theme), theme.width) == 7
  {
    var theme, d := WideIconTheme(), [Dir("aa"), Dir("b")];
    assert BuiltInLabelWidth(d[0], theme) == 4 && BuiltInLabelWidth(d[1], theme) == 3;
    assert [d[0], d[1]][..1] == [d[0]];
    assert BuiltInGroupWidth(d, theme) == 4;
    assert LabelWidth(d[0], theme) == 5 && LabelWidth(d[1], theme) == 4;
    assert GroupWidth(d, theme) == 5;
    WrapSectionAligned(d, 0, 2, 1, true, 2, true, theme);
    WrapSectionAligned(d, 1, 2, 1, true, 2, true, theme);
    OneColumnSectionSpan(d, 0, 2, 4, 2, true, theme);
    OneColumnSectionSpan(d, 1, 2, 4, 2, true, theme);
  }

  /** A one-column section with an entry in the row spans that entry's cell and the gap. */
  lemma OneColumnSectionSpan(g: seq<FileEntry>, row: nat, m: nat, w: nat, spacing: nat, bold: bool, theme: Theme)
    requires row < |g|
    ensures Columns(WrapSection(g, row, m, 1, w, true, spacing, bold, theme), theme.width)
         == (if LabelWidth(g[row], theme) < w then w else LabelWidth(g[row], theme)) + spacing
  {
    var cell := Cell(g[row], theme, bold, w);
    var cells := WrapCells(g, row, m, 1, w, spacing, bold, theme);
    assert cells == cell by {
      assert CellIndex(0, m, row) == row;
      assert WrapCell(g, row, 0, w, spacing, bold, theme) == cell by {
        assert Gap(false, spacing) + cell == cell;
      }
      assert WrapCells(g, row, m, 0, w, spacing, bold, theme) == [];
      assert cells == [] + cell;
    }
    CellColumns(g[row], theme, bold, w);
    ColumnsAppend(cells, Gap(true, spacing), theme.width);
    GapColumns(true, spacing, theme.width);
  }
}
