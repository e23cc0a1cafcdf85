/**
  * What the short, long and one-per-line renderers share: the inputs they take
  * from the parts of the configuration this model does not define, the split
  * of a listing into its three type groups, per-group name sorting, maxima,
  * and the styled "icon name" label with its padded cell.
  */
module Layout {
  import opened Strings
  import opened Styled
  import opened FileEntries
  import opened Sorting
  import Sort
  import Config

  /**
    * The name colour of each kind of entry: what the colour configuration's
    * `get_directory_color`, `get_executable_color` and `get_regular_color`
    * return, parsed once (`PaletteOf`).
    */
  datatype Palette = Palette(directory: Color, executable: Color, regular: Color)

  function PaletteOf(colors: Config.ColorConfig): Palette
  {
    Palette(colors.DirectoryColor(), colors.ExecutableColor(), colors.RegularColor())
  }

  /** The colour a label paints an entry's name with. */
  function NameColor(e: FileEntry, palette: Palette): Color
  {
    match GetFileIcon(e)
    case Directory => palette.directory
    case Executable => palette.executable
    case RegularFile => palette.regular
  }

  /** Painting with the parsed palette is `FileEntry::get_color` on the configuration it came from. */
  lemma NameColorIsGetColor(e: FileEntry, colors: Config.ColorConfig)
    ensures NameColor(e, PaletteOf(colors)) == GetColor(e, colors)
    ensures e.isDir ==> NameColor(e, PaletteOf(colors)) == Config.ParseColor(colors.directory)
    ensures !e.isDir && e.isExecutable ==> NameColor(e, PaletteOf(colors)) == Config.ParseColor(colors.executable)
    ensures !e.isDir && !e.isExecutable ==> NameColor(e, PaletteOf(colors)) == Config.ParseColor(colors.regular)
  {
  }

  /**
    * Rendering inputs: the parsed name colours; the icon text and icon
    * colour of an entry (`get_icon_custom` and `get_icon_color`, whose bodies
    * are not part of this model); the display width of a string
    * (`UnicodeWidthStr::width`); and the UTC calendar rendering of a
    * modification time given in whole seconds since the epoch.
    */
  datatype Theme = Theme(
    palette: Palette,
    icon: FileEntry -> string,
    iconColor: FileEntry -> Color,
    width: string -> nat,
    date: nat -> string)

  /** The entries of `s` of type `t`, in their order in `s`. */
  function OfType(s: seq<FileEntry>, t: FileType): (r: seq<FileEntry>)
    ensures |r| <= |s|
    ensures forall i :: 0 <= i < |r| ==> GetFileType(r[i]) == t
  {
    if s == [] then []
    else
      var last := s[|s| - 1];
      OfType(s[..|s| - 1], t) + (if GetFileType(last) == t then [last] else [])
  }

  /** Selecting a type distributes over concatenation. */
  lemma {:induction false} OfTypeAppend(a: seq<FileEntry>, b: seq<FileEntry>, t: FileType)
    ensures OfType(a + b, t) == OfType(a, t) + OfType(b, t)
  {
    if b == [] {
      assert a + b == a;
    } else {
      OfTypeAppend(a, b[..|b| - 1], t);
      assert (a + b)[..|a + b| - 1] == a + b[..|b| - 1];
    }
  }

  /** A group holds every entry of its type, with its multiplicity, and nothing else. */
  lemma {:induction false} OfTypeCounts(s: seq<FileEntry>, t: FileType, x: FileEntry)
    ensures multiset(OfType(s, t))[x] == if GetFileType(x) == t then multiset(s)[x] else 0
  {
    if s != [] {
      OfTypeCounts(s[..|s| - 1], t, x);
      assert s == s[..|s| - 1] + [s[|s| - 1]];
    }
  }

  /** The three groups together are a permutation of the listing. */
  lemma PartitionPermutes(s: seq<FileEntry>)
    ensures multiset(OfType(s, Directory)) + multiset(OfType(s, Executable)) + multiset(OfType(s, RegularFile))
         == multiset(s)
  {
    forall x: FileEntry
      ensures (multiset(OfType(s, Directory)) + multiset(OfType(s, Executable)) + multiset(OfType(s, RegularFile)))[x]
           == multiset(s)[x]
    {
      OfTypeCounts(s, Directory, x);
      OfTypeCounts(s, Executable, x);
      OfTypeCounts(s, RegularFile, x);
    }
  }

  /** A selected group has only entries of its type, so selecting it again keeps it whole, and any other type finds nothing. */
  lemma {:induction false} OfTypeOfGroup(s: seq<FileEntry>, t: FileType, u: FileType)
    ensures OfType(OfType(s, t), u) == if u == t then OfType(s, t) else []
  {
    if s != [] {
      var init, last := s[..|s| - 1], s[|s| - 1];
      OfTypeOfGroup(init, t, u);
      var tail := if GetFileType(last) == t then [last] else [];
      assert OfType(s, t) == OfType(init, t) + tail;
      OfTypeAppend(OfType(init, t), tail, u);
      if tail != [] {
        assert tail[..0] == [];
        assert OfType(tail, u) == OfType([], u) + (if GetFileType(last) == u then [last] else []);
      }
    }
  }

  /**
    * The loop that pushes each entry onto the vector of its type, as the
    * short, long and one-per-line renderers all begin.
    */
  method Partition(entries: seq<FileEntry>)
    returns (directories: seq<FileEntry>, executables: seq<FileEntry>, regularFiles: seq<FileEntry>)
    ensures directories == OfType(entries, Directory)
    ensures executables == OfType(entries, Executable)
    ensures regularFiles == OfType(entries, RegularFile)
  {
    directories, executables, regularFiles := [], [], [];
    var i := 0;
    while i < |entries|
      invariant 0 <= i <= |entries|
      invariant directories == OfType(entries[..i], Directory)
      invariant executables == OfType(entries[..i], Executable)
      invariant regularFiles == OfType(entries[..i], RegularFile)
    {
      var entry := entries[i];
      assert entries[..i + 1][..i] == entries[..i];
      match GetFileType(entry) {
        case Directory => directories := directories + [entry];
        case Executable => executables := executables + [entry];
        case RegularFile => regularFiles := regularFiles + [entry];
      }
      i := i + 1;
    }
    assert entries[..i] == entries;
  }

  /** One group sorted by name, the way the renderers sort a group vector in place. */
  method SortGroupByName(group: seq<FileEntry>) returns (sorted: seq<FileEntry>)
    ensures sorted == SortSeq(group, Sort.ByName)
  {
    var a := new FileEntry[|group|](i requires 0 <= i < |group| => group[i]);
    assert a[..] == group;
    Sort.SortByName(a);
    sorted := a[..];
  }

  /** A name-sorted group: same entries, ascending by ordinal name. */
  lemma SortedGroup(group: seq<FileEntry>)
    ensures multiset(SortSeq(group, Sort.ByName)) == multiset(group)
    ensures var r := SortSeq(group, Sort.ByName);
      forall i, j :: 0 <= i < j < |r| ==> StrCmp(r[i].path, r[j].path) != Greater
  {
    SortPermutes(group, Sort.ByName);
    Sort.NameSortOrdered(group);
  }

  /** `iter().map(f).max().unwrap_or(0)`. */
  function MaxOver<T>(s: seq<T>, f: T -> nat): (m: nat)
    ensures forall i :: 0 <= i < |s| ==> f(s[i]) <= m
    ensures s == [] ==> m == 0
    ensures s != [] ==> exists i :: 0 <= i < |s| && f(s[i]) == m
  {
    if s == [] then 0
    else
      var rest := MaxOver(s[..|s| - 1], f);
      var last := f(s[|s| - 1]);
      if rest < last then last else rest
  }

  /** Display width of an entry's label: icon, one space, name. */
  function LabelWidth(e: FileEntry, theme: Theme): nat
  {
    theme.width(theme.icon(e)) + 1 + theme.width(e.path)
  }

  /** The width of a group's column: its widest label, or 0 for an empty group. */
  function GroupWidth(group: seq<FileEntry>, theme: Theme): (w: nat)
    ensures forall i :: 0 <= i < |group| ==> LabelWidth(group[i], theme) <= w
    ensures w == 0 <==> group == []
  {
    MaxOver(group, e => LabelWidth(e, theme))
  }

  /**
    * `format!("{} {}", icon.color(..), name.color(..))`, with `.bold()` on the
    * name when asked: icon in its icon colour, a plain space, the name in the
    * colour configured for its type.
    */
  function Label(e: FileEntry, theme: Theme, bold: bool): (line: Line)
    ensures |line| == 3
  {
    [Segment(theme.icon(e), Painted(theme.iconColor(e), false)),
     Segment(" ", Plain),
     Segment(e.path, Painted(NameColor(e, theme.palette), bold))]
  }

  /** A label occupies its icon's width, one column, and its name's width. */
  lemma LabelColumns(e: FileEntry, theme: Theme, bold: bool)
    ensures Columns(Label(e, theme, bold), theme.width) == LabelWidth(e, theme)
  {
    var segments := Label(e, theme, bold);
    assert segments[..2][..1] == segments[..1] && segments[..1][..0] == [];
    assert Columns(segments[..1], theme.width) == theme.width(theme.icon(e));
    assert Columns(segments[..2], theme.width) == theme.width(theme.icon(e)) + 1;
  }

  /** The label followed by `width - actual` spaces when it is narrower than `width`. */
  function Cell(e: FileEntry, theme: Theme, bold: bool, width: nat): (line: Line)
    ensures |line| >= 3 && line[..3] == Label(e, theme, bold)
  {
    var shown := Label(e, theme, bold);
    var actual := LabelWidth(e, theme);
    if actual < width then shown + [Spaces(width - actual)] else shown
  }

  /** A cell spans `width` columns, or its label's width when the label is wider. */
  lemma CellColumns(e: FileEntry, theme: Theme, bold: bool, width: nat)
    ensures Columns(Cell(e, theme, bold, width), theme.width)
         == if LabelWidth(e, theme) < width then width else LabelWidth(e, theme)
  {
    var shown := Label(e, theme, bold);
    LabelColumns(e, theme, bold);
    if LabelWidth(e, theme) < width {
      ColumnsAppend(shown, [Spaces(width - LabelWidth(e, theme))], theme.width);
      assert [Spaces(width - LabelWidth(e, theme))][..0] == [];
    }
  }

  /** Every cell of a group padded to the group's width occupies exactly that width. */
  lemma CellFillsGroupWidth(group: seq<FileEntry>, i: nat, theme: Theme, bold: bool)
    requires i < |group|
    ensures Columns(Cell(group[i], theme, bold, GroupWidth(group, theme)), theme.width) == GroupWidth(group, theme)
  {
    CellColumns(group[i], theme, bold, GroupWidth(group, theme));
  }

  /** Pushing a label and then its padding, as every short-format section does. */
  method AppendCell(line: Line, e: FileEntry, theme: Theme, bold: bool, width: nat) returns (out: Line)
    ensures out == line + Cell(e, theme, bold, width)
  {
    var actual := LabelWidth(e, theme);
    out := line + Label(e, theme, bold);
    if actual < width {
      out := out + [Spaces(width - actual)];
    }
  }

  /** A label's last segment is the painted name, so trimming never cuts into it. */
  lemma TrimKeepsSegment(line: Line, k: nat)
    requires k < |line| && line[k].style != Plain
    ensures k < |TrimEnd(line)| && TrimEnd(line)[..k + 1] == line[..k + 1]
  {
  }

  /** The label of each entry of a group, one line per entry, in group order. */
  function Labels(group: seq<FileEntry>, theme: Theme, bold: bool): (lines: seq<Line>)
    ensures |lines| == |group|
    ensures forall i :: 0 <= i < |group| ==> lines[i] == Label(group[i], theme, bold)
  {
    if group == [] then []
    else Labels(group[..|group| - 1], theme, bold) + [Label(group[|group| - 1], theme, bold)]
  }

  /** Every member of a name-sorted group still has the group's type. */
  lemma SortedGroupHasType(s: seq<FileEntry>, t: FileType)
    ensures forall x :: x in SortSeq(OfType(s, t), Sort.ByName) ==> GetFileType(x) == t
  {
    var g := OfType(s, t);
    SortPermutes(g, Sort.ByName);
    forall x | x in SortSeq(g, Sort.ByName)
      ensures GetFileType(x) == t
    {
      assert x in multiset(SortSeq(g, Sort.ByName));
    }
  }

  /** The loop printing one label per entry of a group. */
  method AppendLabels(lines: seq<Line>, group: seq<FileEntry>, theme: Theme, bold: bool)
    returns (out: seq<Line>)
    ensures out == lines + Labels(group, theme, bold)
  {
    out := lines;
    var i := 0;
    while i < |group|
      invariant 0 <= i <= |group|
      invariant out == lines + Labels(group[..i], theme, bold)
    {
      assert group[..i + 1][..i] == group[..i];
      out := out + [Label(group[i], theme, bold)];
      i := i + 1;
    }
    assert group[..i] == group;
  }
}
