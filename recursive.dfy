/**
  * The recursive tree renderer: a header naming the root directory, then
  * every readable directory's children, sorted by file name with hidden
  * ones dropped, each on its own line behind its ancestors' prefix and an
  * `ascii` or indent connector, each directory's subtree right after it.
  *
  * The filesystem is a value: a `Listing` is what reading a directory
  * returns, and a `Node` is one entry of it together with what asking for
  * its metadata returns and, for a directory, its own listing.
  */
module Recursive {
  import opened Strings
  import opened Styled
  import opened FileEntries
  import opened Sorting
  import opened Layout

  datatype Option<T> = None | Some(value: T)

  /** What `metadata()` reports: the kind, the mode bits, the length and the modification time if the platform gives one. */
  datatype Meta = Meta(isDir: bool, mode: bv32, size: nat, modified: Option<int>)

  /** One directory entry: its file name, its metadata (None when that call fails) and what reading it as a directory returns. */
  datatype Node = Node(name: string, meta: Option<Meta>, contents: Listing)

  /** What `read_dir` returns: an error, or the entries, each of which may itself be an error. */
  datatype Listing = Unreadable | Readable(entries: seq<Option<Node>>)

  // ----- which children are listed, and in which order -----

  /** The entries that read without error, in the order they came. */
  function Present(entries: seq<Option<Node>>): (r: seq<Node>)
    ensures |r| <= |entries|
    ensures forall n :: n in r <==> Some(n) in entries
  {
    if entries == [] then []
    else
      var init := entries[..|entries| - 1];
      assert entries == init + [entries[|entries| - 1]];
      match entries[|entries| - 1]
      case None => Present(init)
      case Some(n) => Present(init) + [n]
  }

  /** Ordinal comparison of file names, the order `OsStr` compares in. */
  function ByFileName(a: Node, b: Node): Ordering
  {
    StrCmp(a.name, b.name)
  }

  lemma ByFileNameIsTotalPreorder()
    ensures IsTotalPreorder(ByFileName)
  {
    forall a: Node, b: Node ensures ByFileName(b, a) == ByFileName(a, b).Reverse() {
      StrCmpReverse(a.name, b.name);
    }
    forall a: Node, b: Node, c: Node | ByFileName(a, b) != Greater && ByFileName(b, c) != Greater
      ensures ByFileName(a, c) != Greater
    {
      StrCmpTransitive(a.name, b.name, c.name);
    }
  }

  predicate Hidden(n: Node)
  {
    StartsWith(n.name, '.')
  }

  /** The nodes the hidden-file filter keeps, in their order. */
  function Visible(nodes: seq<Node>, showHidden: bool): (r: seq<Node>)
    ensures |r| <= |nodes|
    ensures forall n :: n in r <==> n in nodes && (showHidden || !Hidden(n))
  {
    if nodes == [] then []
    else
      var init, last := nodes[..|nodes| - 1], nodes[|nodes| - 1];
      assert nodes == init + [last];
      Visible(init, showHidden) + (if showHidden || !Hidden(last) then [last] else [])
  }

  /** Keeping a sub-sequence keeps every pair in order. */
  lemma {:induction false} VisibleKeepsOrder(nodes: seq<Node>, showHidden: bool)
    requires SortedPairs(nodes, ByFileName)
    ensures SortedPairs(Visible(nodes, showHidden), ByFileName)
  {
    if nodes != [] {
      var init, last := nodes[..|nodes| - 1], nodes[|nodes| - 1];
      assert SortedPairs(init, ByFileName) by {
        forall i, j | 0 <= i < j < |init| ensures ByFileName(init[i], init[j]) != Greater {
          assert init[i] == nodes[i] && init[j] == nodes[j];
        }
      }
      VisibleKeepsOrder(init, showHidden);
      var v := Visible(init, showHidden);
      forall i | 0 <= i < |v| ensures ByFileName(v[i], last) != Greater {
        assert v[i] in init;
        var k :| 0 <= k < |init| && init[k] == v[i];
        assert nodes[k] == v[i];
      }
    }
  }

  /** With hidden files shown, the filter keeps everything. */
  lemma {:induction false} VisibleAll(nodes: seq<Node>)
    ensures Visible(nodes, true) == nodes
  {
    if nodes != [] {
      VisibleAll(nodes[..|nodes| - 1]);
      assert nodes == nodes[..|nodes| - 1] + [nodes[|nodes| - 1]];
    }
  }

  /** The children a directory level lists: sorted by file name first, hidden ones dropped after. */
  function Shown(entries: seq<Option<Node>>, showHidden: bool): seq<Node>
  {
    Visible(SortSeq(Present(entries), ByFileName), showHidden)
  }

  /**
    * What a level lists: exactly the entries that read without error and
    * are not hidden (unless hidden files are shown), every pair in file-name
    * order, and with hidden files shown, each of them as often as it was read.
    */
  lemma ShownIsSortedVisible(entries: seq<Option<Node>>, showHidden: bool)
    ensures var r := Shown(entries, showHidden);
      SortedPairs(r, ByFileName) &&
      (forall n :: n in r <==> Some(n) in entries && (showHidden || !Hidden(n))) &&
      (showHidden ==> multiset(r) == multiset(Present(entries)))
  {
    var sorted := SortSeq(Present(entries), ByFileName);
    ByFileNameIsTotalPreorder();
    SortOrdersPairs(Present(entries), ByFileName);
    VisibleKeepsOrder(sorted, showHidden);
    SortPermutes(Present(entries), ByFileName);
    forall n ensures n in sorted <==> n in Present(entries) {
      assert n in sorted <==> n in multiset(sorted);
    }
    if showHidden {
      VisibleAll(sorted);
    }
  }

  /** Every listed child came from the directory's own entries. */
  lemma ShownFromEntries(entries: seq<Option<Node>>, showHidden: bool)
    ensures forall n :: n in Shown(entries, showHidden) ==> Some(n) in entries
  {
    var sorted := SortSeq(Present(entries), ByFileName);
    SortPermutes(Present(entries), ByFileName);
    forall n | n in sorted ensures Some(n) in entries {
      assert n in multiset(sorted);
    }
  }

  // ----- connectors and lines -----

  /** The connector before a child's label and what its subtree's prefix is extended by. */
  function Connector(style: string, isLast: bool): (string, string)
  {
    if style == "ascii" then
      if isLast then ("└──", "    ") else ("├──", "│   ")
    else ("", "  ")
  }

  /** The prefix a directory's children are printed behind. */
  function ChildPrefix(prefix: string, style: string, extension: string): (r: string)
    ensures extension == Connector(style, true).1 || extension == Connector(style, false).1 ==> r == prefix + extension
  {
    if style == "ascii" then prefix + extension else prefix + "  "
  }

  /**
    * In `ascii` style the connector is a three-character corner or tee and
    * the extension four columns wide: a vertical bar continues below every
    * child but the last, whose subtree is indented by blanks. Any other style
    * has no connector and indents by two blanks.
    */
  lemma ConnectorShape(style: string, isLast: bool)
    ensures var (connector, extension) := Connector(style, isLast);
      (style == "ascii" ==>
        |connector| == 3 && |extension| == 4 &&
        (connector[0] == '└' <==> isLast) &&
        (extension[0] == '│' <==> !isLast) &&
        (forall i :: 1 <= i < 4 ==> extension[i] == ' ')) &&
      (style != "ascii" ==> connector == "" && extension == "  ")
  {
  }

  /** The entry a child's icon and colours are looked up for. */
  function ChildEntry(n: Node, m: Meta): (e: FileEntry)
    ensures e.path == n.name && e.isDir == m.isDir && e.mode == m.mode && e.size == m.size
  {
    FileEntry(n.name, m.isDir, !m.isDir && m.mode & 0x49 != 0, m.mode, m.size,
              match m.modified case Some(t) => t case None => 0, "", "", 0)
  }

  /** A child is a directory when its metadata says so, executable when it is not one and any execute bit is set. */
  lemma ChildType(n: Node, m: Meta)
    ensures GetFileType(ChildEntry(n, m)) == Directory <==> m.isDir
    ensures GetFileType(ChildEntry(n, m)) == Executable <==> !m.isDir && m.mode & 0x49 != 0
    ensures GetFileType(ChildEntry(n, m)) == RegularFile <==> !m.isDir && m.mode & 0x49 == 0
  {
  }

  /** A child's line: prefix and connector unstyled, then the label; directory and executable names are bold. */
  function EntryLine(prefix: string, connector: string, e: FileEntry, theme: Theme): (line: Line)
    ensures |line| == 4 && line[0] == Segment(prefix + connector, Plain)
  {
    [Segment(prefix + connector, Plain)] + Label(e, theme, GetFileType(e) != RegularFile)
  }

  /** Its text is the prefix, the connector, the icon, one blank and the file name. */
  lemma EntryLineText(prefix: string, connector: string, e: FileEntry, theme: Theme)
    ensures Text(EntryLine(prefix, connector, e, theme)) == prefix + connector + theme.icon(e) + " " + e.path
    ensures EntryLine(prefix, connector, e, theme)[3].style.Painted?
    ensures EntryLine(prefix, connector, e, theme)[3].style.bold <==> e.isDir || e.isExecutable
  {
    var line := EntryLine(prefix, connector, e, theme);
    assert line == [line[0], line[1], line[2], line[3]];
    TextOfFour(line[0], line[1], line[2], line[3]);
  }

  lemma TextOfThree(a: Segment, b: Segment, c: Segment)
    ensures Text([a, b, c]) == a.text + b.text + c.text
  {
    assert [a][..0] == [];
    assert Text([a]) == a.text by { assert [] + a.text == a.text; }
    assert [a, b][..1] == [a];
    assert [a, b, c][..2] == [a, b];
  }

  lemma TextOfFour(a: Segment, b: Segment, c: Segment, d: Segment)
    ensures Text([a, b, c, d]) == a.text + b.text + c.text + d.text
  {
    assert [a, b, c, d][..3] == [a, b, c];
    TextOfThree(a, b, c);
  }

  /** The line lies behind `prefix`. */
  predicate Behind(line: Line, prefix: string)
  {
    |line| == 4 && prefix <= line[0].text
  }

  // ----- the walk -----

  /** The lines a directory's listing prints behind `prefix`; an unreadable directory prints none. */
  function TreeLines(listing: Listing, prefix: string, style: string, showHidden: bool, theme: Theme): (lines: seq<Line>)
    ensures listing.Unreadable? ==> lines == []
    ensures forall i :: 0 <= i < |lines| ==> Behind(lines[i], prefix)
    decreases listing, 2, 0
  {
    match listing
    case Unreadable => []
    case Readable(_) => SiblingLines(listing, 0, prefix, style, showHidden, theme)
  }

  /** The lines of the listed children from the `k`-th on, each one's subtree right after it. */
  function SiblingLines(dir: Listing, k: nat, prefix: string, style: string, showHidden: bool, theme: Theme): (lines: seq<Line>)
    requires dir.Readable? && k <= |Shown(dir.entries, showHidden)|
    ensures forall i :: 0 <= i < |lines| ==> Behind(lines[i], prefix)
    decreases dir, 1, |Shown(dir.entries, showHidden)| - k
  {
    var siblings := Shown(dir.entries, showHidden);
    if k == |siblings| then []
    else
      ShownFromEntries(dir.entries, showHidden);
      assert Some(siblings[k]) in dir.entries;
      ChildLines(siblings[k], k == |siblings| - 1, prefix, style, showHidden, theme)
        + SiblingLines(dir, k + 1, prefix, style, showHidden, theme)
  }

  /**
    * One child's lines. A child whose metadata cannot be read prints nothing;
    * otherwise its own line comes first and, for a directory, its subtree
    * follows, every line of it behind the extended prefix.
    */
  function ChildLines(n: Node, isLast: bool, prefix: string, style: string, showHidden: bool, theme: Theme): (lines: seq<Line>)
    ensures n.meta.None? <==> lines == []
    ensures n.meta.Some? ==> lines[0] == EntryLine(prefix, Connector(style, isLast).0, ChildEntry(n, n.meta.value), theme)
    ensures n.meta.Some? && !n.meta.value.isDir ==> |lines| == 1
    ensures forall i :: 1 <= i < |lines| ==> Behind(lines[i], prefix + Connector(style, isLast).1)
    ensures forall i :: 0 <= i < |lines| ==> Behind(lines[i], prefix)
    decreases n, 0, 0
  {
    match n.meta
    case None => []
    case Some(m) =>
      var (connector, extension) := Connector(style, isLast);
      [EntryLine(prefix, connector, ChildEntry(n, m), theme)]
        + (if m.isDir then TreeLines(n.contents, ChildPrefix(prefix, style, extension), style, showHidden, theme) else [])
  }

  // ----- where a level ends -----

  /** The line carries the corner connector right after `prefix`: it closes the level printed behind `prefix`. */
  predicate ClosesLevel(line: Line, prefix: string)
  {
    |line| > 0 && |prefix| < |line[0].text| && line[0].text[|prefix|] == '└'
  }

  predicate AnyClosesLevel(lines: seq<Line>, prefix: string)
  {
    exists i :: 0 <= i < |lines| && ClosesLevel(lines[i], prefix)
  }

  lemma AnyClosesLevelAppend(a: seq<Line>, b: seq<Line>, prefix: string)
    ensures AnyClosesLevel(a + b, prefix) <==> AnyClosesLevel(a, prefix) || AnyClosesLevel(b, prefix)
  {
    if AnyClosesLevel(a + b, prefix) {
      var i :| 0 <= i < |a + b| && ClosesLevel((a + b)[i], prefix);
      if i >= |a| {
        assert (a + b)[i] == b[i - |a|];
      }
    }
    if AnyClosesLevel(a, prefix) {
      var i :| 0 <= i < |a| && ClosesLevel(a[i], prefix);
      assert (a + b)[i] == a[i];
    }
    if AnyClosesLevel(b, prefix) {
      var i :| 0 <= i < |b| && ClosesLevel(b[i], prefix);
      assert (a + b)[|a| + i] == b[i];
      assert ClosesLevel((a + b)[|a| + i], prefix);
    }
  }

  /**
    * In `ascii` style a child closes its level exactly when it is the last
    * child and its metadata could be read; nothing in its subtree does.
    */
  lemma ChildClosesLevel(n: Node, isLast: bool, prefix: string, showHidden: bool, theme: Theme)
    ensures AnyClosesLevel(ChildLines(n, isLast, prefix, "ascii", showHidden, theme), prefix) <==> isLast && n.meta.Some?
  {
    var lines := ChildLines(n, isLast, prefix, "ascii", showHidden, theme);
    var (connector, extension) := Connector("ascii", isLast);
    ConnectorShape("ascii", isLast);
    forall i | 1 <= i < |lines| ensures !ClosesLevel(lines[i], prefix) {
      assert (prefix + extension)[|prefix|] == extension[0];
    }
    if n.meta.Some? {
      assert lines[0][0].text == prefix + connector;
      assert (prefix + connector)[|prefix|] == connector[0];
      if isLast {
        assert ClosesLevel(lines[0], prefix);
      }
    }
  }

  /**
    * In `ascii` style, the children from the `k`-th on close the level
    * exactly when the last listed child's metadata could be read: a last
    * child whose metadata fails leaves the level without a corner, because
    * it still counts as the last one.
    */
  lemma {:induction false} SiblingsCloseLevel(dir: Listing, k: nat, prefix: string, showHidden: bool, theme: Theme)
    requires dir.Readable? && k < |Shown(dir.entries, showHidden)|
    ensures var siblings := Shown(dir.entries, showHidden);
      AnyClosesLevel(SiblingLines(dir, k, prefix, "ascii", showHidden, theme), prefix) <==> siblings[|siblings| - 1].meta.Some?
    decreases |Shown(dir.entries, showHidden)| - k
  {
    var siblings := Shown(dir.entries, showHidden);
    var isLast := k == |siblings| - 1;
    var own := ChildLines(siblings[k], isLast, prefix, "ascii", showHidden, theme);
    var rest := SiblingLines(dir, k + 1, prefix, "ascii", showHidden, theme);
    assert SiblingLines(dir, k, prefix, "ascii", showHidden, theme) == own + rest;
    AnyClosesLevelAppend(own, rest, prefix);
    ChildClosesLevel(siblings[k], isLast, prefix, showHidden, theme);
    if !isLast {
      SiblingsCloseLevel(dir, k + 1, prefix, showHidden, theme);
    } else {
      assert rest == [];
    }
  }

  // ----- the root -----

  /** The stand-in entry the root's icon and colour are looked up for: a directory with mode 0o755. */
  function RootEntry(name: string): (e: FileEntry)
    ensures e.path == name && e.isDir && !e.isExecutable && e.mode == 0x1ED
  {
    FileEntry(name, true, false, 0x1ED, 0, 0, "", "", 0)
  }

  /** The header: nothing when the path has no final component; else the bold name, after the icon and a blank when there is an icon. */
  function Header(rootName: Option<string>, theme: Theme): (lines: seq<Line>)
  {
    match rootName
    case None => []
    case Some(name) =>
      var e := RootEntry(name);
      if theme.icon(e) == "" then [[Segment(name, Painted(theme.palette.directory, true))]]
      else [Label(e, theme, true)]
  }

  /** `format_recursive`: the header, then the root's listing behind the empty prefix. */
  function FormatRecursive(rootName: Option<string>, root: Listing, style: string, showHidden: bool, theme: Theme): (lines: seq<Line>)
    ensures |lines| == |Header(rootName, theme)| + |TreeLines(root, "", style, showHidden, theme)|
    ensures lines[..|Header(rootName, theme)|] == Header(rootName, theme)
    ensures lines[|Header(rootName, theme)|..] == TreeLines(root, "", style, showHidden, theme)
    ensures forall i :: |Header(rootName, theme)| <= i < |lines| ==> Behind(lines[i], "")
    ensures root.Unreadable? ==> lines == Header(rootName, theme)
  {
    var header, tree := Header(rootName, theme), TreeLines(root, "", style, showHidden, theme);
    assert (header + tree)[..|header|] == header && (header + tree)[|header|..] == tree;
    assert forall i :: |header| <= i < |header| + |tree| ==> (header + tree)[i] == tree[i - |header|];
    header + tree
  }

  /**
    * The header is one line exactly when the path has a final component. Its
    * text is the name alone when the directory icon is empty and icon, blank,
    * name otherwise, and the name is bold in the directory colour either way.
    */
  lemma HeaderShape(rootName: Option<string>, theme: Theme)
    ensures |Header(rootName, theme)| == if rootName.Some? then 1 else 0
    ensures rootName.Some? ==>
      var line := Header(rootName, theme)[0];
      var icon := theme.icon(RootEntry(rootName.value));
      Text(line) == (if icon == "" then rootName.value else icon + " " + rootName.value) &&
      line[|line| - 1] == Segment(rootName.value, Painted(theme.palette.directory, true))
  {
    if rootName.Some? {
      var name := rootName.value;
      var line := Header(rootName, theme)[0];
      if theme.icon(RootEntry(name)) == "" {
        assert line[..0] == [];
      } else {
        assert line == [line[0], line[1], line[2]];
        TextOfThree(line[0], line[1], line[2]);
      }
    }
  }
}
