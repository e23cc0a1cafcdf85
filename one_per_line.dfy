/**
  * `format_one_per_line`: split the listing into its three type groups, sort
  * each group by name, and print one "icon name" line per entry, directories
  * first, then executables, then regular files.
  */
module OnePerLine {
  import opened Strings
  import opened Styled
  import opened FileEntries
  import opened Sorting
  import opened Layout
  import Sort

  /** The entries in printed order: each type group sorted by name, groups in type order. */
  function Listed(entries: seq<FileEntry>): seq<FileEntry>
  {
    SortSeq(OfType(entries, Directory), Sort.ByName)
      + SortSeq(OfType(entries, Executable), Sort.ByName)
      + SortSeq(OfType(entries, RegularFile), Sort.ByName)
  }

  /** The printed lines: directory and executable names bold, regular file names not. */
  function OnePerLineLines(entries: seq<FileEntry>, theme: Theme): seq<Line>
  {
    GroupedLines(SortSeq(OfType(entries, Directory), Sort.ByName),
                 SortSeq(OfType(entries, Executable), Sort.ByName),
                 SortSeq(OfType(entries, RegularFile), Sort.ByName), theme)
  }

  /** The lines of three groups printed one after another, the first two in bold. */
  function GroupedLines(d: seq<FileEntry>, x: seq<FileEntry>, f: seq<FileEntry>, theme: Theme): seq<Line>
  {
    Labels(d, theme, true) + Labels(x, theme, true) + Labels(f, theme, false)
  }

  method FormatOnePerLine(entries: seq<FileEntry>, theme: Theme) returns (lines: seq<Line>)
    ensures lines == OnePerLineLines(entries, theme)
  {
    var directories, executables, regularFiles := Partition(entries);
    directories := SortGroupByName(directories);
    executables := SortGroupByName(executables);
    regularFiles := SortGroupByName(regularFiles);
    lines := AppendLabels([], directories, theme, true);
    assert lines == Labels(directories, theme, true) by {
      assert [] + Labels(directories, theme, true) == Labels(directories, theme, true);
    }
    lines := AppendLabels(lines, executables, theme, true);
    lines := AppendLabels(lines, regularFiles, theme, false);
    assert lines == GroupedLines(directories, executables, regularFiles, theme);
  }

  /**
    * One line per entry, none dropped or repeated: line `i` is the label of
    * the `i`-th printed entry, which are the listing's entries rearranged, and
    * its name is bold exactly when the entry is not a regular file.
    */
  lemma OnePerLineShowsEveryEntry(entries: seq<FileEntry>, theme: Theme)
    ensures |OnePerLineLines(entries, theme)| == |entries|
    ensures multiset(Listed(entries)) == multiset(entries)
    ensures forall i :: 0 <= i < |entries| ==>
      OnePerLineLines(entries, theme)[i]
        == Label(Listed(entries)[i], theme, GetFileType(Listed(entries)[i]) != RegularFile)
  {
    ListedPermutes(entries);
    forall i | 0 <= i < |entries|
      ensures OnePerLineLines(entries, theme)[i]
           == Label(Listed(entries)[i], theme, GetFileType(Listed(entries)[i]) != RegularFile)
    {
      LineAt(entries, theme, i);
    }
  }

  /** The printed entries are the listing's entries rearranged. */
  lemma ListedPermutes(entries: seq<FileEntry>)
    ensures multiset(Listed(entries)) == multiset(entries)
    ensures |Listed(entries)| == |entries|
  {
    SortPermutes(OfType(entries, Directory), Sort.ByName);
    SortPermutes(OfType(entries, Executable), Sort.ByName);
    SortPermutes(OfType(entries, RegularFile), Sort.ByName);
    PartitionPermutes(entries);
    assert |multiset(Listed(entries))| == |multiset(entries)|;
  }

  /** Every entry of `g` has type `t`. */
  predicate AllOfType(g: seq<FileEntry>, t: FileType)
  {
    forall e :: e in g ==> GetFileType(e) == t
  }

  /** Names ascend (ordinally) along `g`. */
  predicate NameSorted(g: seq<FileEntry>)
  {
    forall i, j :: 0 <= i < j < |g| ==> StrCmp(g[i].path, g[j].path) != Greater
  }

  /**
    * Printing a directory group, an executable group and a regular-file group
    * one after another: line `i` is the label of entry `i` of the three
    * groups together, bold unless that entry is a regular file.
    */
  lemma GroupedLineAt(d: seq<FileEntry>, x: seq<FileEntry>, f: seq<FileEntry>, theme: Theme, i: nat)
    requires AllOfType(d, Directory) && AllOfType(x, Executable) && AllOfType(f, RegularFile)
    requires i < |d| + |x| + |f|
    ensures |GroupedLines(d, x, f, theme)| == |d + x + f|
    ensures GroupedLines(d, x, f, theme)[i]
         == Label((d + x + f)[i], theme, GetFileType((d + x + f)[i]) != RegularFile)
  {
    var ld, lx, lf := Labels(d, theme, true), Labels(x, theme, true), Labels(f, theme, false);
    if i < |d| {
      assert (d + x + f)[i] == d[i] && d[i] in d;
      assert (ld + lx + lf)[i] == ld[i];
    } else if i < |d| + |x| {
      assert (d + x + f)[i] == x[i - |d|] && x[i - |d|] in x;
      assert (ld + lx + lf)[i] == lx[i - |d|];
    } else {
      assert (d + x + f)[i] == f[i - |d| - |x|] && f[i - |d| - |x|] in f;
      assert (ld + lx + lf)[i] == lf[i - |d| - |x|];
    }
  }

  lemma LineAt(entries: seq<FileEntry>, theme: Theme, i: nat)
    requires i < |Listed(entries)|
    ensures i < |OnePerLineLines(entries, theme)|
    ensures OnePerLineLines(entries, theme)[i]
         == Label(Listed(entries)[i], theme, GetFileType(Listed(entries)[i]) != RegularFile)
  {
    SortedGroupHasType(entries, Directory);
    SortedGroupHasType(entries, Executable);
    SortedGroupHasType(entries, RegularFile);
    GroupedLineAt(SortSeq(OfType(entries, Directory), Sort.ByName),
                  SortSeq(OfType(entries, Executable), Sort.ByName),
                  SortSeq(OfType(entries, RegularFile), Sort.ByName), theme, i);
  }

  /**
    * Printed order: every directory before every executable before every
    * regular file, and names ascending within a type.
    */
  lemma ListedOrder(entries: seq<FileEntry>)
    ensures var r := Listed(entries);
      forall i, j :: 0 <= i < j < |r| ==>
        Rank(GetFileType(r[i])) <= Rank(GetFileType(r[j])) &&
        (GetFileType(r[i]) == GetFileType(r[j]) ==> StrCmp(r[i].path, r[j].path) != Greater)
  {
    SortedGroupHasType(entries, Directory);
    SortedGroupHasType(entries, Executable);
    SortedGroupHasType(entries, RegularFile);
    SortedGroup(OfType(entries, Directory));
    SortedGroup(OfType(entries, Executable));
    SortedGroup(OfType(entries, RegularFile));
    GroupedOrder(SortSeq(OfType(entries, Directory), Sort.ByName),
                 SortSeq(OfType(entries, Executable), Sort.ByName),
                 SortSeq(OfType(entries, RegularFile), Sort.ByName));
  }

  /**
    * Three name-sorted groups of directories, executables and regular files,
    * concatenated in that order, are ordered by type rank and then by name.
    */
  lemma GroupedOrder(d: seq<FileEntry>, x: seq<FileEntry>, f: seq<FileEntry>)
    requires AllOfType(d, Directory) && AllOfType(x, Executable) && AllOfType(f, RegularFile)
    requires NameSorted(d) && NameSorted(x) && NameSorted(f)
    ensures var r := d + x + f;
      forall i, j :: 0 <= i < j < |r| ==>
        Rank(GetFileType(r[i])) <= Rank(GetFileType(r[j])) &&
        (GetFileType(r[i]) == GetFileType(r[j]) ==> StrCmp(r[i].path, r[j].path) != Greater)
  {
    var r := d + x + f;
    forall i, j | 0 <= i < j < |r|
      ensures Rank(GetFileType(r[i])) <= Rank(GetFileType(r[j]))
      ensures GetFileType(r[i]) == GetFileType(r[j]) ==> StrCmp(r[i].path, r[j].path) != Greater
    {
      if j < |d| {
        assert r[i] == d[i] && r[j] == d[j];
      } else if i < |d| {
        assert r[i] == d[i] && r[i] in d;
        if j < |d| + |x| {
          assert r[j] == x[j - |d|] && r[j] in x;
        } else {
          assert r[j] == f[j - |d| - |x|] && r[j] in f;
        }
      } else if j < |d| + |x| {
        assert r[i] == x[i - |d|] && r[j] == x[j - |d|];
      } else if i < |d| + |x| {
        assert r[i] == x[i - |d|] && r[i] in x;
        assert r[j] == f[j - |d| - |x|] && r[j] in f;
      } else {
        assert r[i] == f[i - |d| - |x|] && r[j] == f[j - |d| - |x|];
      }
    }
  }
}
