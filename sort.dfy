/**
  * The sort engine: the `--sort` field name, and the four stable in-place
  * orderings of a listing (name ascending, size descending, date descending
  * with a name tie-break, type then name).
  */
module Sort {
  import opened Strings
  import opened FileEntries
  import opened Sorting

  datatype SortField = Name | Size | Date | Type

  /** `SortField::from_str`: case-insensitive; anything unrecognised means Name. */
  function FromStr(s: string): (f: SortField)
    ensures f == Size <==> FoldCase(s) == "size"
    ensures f == Date <==> FoldCase(s) == "date"
    ensures f == Type <==> FoldCase(s) == "type"
    ensures f == Name <==> FoldCase(s) !in {"size", "date", "type"}
  {
    var lower := FoldCase(s);
    if lower == "size" then Size
    else if lower == "date" then Date
    else if lower == "type" then Type
    else Name
  }

  /** Any casing of the three keywords selects its field; "name" and "" select Name. */
  lemma FromStrExamples()
    ensures FromStr("SIZE") == Size && FromStr("Date") == Date && FromStr("tYpE") == Type
    ensures FromStr("name") == Name && FromStr("") == Name && FromStr("sizes") == Name
  {
    assert FoldCase("SIZE") == "size";
    assert FoldCase("Date") == "date";
    assert FoldCase("tYpE") == "type";
    assert FoldCase("name") == "name";
    assert FoldCase("sizes") == "sizes";
  }

  /** `sort_by_name`: ordinal, case-sensitive comparison of the labels. */
  function ByName(a: FileEntry, b: FileEntry): Ordering
  {
    StrCmp(a.path, b.path)
  }

  /** `sort_by_size`: larger first. */
  function BySize(a: FileEntry, b: FileEntry): Ordering
  {
    CmpInt(b.size, a.size)
  }

  /** `sort_by_date`: newer first, equal times by ascending name. */
  function ByDate(a: FileEntry, b: FileEntry): Ordering
  {
    match CmpInt(b.modified, a.modified)
    case Equal => StrCmp(a.path, b.path)
    case other => other
  }

  /** `sort_by_type`: type in declaration order, then ascending name. */
  function ByType(a: FileEntry, b: FileEntry): Ordering
  {
    match CmpInt(Rank(GetFileType(a)), Rank(GetFileType(b)))
    case Equal => StrCmp(a.path, b.path)
    case other => other
  }

  /** The comparator `sort_entries` dispatches to. */
  function Comparator(field: SortField): (FileEntry, FileEntry) -> Ordering
  {
    match field
    case Name => ByName
    case Size => BySize
    case Date => ByDate
    case Type => ByType
  }

  lemma ByNameIsTotalPreorder()
    ensures IsTotalPreorder(ByName)
  {
    forall a: FileEntry, b: FileEntry ensures ByName(b, a) == ByName(a, b).Reverse() {
      StrCmpReverse(a.path, b.path);
    }
    forall a: FileEntry, b: FileEntry, c: FileEntry | ByName(a, b) != Greater && ByName(b, c) != Greater
      ensures ByName(a, c) != Greater
    {
      StrCmpTransitive(a.path, b.path, c.path);
    }
  }

  lemma BySizeIsTotalPreorder()
    ensures IsTotalPreorder(BySize)
  {
  }

  lemma ByDateIsTotalPreorder()
    ensures IsTotalPreorder(ByDate)
  {
    forall a: FileEntry, b: FileEntry ensures ByDate(b, a) == ByDate(a, b).Reverse() {
      StrCmpReverse(a.path, b.path);
    }
    forall a: FileEntry, b: FileEntry, c: FileEntry | ByDate(a, b) != Greater && ByDate(b, c) != Greater
      ensures ByDate(a, c) != Greater
    {
      if a.modified == b.modified == c.modified {
        StrCmpTransitive(a.path, b.path, c.path);
      }
    }
  }

  lemma ByTypeIsTotalPreorder()
    ensures IsTotalPreorder(ByType)
  {
    forall a: FileEntry, b: FileEntry ensures ByType(b, a) == ByType(a, b).Reverse() {
      StrCmpReverse(a.path, b.path);
    }
    forall a: FileEntry, b: FileEntry, c: FileEntry | ByType(a, b) != Greater && ByType(b, c) != Greater
      ensures ByType(a, c) != Greater
    {
      if GetFileType(a) == GetFileType(b) == GetFileType(c) {
        StrCmpTransitive(a.path, b.path, c.path);
      }
    }
  }

  /** All four orderings are total preorders, so the generic sorting lemmas apply. */
  lemma ComparatorIsTotalPreorder(field: SortField)
    ensures IsTotalPreorder(Comparator(field))
  {
    match field
    case Name => ByNameIsTotalPreorder();
    case Size => BySizeIsTotalPreorder();
    case Date => ByDateIsTotalPreorder();
    case Type => ByTypeIsTotalPreorder();
  }

  /** `sort_entries`: reorder the vector in place by the chosen field. */
  method SortEntries(entries: array<FileEntry>, field: SortField)
    modifies entries
    ensures entries[..] == SortSeq(old(entries[..]), Comparator(field))
  {
    match field
    case Name => SortByName(entries);
    case Size => SortBySize(entries);
    case Date => SortByDate(entries);
    case Type => SortByType(entries);
  }

  method SortByName(entries: array<FileEntry>)
    modifies entries
    ensures entries[..] == SortSeq(old(entries[..]), ByName)
  {
    SortInPlace(entries, ByName);
  }

  method SortBySize(entries: array<FileEntry>)
    modifies entries
    ensures entries[..] == SortSeq(old(entries[..]), BySize)
  {
    SortInPlace(entries, BySize);
  }

  method SortByDate(entries: array<FileEntry>)
    modifies entries
    ensures entries[..] == SortSeq(old(entries[..]), ByDate)
  {
    SortInPlace(entries, ByDate);
  }

  method SortByType(entries: array<FileEntry>)
    modifies entries
    ensures entries[..] == SortSeq(old(entries[..]), ByType)
  {
    SortInPlace(entries, ByType);
  }

  /** Whatever the field, sorting is a permutation of the entries. */
  lemma SortEntriesPermutes(s: seq<FileEntry>, field: SortField)
    ensures multiset(SortSeq(s, Comparator(field))) == multiset(s)
  {
    SortPermutes(s, Comparator(field));
  }

  /** Whatever the field, sorting a sorted listing again changes nothing. */
  lemma SortEntriesIdempotent(s: seq<FileEntry>, field: SortField)
    ensures SortSeq(SortSeq(s, Comparator(field)), Comparator(field)) == SortSeq(s, Comparator(field))
  {
    ComparatorIsTotalPreorder(field);
    SortIdempotent(s, Comparator(field));
  }

  /** Name sort: labels ascend under ordinal, case-sensitive comparison. */
  lemma NameSortOrdered(s: seq<FileEntry>)
    ensures var r := SortSeq(s, ByName);
      forall i, j :: 0 <= i < j < |r| ==> StrCmp(r[i].path, r[j].path) != Greater
  {
    ByNameIsTotalPreorder();
    SortOrdersPairs(s, ByName);
  }

  /** Size sort: sizes never increase along the result. */
  lemma SizeSortDescending(s: seq<FileEntry>)
    ensures var r := SortSeq(s, BySize);
      forall i, j :: 0 <= i < j < |r| ==> r[i].size >= r[j].size
  {
    BySizeIsTotalPreorder();
    SortOrdersPairs(s, BySize);
  }

  /**
    * Size sort is stable: the entries of any one size appear in the same
    * relative order as before (`BySize` calls exactly the equal-size entries equal).
    */
  lemma SizeSortStable(s: seq<FileEntry>, e: FileEntry)
    ensures Keep(SortSeq(s, BySize), e, BySize) == Keep(s, e, BySize)
    ensures forall x :: BySize(x, e) == Equal <==> x.size == e.size
  {
    BySizeIsTotalPreorder();
    SortStable(s, e, BySize);
  }

  /** Date sort: newest first, and entries with equal times in ascending name order. */
  lemma DateSortOrdered(s: seq<FileEntry>)
    ensures var r := SortSeq(s, ByDate);
      forall i, j :: 0 <= i < j < |r| ==>
        r[i].modified >= r[j].modified &&
        (r[i].modified == r[j].modified ==> StrCmp(r[i].path, r[j].path) != Greater)
  {
    ByDateIsTotalPreorder();
    SortOrdersPairs(s, ByDate);
  }

  /** Type sort: directories, then executables, then regular files, each by ascending name. */
  lemma TypeSortGrouped(s: seq<FileEntry>)
    ensures var r := SortSeq(s, ByType);
      forall i, j :: 0 <= i < j < |r| ==>
        Rank(GetFileType(r[i])) <= Rank(GetFileType(r[j])) &&
        (GetFileType(r[i]) == GetFileType(r[j]) ==> StrCmp(r[i].path, r[j].path) != Greater)
  {
    ByTypeIsTotalPreorder();
    SortOrdersPairs(s, ByType);
  }

  /** A regular file named by `path` of the given size. */
  function File(path: string, size: nat): FileEntry
  {
    FileEntry(path, false, false, 0x1A4, size, 0, "", "", 1)
  }

  /** Explicit name sort is case-sensitive: "A.txt" (upper case) sorts before "b.txt". */
  lemma NameSortExample()
    ensures SortSeq([File("b.txt", 0), File("A.txt", 0)], ByName) == [File("A.txt", 0), File("b.txt", 0)]
  {
    var b, a := File("b.txt", 0), File("A.txt", 0);
    assert ByName(b, a) == Greater by {
      assert b.path[0] == 'b' && a.path[0] == 'A';
    }
    assert [b, a][..1] == [b] && [b][..0] == [];
    assert SortSeq([b], ByName) == [b];
    assert Insert([b], a, ByName) == [a, b];
  }

  /** Sizes 10, 1000 and 100 sort to 1000, 100, 10. */
  lemma SizeSortExample()
    ensures SortSeq([File("a", 10), File("b", 1000), File("c", 100)], BySize)
         == [File("b", 1000), File("c", 100), File("a", 10)]
  {
    var a, b, c := File("a", 10), File("b", 1000), File("c", 100);
    assert [a, b, c][..2] == [a, b] && [a, b][..1] == [a] && [a][..0] == [];
    assert SortSeq([a], BySize) == [a];
    assert Insert([a], b, BySize) == [b, a];
    assert SortSeq([a, b], BySize) == [b, a];
    assert [b, a][..1] == [b] && [b][..0] == [];
    assert Insert([b], c, BySize) == [b, c];
    assert Insert([b, a], c, BySize) == Insert([b], c, BySize) + [a];
  }
}
