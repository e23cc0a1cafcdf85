/**
  * The long (`-l`) renderer: entries grouped by type without re-sorting,
  * per-field column widths over the whole listing, and one line per entry
  * made of the configured fields joined by two spaces.
  */
module Long {
  import opened Strings
  import opened Styled
  import opened FileEntries
  import opened Layout

  /** The separator `print_long_entries_with_widths` joins the field parts with. */
  const Separator: string := "  "

  /** `format_long`'s order: directories, executables, regular files, each as they came. */
  function TypeOrdered(entries: seq<FileEntry>): seq<FileEntry>
  {
    OfType(entries, Directory) + OfType(entries, Executable) + OfType(entries, RegularFile)
  }

  /** `format_long` neither drops nor repeats an entry. */
  lemma TypeOrderedPermutes(entries: seq<FileEntry>)
    ensures multiset(TypeOrdered(entries)) == multiset(entries)
  {
    PartitionPermutes(entries);
  }

  /**
    * `format_long` does not re-sort: the entries of each type appear in the
    * result exactly as, and in the order, they came in.
    */
  lemma TypeOrderedKeepsGroups(entries: seq<FileEntry>, t: FileType)
    ensures OfType(TypeOrdered(entries), t) == OfType(entries, t)
  {
    var d, x, f := OfType(entries, Directory), OfType(entries, Executable), OfType(entries, RegularFile);
    OfTypeAppend(d + x, f, t);
    OfTypeAppend(d, x, t);
    OfTypeOfGroup(entries, Directory, t);
    OfTypeOfGroup(entries, Executable, t);
    OfTypeOfGroup(entries, RegularFile, t);
  }

  /** All directories come first, then executables, then regular files. */
  lemma TypeOrderedRanks(entries: seq<FileEntry>)
    ensures var r := TypeOrdered(entries);
      forall i, j :: 0 <= i < j < |r| ==> Rank(GetFileType(r[i])) <= Rank(GetFileType(r[j]))
  {
    var d, x, f := OfType(entries, Directory), OfType(entries, Executable), OfType(entries, RegularFile);
    var r := TypeOrdered(entries);
    forall i, j | 0 <= i < j < |r|
      ensures Rank(GetFileType(r[i])) <= Rank(GetFileType(r[j]))
    {
      if i < |d| {
        assert r[i] == d[i];
      } else if i < |d| + |x| {
        assert r[i] == x[i - |d|];
        if j >= |d| + |x| {
          assert r[j] == f[j - |d| - |x|];
        } else {
          assert r[j] == x[j - |d|];
        }
      } else {
        assert r[i] == f[i - |d| - |x|] && r[j] == f[j - |d| - |x|];
      }
    }
  }

  /** `format_long`: the partition loop, the three `extend`s, then the common printer. */
  method FormatLong(entries: seq<FileEntry>, fields: seq<string>, theme: Theme) returns (lines: seq<Line>)
    ensures lines == LongLines(TypeOrdered(entries), fields, "", theme)
  {
    var directories, executables, regularFiles := Partition(entries);
    var all: seq<FileEntry> := [];
    all := all + directories;
    all := all + executables;
    all := all + regularFiles;
    assert all == TypeOrdered(entries);
    lines := PrintLongEntries(all, fields, "", theme);
  }

  /** The six field names whose column width is measured. */
  predicate Measured(field: string)
  {
    field in {"nlink", "owner", "group", "size", "filename", "permissions"}
  }

  /** The unpadded text of a measured field, the string whose `len()` sizes its column. */
  function FieldText(e: FileEntry, field: string): string
  {
    if field == "nlink" then NatToString(e.nlink)
    else if field == "owner" then e.owner
    else if field == "group" then e.group
    else if field == "size" then FormatSize(e.size)
    else if field == "filename" then e.path
    else if field == "permissions" then FormatPermissions(e)
    else ""
  }

  /**
    * The width `calculate_column_widths` records for one field: the largest
    * UTF-8 byte length of the field's text over all entries (0 when there are
    * none), and 0 for a field name it does not measure.
    */
  function FieldWidth(entries: seq<FileEntry>, field: string): (w: nat)
    ensures !Measured(field) || entries == [] ==> w == 0
    ensures Measured(field) ==> forall i :: 0 <= i < |entries| ==> Utf8Len(FieldText(entries[i], field)) <= w
    ensures Measured(field) && entries != [] ==>
      exists i :: 0 <= i < |entries| && Utf8Len(FieldText(entries[i], field)) == w
  {
    if Measured(field) then MaxOver(entries, e => Utf8Len(FieldText(e, field))) else 0
  }

  /** The width map: one key per configured field. */
  function ColumnWidths(entries: seq<FileEntry>, fields: seq<string>): (widths: map<string, nat>)
    ensures widths.Keys == set f | f in fields
    ensures forall f :: f in fields ==> widths[f] == FieldWidth(entries, f)
  {
    map f | f in fields :: FieldWidth(entries, f)
  }

  /** `calculate_column_widths`: one `insert` per configured field. */
  method CalculateColumnWidths(entries: seq<FileEntry>, fields: seq<string>) returns (widths: map<string, nat>)
    ensures widths == ColumnWidths(entries, fields)
  {
    widths := map[];
    var i := 0;
    while i < |fields|
      invariant 0 <= i <= |fields|
      invariant forall f :: f in widths <==> f in fields[..i]
      invariant forall f :: f in widths ==> widths[f] == FieldWidth(entries, f)
    {
      assert fields[..i + 1] == fields[..i] + [fields[i]];
      widths := widths[fields[i] := FieldWidth(entries, fields[i])];
      i := i + 1;
    }
    assert fields[..i] == fields;
    assert widths.Keys == ColumnWidths(entries, fields).Keys;
  }

  /** `widths.get(name).copied().unwrap_or(0)`. */
  function Lookup(widths: map<string, nat>, name: string): nat
  {
    if name in widths then widths[name] else 0
  }

  /** `text` is `value` right-aligned in a column of `width` characters. */
  predicate RightAligned(text: string, value: string, width: nat)
  {
    |text| == (if |value| < width then width else |value|) &&
    text == Repeat(' ', |text| - |value|) + value
  }

  /** `text` is `value` left-aligned in a column of `width` characters. */
  predicate LeftAligned(text: string, value: string, width: nat)
  {
    |text| == (if |value| < width then width else |value|) &&
    text == value + Repeat(' ', |text| - |value|)
  }

  /**
    * One field of one entry (the `match` inside the per-field loop).
    * `isLast` tells whether the field is the last configured one. Counts and
    * sizes are right-aligned, owner, group and (unless last) the name are
    * left-aligned, all padded before styling; the rest are not padded.
    */
  function FieldPart(e: FileEntry, field: string, isLast: bool, widths: map<string, nat>, theme: Theme): (part: Segment)
    ensures field in {"nlink", "size", "owner", "group", "permissions", "modified"} ==> part.style == Plain
    ensures field == "nlink" ==> RightAligned(part.text, NatToString(e.nlink), Lookup(widths, "nlink"))
    ensures field == "size" ==> RightAligned(part.text, FormatSize(e.size), Lookup(widths, "size"))
    ensures field == "owner" ==> LeftAligned(part.text, e.owner, Lookup(widths, "owner"))
    ensures field == "group" ==> LeftAligned(part.text, e.group, Lookup(widths, "group"))
    ensures field == "permissions" ==> part.text == FormatPermissions(e)
    ensures field == "modified" ==> part.text == FormatModified(e, theme.date)
    ensures field == "icon" ==> part == Segment(theme.icon(e), Painted(theme.iconColor(e), false))
    ensures field == "filename" ==>
      part.style == Painted(NameColor(e, theme.palette), GetFileType(e) != RegularFile) &&
      if isLast then part.text == e.path else LeftAligned(part.text, e.path, Lookup(widths, "filename"))
    ensures !Measured(field) && field !in {"modified", "icon"} ==> part == Segment("", Plain)
  {
    match field
    case "permissions" => Segment(FormatPermissions(e), Plain)
    case "nlink" =>
      var value := NatToString(e.nlink);
      PadStartAligns(value, Lookup(widths, "nlink"));
      Segment(PadStart(value, Lookup(widths, "nlink")), Plain)
    case "owner" =>
      PadEndAligns(e.owner, Lookup(widths, "owner"));
      Segment(PadEnd(e.owner, Lookup(widths, "owner")), Plain)
    case "group" =>
      PadEndAligns(e.group, Lookup(widths, "group"));
      Segment(PadEnd(e.group, Lookup(widths, "group")), Plain)
    case "size" =>
      var value := FormatSize(e.size);
      PadStartAligns(value, Lookup(widths, "size"));
      Segment(PadStart(value, Lookup(widths, "size")), Plain)
    case "modified" => Segment(FormatModified(e, theme.date), Plain)
    case "icon" => Segment(theme.icon(e), Painted(theme.iconColor(e), false))
    case "filename" =>
      PadEndAligns(e.path, Lookup(widths, "filename"));
      var padded := if !isLast then PadEnd(e.path, Lookup(widths, "filename")) else e.path;
      Segment(padded, Painted(NameColor(e, theme.palette), GetFileType(e) != RegularFile))
    case _ => Segment("", Plain)
  }

  lemma PadStartAligns(s: string, width: nat)
    ensures RightAligned(PadStart(s, width), s, width)
  {
    if |s| >= width {
      assert Repeat(' ', 0) == [];
    }
  }

  lemma PadEndAligns(s: string, width: nat)
    ensures LeftAligned(PadEnd(s, width), s, width)
  {
    if |s| >= width {
      assert Repeat(' ', 0) == [];
    }
  }

  /** `parts.join(sep)`: the parts in order with a plain separator between neighbours. */
  function Joined(parts: seq<Segment>, sep: string): (line: Line)
    ensures |line| == if parts == [] then 0 else 2 * |parts| - 1
    ensures forall k :: 0 <= k < |parts| ==> line[2 * k] == parts[k]
    ensures forall k :: 0 <= k < |parts| - 1 ==> line[2 * k + 1] == Segment(sep, Plain)
  {
    if |parts| <= 1 then parts
    else Joined(parts[..|parts| - 1], sep) + [Segment(sep, Plain), parts[|parts| - 1]]
  }

  /** The parts of one entry, one per configured field, in configured order. */
  function Parts(e: FileEntry, fields: seq<string>, widths: map<string, nat>, theme: Theme): (parts: seq<Segment>)
    ensures |parts| == |fields|
    ensures forall k :: 0 <= k < |fields| ==> parts[k] == FieldPart(e, fields[k], k == |fields| - 1, widths, theme)
  {
    seq(|fields|, k requires 0 <= k < |fields| => FieldPart(e, fields[k], k == |fields| - 1, widths, theme))
  }

  /** `println!("{}{}", prefix, output_parts.join("  "))`. */
  function LongLine(e: FileEntry, fields: seq<string>, widths: map<string, nat>, prefix: string, theme: Theme): Line
  {
    [Segment(prefix, Plain)] + Joined(Parts(e, fields, widths, theme), Separator)
  }

  /** `print_long_entries`: nothing for an empty listing, else one line per entry. */
  function LongLines(entries: seq<FileEntry>, fields: seq<string>, prefix: string, theme: Theme): (lines: seq<Line>)
    ensures |lines| == |entries|
  {
    if entries == [] then []
    else seq(|entries|, i requires 0 <= i < |entries| => LongLine(entries[i], fields, ColumnWidths(entries, fields), prefix, theme))
  }

  method PrintLongEntries(entries: seq<FileEntry>, fields: seq<string>, prefix: string, theme: Theme)
    returns (lines: seq<Line>)
    ensures lines == LongLines(entries, fields, prefix, theme)
  {
    if entries == [] {
      return [];
    }
    var widths := CalculateColumnWidths(entries, fields);
    lines := PrintLongEntriesWithWidths(entries, fields, prefix, widths, theme);
  }

  /** The per-entry loop with its inner per-field loop pushing onto `output_parts`. */
  method PrintLongEntriesWithWidths(entries: seq<FileEntry>, fields: seq<string>, prefix: string,
                                    widths: map<string, nat>, theme: Theme)
    returns (lines: seq<Line>)
    ensures |lines| == |entries|
    ensures forall i :: 0 <= i < |entries| ==> lines[i] == LongLine(entries[i], fields, widths, prefix, theme)
  {
    lines := [];
    var i := 0;
    while i < |entries|
      invariant 0 <= i <= |entries|
      invariant |lines| == i
      invariant forall n :: 0 <= n < i ==> lines[n] == LongLine(entries[n], fields, widths, prefix, theme)
    {
      var parts := EntryParts(entries[i], fields, widths, theme);
      lines := lines + [[Segment(prefix, Plain)] + Joined(parts, Separator)];
      i := i + 1;
    }
  }

  /** The inner per-field loop pushing each field's part onto `output_parts`. */
  method EntryParts(e: FileEntry, fields: seq<string>, widths: map<string, nat>, theme: Theme)
    returns (parts: seq<Segment>)
    ensures parts == Parts(e, fields, widths, theme)
  {
    parts := [];
    var idx := 0;
    while idx < |fields|
      invariant 0 <= idx <= |fields|
      invariant parts == Parts(e, fields, widths, theme)[..idx]
    {
      parts := parts + [FieldPart(e, fields[idx], idx == |fields| - 1, widths, theme)];
      idx := idx + 1;
    }
  }

  /**
    * Each line is the prefix, then part `k` at position `2k + 1`, with the
    * two-space separator between neighbouring parts.
    */
  lemma LongLineLayout(e: FileEntry, fields: seq<string>, widths: map<string, nat>, prefix: string, theme: Theme)
    ensures var line := LongLine(e, fields, widths, prefix, theme);
      |line| == (if fields == [] then 1 else 2 * |fields|) &&
      line[0] == Segment(prefix, Plain) &&
      (forall k :: 0 <= k < |fields| ==> line[2 * k + 1] == FieldPart(e, fields[k], k == |fields| - 1, widths, theme)) &&
      (forall k :: 0 <= k < |fields| - 1 ==> line[2 * k + 2] == Segment("  ", Plain))
  {
    PrefixedJoined(prefix, Parts(e, fields, widths, theme), Separator);
  }

  /** A prefix segment followed by joined parts: part k at 2k+1, the separator between neighbours. */
  lemma PrefixedJoined(prefix: string, parts: seq<Segment>, sep: string)
    ensures var line := [Segment(prefix, Plain)] + Joined(parts, sep);
      |line| == (if parts == [] then 1 else 2 * |parts|) &&
      line[0] == Segment(prefix, Plain) &&
      (forall k :: 0 <= k < |parts| ==> line[2 * k + 1] == parts[k]) &&
      (forall k :: 0 <= k < |parts| - 1 ==> line[2 * k + 2] == Segment(sep, Plain))
  {
    var joined := Joined(parts, sep);
    var line := [Segment(prefix, Plain)] + joined;
    forall k | 0 <= k < |parts|
      ensures line[2 * k + 1] == parts[k]
    {
      assert line[2 * k + 1] == joined[2 * k];
    }
    forall k | 0 <= k < |parts| - 1
      ensures line[2 * k + 2] == Segment(sep, Plain)
    {
      assert line[2 * k + 2] == joined[2 * k + 1];
    }
  }


  /** A value padded to a width at least its UTF-8 length fills exactly that many characters. */
  lemma PadFills(s: string, w: nat)
    requires Utf8Len(s) <= w
    ensures |PadStart(s, w)| == w && |PadEnd(s, w)| == w
  {
    Utf8LenCountsBytes(s);
  }

  /**
    * Every padded cell of a column has exactly the column's width in
    * characters: the width is the largest byte length over the same entries,
    * and a string has no more characters than bytes.
    */
  lemma PaddedColumnAligned(entries: seq<FileEntry>, fields: seq<string>, i: nat, name: string, theme: Theme)
    requires i < |entries| && name in fields
    requires name in {"nlink", "size", "owner", "group", "filename"}
    ensures var widths := ColumnWidths(entries, fields);
      |FieldPart(entries[i], name, false, widths, theme).text| == widths[name]
  {
    var w := FieldWidth(entries, name);
    assert Utf8Len(FieldText(entries[i], name)) <= w;
    PadFills(FieldText(entries[i], name), w);
  }

  /** For ASCII values a measured column is exactly as wide as its longest value. */
  lemma AsciiColumnIsTight(entries: seq<FileEntry>, field: string)
    requires Measured(field) && entries != []
    requires forall i :: 0 <= i < |entries| ==> IsAscii(FieldText(entries[i], field))
    ensures exists i :: 0 <= i < |entries| && |FieldText(entries[i], field)| == FieldWidth(entries, field)
    ensures forall i :: 0 <= i < |entries| ==> |FieldText(entries[i], field)| <= FieldWidth(entries, field)
  {
    forall i | 0 <= i < |entries|
      ensures |FieldText(entries[i], field)| == Utf8Len(FieldText(entries[i], field))
    {
      Utf8LenCountsBytes(FieldText(entries[i], field));
    }
    var k :| 0 <= k < |entries| && Utf8Len(FieldText(entries[k], field)) == FieldWidth(entries, field);
    assert |FieldText(entries[k], field)| == FieldWidth(entries, field);
  }
}
