# lx-cli listing core, modelled in Dafny

This project models the in-memory core of `lx`, a directory lister. The core
takes entries that have already been read from disk and decides three things:
how each entry is classified and rendered as text, in which order entries come,
and how they are laid out as lines.

- **Entries** (`file_entry.dfy`). An entry is a directory, an executable or a
  regular file. The model covers:
  - the ten-character `rwx` permission string;
  - the size rendering in B, K, M and G;
  - the modification-time fallback.
- **Sorting** (`sorting.dfy`, `sort.dfy`).
  - `--sort` field names are parsed case-insensitively.
  - The four stable in-place orderings are name, size, date and type.
  - `SortSeq` is the reference result of a stable sort. An in-place array
    insertion sort is proved to produce it. Sortedness, permutation and
    stability are proved to determine that result uniquely.
- **Renderers**:
  - the short grid, with one column per type or column-major wrapping under a
    row cap (`short.dfy`);
  - the long view, with per-field column widths (`long.dfy`);
  - one entry per line (`one_per_line.dfy`);
  - the recursive tree (`recursive.dfy`).

  `layout.dfy` holds what these share: the split into type groups, per-group
  name sorting, maxima, and the "icon name" label with its padded cell.
- **Theme** (`config.dfy`, `icon.dfy`, `styled.dfy`):
  - colour names, their defaults and case-insensitive parsing;
  - the built-in icons and their colours;
  - styled output lines. A line is a sequence of segments, and each segment
    is plain text or text painted with a colour, optionally bold.

Output is a sequence of lines, not printing. The renderers' loops become Dafny
methods with loop invariants. Each method is proved equal to a specification
function, and the properties are proved about those functions.

A few inputs come from parts of the program that are not part of this model:
- the configured icon and icon colour of an entry;
- the display width of a string;
- calendar rendering;
- the tree style;
- the long-format field list.

These become parameters. They are collected in `Layout.Theme`, or passed as
arguments.

## Model

| member | source | states |
|---|---|---|
| Strings.CmpInt | src/sort.rs:41-46 | integer comparison answers Less, Equal or Greater exactly when a < b, a = b or a > b |
| Strings.StrCmpReverse | src/sort.rs:33-39 | swapping the two names reverses `StrCmp`, the ordinal comparison of `str::cmp` |
| Strings.StrCmpEqual | src/sort.rs:33-39 | two names compare Equal exactly when they are identical, so the comparison is case-sensitive |
| Strings.StrCmpTransitive | src/sort.rs:33-39 | "not greater" is transitive for the ordinal name comparison |
| Strings.StrCmpPrefix | src/sort.rs:33-39 | a proper prefix sorts before the longer name |
| Strings.Repeat | src/formatter/short.rs:133 | `" ".repeat(n)` is exactly n copies of the character |
| Strings.NatToStringRoundTrip | src/file_entry.rs:80 | `NatToString`, the decimal rendering, is non-empty digits without a leading zero that read back as the number |
| Strings.NatToStringLength | src/formatter/long.rs:46-50 | a rendering of k digits is exactly of a number with 10^(k-1) <= n < 10^k, and zero has one digit |
| Strings.Utf8LenCountsBytes | src/formatter/long.rs:45-67 | `len()` counts at least one byte per character, and exactly one per character iff the text is ASCII |
| Strings.NatToStringAscii | src/formatter/long.rs:48 | rendered counts are ASCII |
| Strings.PadEnd | src/formatter/long.rs:94-101 | left alignment: the value, then blanks up to the width in characters; never truncated |
| Strings.PadStart | src/formatter/long.rs:90-93 | right alignment: blanks up to the width in characters, then the value; never truncated |
| Strings.FoldChar | src/config.rs:95 | exactly A-Z and the Kelvin sign lower-case to ASCII; every other character is kept |
| Strings.FoldCase | src/config.rs:95 | folding maps every character and keeps the length |
| Strings.FoldCaseIdempotent | src/sort.rs:15 | folding twice is folding once |
| Styled.Spaces | src/formatter/short.rs:150 | padding is one unstyled segment of exactly n characters |
| Styled.ColumnsAppend | src/formatter/short.rs:143-151 | display columns add up when a line is extended |
| Styled.TrimEnd | src/formatter/short.rs:237 | `trim_end` keeps a prefix of the line, ends in a non-blank segment, and removes only blank segments |
| Styled.TrimEndKeepsContent | src/formatter/short.rs:370 | trimming a line with content followed by blanks leaves exactly the content |
| Icon.AsStr | src/icon.rs:12-18 | each icon kind is one fixed private-use glyph |
| Icon.GetColor | src/icon.rs:20-26 | directory blue, executable green, regular file white |
| Icon.AsStrInjective | src/icon.rs:12-18 | the three glyphs are distinct, so the glyph identifies the kind |
| Config.ColorConfig.DirectoryColor | src/config.rs:81-83 | the directory colour is the parse of the directory name alone |
| Config.ColorConfig.ExecutableColor | src/config.rs:85-87 | the executable colour is the parse of the executable name alone |
| Config.ColorConfig.RegularColor | src/config.rs:89-91 | the regular colour is the parse of the regular name alone |
| Config.DefaultColorConfig | src/config.rs:41-49 | default names are blue, green, white |
| Config.DefaultDisplayConfig | src/config.rs:51-58 | default spacing 2 and row cap 0, meaning no cap |
| Config.DefaultConfig | src/config.rs:32-39 | the default configuration is built from the two defaults |
| Config.ParseColorKnownNames | src/config.rs:94-111 | `ParseColor`: each of the sixteen names, in any casing, parses to its colour |
| Config.ParseColorFallback | src/config.rs:112 | `ParseColor`: any name that folds to none of the sixteen parses to white |
| Config.ParseColorIgnoresCase | src/config.rs:95 | names equal up to case parse to the same colour |
| Config.ParseColorExamples | src/config.rs:94-114 | `Blue`, `BLUE` and `blue` are blue, the empty name is white, `Bright_Cyan` is bright cyan |
| Config.DefaultColors | src/config.rs:60-91 | the default configuration's accessors yield blue, green and white |
| Config.IconColorsMatchDefaults | src/icon.rs:20-26 | the fixed icon colours equal the parses of the default colour names |
| FileEntries.Rank | src/file_entry.rs:104-109 | type order follows declaration: directory, executable, regular file |
| FileEntries.GetFileType | src/file_entry.rs:40-48 | directory iff `is_dir`, whatever the executable flag; executable iff not a directory and executable; regular otherwise |
| FileEntries.IconMatchesType | src/file_entry.rs:22-30 | `GetFileIcon`: the icon variant always names the entry's type |
| FileEntries.GetIcon | src/file_entry.rs:32-34 | the built-in icon is the glyph of the entry's icon variant |
| FileEntries.GetColor | src/file_entry.rs:36-38 | the label colour is the configured colour of the entry's kind |
| FileEntries.DefaultColorIsIconColor | src/file_entry.rs:36-38 | under the default colour names the label colour is the icon's fixed colour |
| FileEntries.FormatPermissions | src/file_entry.rs:50-75 | exactly ten characters, the first `d` for a directory and `-` otherwise |
| FileEntries.PermissionString | src/file_entry.rs:51-74 | the rendering is ten characters for every flag and mode |
| FileEntries.Triplet | src/file_entry.rs:56-69 | each user class contributes three characters |
| FileEntries.TripletLetters | src/file_entry.rs:57-69 | each permission position holds its `r`, `w` or `x` exactly when its bit is set, and `-` otherwise |
| FileEntries.PermissionsDetermineBits | src/file_entry.rs:50-75 | equal permission strings imply the same directory flag and the same `0o777` bits |
| FileEntries.PermissionsFromBits | src/file_entry.rs:50-75 | the same directory flag and `0o777` bits give equal permission strings |
| FileEntries.PermissionsIgnoreHighBits | src/file_entry.rs:57-69 | bits above `0o777` never change the string |
| FileEntries.PermissionExamples | src/file_entry.rs:50-75 | `0o755` on a directory gives `drwxr-xr-x`; `0o644` on a file gives `-rw-r--r--` |
| FileEntries.RoundHalfEvenNearest | src/file_entry.rs:81-86 | `RoundHalfEven`, the tenths behind `OneDecimal`'s `{:.1}` rendering: one-decimal rounding is within half a unit, and ties go to the even neighbour |
| FileEntries.FormatSize | src/file_entry.rs:77-88 | below 1024 the digits then `B`; otherwise ends in the K, M or G of its tier; always ASCII |
| FileEntries.TenthsOfMultiple | src/file_entry.rs:81-86 | an exact multiple of a unit loses nothing in rounding to tenths |
| FileEntries.FormatSizeExactMultiple | src/file_entry.rs:81-87 | an exact multiple m of a unit prints as m, `.0` and the unit letter |
| FileEntries.FormatSizeBoundaries | src/file_entry.rs:79-87 | 1023 is `1023B`, 1024 is `1.0K`, 1048576 is `1.0M`, 1 GiB is `1.0G` |
| FileEntries.FormatSizeRoundsUpWithinTier | src/file_entry.rs:81-82 | the tier is chosen before rounding, so 1048575 prints as `1024.0K` |
| FileEntries.FormatModified | src/file_entry.rs:90-101 | `Unknown` before the epoch, else the calendar rendering of the whole seconds |
| Sorting.SortSeq | src/sort.rs:33-39 | the reference stable sort keeps the length |
| Sorting.SortPermutes | src/sort.rs:33-39 | sorting neither drops nor duplicates anything |
| Sorting.SortSorted | src/sort.rs:33-39 | the result has neighbours in order for any total preorder |
| Sorting.SortOrdersPairs | src/sort.rs:33-39 | the result has every pair in order |
| Sorting.SortedUnchanged | src/sort.rs:33-39 | an already sorted sequence is left as it is |
| Sorting.SortIdempotent | src/sort.rs:33-75 | sorting twice is sorting once |
| Sorting.SortStable | src/sort.rs:41-46 | elements that compare equal come out in the order they went in |
| Sorting.StableSortUnique | src/sort.rs:33-75 | a sequence with every pair in order and the equal elements in input order is exactly `SortSeq`, so any stable sort agrees |
| Sorting.SameClassesSame | src/sort.rs:33-75 | two sorted sequences with the same equal-element classes are identical |
| Sorting.InsertPermutes | src/sort.rs:33-39 | inserting an element adds exactly that element to the multiset |
| Sorting.InsertSorted | src/sort.rs:33-39 | inserting into a sorted sequence keeps it sorted |
| Sorting.InsertStable | src/sort.rs:33-39 | inserting places the element after everything that compares equal to it |
| Sorting.SortInPlace | src/sort.rs:33-39 | the in-place sort of an array leaves exactly `SortSeq` of its old contents |
| Sorting.InsertInPlace | src/sort.rs:33-39 | one insertion step turns the sorted prefix plus the next element into their insertion and leaves the rest alone |
| Sort.FromStr | src/sort.rs:14-21 | Size, Date or Type exactly when the folded name is `size`, `date` or `type`; Name for anything else |
| Sort.FromStrExamples | src/sort.rs:14-21 | `SIZE`, `Date`, `tYpE` select their fields; `name`, the empty string and `sizes` select Name |
| Sort.ByNameIsTotalPreorder | src/sort.rs:33-39 | `ByName`, the name comparator, is a total preorder |
| Sort.BySizeIsTotalPreorder | src/sort.rs:41-46 | `BySize`, the descending size comparator, is a total preorder |
| Sort.ByDateIsTotalPreorder | src/sort.rs:48-60 | `ByDate`, descending time then ascending name, is a total preorder |
| Sort.ByTypeIsTotalPreorder | src/sort.rs:62-75 | `ByType`, type rank then ascending name, is a total preorder |
| Sort.ComparatorIsTotalPreorder | src/sort.rs:24-31 | every comparator `Comparator` dispatches to is a total preorder |
| Sort.SortEntries | src/sort.rs:24-31 | `sort_entries` reorders the array in place into the stable sort by the chosen field |
| Sort.SortByName | src/sort.rs:33-39 | in place, the stable sort by ordinal name |
| Sort.SortBySize | src/sort.rs:41-46 | in place, the stable sort by descending size |
| Sort.SortByDate | src/sort.rs:48-60 | in place, the stable sort by descending time, then ascending name |
| Sort.SortByType | src/sort.rs:62-75 | in place, the stable sort by type rank, then ascending name |
| Sort.SortEntriesPermutes | src/sort.rs:24-31 | for every field the result is a permutation of the input |
| Sort.SortEntriesIdempotent | src/sort.rs:33-75 | for every field re-sorting a sorted listing changes nothing |
| Sort.NameSortOrdered | src/sort.rs:33-39 | names ascend under the case-sensitive ordinal comparison |
| Sort.SizeSortDescending | src/sort.rs:41-46 | sizes never increase along the result |
| Sort.SizeSortStable | src/sort.rs:41-46 | entries of one size keep their relative order |
| Sort.DateSortOrdered | src/sort.rs:48-60 | times never increase, and equal times are in ascending name order |
| Sort.TypeSortGrouped | src/sort.rs:62-75 | directories, then executables, then regular files, each in ascending name order |
| Sort.NameSortExample | src/sort.rs:33-39 | `A.txt` sorts before `b.txt` |
| Sort.SizeSortExample | src/sort.rs:41-46 | sizes 10, 1000, 100 sort to 1000, 100, 10 |
| Layout.NameColorIsGetColor | src/formatter/one_per_line.rs:42 | the palette colour of a name is `get_color` on the colour configuration |
| Layout.OfType | src/formatter/short.rs:11-17 | a type group holds only entries of that type |
| Layout.OfTypeAppend | src/formatter/long.rs:10-16 | selecting a type distributes over concatenation |
| Layout.OfTypeCounts | src/formatter/short.rs:11-17 | a group holds every entry of its type with its multiplicity, and nothing else |
| Layout.PartitionPermutes | src/formatter/short.rs:11-17 | the three groups together are a permutation of the listing |
| Layout.OfTypeOfGroup | src/formatter/long.rs:10-23 | selecting a group's own type keeps it whole, and any other type finds nothing |
| Layout.Partition | src/formatter/short.rs:7-17 | the push loop builds exactly the three type groups, each in input order |
| Layout.SortGroupByName | src/formatter/short.rs:20-24 | a group is sorted in place into the stable name sort |
| Layout.SortedGroup | src/formatter/short.rs:19-34 | a sorted group has the same entries, with names ascending |
| Layout.MaxOver | src/formatter/short.rs:89-98 | `max().unwrap_or(0)` bounds every value, is attained, and is 0 for nothing |
| Layout.GroupWidth | src/formatter/short.rs:250-258 | the column width is at least every label's width, and 0 exactly for an empty group |
| Layout.Label | src/formatter/short.rs:300-304 | a label is the icon, a blank, and the name |
| Layout.LabelColumns | src/formatter/short.rs:296-298 | a label spans the icon's width, one column and the name's width |
| Layout.Cell | src/formatter/short.rs:300-308 | a cell starts with the label |
| Layout.CellColumns | src/formatter/short.rs:305-308 | a cell spans the width, or the label's width when the label is wider |
| Layout.CellFillsGroupWidth | src/formatter/short.rs:250-258 | every cell of a group padded to the group width spans exactly that width |
| Layout.AppendCell | src/formatter/short.rs:300-308 | pushing a label and its padding appends exactly the cell |
| Layout.TrimKeepsSegment | src/formatter/short.rs:370 | trimming never cuts into a painted segment or anything before it |
| Layout.Labels | src/formatter/one_per_line.rs:36-44 | one label per entry, in group order |
| Layout.SortedGroupHasType | src/formatter/one_per_line.rs:10-33 | a sorted group still holds only its type |
| Layout.AppendLabels | src/formatter/one_per_line.rs:36-44 | the print loop appends exactly the group's labels |
| Long.TypeOrderedPermutes | src/formatter/long.rs:10-23 | `TypeOrdered`, the order of the long view, neither drops nor repeats an entry |
| Long.TypeOrderedKeepsGroups | src/formatter/long.rs:18-23 | each type's entries appear exactly as, and in the order, they came in: no re-sorting |
| Long.TypeOrderedRanks | src/formatter/long.rs:20-23 | every directory precedes every executable, which precedes every regular file |
| Long.FormatLong | src/formatter/long.rs:5-26 | the partition loop and the three extends produce the type-ordered lines |
| Long.FieldWidth | src/formatter/long.rs:45-69 | the largest byte length over all entries, attained; 0 for no entries or an unmeasured field |
| Long.ColumnWidths | src/formatter/long.rs:42-73 | one key per configured field, holding that field's width |
| Long.CalculateColumnWidths | src/formatter/long.rs:38-74 | the insert loop builds exactly that map |
| Long.FieldPart | src/formatter/long.rs:88-132 | counts and sizes right-aligned; owner, group and a non-last name left-aligned; permissions and time unpadded; names bold unless regular; unknown fields empty |
| Long.PadStartAligns | src/formatter/long.rs:92 | `{:>w$}` right-aligns the value |
| Long.PadEndAligns | src/formatter/long.rs:96 | `{:<w$}` left-aligns the value |
| Long.Joined | src/formatter/long.rs:136 | `join("  ")` puts the parts in order with the separator between neighbours |
| Long.Parts | src/formatter/long.rs:85-134 | one part per configured field, in configured order, the last field marked last |
| Long.LongLines | src/formatter/long.rs:28-36 | one line per entry, so none for an empty listing |
| Long.PrintLongEntries | src/formatter/long.rs:28-36 | the printer's lines are the specification's |
| Long.PrintLongEntriesWithWidths | src/formatter/long.rs:76-138 | the per-entry loop yields line i for entry i |
| Long.EntryParts | src/formatter/long.rs:85-134 | the per-field loop pushes exactly the entry's parts |
| Long.LongLineLayout | src/formatter/long.rs:84-136 | each `LongLine` is the prefix, then part k at position 2k+1, separated by two blanks |
| Long.PadFills | src/formatter/long.rs:90-100 | a value padded to at least its byte length fills exactly that many characters |
| Long.PaddedColumnAligned | src/formatter/long.rs:45-118 | every padded count, size, owner, group and non-last name has exactly its column's width in characters |
| Long.AsciiColumnIsTight | src/formatter/long.rs:45-67 | for ASCII values the column is exactly as wide as its longest value |
| OnePerLine.FormatOnePerLine | src/formatter/one_per_line.rs:5-67 | the partition, sort and print loops produce the specified lines |
| OnePerLine.OnePerLineShowsEveryEntry | src/formatter/one_per_line.rs:10-66 | `OnePerLineLines` has one line per entry of `Listed`, none dropped or repeated; line i is the label of printed entry i, bold exactly unless a regular file |
| OnePerLine.ListedPermutes | src/formatter/one_per_line.rs:10-33 | the printed entries are the listing rearranged |
| OnePerLine.GroupedLineAt | src/formatter/one_per_line.rs:36-66 | printing three typed groups in turn gives line i as the label of entry i of the three together |
| OnePerLine.LineAt | src/formatter/one_per_line.rs:36-66 | line i is the label of the i-th printed entry |
| OnePerLine.ListedOrder | src/formatter/one_per_line.rs:18-66 | directories, then executables, then regular files; names ascending within a type |
| OnePerLine.GroupedOrder | src/formatter/one_per_line.rs:35-66 | concatenated name-sorted typed groups are ordered by type, then name |
| Short.Gap | src/formatter/short.rs:162-164 | `column_spacing` blanks only when a later group exists |
| Short.Rows | src/formatter/short.rs:287-371 | a row loop yields exactly n lines, line i being row i |
| Short.PrintedPrefix | src/formatter/short.rs:123-239 | when exactly the rows below k have content, the printed lines are the first min(n, k) rows |
| Short.FormatShort | src/formatter/short.rs:6-59 | `ShortLines`: `SingleColumnLines` when the cap is 0, else `WrapLines`, the wrapped layout with label widths |
| Short.ShortGroups | src/formatter/short.rs:11-34 | the groups partition the listing, each of its own type with names ascending |
| Short.ColumnPart | src/formatter/short.rs:292-312 | a row's column is the entry's padded cell, or blanks of the column width |
| Short.Section | src/formatter/short.rs:291-318 | an empty group adds nothing; otherwise the column part and the gap when a later group exists |
| Short.FileSection | src/formatter/short.rs:351-368 | the regular-file column holds the padded cell, or nothing past the group's end |
| Short.SingleColumnShape | src/formatter/short.rs:281-371 | as many lines as the largest group, line i being row i trimmed |
| Short.FormatSingleColumnPerType | src/formatter/short.rs:242-372 | the row loop produces exactly those lines |
| Short.AppendSection | src/formatter/short.rs:291-318 | pushing a section appends exactly it |
| Short.AppendFileSection | src/formatter/short.rs:351-368 | pushing the regular-file column appends exactly it |
| Short.SingleColumnAligned | src/formatter/short.rs:291-348 | each section spans its group width plus the gap in every row, so columns line up; an empty group adds nothing |
| Short.GapColumns | src/formatter/short.rs:315-317 | the gap spans the spacing or nothing |
| Short.ColumnPartFills | src/formatter/short.rs:305-311 | a column part spans exactly the group width, entry or not |
| Short.RowShowsDirectory | src/formatter/short.rs:292-304 | row i opens with directory i's label, kept whole by trimming |
| Short.RowShowsExecutable | src/formatter/short.rs:322-334 | row i shows executable i's label right after the directory section |
| Short.RowShowsRegularFile | src/formatter/short.rs:351-363 | row i shows regular file i's label after both sections |
| Short.SectionShowsLabel | src/formatter/short.rs:300-304 | a section with an entry opens with its label |
| Short.FirstSurvivesTrim | src/formatter/short.rs:370 | a label opening the first section survives trimming at its position |
| Short.SecondSurvivesTrim | src/formatter/short.rs:370 | a label opening the second section survives trimming at its position |
| Short.ThirdSurvivesTrim | src/formatter/short.rs:370 | a label opening the third section survives trimming at its position |
| Short.TrimKeepsLabel | src/formatter/short.rs:370 | trimming keeps any label in place |
| Short.NumColsIsCeiling | src/formatter/short.rs:70-86 | `NumCols`: 0 columns exactly for an empty group, otherwise the fewest columns of m rows that hold it |
| Short.NumColsWrapsAround | src/formatter/short.rs:73 | `NumColsAsWritten`, in `usize`: a row cap of `usize::MAX` gives a two-entry group no column; the corrected count gives it one |
| Short.Placement | src/formatter/short.rs:129-131 | with `CellIndex` as `idx = col * max_rows + row`, entry i sits at row i % m, column i / m, that column exists, and no other cell addresses it |
| Short.WrapCell | src/formatter/short.rs:130-158 | an entry's gap and padded cell; past the end, `width` blanks in column 0 and `spacing + width` later |
| Short.WrapSection | src/formatter/short.rs:128-165 | a group without columns adds nothing |
| Short.FileWrapCell | src/formatter/short.rs:209-232 | nothing past the group's end; the last column's label is unpadded |
| Short.WrapLinesShape | src/formatter/short.rs:123-239 | with a cap, min(m, largest group) lines, each a row trimmed; rows without entries skipped |
| Short.WrapCellPlacesEntry | src/formatter/short.rs:129-151 | row i % m holds entry i's padded label in column i / m |
| Short.WrapCellSpan | src/formatter/short.rs:129-158 | every cell spans the column width plus the spacing after column 0 |
| Short.WrapCellsSpan | src/formatter/short.rs:129-159 | the columns of a section span the same number of display columns in every row |
| Short.WrapSectionAligned | src/formatter/short.rs:128-165 | a section with label widths spans cols * w + (cols - 1) * spacing plus the gap in every row |
| Short.AppendWrapSection | src/formatter/short.rs:128-165 | the column loop appends the section and reports whether the row has an entry of the group |
| Short.AppendWrapCell | src/formatter/short.rs:130-158 | one column iteration appends exactly its cell |
| Short.AppendFileWrapSection | src/formatter/short.rs:207-234 | the regular-file loop appends its section and reports content |
| Short.AppendFileWrapCell | src/formatter/short.rs:209-232 | one regular-file column iteration appends exactly its cell |
| Short.PrintRows | src/formatter/short.rs:123-239 | the row loop prints the rows with content, trimmed |
| Short.PrintRow | src/formatter/short.rs:236-238 | a row is printed trimmed exactly when it has content |
| Short.BuildWrapRow | src/formatter/short.rs:124-234 | the three sections build the row, and the flag says whether any group has an entry in it |
| Short.FormatWithMaxRows | src/formatter/short.rs:61-240 | the wrapped layout with every column as wide as its widest label |
| Short.BuiltInGroupWidth | src/formatter/short.rs:89-120 | the width as written bounds every built-in-icon label, 0 exactly for an empty group |
| Short.FormatWithMaxRowsAsWritten | src/formatter/short.rs:61-240 | `WrapLinesAsWritten`: widths measured with the built-in icons, labels with the configured ones |
| Short.WrapWidthMisaligns | src/formatter/short.rs:89-151 | with a wider configured icon, the same section spans 7 columns in one row and 6 in the next; with label widths it spans 7 in both |
| Short.OneColumnSectionSpan | src/formatter/short.rs:136-164 | a one-column section with an entry spans its cell plus the gap |
| Recursive.Present | src/formatter/recursive.rs:53 | `filter_map(ok)` keeps exactly the entries that read without error |
| Recursive.ByFileNameIsTotalPreorder | src/formatter/recursive.rs:56-60 | the file-name comparator is a total preorder |
| Recursive.Visible | src/formatter/recursive.rs:62-74 | the filter keeps exactly the nodes that are not hidden, or all when hidden files are shown |
| Recursive.VisibleKeepsOrder | src/formatter/recursive.rs:62-74 | filtering after sorting keeps every pair in name order |
| Recursive.VisibleAll | src/formatter/recursive.rs:66-67 | with hidden files shown, nothing is removed |
| Recursive.ShownIsSortedVisible | src/formatter/recursive.rs:53-74 | `Shown`, the listed children, are exactly the readable, non-hidden entries, in ordinal name order, all of them when hidden files are shown |
| Recursive.ShownFromEntries | src/formatter/recursive.rs:53-74 | every listed child is one of the directory's own entries |
| Recursive.ChildPrefix | src/formatter/recursive.rs:137-141 | the subtree prefix is the prefix extended by the connector's extension, in either style |
| Recursive.ConnectorShape | src/formatter/recursive.rs:103-112 | `Connector`: in `ascii`, a corner exactly for the last child and a bar continuing below every other; otherwise no connector and two blanks |
| Recursive.ChildEntry | src/formatter/recursive.rs:84-100 | the entry carries the node's name, kind, mode and size |
| Recursive.ChildType | src/formatter/recursive.rs:84-85 | a child is executable exactly when it is not a directory and some execute bit is set |
| Recursive.EntryLine | src/formatter/recursive.rs:130-133 | a line is four segments, opening with prefix and connector unstyled |
| Recursive.EntryLineText | src/formatter/recursive.rs:114-133 | the line reads prefix, connector, icon, blank, name; the name is bold exactly for directories and executables |
| Recursive.TreeLines | src/formatter/recursive.rs:44-156 | an unreadable directory prints nothing; every line lies behind the prefix |
| Recursive.SiblingLines | src/formatter/recursive.rs:76-152 | every sibling's line lies behind the prefix |
| Recursive.ChildLines | src/formatter/recursive.rs:77-151 | nothing when metadata fails; else the child's own line first, then its whole subtree behind the extended prefix; a non-directory prints one line |
| Recursive.ChildClosesLevel | src/formatter/recursive.rs:103-108 | in `ascii`, a child's lines close its level exactly when it is last and has metadata |
| Recursive.SiblingsCloseLevel | src/formatter/recursive.rs:76-112 | in `ascii`, a level gets its corner exactly when its last listed child has metadata: a failed last child still counts as last |
| Recursive.RootEntry | src/formatter/recursive.rs:14-24 | the root stands in as a non-executable directory with mode `0o755` |
| Recursive.FormatRecursive | src/formatter/recursive.rs:8-42 | exactly the header's lines, then the root listing's tree lines, each behind the empty prefix; only the header for an unreadable root |
| Recursive.HeaderShape | src/formatter/recursive.rs:10-37 | `Header`: one line iff the path has a final name; just the name when the icon is empty, else icon, blank, name; the name bold in the directory colour |

## Left out

- `src/reader.rs`, `src/main.rs`, `src/cli.rs`, `src/lib.rs`, `src/formatter/mod.rs` and the superseded `src/formatter.rs` are not part of this model. They hold filesystem reading, argument parsing, dispatch and module wiring.
- `load_config` and `get_config_path` are not modelled. They read a file, look up the home directory and parse TOML.
- The bodies of `get_icon_custom`, `get_icon_color`, `config.icons`, the tree style and `long_format_fields` are not part of this model. They are inputs: `Theme.icon`, `Theme.iconColor`, the `style` argument and the `fields` argument.
- `UnicodeWidthStr::width` is the `Theme.width` parameter. The Unicode width tables are not modelled.
- `chrono` calendar formatting is the `Theme.date` parameter, a function of whole seconds since the epoch.
- ANSI escape codes from `colored` are not modelled. A painted segment is an opaque (text, colour, bold) tag, and trimming treats it as non-blank.
- `println!` is not modelled. Each renderer returns its lines.
- `fs::read_dir` and `metadata` are replaced by the `Listing` and `Node` datatypes. A failed directory read is `Unreadable`, a failed entry is `None`, and failed metadata is `meta == None`.
- `to_string_lossy` is not modelled. Names are already strings of code points, and ordinal code-point order equals UTF-8 byte order.
- FileEntries.FormatSize: the one-decimal value is exact tenths rounding with ties to even, which is what `f64` formatting gives while the size is below 2^53. Larger sizes, where the `f64` conversion itself rounds, are not modelled.
- FileEntries.TripletLetters: the positional property is stated per user class (three letters per triplet, three triplets after the type flag), not as one statement over positions 1 to 9.
- Short.FormatShort: with a row cap it dispatches to the corrected FormatWithMaxRows, which pads every column to its widest configured-icon label. The source measures widths with the built-in icon (src/formatter/short.rs:89-120), which FormatWithMaxRowsAsWritten models. The two differ when a configured icon is wider than the built-in one (see Findings).
- FileEntries.GetColor: `get_color` at src/file_entry.rs:37 calls `get_color(config)` on the icon, but `FileIcon::get_color` in src/icon.rs:20-26 takes no configuration and returns fixed colours. The model reads the call as the configured colour of the entry's kind (src/config.rs:81-91). FileEntries.DefaultColorIsIconColor shows that the two readings agree under the default colour names.
- Short.NumCols: counts in unbounded integers, the evidently intended ceiling. The `usize` wrap-around is modelled separately, as NumColsAsWritten.
- `slice::sort_by` is a merge sort. The model sorts arrays by insertion, and Sorting.StableSortUnique shows every stable sort gives the same result.
- Sizes, link counts and widths are unbounded naturals. Apart from the column count above, no `u64` or `usize` limit is reached by the arithmetic modelled.

## Findings

| source | as written | input that shows it | evidently intended | confidence | as-written member | corrected member |
|---|---|---|---|---|---|---|
| src/formatter/short.rs:89-120 | the wrapped layout measures column widths with the built-in icon (`get_icon`), but prints and pads labels with the configured icon (`get_icon_custom`) | a configured icon two columns wide, directories `aa` and `b`, row cap 2, spacing 2: the directory section spans 7 columns in row 0 and 6 in row 1 | widths measured with the configured icon, as `format_single_column_per_type` does, so every row's section has the same width | not executed; high | Short.WrapWidthMisaligns | Short.WrapSectionAligned |
| src/formatter/short.rs:73 | `(len + max_rows - 1) / max_rows` is computed in `usize`, and the sum wraps around in a release build | row cap `usize::MAX` and a group of two entries: the sum wraps to 0, so the group gets 0 columns and is not printed | `ceil(len / max_rows)` columns, at least one for a non-empty group | not executed; low, needs a row cap near `usize::MAX` | Short.NumColsWrapsAround | Short.NumColsIsCeiling |
