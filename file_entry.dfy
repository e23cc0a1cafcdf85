/**
  * One listed filesystem node (`FileEntry`), its three-way classification and
  * the three text renderings it offers: permission string, human size and
  * modification time.
  */
module FileEntries {
  import opened Strings
  import opened Styled
  import Icon
  import Config

  /** `FileType`, in declaration order: Directory < Executable < RegularFile. */
  datatype FileType = Directory | Executable | RegularFile

  /** Position of a type in the declaration order, the order the renderers group by. */
  function Rank(t: FileType): (r: nat)
    ensures r < 3
    ensures t == Directory <==> r == 0
    ensures t == Executable <==> r == 1
  {
    match t
    case Directory => 0
    case Executable => 1
    case RegularFile => 2
  }

  /**
    * `FileEntry`. `mode` is the raw `u32` permission word; `modified` is the
    * modification time in nanoseconds relative to the Unix epoch (negative
    * before it); `path` is the label shown for the entry.
    */
  datatype FileEntry = FileEntry(
    path: string,
    isDir: bool,
    isExecutable: bool,
    mode: bv32,
    size: nat,
    modified: int,
    owner: string,
    group: string,
    nlink: nat)

  /** `get_file_type`: a directory is a directory whatever its executable flag. */
  function GetFileType(e: FileEntry): (t: FileType)
    ensures t == Directory <==> e.isDir
    ensures t == Executable <==> !e.isDir && e.isExecutable
    ensures t == RegularFile <==> !e.isDir && !e.isExecutable
  {
    if e.isDir then Directory
    else if e.isExecutable then Executable
    else RegularFile
  }

  /** `get_file_icon`: the same three-way rule, producing an icon variant. */
  function GetFileIcon(e: FileEntry): Icon.FileIcon
  {
    if e.isDir then Icon.Directory
    else if e.isExecutable then Icon.Executable
    else Icon.RegularFile
  }

  /** The icon variant always names the entry's type. */
  lemma IconMatchesType(e: FileEntry)
    ensures GetFileIcon(e) == match GetFileType(e)
      case Directory => Icon.Directory
      case Executable => Icon.Executable
      case RegularFile => Icon.RegularFile
  {
  }

  /** `get_icon`: the built-in glyph of the entry's kind. */
  function GetIcon(e: FileEntry): (s: string)
    ensures s == Icon.AsStr(GetFileIcon(e))
  {
    Icon.AsStr(GetFileIcon(e))
  }

  /**
    * `get_color`: the configured label colour of the entry's kind (the
    * `get_*_color` accessor of the colour configuration).
    */
  function GetColor(e: FileEntry, colors: Config.ColorConfig): (c: Color)
    ensures e.isDir ==> c == Config.ParseColor(colors.directory)
    ensures !e.isDir && e.isExecutable ==> c == Config.ParseColor(colors.executable)
    ensures !e.isDir && !e.isExecutable ==> c == Config.ParseColor(colors.regular)
  {
    match GetFileIcon(e)
    case Directory => colors.DirectoryColor()
    case Executable => colors.ExecutableColor()
    case RegularFile => colors.RegularColor()
  }

  /** Under the default colour names the label colour is the icon's fixed colour. */
  lemma DefaultColorIsIconColor(e: FileEntry)
    ensures GetColor(e, Config.DefaultColorConfig()) == Icon.GetColor(GetFileIcon(e))
  {
    Config.DefaultColors();
  }

  /** One permission letter: `c` when `bit` is set in `mode`, else '-'. */
  function PermChar(mode: bv32, bit: bv32, c: char): char
  {
    if mode & bit != 0 then c else '-'
  }

  /** `format_permissions`: type flag then user, group and other `rwx`, each bit tested on its own. */
  function FormatPermissions(e: FileEntry): (r: string)
    ensures |r| == 10
    ensures r[0] == (if e.isDir then 'd' else '-')
  {
    PermissionString(e.isDir, e.mode)
  }

  /** The ten characters for a directory flag and a mode. */
  function PermissionString(isDir: bool, mode: bv32): (r: string)
    ensures |r| == 10
  {
    [if isDir then 'd' else '-']
      + Triplet(mode, 0x100, 0x80, 0x40)
      + Triplet(mode, 0x20, 0x10, 0x8)
      + Triplet(mode, 0x4, 0x2, 0x1)
  }

  /** The `rwx` letters of one class of users: owner (`0o700`), group (`0o070`) or other (`0o007`). */
  function Triplet(mode: bv32, r: bv32, w: bv32, x: bv32): (s: string)
    ensures |s| == 3
  {
    [PermChar(mode, r, 'r'), PermChar(mode, w, 'w'), PermChar(mode, x, 'x')]
  }

  /** Each letter of a triplet is its letter of "rwx" exactly when the matching bit is set, and '-' otherwise. */
  lemma TripletLetters(mode: bv32, r: bv32, w: bv32, x: bv32)
    ensures var t := Triplet(mode, r, w, x);
      t[0] in {'r', '-'} && (t[0] == 'r' <==> mode & r != 0) &&
      t[1] in {'w', '-'} && (t[1] == 'w' <==> mode & w != 0) &&
      t[2] in {'x', '-'} && (t[2] == 'x' <==> mode & x != 0)
  {
  }

  /**
    * The permission string shows exactly the directory flag and the nine
    * permission bits: two entries get the same string if and only if they
    * agree on both (this direction and `PermissionsFromBits`).
    */
  lemma PermissionsDetermineBits(a: FileEntry, b: FileEntry)
    requires FormatPermissions(a) == FormatPermissions(b)
    ensures a.isDir == b.isDir && a.mode & 0x1FF == b.mode & 0x1FF
  {
    var m1, m2 := a.mode, b.mode;
    SameParts([if a.isDir then 'd' else '-'], Triplet(m1, 0x100, 0x80, 0x40),
              Triplet(m1, 0x20, 0x10, 0x8), Triplet(m1, 0x4, 0x2, 0x1),
              [if b.isDir then 'd' else '-'], Triplet(m2, 0x100, 0x80, 0x40),
              Triplet(m2, 0x20, 0x10, 0x8), Triplet(m2, 0x4, 0x2, 0x1));
    SameTriplet(m1, m2, 0x100, 0x80, 0x40);
    SameTriplet(m1, m2, 0x20, 0x10, 0x8);
    SameTriplet(m1, m2, 0x4, 0x2, 0x1);
    SameNineBits(m1, m2);
  }

  lemma PermissionsFromBits(a: FileEntry, b: FileEntry)
    requires a.isDir == b.isDir && a.mode & 0x1FF == b.mode & 0x1FF
    ensures FormatPermissions(a) == FormatPermissions(b)
  {
    PermissionsIgnoreHighBits(a.isDir, a.mode);
    PermissionsIgnoreHighBits(b.isDir, b.mode);
  }

  /** Equal concatenations of equally long parts have equal parts. */
  lemma SameParts(p: string, q: string, r: string, s: string, p': string, q': string, r': string, s': string)
    requires |p| == |p'| && |q| == |q'| && |r| == |r'|
    requires p + q + r + s == p' + q' + r' + s'
    ensures p == p' && q == q' && r == r' && s == s'
  {
    var t, t' := p + q + r + s, p' + q' + r' + s';
    assert p == t[..|p|] && p' == t'[..|p|];
    assert q == t[|p|..|p| + |q|] && q' == t'[|p|..|p| + |q|];
    assert r == t[|p| + |q|..|p| + |q| + |r|] && r' == t'[|p| + |q|..|p| + |q| + |r|];
    assert s == t[|p| + |q| + |r|..] && s' == t'[|p| + |q| + |r|..];
  }

  /** Equal triplets test their three bits alike. */
  lemma SameTriplet(m1: bv32, m2: bv32, r: bv32, w: bv32, x: bv32)
    requires Triplet(m1, r, w, x) == Triplet(m2, r, w, x)
    ensures (m1 & r != 0) == (m2 & r != 0) && (m1 & w != 0) == (m2 & w != 0) && (m1 & x != 0) == (m2 & x != 0)
  {
    assert Triplet(m1, r, w, x)[0] == Triplet(m2, r, w, x)[0];
    assert Triplet(m1, r, w, x)[1] == Triplet(m2, r, w, x)[1];
    assert Triplet(m1, r, w, x)[2] == Triplet(m2, r, w, x)[2];
  }

  /** Modes that agree on each of the nine permission bits agree on `0o777`. */
  lemma SameNineBits(m1: bv32, m2: bv32)
    requires (m1 & 0x100 != 0) == (m2 & 0x100 != 0) && (m1 & 0x80 != 0) == (m2 & 0x80 != 0)
    requires (m1 & 0x40 != 0) == (m2 & 0x40 != 0) && (m1 & 0x20 != 0) == (m2 & 0x20 != 0)
    requires (m1 & 0x10 != 0) == (m2 & 0x10 != 0) && (m1 & 0x8 != 0) == (m2 & 0x8 != 0)
    requires (m1 & 0x4 != 0) == (m2 & 0x4 != 0) && (m1 & 0x2 != 0) == (m2 & 0x2 != 0)
    requires (m1 & 0x1 != 0) == (m2 & 0x1 != 0)
    ensures m1 & 0x1FF == m2 & 0x1FF
  {
  }

  /** Only the nine permission bits (`0o777`) and the directory flag matter. */
  lemma PermissionsIgnoreHighBits(isDir: bool, mode: bv32)
    ensures PermissionString(isDir, mode) == PermissionString(isDir, mode & 0x1FF)
  {
    var m := mode;
    assert m & 0x100 == (m & 0x1FF) & 0x100;
    assert m & 0x80 == (m & 0x1FF) & 0x80;
    assert m & 0x40 == (m & 0x1FF) & 0x40;
    assert m & 0x20 == (m & 0x1FF) & 0x20;
    assert m & 0x10 == (m & 0x1FF) & 0x10;
    assert m & 0x8 == (m & 0x1FF) & 0x8;
    assert m & 0x4 == (m & 0x1FF) & 0x4;
    assert m & 0x2 == (m & 0x1FF) & 0x2;
    assert m & 0x1 == (m & 0x1FF) & 0x1;
  }

  /** `0o755` on a directory and `0o644` on a file. */
  lemma PermissionExamples()
    ensures PermissionString(true, 0x1ED) == "drwxr-xr-x"
    ensures PermissionString(false, 0x1A4) == "-rw-r--r--"
  {
  }

  const KiB: nat := 1024
  const MiB: nat := 1024 * 1024
  const GiB: nat := 1024 * 1024 * 1024

  /** `n / d` rounded to the nearest integer, ties to the even neighbour. */
  function RoundHalfEven(n: nat, d: nat): nat
    requires d > 0
  {
    var q := n / d;
    var rem := n % d;
    if 2 * rem > d || (2 * rem == d && q % 2 == 1) then q + 1 else q
  }

  /** The rounded quotient is within half a unit of the exact one, and a tie goes to the even side. */
  lemma RoundHalfEvenNearest(n: nat, d: nat)
    requires d > 0
    ensures var q := RoundHalfEven(n, d); 2 * (n - d * q) <= d && 2 * (d * q - n) <= d
    ensures var q := RoundHalfEven(n, d); 2 * (n - d * q) == d || 2 * (d * q - n) == d ==> q % 2 == 0
  {
    var q0, rem := n / d, n % d;
    assert n == d * q0 + rem;
    assert d * (q0 + 1) == d * q0 + d;
  }

  /**
    * `format!("{:.1}", n as f64 / d as f64)` for a power-of-two divisor: the
    * quotient rounded to one decimal, ties to even, as Rust's exact float
    * formatting does.
    */
  function OneDecimal(n: nat, d: nat): (s: string)
    requires d > 0
  {
    var tenths := RoundHalfEven(10 * n, d);
    NatToString(tenths / 10) + "." + [DigitChar(tenths % 10)]
  }

  /** The unit letter of a size rendering. */
  function SizeSuffix(size: nat): char
  {
    if size < KiB then 'B' else if size < MiB then 'K' else if size < GiB then 'M' else 'G'
  }

  /** `format_size`: exact bytes below 1024, else one decimal in K, M or G (no larger unit). */
  function FormatSize(size: nat): (r: string)
    ensures |r| >= 2 && r[|r| - 1] == SizeSuffix(size)
    ensures size < KiB ==> r == NatToString(size) + "B"
    ensures IsAscii(r)
  {
    NatToStringAscii(size);
    if size < KiB then NatToString(size) + "B"
    else
      var unit := if size < MiB then KiB else if size < GiB then MiB else GiB;
      var tenths := RoundHalfEven(10 * size, unit);
      NatToStringAscii(tenths / 10);
      OneDecimal(size, unit) + [SizeSuffix(size)]
  }

  /** Rounding an exact multiple of the unit to tenths loses nothing. */
  lemma TenthsOfMultiple(m: nat, unit: nat)
    requires unit == KiB || unit == MiB || unit == GiB
    ensures RoundHalfEven(10 * (m * unit), unit) == 10 * m
  {
    if unit == KiB {
      assert (10 * (m * 1024)) / 1024 == 10 * m && (10 * (m * 1024)) % 1024 == 0;
    } else if unit == MiB {
      assert (10 * (m * 1048576)) / 1048576 == 10 * m && (10 * (m * 1048576)) % 1048576 == 0;
    } else {
      assert (10 * (m * 1073741824)) / 1073741824 == 10 * m && (10 * (m * 1073741824)) % 1073741824 == 0;
    }
  }

  /** An exact multiple of a unit is printed as that multiple followed by ".0". */
  lemma FormatSizeExactMultiple(m: nat, unit: nat)
    requires unit == KiB || unit == MiB || unit == GiB
    requires 1 <= m && (unit == GiB || m < 1024)
    ensures FormatSize(m * unit) == NatToString(m) + ".0" + [SizeSuffix(m * unit)]
  {
    TenthsOfMultiple(m, unit);
    assert (10 * m) / 10 == m && (10 * m) % 10 == 0;
    if unit == KiB {
      assert KiB <= m * 1024 < MiB;
    } else if unit == MiB {
      assert MiB <= m * 1048576 < GiB;
    } else {
      assert GiB <= m * 1073741824;
    }
    assert OneDecimal(m * unit, unit) == NatToString(m) + ".0";
  }

  /** The tier boundaries: 1023 -> "1023B", 1024 -> "1.0K", 1048576 -> "1.0M", 1 GiB -> "1.0G". */
  lemma FormatSizeBoundaries()
    ensures FormatSize(1023) == "1023B"
    ensures FormatSize(1024) == "1.0K"
    ensures FormatSize(1048576) == "1.0M"
    ensures FormatSize(1073741824) == "1.0G"
  {
    assert NatToString(1023) == "1023";
    FormatSizeExactMultiple(1, KiB);
    FormatSizeExactMultiple(1, MiB);
    FormatSizeExactMultiple(1, GiB);
  }

  /**
    * Rounding can carry into a fifth digit: one byte short of 1 MiB is shown
    * as "1024.0K", since the tier is chosen before rounding.
    */
  lemma FormatSizeRoundsUpWithinTier()
    ensures FormatSize(1048575) == "1024.0K"
  {
    assert RoundHalfEven(10485750, KiB) == 10240;
    assert NatToString(1024) == "1024";
  }

  /**
    * `format_modified`: the calendar rendering of the whole seconds since the
    * epoch (given by `render`, standing in for chrono), or "Unknown" when the
    * time lies before the epoch.
    */
  function FormatModified(e: FileEntry, render: nat -> string): (r: string)
    ensures e.modified < 0 ==> r == "Unknown"
    ensures e.modified >= 0 ==> r == render(e.modified / 1_000_000_000)
  {
    if e.modified >= 0 then render(e.modified / 1_000_000_000) else "Unknown"
  }
}
