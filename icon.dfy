/** The built-in icon of each kind of entry (`FileIcon`) and its fixed colour. */
module Icon {
  import opened Styled

  datatype FileIcon = Directory | Executable | RegularFile

  /**
    * `FileIcon::as_str`: one fixed Nerd Font glyph per variant, from the
    * Unicode private use area (folder U+F114, gear U+F489, file U+F4A5).
    */
  function AsStr(icon: FileIcon): (s: string)
    ensures |s| == 1 && s[0] as int >= 0xE000
  {
    match icon
    case Directory => "\U{F114}"
    case Executable => "\U{F489}"
    case RegularFile => "\U{F4A5}"
  }

  /** `FileIcon::get_color`: fixed colours, independent of any configuration. */
  function GetColor(icon: FileIcon): (c: Color)
    ensures icon == Directory ==> c == Blue
    ensures icon == Executable ==> c == Green
    ensures icon == RegularFile ==> c == White
  {
    match icon
    case Directory => Blue
    case Executable => Green
    case RegularFile => White
  }

  /** The three glyphs are pairwise distinct, so the glyph identifies the kind. */
  lemma AsStrInjective(a: FileIcon, b: FileIcon)
    ensures AsStr(a) == AsStr(b) <==> a == b
  {
    if a != b {
      assert AsStr(a)[0] != AsStr(b)[0];
    }
  }
}
