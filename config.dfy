/**
  * The configuration values the renderers read: colour names per kind of
  * entry, column spacing and the row cap, with their defaults, and the
  * parsing of a colour name. Reading and parsing the configuration file is
  * not part of this model.
  */
module Config {
  import opened Strings
  import opened Styled
  import Icon

  /** Colour names as written in the configuration, one per kind of entry. */
  datatype ColorConfig = ColorConfig(directory: string, executable: string, regular: string)
  {
    function DirectoryColor(): (c: Color)
      ensures c == ParseColor(directory)
    {
      ParseColor(directory)
    }

    function ExecutableColor(): (c: Color)
      ensures c == ParseColor(executable)
    {
      ParseColor(executable)
    }

    function RegularColor(): (c: Color)
      ensures c == ParseColor(regular)
    {
      ParseColor(regular)
    }
  }

  /** `column_spacing` and `max_rows` (0 means no limit). */
  datatype DisplayConfig = DisplayConfig(columnSpacing: nat, maxRows: nat)

  datatype Config = Config(colors: ColorConfig, display: DisplayConfig)

  function DefaultDirectoryColor(): string { "blue" }
  function DefaultExecutableColor(): string { "green" }
  function DefaultRegularColor(): string { "white" }
  function DefaultColumnSpacing(): nat { 2 }
  function DefaultMaxRows(): nat { 0 }

  function DefaultColorConfig(): (c: ColorConfig)
    ensures c.directory == "blue" && c.executable == "green" && c.regular == "white"
  {
    ColorConfig(DefaultDirectoryColor(), DefaultExecutableColor(), DefaultRegularColor())
  }

  function DefaultDisplayConfig(): (d: DisplayConfig)
    ensures d.columnSpacing == 2 && d.maxRows == 0
  {
    DisplayConfig(DefaultColumnSpacing(), DefaultMaxRows())
  }

  function DefaultConfig(): (c: Config)
    ensures c.colors == DefaultColorConfig() && c.display == DefaultDisplayConfig()
  {
    Config(DefaultColorConfig(), DefaultDisplayConfig())
  }

  /** The sixteen recognised colour names, lower case, and the colour each names. */
  function ColorNames(): seq<(string, Color)>
  {
    [ ("black", Black), ("red", Red), ("green", Green), ("yellow", Yellow),
      ("blue", Blue), ("magenta", Magenta), ("cyan", Cyan), ("white", White),
      ("bright_black", BrightBlack), ("bright_red", BrightRed),
      ("bright_green", BrightGreen), ("bright_yellow", BrightYellow),
      ("bright_blue", BrightBlue), ("bright_magenta", BrightMagenta),
      ("bright_cyan", BrightCyan), ("bright_white", BrightWhite) ]
  }

  /** `parse_color`: case-insensitive name lookup, falling back to white. */
  function ParseColor(name: string): Color
  {
    var n := FoldCase(name);
    if n == "black" then Black
    else if n == "red" then Red
    else if n == "green" then Green
    else if n == "yellow" then Yellow
    else if n == "blue" then Blue
    else if n == "magenta" then Magenta
    else if n == "cyan" then Cyan
    else if n == "white" then White
    else if n == "bright_black" then BrightBlack
    else if n == "bright_red" then BrightRed
    else if n == "bright_green" then BrightGreen
    else if n == "bright_yellow" then BrightYellow
    else if n == "bright_blue" then BrightBlue
    else if n == "bright_magenta" then BrightMagenta
    else if n == "bright_cyan" then BrightCyan
    else if n == "bright_white" then BrightWhite
    else White
  }

  /** Each recognised name, in any casing, parses to its colour. */
  lemma ParseColorKnownNames(name: string, k: nat)
    requires k < |ColorNames()| && FoldCase(name) == ColorNames()[k].0
    ensures ParseColor(name) == ColorNames()[k].1
  {
    var n := FoldCase(name);
    // Names of different lengths differ; the rest differ in their first character.
    if k < 8 {
      assert |n| <= 7 && n[0] == ColorNames()[k].0[0];
    } else {
      assert |n| >= 10 && n[7] == ColorNames()[k].0[7];
    }
  }

  /** Any name that does not fold to a recognised one parses to white. */
  lemma ParseColorFallback(name: string)
    requires forall k :: 0 <= k < |ColorNames()| ==> FoldCase(name) != ColorNames()[k].0
    ensures ParseColor(name) == White
  {
    assert FoldCase(name) != ColorNames()[0].0;
    assert FoldCase(name) != ColorNames()[1].0;
    assert FoldCase(name) != ColorNames()[2].0;
    assert FoldCase(name) != ColorNames()[3].0;
    assert FoldCase(name) != ColorNames()[4].0;
    assert FoldCase(name) != ColorNames()[5].0;
    assert FoldCase(name) != ColorNames()[6].0;
    assert FoldCase(name) != ColorNames()[8].0;
    assert FoldCase(name) != ColorNames()[9].0;
    assert FoldCase(name) != ColorNames()[10].0;
    assert FoldCase(name) != ColorNames()[11].0;
    assert FoldCase(name) != ColorNames()[12].0;
    assert FoldCase(name) != ColorNames()[13].0;
    assert FoldCase(name) != ColorNames()[14].0;
    assert FoldCase(name) != ColorNames()[15].0;
  }

  /** Parsing depends on the name only up to case. */
  lemma ParseColorIgnoresCase(a: string, b: string)
    requires FoldCase(a) == FoldCase(b)
    ensures ParseColor(a) == ParseColor(b)
  {
  }

  /** `Blue`, `BLUE` and `blue` are all blue; the empty name falls back to white. */
  lemma ParseColorExamples()
    ensures ParseColor("Blue") == Blue && ParseColor("BLUE") == Blue && ParseColor("blue") == Blue
    ensures ParseColor("") == White
    ensures ParseColor("Bright_Cyan") == BrightCyan
  {
    assert FoldCase("Blue") == "blue";
    assert FoldCase("BLUE") == "blue";
    assert FoldCase("blue") == "blue";
    assert FoldCase("Bright_Cyan") == "bright_cyan";
  }

  /** The default configuration colours directories blue, executables green, regular files white. */
  lemma DefaultColors()
    ensures DefaultColorConfig().DirectoryColor() == Blue
    ensures DefaultColorConfig().ExecutableColor() == Green
    ensures DefaultColorConfig().RegularColor() == White
  {
    assert FoldCase("blue") == "blue";
    assert FoldCase("green") == "green";
    assert FoldCase("white") == "white";
  }

  /** The fixed icon colours coincide with what the default colour names parse to. */
  lemma IconColorsMatchDefaults()
    ensures Icon.GetColor(Icon.Directory) == DefaultColorConfig().DirectoryColor()
    ensures Icon.GetColor(Icon.Executable) == DefaultColorConfig().ExecutableColor()
    ensures Icon.GetColor(Icon.RegularFile) == DefaultColorConfig().RegularColor()
  {
    DefaultColors();
  }
}
