/**
  * Styled terminal output, standing in for the `colored` crate. A line is a
  * sequence of segments; a segment is either plain text or text painted with
  * a colour and optionally bold. Escape sequences are not modelled: a painted
  * segment is opaque, and its display width is what the caller's width
  * function says of its unstyled text.
  */
module Styled {
  import opened Strings

  /** `colored::Color`, the sixteen named terminal colours. */
  datatype Color =
    | Black | Red | Green | Yellow | Blue | Magenta | Cyan | White
    | BrightBlack | BrightRed | BrightGreen | BrightYellow
    | BrightBlue | BrightMagenta | BrightCyan | BrightWhite

  datatype Style = Plain | Painted(color: Color, bold: bool)

  datatype Segment = Segment(text: string, style: Style)

  type Line = seq<Segment>

  /** `" ".repeat(n)`, pushed onto a line without styling. */
  function Spaces(n: nat): (s: Segment)
    ensures s.style == Plain && |s.text| == n
  {
    Segment(Repeat(' ', n), Plain)
  }

  /** The characters a line prints, with styling stripped. */
  function Text(line: Line): string
  {
    if line == [] then [] else Text(line[..|line| - 1]) + line[|line| - 1].text
  }

  /**
    * Display columns a line occupies. Plain segments are padding and count one
    * column per character; painted segments count `width` of their text, the
    * way the listing code measures an icon or a name with `UnicodeWidthStr::width`.
    */
  function Columns(line: Line, width: string -> nat): nat
  {
    if line == [] then 0
    else
      var last := line[|line| - 1];
      Columns(line[..|line| - 1], width) + (if last.style == Plain then |last.text| else width(last.text))
  }

  /** Columns add up over concatenation. */
  lemma {:induction false} ColumnsAppend(a: Line, b: Line, width: string -> nat)
    ensures Columns(a + b, width) == Columns(a, width) + Columns(b, width)
  {
    if b != [] {
      ColumnsAppend(a, b[..|b| - 1], width);
      assert (a + b)[..|a + b| - 1] == a + b[..|b| - 1];
    } else {
      assert a + b == a;
    }
  }

  /** A plain segment made only of spaces. */
  predicate IsBlank(s: Segment)
  {
    s.style == Plain && forall i :: 0 <= i < |s.text| ==> s.text[i] == ' '
  }

  /**
    * `str::trim_end` applied to a printed line. With colouring on, a painted
    * segment ends in a reset escape, so trailing whitespace can only come from
    * trailing blank plain segments; those are removed.
    */
  function TrimEnd(line: Line): (r: Line)
    ensures |r| <= |line| && r == line[..|r|]
    ensures r == [] || !IsBlank(r[|r| - 1])
    ensures forall i :: |r| <= i < |line| ==> IsBlank(line[i])
  {
    if line != [] && IsBlank(line[|line| - 1]) then TrimEnd(line[..|line| - 1]) else line
  }

  /** Trimming only touches the blank tail: a line ending in a non-blank segment is kept whole. */
  lemma {:induction false} TrimEndKeepsContent(content: Line, blanks: Line)
    requires content != [] && !IsBlank(content[|content| - 1])
    requires forall i :: 0 <= i < |blanks| ==> IsBlank(blanks[i])
    ensures TrimEnd(content + blanks) == content
  {
    if blanks == [] {
      assert content + blanks == content;
    } else {
      var shorter := blanks[..|blanks| - 1];
      assert (content + blanks)[..|content + blanks| - 1] == content + shorter;
      TrimEndKeepsContent(content, shorter);
    }
  }
}
