/** pdiff/accumulator.py: `TextAccumulator`, an append-only text buffer that remembers the
    category of the current line and hands out colours by category. */
module Accumulator {
  import opened Strings
  import Render

  class TextAccumulator {
    var text: string
    var colors: map<string, string>
    var curwhich: string
    /** termcolor's `colored`, which the methods call */
    const colored: Render.Colored

    /** The text and current category, as the functions of Render see them. */
    function State(): Render.Buffer
      reads this
    {
      Render.Buffer(text, curwhich)
    }

    constructor (colored: Render.Colored)
      ensures text == "" && colors == map[] && curwhich == ""
      ensures this.colored == colored
    {
      text := "";
      colors := map[];
      curwhich := "";
      this.colored := colored;
    }

    method StartLine()
      modifies this
      ensures State() == Render.StartLine(old(State()))
      ensures colors == old(colors)
    {
      if !(text == [] || text[|text| - 1] == '\n') {
        text := text + "\n";
      }
      curwhich := "";
    }

    /** Never fails: an unmapped category gives the empty colour. */
    method SetColor(which: string) returns (color: string)
      modifies this
      ensures which in colors ==> color == colors[which]
      ensures which !in colors ==> color == ""
      ensures State() == Render.Tint(old(State()), which)
      ensures colors == old(colors)
    {
      if which != "" {
        curwhich := which;
      }
      if which in colors {
        return colors[which];
      }
      return "";
    }

    method Add(val: string, which: string, endline: bool, bold: bool)
      modifies this
      ensures State() == Render.Add(old(State()), colors, colored, val, which, endline, bold)
      ensures text == old(text) + colored(val, Render.ColorOf(colors, which), Render.Attrs(bold)) + " "
                      + (if endline then "\n" else "")
      ensures colors == old(colors)
    {
      var color := SetColor(which);
      var attrs: seq<string> := [];
      if bold {
        attrs := attrs + ["bold"];
      }
      assert attrs == Render.Attrs(bold);
      text := text + colored(val, color, attrs) + " ";
      if endline {
        StartLine();
      }
    }

    method Line(ch: string, longline: bool)
      modifies this
      ensures State() == Render.Line(old(State()), ch, longline)
      ensures colors == old(colors)
    {
      var n := if longline then 80 else 40;
      StartLine();
      text := text + Repeat(ch, n);
      StartLine();
    }

    method Mode(header: string, which: string, endline: bool)
      modifies this
      ensures State() == Render.Mode(old(State()), colors, colored, header, which, endline)
      ensures colors == old(colors)
    {
      StartLine();
      var color := SetColor(which);
      text := text + colored(header, color, Render.BoldUnderline);
      text := text + colored(": ", color, []);
      if endline {
        StartLine();
      }
    }
  }
}
