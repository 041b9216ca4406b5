/** The value-level meaning of the text accumulator of pdiff/accumulator.py: what each
    operation does to the accumulated text and to the current category. The classes in
    Accumulator, PDiff and CDiff are proved against these functions. */
module Render {
  import opened Strings

  /** termcolor's `colored(text, color, attrs)`, a foreign function kept opaque. Attributes
      are a list of names; `attrs=None` is the empty list. */
  type Colored = (string, string, seq<string>) -> string

  /** The accumulated text and the category of the current line (`curwhich`). */
  datatype Buffer = Buffer(text: string, curwhich: string)

  const Empty: Buffer := Buffer("", "")

  const BoldUnderline: seq<string> := ["bold", "underline"]

  /** The buffer is at the start of a line: empty, or ending in a newline. */
  predicate AtLineStart(text: string) {
    text == [] || text[|text| - 1] == '\n'
  }

  /** The one fact about `colored` the model relies on: colouring a non-empty text that
      does not end a line does not end a line either. */
  ghost predicate KeepsLineOpen(colored: Colored) {
    forall s, color, attrs :: !AtLineStart(s) ==> !AtLineStart(colored(s, color, attrs))
  }

  /** `startline`: a newline unless the text is empty or already ends in one; the category
      is always reset. */
  function StartLine(b: Buffer): Buffer {
    Buffer(if AtLineStart(b.text) then b.text else b.text + "\n", "")
  }

  /** After `startline` the buffer is at a line start with no current category; at most one
      newline was added, and none when the buffer was already at a line start. */
  lemma StartLineSpec(b: Buffer)
    ensures StartLine(b).curwhich == ""
    ensures AtLineStart(StartLine(b).text)
    ensures StartLine(b).text == b.text || StartLine(b).text == b.text + "\n"
    ensures AtLineStart(b.text) ==> StartLine(b).text == b.text
  {
  }

  /** The value `set_color(which)` returns: the mapped colour, or "" for an unmapped
      category. */
  function ColorOf(colors: map<string, string>, which: string): string {
    if which in colors then colors[which] else ""
  }

  /** What `set_color(which)` does to the buffer: a non-empty category becomes current. */
  function Tint(b: Buffer, which: string): Buffer {
    if which != "" then b.(curwhich := which) else b
  }

  function Attrs(bold: bool): seq<string> {
    if bold then ["bold"] else []
  }

  /** `add(val, which=, endline=, bold=)`: the coloured token, one space, and a newline when
      `endline`. */
  function Add(b: Buffer, colors: map<string, string>, colored: Colored,
               val: string, which: string, endline: bool, bold: bool): (r: Buffer)
    ensures r.text == b.text + colored(val, ColorOf(colors, which), Attrs(bold)) + " "
                      + (if endline then "\n" else "")
    ensures r.curwhich == if endline then "" else Tint(b, which).curwhich
  {
    var b1 := Tint(b, which);
    var b2 := b1.(text := b1.text + colored(val, ColorOf(colors, which), Attrs(bold)) + " ");
    if endline then StartLine(b2) else b2
  }

  /** `{True: 80, False: 40}[longline]` */
  function SeparatorWidth(longline: bool): nat {
    if longline then 80 else 40
  }

  /** `line(char, longline)`: a separator of 80 (or 40) copies of `ch`, alone on its line. */
  function Line(b: Buffer, ch: string, longline: bool): Buffer {
    var b1 := StartLine(b);
    StartLine(b1.(text := b1.text + Repeat(ch, SeparatorWidth(longline))))
  }

  /** After a separator the buffer is at a line start with no current category. */
  lemma LineSpec(b: Buffer, ch: string, longline: bool)
    ensures Line(b, ch, longline).curwhich == ""
    ensures AtLineStart(Line(b, ch, longline).text)
  {
  }

  /** `mode(text, which, endline)`: on a fresh line, the header in bold underline and a
      `": "`, both in the category's colour. */
  function Mode(b: Buffer, colors: map<string, string>, colored: Colored,
                text: string, which: string, endline: bool): Buffer
  {
    var b1 := StartLine(b);
    var color := ColorOf(colors, which);
    var b2 := Tint(b1, which);
    var b3 := b2.(text := b2.text + colored(text, color, BoldUnderline) + colored(": ", color, []));
    if endline then StartLine(b3) else b3
  }

  /** The header starts on a fresh line with the title in bold underline and `": "`, both in
      the category's colour; only `endline` may add a newline after it. Without `endline`
      the category is current, with it the line is closed. */
  lemma ModeSpec(b: Buffer, colors: map<string, string>, colored: Colored, text: string, which: string, endline: bool)
    ensures var r := Mode(b, colors, colored, text, which, endline);
      var color := ColorOf(colors, which);
      var head := StartLine(b).text + colored(text, color, BoldUnderline) + colored(": ", color, []);
      && (r.text == head || (endline && r.text == head + "\n"))
      && (!endline ==> r.curwhich == Tint(StartLine(b), which).curwhich)
      && (endline ==> AtLineStart(r.text) && r.curwhich == "")
  {
  }

  /** `add(..., endline=True)` leaves the buffer at a line start with no category. */
  lemma AddEndsLine(b: Buffer, colors: map<string, string>, colored: Colored, val: string, which: string, bold: bool)
    ensures var r := Add(b, colors, colored, val, which, true, bold);
      AtLineStart(r.text) && StartLine(r) == r
  {
    var r := Add(b, colors, colored, val, which, true, bold);
    assert r.text[|r.text| - 1] == '\n';
  }

  lemma StartLineIdempotent(b: Buffer)
    ensures StartLine(StartLine(b)) == StartLine(b)
  {
  }

  /** Starting a line never puts a newline into an empty buffer and adds at most one. */
  lemma StartLineAtMostOne(b: Buffer)
    ensures b.text == [] ==> StartLine(b).text == []
    ensures |StartLine(b).text| <= |b.text| + 1
  {
  }

  /** `ch * n` ends with the last character of `ch`. */
  lemma {:induction false} RepeatEnds(ch: string, n: nat)
    requires ch != [] && n > 0
    ensures |Repeat(ch, n)| >= |ch|
    ensures Repeat(ch, n)[|Repeat(ch, n)| - 1] == ch[|ch| - 1]
  {
    if n > 1 {
      RepeatEnds(ch, n - 1);
    }
  }

  /** A separator of a non-empty character that is not a newline: the repeated character
      starts a line and is followed by exactly one newline. */
  lemma LineSeparator(b: Buffer, ch: string, longline: bool)
    requires ch != [] && ch[|ch| - 1] != '\n'
    ensures Line(b, ch, longline).text == StartLine(b).text + Repeat(ch, SeparatorWidth(longline)) + "\n"
    ensures AtLineStart(StartLine(b).text)
  {
    var b1 := StartLine(b);
    ClosesLine(b1.text, b1.curwhich, ch, SeparatorWidth(longline));
  }

  lemma ClosesLine(t: string, w: string, ch: string, n: nat)
    requires ch != [] && ch[|ch| - 1] != '\n' && n > 0
    ensures StartLine(Buffer(t + Repeat(ch, n), w)).text == t + Repeat(ch, n) + "\n"
  {
    RepeatEnds(ch, n);
    var r := Repeat(ch, n);
    assert (t + r)[|t + r| - 1] == r[|r| - 1];
  }

  /** A header closed with `endline` ends with exactly one newline after the `": "`. */
  lemma ModeEndsLine(b: Buffer, colors: map<string, string>, colored: Colored, text: string, which: string)
    requires KeepsLineOpen(colored)
    ensures var color := ColorOf(colors, which);
      Mode(b, colors, colored, text, which, true).text
        == StartLine(b).text + colored(text, color, BoldUnderline) + colored(": ", color, []) + "\n"
  {
    var color := ColorOf(colors, which);
    var c := colored(": ", color, []);
    assert !AtLineStart(c);
    var head := StartLine(b).text + colored(text, color, BoldUnderline) + c;
    assert head[|head| - 1] == c[|c| - 1];
  }

  /** A header without `endline` leaves its line open. */
  lemma ModeLeavesLineOpen(b: Buffer, colors: map<string, string>, colored: Colored, text: string, which: string)
    requires KeepsLineOpen(colored)
    ensures !AtLineStart(Mode(b, colors, colored, text, which, false).text)
  {
    var color := ColorOf(colors, which);
    var c := colored(": ", color, []);
    assert !AtLineStart(c);
    var head := StartLine(b).text + colored(text, color, BoldUnderline) + c;
    assert head[|head| - 1] == c[|c| - 1];
  }

  /** Every operation only appends to the text. */
  lemma AppendOnly(b: Buffer, colors: map<string, string>, colored: Colored,
                   val: string, which: string, endline: bool, bold: bool, ch: string, longline: bool)
    ensures StartsWith(StartLine(b).text, b.text)
    ensures StartsWith(Add(b, colors, colored, val, which, endline, bold).text, b.text)
    ensures StartsWith(Line(b, ch, longline).text, b.text)
    ensures StartsWith(Mode(b, colors, colored, val, which, endline).text, b.text)
  {
    var b1 := StartLine(b);
    var l1 := b1.(text := b1.text + Repeat(ch, SeparatorWidth(longline)));
    PrefixTrans(b.text, b1.text, StartLine(l1).text);
    var color := ColorOf(colors, which);
    var m := Mode(b, colors, colored, val, which, endline).text;
    assert StartsWith(m, b1.text);
    PrefixTrans(b.text, b1.text, m);
  }

  lemma PrefixTrans(a: string, b: string, c: string)
    requires StartsWith(b, a) && StartsWith(c, b)
    ensures StartsWith(c, a)
  {
    assert c[..|a|] == c[..|b|][..|a|];
  }
}
