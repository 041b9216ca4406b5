/** cdiff.py: the standalone predecessor of pdiff. Its accumulator carries the file-body
    flag itself, looks colours up strictly, and shortens paths with an unbounded
    `str.replace`; its loop has no brief mode. The range labels are pdiff's `OutLine`,
    which cdiff.py defines identically. */
module CDiff {
  import opened Strings
  import opened Patterns
  import Render
  import PDiff

  const COLORS: map<string, string> :=
    map["" := "white", "A" := "red", "B" := "cyan", "BOTH" := "magenta", "BINARY" := "grey", "?" := "yellow"]

  /** `get_which`: A when the path starts with `dir1`, else B when it starts with `dir2`,
      else `?`. */
  function GetWhich(path: string, dir1: string, dir2: string): (r: string)
    ensures r == "A" <==> StartsWith(path, dir1)
    ensures r == "B" <==> !StartsWith(path, dir1) && StartsWith(path, dir2)
    ensures r == "?" <==> !StartsWith(path, dir1) && !StartsWith(path, dir2)
  {
    if StartsWith(path, dir1) then "A"
    else if StartsWith(path, dir2) then "B"
    else "?"
  }

  /** `simplify_path`: every occurrence of the matching root is replaced by its marker. */
  function SimplifyPath(path: string, dir1: string, dir2: string): string {
    if StartsWith(path, dir1) then ReplaceAll(path, dir1, PDiff.Marker("A"))
    else if StartsWith(path, dir2) then ReplaceAll(path, dir2, PDiff.Marker("B"))
    else path
  }

  /** Every category the loop colours by is a key of `COLORS`, so the strict lookup of
      `set_color` never fails. */
  lemma CategoriesAreKeys(path: string, dir1: string, dir2: string)
    ensures GetWhich(path, dir1, dir2) in COLORS
    ensures "" in COLORS && "A" in COLORS && "B" in COLORS && "BOTH" in COLORS && "BINARY" in COLORS
  {
  }

  /** Where the root occurs only at the start of the path (and is not empty), cdiff
      shortens it exactly as pdiff does. */
  lemma {:induction false} SimplifyAgreesWithPDiff(path: string, dir1: string, dir2: string)
    requires var w := GetWhich(path, dir1, dir2);
      w != "?" ==> var root := PDiff.Root(w, dir1, dir2);
        root != [] && forall k :: !OccursAt(path[|root|..], root, k)
    ensures SimplifyPath(path, dir1, dir2) == PDiff.SimplifyPath(path, dir1, dir2)
  {
    var w := GetWhich(path, dir1, dir2);
    if w != "?" {
      var root := PDiff.Root(w, dir1, dir2);
      var m := PDiff.Marker(w);
      PDiff.SimplifyAgreesWithGetWhich(path, dir1, dir2);
      ReplaceAllAbsent(path[|root|..], root, m);
      assert StartsWith(path, root);
      assert ReplaceAll(path, root, m) == m + ReplaceAll(path[|root|..], root, m);
    }
  }

  /** A root that recurs in the path is replaced every time: with root `a`, the path
      `a/a` becomes `«A»/«A»`, where pdiff gives `«A»/a`. */
  lemma SimplifyReplacesEveryOccurrence()
    ensures SimplifyPath("a/a", "a", "b") == PDiff.Marker("A") + "/" + PDiff.Marker("A")
    ensures PDiff.SimplifyPath("a/a", "a", "b") == PDiff.Marker("A") + "/a"
  {
    var m := PDiff.Marker("A");
    assert StartsWith("a/a", "a");
    assert "a/a"[1..] == "/a" && "/a"[1..] == "a";
    assert "/a"[0] == '/';
    assert !StartsWith("/a", "a");
    assert ReplaceAll("a", "a", m) == m + ReplaceAll([], "a", m);
    assert ReplaceAll("/a", "a", m) == "/" + ReplaceAll("a", "a", m);
    assert ReplaceAll("a/a", "a", m) == m + ReplaceAll("/a", "a", m);
    assert ReplaceFirst("a/a", "a", m) == m + "/a";
  }

  /** An empty root (what `"/".rstrip("/")` leaves) matches every path, and the replacement
      of the empty string puts a marker around every character. */
  lemma EmptyRootMarksEveryGap(dir2: string)
    ensures SimplifyPath("ab", "", dir2) == PDiff.Marker("A") + "a" + PDiff.Marker("A") + "b" + PDiff.Marker("A")
  {
    var m := PDiff.Marker("A");
    assert "ab"[1..] == "b" && "b"[1..] == [];
    assert ReplaceAll("b", "", m) == m + "b" + m;
    assert ReplaceAll("ab", "", m) == m + "a" + ReplaceAll("b", "", m);
  }

  // ---------------------------------------------------------------------------------
  // The accumulator of cdiff.py

  /** `TextAccumulator` of cdiff.py, with the file-body flag and the paths built in. */
  class Accumulator {
    var text: string
    var colors: map<string, string>
    var infile: bool
    var curwhich: string
    const colored: Render.Colored
    const dir1: string
    const dir2: string

    function State(): Render.Buffer
      reads this
    {
      Render.Buffer(text, curwhich)
    }

    constructor (dir1: string, dir2: string, colored: Render.Colored)
      ensures text == "" && colors == COLORS && !infile && curwhich == ""
      ensures this.colored == colored && this.dir1 == dir1 && this.dir2 == dir2
    {
      text := "";
      colors := COLORS;
      infile := false;
      curwhich := "";
      this.colored := colored;
      this.dir1 := dir1;
      this.dir2 := dir2;
    }

    method FileMode()
      modifies this
      ensures infile && State() == old(State()) && colors == old(colors)
    {
      infile := true;
    }

    method NotFileMode()
      modifies this
      ensures !infile
      ensures State() == if old(infile) then Render.Line(old(State()), "=", true) else old(State())
      ensures colors == old(colors)
    {
      if infile {
        Line("=", true);
      }
      infile := false;
    }

    method StartLine()
      modifies this
      ensures State() == Render.StartLine(old(State()))
      ensures colors == old(colors) && infile == old(infile)
    {
      if !(text == [] || text[|text| - 1] == '\n') {
        text := text + "\n";
      }
      curwhich := "";
    }

    /** The lookup is strict: an unmapped category would raise, so it must be a key. */
    method SetColor(which: string) returns (color: string)
      requires which in colors
      modifies this
      ensures colors == old(colors) && infile == old(infile)
      ensures color == colors[which]
      ensures State() == Render.Tint(old(State()), which)
    {
      if which != "" {
        curwhich := which;
      }
      return colors[which];
    }

    method Add(val: string, which: string, endline: bool, bold: bool)
      requires which in colors
      modifies this
      ensures State() == Render.Add(old(State()), colors, colored, val, which, endline, bold)
      ensures colors == old(colors) && infile == old(infile)
    {
      var color := SetColor(which);
      var attrs: seq<string> := [];
      if bold {
        attrs := attrs + ["bold"];
      }
      assert attrs == Render.Attrs(bold);
      text := text + colored(val, color, attrs) + " ";
      if endline {
        StartLine();
      }
    }

    method Line(ch: string, longline: bool)
      modifies this
      ensures State() == Render.Line(old(State()), ch, longline)
      ensures colors == old(colors) && infile == old(infile)
    {
      var n := if longline then 80 else 40;
      StartLine();
      text := text + Repeat(ch, n);
      StartLine();
    }

    method Path(path: string)
      requires colors == COLORS
      modifies this
      ensures State() == PathOut(old(State()), colored, dir1, dir2, path)
      ensures colors == old(colors) && infile == old(infile)
    {
      CategoriesAreKeys(path, dir1, dir2);
      var color := SetColor(GetWhich(path, dir1, dir2));
      text := text + colored(SimplifyPath(path, dir1, dir2), color, Render.BoldUnderline);
    }

    method Mode(header: string, which: string, endline: bool)
      requires which in colors
      modifies this
      ensures State() == Render.Mode(old(State()), colors, colored, header, which, endline)
      ensures colors == old(colors) && infile == old(infile)
    {
      StartLine();
      var color := SetColor(which);
      text := text + colored(header, color, Render.BoldUnderline);
      text := text + colored(": ", color, []);
      if endline {
        StartLine();
      }
    }
  }

  /** `path`: the path, shortened, bold and underlined in its side's colour. */
  function PathOut(b: Render.Buffer, colored: Render.Colored, dir1: string, dir2: string, path: string): Render.Buffer {
    var which := GetWhich(path, dir1, dir2);
    var b1 := Render.Tint(b, which);
    b1.(text := b1.text + colored(SimplifyPath(path, dir1, dir2), Render.ColorOf(COLORS, which), Render.BoldUnderline))
  }

  // ---------------------------------------------------------------------------------
  // The loop of `main`

  datatype Env = Env(dir1: string, dir2: string, colored: Render.Colored)

  function Add(env: Env, b: Render.Buffer, val: string, which: string, endline: bool, bold: bool): Render.Buffer {
    Render.Add(b, COLORS, env.colored, val, which, endline, bold)
  }

  function Mode(env: Env, b: Render.Buffer, header: string, which: string, endline: bool): Render.Buffer {
    Render.Mode(b, COLORS, env.colored, header, which, endline)
  }

  function Path(env: Env, b: Render.Buffer, path: string): Render.Buffer {
    PathOut(b, env.colored, env.dir1, env.dir2, path)
  }

  /** One iteration of `for line in stream`, on pdiff's state without brief mode. */
  function Step(env: Env, s: PDiff.State, line: Option<string>): PDiff.State {
    if line.None? then s
    else
      var t := Strip(line.value, AsciiSpace);
      Apply(env, s, Classify(t, env.dir1, env.dir2), t)
  }

  /** The if/elif chain of the loop, once the line is classified. */
  function Apply(env: Env, s: PDiff.State, rec: Record, raw: string): PDiff.State {
    match rec
    case Binary(pa, pb) => OnBinary(env, s, pa, pb)
    case OnlyIn(d, n) => OnOnlyIn(env, s, d, n)
    case FilesDiffer(fa, fb) => OnFilesDiffer(env, s, fa, fb)
    case Removed(body) => OnRemoved(env, s, body)
    case Added(body) => OnAdded(env, s, body)
    case Change(ra, rb) => s.(buf := ChangeHeader(env, s.buf), linesA := ra, linesB := rb)
    case Delete(ra, rb) => s.(buf := DeleteHeader(env, s.buf, ra, rb))
    case Append(ra, rb) => s.(buf := AppendHeader(env, s.buf, ra, rb, raw))
    case Unrecognized => s
  }

  /** `Binary files (.*) and (.*) differ`: close any file body, the header, both paths. */
  function OnBinary(env: Env, s: PDiff.State, pa: string, pb: string): PDiff.State {
    var s1 := PDiff.NotFileMode(s);
    var b1 := Mode(env, s1.buf, "BINARY", "BINARY", false);
    var b2 := Path(env, b1, pa);
    var b3 := Add(env, b2, " and ", "", false, false);
    s1.(buf := Path(env, b3, pb))
  }

  /** `Only in (.*): (.*)`: close any file body, the side's header, the joined path. */
  function OnOnlyIn(env: Env, s: PDiff.State, d: string, n: string): PDiff.State {
    var s1 := PDiff.NotFileMode(s);
    var path := PathJoin(d, n);
    var which := GetWhich(path, env.dir1, env.dir2);
    var b1 := Mode(env, s1.buf, "ONLY " + which + " HAS THE FILE", which, false);
    s1.(buf := Path(env, b1, path))
  }

  /** The `diff` header of a file: both shortened paths, and a file body opens. */
  function OnFilesDiffer(env: Env, s: PDiff.State, fa: string, fb: string): PDiff.State {
    var b1 := Mode(env, s.buf, "FILES DIFFER", "", false);
    var b2 := Add(env, b1, SimplifyPath(PathJoin(env.dir1, fa), env.dir1, env.dir2), "A", false, false);
    var b3 := Add(env, b2, SimplifyPath(PathJoin(env.dir2, fb), env.dir1, env.dir2), "B", true, false);
    s.(buf := b3, infile := true)
  }

  /** A `<` line: the pending range label of A first, if any, then the body. */
  function OnRemoved(env: Env, s: PDiff.State, body: string): PDiff.State {
    var s1 := if s.linesA != ""
              then s.(buf := Add(env, s.buf, "--in A " + PDiff.OutLine(s.linesA), "A", true, true), linesA := "")
              else s;
    s1.(buf := Add(env, s1.buf, body, "A", true, false))
  }

  /** A `>` line: the pending range label of B first, if any, then the body. */
  function OnAdded(env: Env, s: PDiff.State, body: string): PDiff.State {
    var s1 := if s.linesB != ""
              then s.(buf := Add(env, s.buf, "--in B " + PDiff.OutLine(s.linesB), "B", true, true), linesB := "")
              else s;
    s1.(buf := Add(env, s1.buf, body, "B", true, false))
  }

  /** A `c` hunk header: a short separator and the header. */
  function ChangeHeader(env: Env, b: Render.Buffer): Render.Buffer {
    Mode(env, Render.Line(b, "-", false), "text in A and B differ", "BOTH", true)
  }

  /** A `d` hunk header: a short separator, the header and both ranges. */
  function DeleteHeader(env: Env, b: Render.Buffer, ra: string, rb: string): Render.Buffer {
    var b1 := Render.Line(b, "-", false);
    var b2 := Mode(env, b1, "text only in A", "A", false);
    var b3 := Add(env, b2, PDiff.OutLine(ra), "", false, false);
    Add(env, b3, "(compare " + PDiff.OutLine(rb) + ")", "B", true, false)
  }

  /** An `a` hunk header: as for `d` with the sides exchanged, then the line itself. */
  function AppendHeader(env: Env, b: Render.Buffer, ra: string, rb: string, raw: string): Render.Buffer {
    var b4 := Add(env, AppendRange(env, b, rb), "(compare " + PDiff.OutLine(ra) + ")", "A", true, false);
    Add(env, Render.StartLine(b4), raw, "", true, false)
  }

  /** The start of an `a` hunk header: a short separator, the header and the B range. */
  function AppendRange(env: Env, b: Render.Buffer, rb: string): Render.Buffer {
    var b1 := Render.Line(b, "-", false);
    var b2 := Mode(env, b1, "text only in B", "B", false);
    Add(env, b2, PDiff.OutLine(rb), "", false, false)
  }

  function Run(env: Env, s: PDiff.State, lines: seq<Option<string>>): PDiff.State
    decreases |lines|
  {
    if lines == [] then s else Step(env, Run(env, s, lines[..|lines| - 1]), lines[|lines| - 1])
  }

  /** The two headers and the long separator written before the loop. */
  function Start(env: Env, isDir: bool): PDiff.State {
    var kind := if isDir then "DIR" else "FILE";
    var b1 := Add(env, Render.Empty, kind + " " + PDiff.Marker("A") + ": " + env.dir1, "A", true, true);
    var b2 := Add(env, b1, kind + " " + PDiff.Marker("B") + ": " + env.dir2, "B", true, true);
    PDiff.State(Render.Line(b2, "=", true), false, "", "")
  }

  function Snapshot(result: Accumulator, linesA: string, linesB: string): PDiff.State
    reads result
  {
    PDiff.State(result.State(), result.infile, linesA, linesB)
  }

  function EnvOf(result: Accumulator): Env {
    Env(result.dir1, result.dir2, result.colored)
  }

  /** The body of the loop of `main`. */
  method Dispatch(result: Accumulator, line: Option<string>, linesA: string, linesB: string)
    returns (newA: string, newB: string)
    requires result.colors == COLORS
    modifies result
    ensures result.colors == COLORS
    ensures Snapshot(result, newA, newB) == Step(EnvOf(result), old(Snapshot(result, linesA, linesB)), line)
  {
    newA, newB := linesA, linesB;
    if line.None? {
      return;
    }
    var t := Strip(line.value, AsciiSpace);
    var rec := Classify(t, result.dir1, result.dir2);
    newA, newB := Handle(result, rec, t, linesA, linesB);
  }

  /** The branches of the if/elif chain of the loop. */
  method Handle(result: Accumulator, rec: Record, raw: string, linesA: string, linesB: string)
    returns (newA: string, newB: string)
    requires result.colors == COLORS
    modifies result
    ensures result.colors == COLORS
    ensures Snapshot(result, newA, newB) == Apply(EnvOf(result), old(Snapshot(result, linesA, linesB)), rec, raw)
  {
    newA, newB := linesA, linesB;
    match rec
    case Binary(pa, pb) =>
      HandleBinary(result, pa, pb);
    case OnlyIn(d, n) =>
      HandleOnlyIn(result, d, n);
    case FilesDiffer(fa, fb) =>
      HandleFilesDiffer(result, fa, fb);
    case Removed(body) =>
      newA := HandleRemoved(result, body, linesA);
    case Added(body) =>
      newB := HandleAdded(result, body, linesB);
    case Change(ra, rb) =>
      EmitChange(result);
      newA, newB := ra, rb;
    case Delete(ra, rb) =>
      EmitDelete(result, ra, rb);
    case Append(ra, rb) =>
      EmitAppend(result, ra, rb, raw);
    case Unrecognized =>
  }

  method HandleBinary(result: Accumulator, pa: string, pb: string)
    requires result.colors == COLORS
    modifies result
    ensures result.colors == COLORS
    ensures Snapshot(result, "", "") == OnBinary(EnvOf(result), old(Snapshot(result, "", "")), pa, pb)
  {
    result.NotFileMode();
    result.Mode("BINARY", "BINARY", false);
    result.Path(pa);
    result.Add(" and ", "", false, false);
    result.Path(pb);
  }

  method HandleOnlyIn(result: Accumulator, d: string, n: string)
    requires result.colors == COLORS
    modifies result
    ensures result.colors == COLORS
    ensures Snapshot(result, "", "") == OnOnlyIn(EnvOf(result), old(Snapshot(result, "", "")), d, n)
  {
    result.NotFileMode();
    var path := PathJoin(d, n);
    var which := GetWhich(path, result.dir1, result.dir2);
    CategoriesAreKeys(path, result.dir1, result.dir2);
    result.Mode("ONLY " + which + " HAS THE FILE", which, false);
    result.Path(path);
  }

  method HandleFilesDiffer(result: Accumulator, fa: string, fb: string)
    requires result.colors == COLORS
    modifies result
    ensures result.colors == COLORS
    ensures Snapshot(result, "", "") == OnFilesDiffer(EnvOf(result), old(Snapshot(result, "", "")), fa, fb)
  {
    var dir1, dir2 := result.dir1, result.dir2;
    result.Mode("FILES DIFFER", "", false);
    result.Add(SimplifyPath(PathJoin(dir1, fa), dir1, dir2), "A", false, false);
    result.Add(SimplifyPath(PathJoin(dir2, fb), dir1, dir2), "B", true, false);
    result.FileMode();
  }

  method HandleRemoved(result: Accumulator, body: string, linesA: string) returns (newA: string)
    requires result.colors == COLORS
    modifies result
    ensures result.colors == COLORS
    ensures Snapshot(result, newA, "") == OnRemoved(EnvOf(result), old(Snapshot(result, linesA, "")), body)
  {
    newA := linesA;
    if newA != "" {
      result.Add("--in A " + PDiff.OutLine(newA), "A", true, true);
      newA := "";
    }
    result.Add(body, "A", true, false);
  }

  method HandleAdded(result: Accumulator, body: string, linesB: string) returns (newB: string)
    requires result.colors == COLORS
    modifies result
    ensures result.colors == COLORS
    ensures Snapshot(result, "", newB) == OnAdded(EnvOf(result), old(Snapshot(result, "", linesB)), body)
  {
    newB := linesB;
    if newB != "" {
      result.Add("--in B " + PDiff.OutLine(newB), "B", true, true);
      newB := "";
    }
    result.Add(body, "B", true, false);
  }

  method EmitChange(result: Accumulator)
    requires result.colors == COLORS
    modifies result
    ensures result.colors == COLORS && result.infile == old(result.infile)
    ensures result.State() == ChangeHeader(EnvOf(result), old(result.State()))
  {
    result.Line("-", false);
    result.Mode("text in A and B differ", "BOTH", true);
  }

  method EmitDelete(result: Accumulator, ra: string, rb: string)
    requires result.colors == COLORS
    modifies result
    ensures result.colors == COLORS && result.infile == old(result.infile)
    ensures result.State() == DeleteHeader(EnvOf(result), old(result.State()), ra, rb)
  {
    result.Line("-", false);
    result.Mode("text only in A", "A", false);
    result.Add(PDiff.OutLine(ra), "", false, false);
    result.Add("(compare " + PDiff.OutLine(rb) + ")", "B", true, false);
  }

  method EmitAppend(result: Accumulator, ra: string, rb: string, raw: string)
    requires result.colors == COLORS
    modifies result
    ensures result.colors == COLORS && result.infile == old(result.infile)
    ensures result.State() == AppendHeader(EnvOf(result), old(result.State()), ra, rb, raw)
  {
    result.Line("-", false);
    result.Mode("text only in B", "B", false);
    result.Add(PDiff.OutLine(rb), "", false, false);
    result.Add("(compare " + PDiff.OutLine(ra) + ")", "A", true, false);
    result.StartLine();
    result.Add(raw, "", true, false);
  }

  /** The accumulator of `main`, with the two headers and the long separator written. */
  method Open(env: Env, isDir: bool) returns (result: Accumulator)
    ensures fresh(result)
    ensures result.colors == COLORS
    ensures EnvOf(result) == env
    ensures Snapshot(result, "", "") == Start(env, isDir)
  {
    result := new Accumulator(env.dir1, env.dir2, env.colored);
    var kind := if isDir then "DIR" else "FILE";
    result.Add(kind + " " + PDiff.Marker("A") + ": " + env.dir1, "A", true, true);
    result.Add(kind + " " + PDiff.Marker("B") + ": " + env.dir2, "B", true, true);
    result.Line("=", true);
  }

  /** `main()` up to `return result`, over the lines the diff process writes; `isDir`
      stands for `os.path.isdir(dir1)`. */
  method Report(dir1: string, dir2: string, isDir: bool, colored: Render.Colored, lines: seq<Option<string>>)
    returns (text: string)
    ensures text == Run(Env(dir1, dir2, colored), Start(Env(dir1, dir2, colored), isDir), lines).buf.text
  {
    var env := Env(dir1, dir2, colored);
    var result := Open(env, isDir);
    var linesA, linesB := "", "";
    for i := 0 to |lines|
      invariant result.colors == COLORS
      invariant EnvOf(result) == env
      invariant Snapshot(result, linesA, linesB) == Run(env, Start(env, isDir), lines[..i])
    {
      linesA, linesB := Dispatch(result, lines[i], linesA, linesB);
      assert lines[..i + 1][..i] == lines[..i];
    }
    assert lines[..|lines|] == lines;
    text := result.text;
  }

  // ---------------------------------------------------------------------------------
  // What the loop promises

  /** A line whose bytes do not decode changes neither the text nor the pending ranges nor
      the file-body flag. */
  lemma UndecodableLineSkipped(env: Env, s: PDiff.State, lines: seq<Option<string>>)
    ensures Run(env, s, lines + [None]) == Run(env, s, lines)
  {
    assert (lines + [None])[..|lines|] == lines;
  }

  /** A bare `c` line has two empty groups. */
  lemma BareChangeClassified(dir1: string, dir2: string)
    ensures Classify("c", dir1, dir2) == Change("", "")
  {
    assert "c" == [] + ['c'] + [];
    RangeLineClassified("c", dir1, dir2, 'c', [], []);
  }

  /** A removed line is labelled exactly when a non-empty A range is pending: after a bare
      `c` no label is written. */
  lemma LabelOnlyWhenPending(env: Env, s: PDiff.State, body: string, raw: string)
    ensures var r := Apply(env, s, Removed(body), raw);
      && r.linesA == "" && r.linesB == s.linesB && r.infile == s.infile
      && r.buf.text == s.buf.text
           + (if s.linesA != "" then env.colored("--in A " + PDiff.OutLine(s.linesA), "red", ["bold"]) + " \n" else "")
           + env.colored(body, "red", []) + " \n"
    ensures var mid := Apply(env, s, Change("", ""), "c");
      Apply(env, mid, Removed(body), raw).buf.text == mid.buf.text + env.colored(body, "red", []) + " \n"
  {
  }

  /** A binary message leaves its line open: the second path is the last thing written
      and no newline follows it; the category is the second path's side. */
  lemma BinaryLeavesLineOpen(env: Env, s: PDiff.State, pa: string, pb: string, raw: string)
    requires Render.KeepsLineOpen(env.colored)
    requires !Render.AtLineStart(SimplifyPath(pb, env.dir1, env.dir2))
    ensures var r := Apply(env, s, Binary(pa, pb), raw);
      && !Render.AtLineStart(r.buf.text)
      && r.buf.curwhich == GetWhich(pb, env.dir1, env.dir2)
      && !r.infile
  {
    ApplyBinary(env, s, Binary(pa, pb), raw);
    var s1 := PDiff.NotFileMode(s);
    var b1 := Mode(env, s1.buf, "BINARY", "BINARY", false);
    var b3 := Add(env, Path(env, b1, pa), " and ", "", false, false);
    assert OnBinary(env, s, pa, pb) == s1.(buf := Path(env, b3, pb));
    PathLeavesLineOpen(env, b3, pb);
  }

  /** A shortened path that does not end in a newline leaves the line open, with its side
      as the current category. */
  lemma PathLeavesLineOpen(env: Env, b: Render.Buffer, path: string)
    requires Render.KeepsLineOpen(env.colored)
    requires !Render.AtLineStart(SimplifyPath(path, env.dir1, env.dir2))
    ensures !Render.AtLineStart(Path(env, b, path).text)
    ensures Path(env, b, path).curwhich == GetWhich(path, env.dir1, env.dir2)
  {
    var which := GetWhich(path, env.dir1, env.dir2);
    var shown := env.colored(SimplifyPath(path, env.dir1, env.dir2), Render.ColorOf(COLORS, which), Render.BoldUnderline);
    assert !Render.AtLineStart(shown);
    var t := Render.Tint(b, which).text;
    assert Path(env, b, path).text == t + shown;
    assert (t + shown)[|t + shown| - 1] == shown[|shown| - 1];
  }

  /** The step on a binary message is `OnBinary`. */
  lemma ApplyBinary(env: Env, s: PDiff.State, rec: Record, raw: string)
    requires rec.Binary?
    ensures Apply(env, s, rec, raw) == OnBinary(env, s, rec.pathA, rec.pathB)
  {
  }

  /** An only-in message closes a file body, names the side `get_which` gives the joined
      path in the header, in that side's colour, and ends with the path. */
  lemma OnlyInLine(env: Env, s: PDiff.State, d: string, n: string, raw: string)
    ensures var r := Apply(env, s, OnlyIn(d, n), raw);
      var path := PathJoin(d, n);
      var which := GetWhich(path, env.dir1, env.dir2);
      var color := if which == "A" then "red" else if which == "B" then "cyan" else "yellow";
      && !r.infile && r.linesA == s.linesA && r.linesB == s.linesB
      && r.buf.curwhich == which
      && r.buf.text == Render.StartLine(PDiff.NotFileMode(s).buf).text
           + env.colored("ONLY " + which + " HAS THE FILE", color, Render.BoldUnderline)
           + env.colored(": ", color, [])
           + env.colored(SimplifyPath(path, env.dir1, env.dir2), color, Render.BoldUnderline)
  {
  }

  /** An append hunk ends with the raw range line echoed on a line of its own, after the
      `(compare ...)` label has closed the previous line. */
  lemma AppendEchoesLine(env: Env, s: PDiff.State, ra: string, rb: string, raw: string)
    ensures var b3 := AppendRange(env, s.buf, rb);
      var b4 := Add(env, b3, "(compare " + PDiff.OutLine(ra) + ")", "A", true, false);
      var r := Apply(env, s, Append(ra, rb), raw);
      && b4.text == b3.text + env.colored("(compare " + PDiff.OutLine(ra) + ")", "red", []) + " \n"
      && r.buf.text == b4.text + env.colored(raw, "white", []) + " \n"
      && r.linesA == s.linesA && r.linesB == s.linesB && r.infile == s.infile
  {
    ApplyAppend(env, s, Append(ra, rb), raw);
    CompareThenEcho(env, AppendRange(env, s.buf, rb), PDiff.OutLine(ra), raw);
  }

  /** The step on an `a` hunk header writes the header and nothing else changes. */
  lemma ApplyAppend(env: Env, s: PDiff.State, rec: Record, raw: string)
    requires rec.Append?
    ensures Apply(env, s, rec, raw) == s.(buf := AppendHeader(env, s.buf, rec.rangeA, rec.rangeB, raw))
  {
  }

  /** The `(compare ...)` label closes its line, and the echoed line follows on its own. */
  lemma CompareThenEcho(env: Env, b3: Render.Buffer, range: string, raw: string)
    ensures var b4 := Add(env, b3, "(compare " + range + ")", "A", true, false);
      && b4.text == b3.text + env.colored("(compare " + range + ")", "red", []) + " \n"
      && Add(env, Render.StartLine(b4), raw, "", true, false).text == b4.text + env.colored(raw, "white", []) + " \n"
  {
    var b4 := Add(env, b3, "(compare " + range + ")", "A", true, false);
    Render.AddEndsLine(b3, COLORS, env.colored, "(compare " + range + ")", "A", false);
    ColorsOfSides();
  }

  /** The colours `set_color` hands out for the categories the loop uses. */
  lemma ColorsOfSides()
    ensures Render.ColorOf(COLORS, "") == "white" && Render.ColorOf(COLORS, "A") == "red"
    ensures Render.ColorOf(COLORS, "B") == "cyan" && Render.Attrs(false) == [] && Render.Attrs(true) == ["bold"]
  {
  }

  /** A `diff` header always opens a file body here, and the next binary or only-in
      message draws the long separator before it. */
  lemma HeaderThenMessage(env: Env, s: PDiff.State, fa: string, fb: string, raw: string, rec: Record, raw2: string)
    requires rec.Binary? || rec.OnlyIn?
    ensures var mid := Apply(env, s, FilesDiffer(fa, fb), raw);
      && mid.infile
      && StartsWith(Apply(env, mid, rec, raw2).buf.text, Render.StartLine(mid.buf).text + Repeat("=", 80) + "\n")
  {
    var mid := Apply(env, s, FilesDiffer(fa, fb), raw);
    Render.LineSeparator(mid.buf, "=", true);
    assert PDiff.NotFileMode(mid).buf == Render.Line(mid.buf, "=", true);
    if rec.Binary? {
      BinaryExtends(env, mid, rec.pathA, rec.pathB);
    } else {
      OnlyInExtends(env, mid, rec.dir, rec.name);
    }
  }

  /** A binary message only appends to what closing the file body left. */
  lemma BinaryExtends(env: Env, s: PDiff.State, pa: string, pb: string)
    ensures StartsWith(OnBinary(env, s, pa, pb).buf.text, PDiff.NotFileMode(s).buf.text)
  {
    var s1 := PDiff.NotFileMode(s);
    var b1 := Mode(env, s1.buf, "BINARY", "BINARY", false);
    var b2 := Path(env, b1, pa);
    var b3 := Add(env, b2, " and ", "", false, false);
    var b4 := Path(env, b3, pb);
    Render.AppendOnly(s1.buf, COLORS, env.colored, "BINARY", "BINARY", false, false, "", false);
    Render.AppendOnly(b2, COLORS, env.colored, " and ", "", false, false, "", false);
    assert StartsWith(b2.text, b1.text);
    assert StartsWith(b4.text, b3.text);
    Render.PrefixTrans(s1.buf.text, b1.text, b2.text);
    Render.PrefixTrans(s1.buf.text, b2.text, b3.text);
    Render.PrefixTrans(s1.buf.text, b3.text, b4.text);
  }

  /** An only-in message only appends to what closing the file body left. */
  lemma OnlyInExtends(env: Env, s: PDiff.State, d: string, n: string)
    ensures StartsWith(OnOnlyIn(env, s, d, n).buf.text, PDiff.NotFileMode(s).buf.text)
  {
    var s1 := PDiff.NotFileMode(s);
    var path := PathJoin(d, n);
    var which := GetWhich(path, env.dir1, env.dir2);
    var b1 := Mode(env, s1.buf, "ONLY " + which + " HAS THE FILE", which, false);
    Render.AppendOnly(s1.buf, COLORS, env.colored, "ONLY " + which + " HAS THE FILE", which, false, false, "", false);
    assert StartsWith(Path(env, b1, path).text, b1.text);
    Render.PrefixTrans(s1.buf.text, b1.text, Path(env, b1, path).text);
  }

  /** Every line only appends to the report. */
  lemma ApplyAppendOnly(env: Env, s: PDiff.State, rec: Record, raw: string)
    ensures StartsWith(Apply(env, s, rec, raw).buf.text, s.buf.text)
  {
    if rec.Binary? || rec.OnlyIn? || rec.FilesDiffer? {
      MessageAppendOnly(env, s, rec, raw);
    } else {
      HunkAppendOnly(env, s, rec, raw);
    }
  }

  /** The three message branches only append. */
  lemma MessageAppendOnly(env: Env, s: PDiff.State, rec: Record, raw: string)
    requires rec.Binary? || rec.OnlyIn? || rec.FilesDiffer?
    ensures StartsWith(Apply(env, s, rec, raw).buf.text, s.buf.text)
  {
    var closed := PDiff.NotFileMode(s).buf.text;
    match rec
    case Binary(pa, pb) =>
      PDiff.NotFileModeExtends(s);
      BinaryExtends(env, s, pa, pb);
      Render.PrefixTrans(s.buf.text, closed, OnBinary(env, s, pa, pb).buf.text);
    case OnlyIn(d, n) =>
      PDiff.NotFileModeExtends(s);
      OnlyInExtends(env, s, d, n);
      Render.PrefixTrans(s.buf.text, closed, OnOnlyIn(env, s, d, n).buf.text);
    case FilesDiffer(fa, fb) =>
      FilesDifferExtends(env, s, fa, fb);
  }

  /** The body lines and the three hunk headers only append. */
  lemma HunkAppendOnly(env: Env, s: PDiff.State, rec: Record, raw: string)
    requires !(rec.Binary? || rec.OnlyIn? || rec.FilesDiffer?)
    ensures StartsWith(Apply(env, s, rec, raw).buf.text, s.buf.text)
  {
    match rec
    case Removed(body) => RemovedExtends(env, s, body);
    case Added(body) => AddedExtends(env, s, body);
    case Change(_, _) => ChangeHeaderExtends(env, s.buf);
    case Delete(ra, rb) => DeleteHeaderExtends(env, s.buf, ra, rb);
    case Append(ra, rb) => AppendHeaderExtends(env, s.buf, ra, rb, raw);
    case Unrecognized =>
  }

  lemma FilesDifferExtends(env: Env, s: PDiff.State, fa: string, fb: string)
    ensures StartsWith(OnFilesDiffer(env, s, fa, fb).buf.text, s.buf.text)
  {
    var b1 := Mode(env, s.buf, "FILES DIFFER", "", false);
    var b2 := Add(env, b1, SimplifyPath(PathJoin(env.dir1, fa), env.dir1, env.dir2), "A", false, false);
    var b3 := Add(env, b2, SimplifyPath(PathJoin(env.dir2, fb), env.dir1, env.dir2), "B", true, false);
    Render.AppendOnly(s.buf, COLORS, env.colored, "FILES DIFFER", "", false, false, "", false);
    AddExtends(env, b1, SimplifyPath(PathJoin(env.dir1, fa), env.dir1, env.dir2), "A", false, false);
    AddExtends(env, b2, SimplifyPath(PathJoin(env.dir2, fb), env.dir1, env.dir2), "B", true, false);
    Render.PrefixTrans(s.buf.text, b1.text, b2.text);
    Render.PrefixTrans(s.buf.text, b2.text, b3.text);
  }

  lemma RemovedExtends(env: Env, s: PDiff.State, body: string)
    ensures StartsWith(OnRemoved(env, s, body).buf.text, s.buf.text)
  {
    var s1 := if s.linesA != ""
              then s.(buf := Add(env, s.buf, "--in A " + PDiff.OutLine(s.linesA), "A", true, true), linesA := "")
              else s;
    AddExtends(env, s.buf, "--in A " + PDiff.OutLine(s.linesA), "A", true, true);
    AddExtends(env, s1.buf, body, "A", true, false);
    Render.PrefixTrans(s.buf.text, s1.buf.text, OnRemoved(env, s, body).buf.text);
  }

  lemma AddedExtends(env: Env, s: PDiff.State, body: string)
    ensures StartsWith(OnAdded(env, s, body).buf.text, s.buf.text)
  {
    var s1 := if s.linesB != ""
              then s.(buf := Add(env, s.buf, "--in B " + PDiff.OutLine(s.linesB), "B", true, true), linesB := "")
              else s;
    AddExtends(env, s.buf, "--in B " + PDiff.OutLine(s.linesB), "B", true, true);
    AddExtends(env, s1.buf, body, "B", true, false);
    Render.PrefixTrans(s.buf.text, s1.buf.text, OnAdded(env, s, body).buf.text);
  }

  lemma ChangeHeaderExtends(env: Env, b: Render.Buffer)
    ensures StartsWith(ChangeHeader(env, b).text, b.text)
  {
    var b1 := Render.Line(b, "-", false);
    PDiff.LineExtends(b, "-", false);
    Render.AppendOnly(b1, COLORS, env.colored, "text in A and B differ", "BOTH", true, false, "", false);
    Render.PrefixTrans(b.text, b1.text, ChangeHeader(env, b).text);
  }

  lemma DeleteHeaderExtends(env: Env, b: Render.Buffer, ra: string, rb: string)
    ensures StartsWith(DeleteHeader(env, b, ra, rb).text, b.text)
  {
    var b1 := Render.Line(b, "-", false);
    var b2 := Mode(env, b1, "text only in A", "A", false);
    var b3 := Add(env, b2, PDiff.OutLine(ra), "", false, false);
    PDiff.LineExtends(b, "-", false);
    Render.AppendOnly(b1, COLORS, env.colored, "text only in A", "A", false, false, "", false);
    AddExtends(env, b2, PDiff.OutLine(ra), "", false, false);
    AddExtends(env, b3, "(compare " + PDiff.OutLine(rb) + ")", "B", true, false);
    Render.PrefixTrans(b.text, b1.text, b2.text);
    Render.PrefixTrans(b.text, b2.text, b3.text);
    Render.PrefixTrans(b.text, b3.text, DeleteHeader(env, b, ra, rb).text);
  }

  lemma AppendHeaderExtends(env: Env, b: Render.Buffer, ra: string, rb: string, raw: string)
    ensures StartsWith(AppendHeader(env, b, ra, rb, raw).text, b.text)
  {
    var b3 := AppendRange(env, b, rb);
    var b4 := Add(env, b3, "(compare " + PDiff.OutLine(ra) + ")", "A", true, false);
    var b5 := Render.StartLine(b4);
    AppendRangeExtends(env, b, rb);
    AddExtends(env, b3, "(compare " + PDiff.OutLine(ra) + ")", "A", true, false);
    Render.AppendOnly(b4, COLORS, env.colored, "", "", false, false, "", false);
    AddExtends(env, b5, raw, "", true, false);
    Render.PrefixTrans(b.text, b3.text, b4.text);
    Render.PrefixTrans(b.text, b4.text, b5.text);
    Render.PrefixTrans(b.text, b5.text, AppendHeader(env, b, ra, rb, raw).text);
  }

  lemma AppendRangeExtends(env: Env, b: Render.Buffer, rb: string)
    ensures StartsWith(AppendRange(env, b, rb).text, b.text)
  {
    var b1 := Render.Line(b, "-", false);
    var b2 := Mode(env, b1, "text only in B", "B", false);
    PDiff.LineExtends(b, "-", false);
    Render.AppendOnly(b1, COLORS, env.colored, "text only in B", "B", false, false, "", false);
    AddExtends(env, b2, PDiff.OutLine(rb), "", false, false);
    Render.PrefixTrans(b.text, b1.text, b2.text);
    Render.PrefixTrans(b.text, b2.text, AppendRange(env, b, rb).text);
  }

  lemma AddExtends(env: Env, b: Render.Buffer, val: string, which: string, endline: bool, bold: bool)
    ensures StartsWith(Add(env, b, val, which, endline, bold).text, b.text)
  {
    Render.AppendOnly(b, COLORS, env.colored, val, which, endline, bold, "", false);
  }

  /** The report is written as the stream is read: the report of the first `i` lines is
      a prefix of the report of the whole stream. */
  lemma {:induction false} RunExtends(env: Env, s: PDiff.State, lines: seq<Option<string>>, i: nat)
    requires i <= |lines|
    ensures StartsWith(Run(env, s, lines).buf.text, Run(env, s, lines[..i]).buf.text)
    decreases |lines|
  {
    if i < |lines| {
      var init := lines[..|lines| - 1];
      var last := lines[|lines| - 1];
      RunExtends(env, s, init, i);
      assert init[..i] == lines[..i];
      var before := Run(env, s, init);
      if last.Some? {
        var t := Strip(last.value, AsciiSpace);
        ApplyAppendOnly(env, before, Classify(t, env.dir1, env.dir2), t);
      }
      Render.PrefixTrans(Run(env, s, lines[..i]).buf.text, before.buf.text, Run(env, s, lines).buf.text);
    } else {
      assert lines[..i] == lines;
    }
  }
}
