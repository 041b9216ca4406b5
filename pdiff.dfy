/** pdiff/__init__.py: range labels, the path classifier, `MyAccumulator` and the per-line
    dispatch loop of `main`, which turns the output of `diff -dr` into a coloured report. */
module PDiff {
  import opened Strings
  import opened Patterns
  import Render
  import Accumulator

  const COLORS: map<string, string> :=
    map["" := "white", "A" := "red", "B" := "cyan", "BOTH" := "magenta", "BINARY" := "yellow", "?" := "yellow"]

  // ---------------------------------------------------------------------------------
  // Range labels

  /** `out_line`: "line N" for a single line, "lines N-M" for a comma-separated range. */
  function OutLine(lineno: string): string {
    if ',' in lineno then "lines " + ReplaceAll(lineno, ",", "-") else "line " + lineno
  }

  /** Reads a label back into the range it was made from. */
  function ParseOutLine(shown: string): Option<string> {
    if StartsWith(shown, "lines ") then Some(ReplaceAll(shown[6..], "-", ","))
    else if StartsWith(shown, "line ") then Some(shown[5..])
    else None
  }

  /** `s` with every `x` turned into `y`, character by character. */
  function Swap(s: string, x: char, y: char): (r: string)
    ensures |r| == |s|
    ensures forall k :: 0 <= k < |s| ==> r[k] == if s[k] == x then y else s[k]
  {
    if s == [] then [] else [if s[0] == x then y else s[0]] + Swap(s[1..], x, y)
  }

  /** Replacing a one-character pattern by a one-character text is a character swap. */
  lemma {:induction false} ReplaceLetter(s: string, x: char, y: char)
    ensures ReplaceAll(s, [x], [y]) == Swap(s, x, y)
    decreases |s|
  {
    if s != [] {
      ReplaceLetter(s[1..], x, y);
      if s[0] == x {
        assert StartsWith(s, [x]);
      } else {
        assert !StartsWith(s, [x]);
      }
    }
  }

  /** The label of a range always reads back as that range: `out_line` loses nothing on
      the strings the range patterns capture. */
  lemma OutLineRoundTrip(lineno: string)
    requires IsRange(lineno)
    ensures ParseOutLine(OutLine(lineno)) == Some(lineno)
  {
    if ',' in lineno {
      var shown := OutLine(lineno);
      ReplaceLetter(lineno, ',', '-');
      var swapped := Swap(lineno, ',', '-');
      assert shown[6..] == swapped;
      ReplaceLetter(swapped, '-', ',');
      assert Swap(swapped, '-', ',') == lineno;
    } else {
      var shown := OutLine(lineno);
      assert shown[4] == ' ';
      assert !StartsWith(shown, "lines ") by {
        assert "lines "[4] == 's';
      }
      assert shown[5..] == lineno;
    }
  }

  /** A label is plural exactly when the range has a comma, and it never holds a comma. */
  lemma OutLineForm(lineno: string)
    ensures ',' in lineno <==> StartsWith(OutLine(lineno), "lines ")
    ensures ',' !in lineno ==> OutLine(lineno) == "line " + lineno
    ensures ',' !in OutLine(lineno)
  {
    if ',' in lineno {
      OutLinePlural(lineno);
    } else {
      OutLineSingular(lineno);
    }
  }

  lemma OutLinePlural(lineno: string)
    requires ',' in lineno
    ensures StartsWith(OutLine(lineno), "lines ") && ',' !in OutLine(lineno)
  {
    ReplaceLetter(lineno, ',', '-');
    var swapped := Swap(lineno, ',', '-');
    assert OutLine(lineno) == "lines " + swapped;
    SwapRemoves(lineno, ',', '-');
    assert ',' !in "lines ";
  }

  /** After the swap no `x` is left. */
  lemma SwapRemoves(s: string, x: char, y: char)
    requires x != y
    ensures x !in Swap(s, x, y)
  {
    var r := Swap(s, x, y);
    forall k | 0 <= k < |r| ensures r[k] != x {
    }
  }

  lemma OutLineSingular(lineno: string)
    requires ',' !in lineno
    ensures OutLine(lineno) == "line " + lineno
    ensures !StartsWith(OutLine(lineno), "lines ") && ',' !in OutLine(lineno)
  {
    var shown := "line " + lineno;
    assert shown[4] == ' ';
    assert "lines "[4] == 's';
    forall k | 0 <= k < |shown| ensures shown[k] != ',' {
      if k >= 5 {
        assert shown[k] == lineno[k - 5];
      }
    }
  }

  lemma OutLineExamples()
    ensures OutLine("5") == "line 5"
    ensures OutLine("5,9") == "lines 5-9"
    ensures OutLine("") == "line "
  {
    ReplaceLetter("5,9", ',', '-');
    assert Swap("5,9", ',', '-') == "5-9";
    assert "5,9"[1] == ',';
  }

  // ---------------------------------------------------------------------------------
  // Path classifier

  /** `«A»` or `«B»` */
  function Marker(side: string): string {
    "\U{AB}" + side + "\U{BB}"
  }

  /** `get_which`: the first side, in the order A then B, whose root begins the path. */
  function GetWhich(path: string, dir1: string, dir2: string): string {
    if StartsWith(path, dir1) then "A"
    else if StartsWith(path, dir2) then "B"
    else "?"
  }

  /** `simplify_path`: the root of the first matching side replaced by its marker, once. */
  function SimplifyPath(path: string, dir1: string, dir2: string): string {
    if StartsWith(path, dir1) then ReplaceFirst(path, dir1, Marker("A"))
    else if StartsWith(path, dir2) then ReplaceFirst(path, dir2, Marker("B"))
    else path
  }

  function Root(side: string, dir1: string, dir2: string): string {
    if side == "A" then dir1 else dir2
  }

  /** Puts the root back in place of a leading marker. */
  function Expand(shown: string, dir1: string, dir2: string): string {
    if StartsWith(shown, Marker("A")) then dir1 + shown[3..]
    else if StartsWith(shown, Marker("B")) then dir2 + shown[3..]
    else shown
  }

  /** A wins when both roots begin the path; an empty root claims every path. */
  lemma GetWhichOrder(path: string, dir1: string, dir2: string)
    ensures GetWhich(path, dir1, dir2) == "A" <==> StartsWith(path, dir1)
    ensures GetWhich(path, dir1, dir2) == "B" <==> !StartsWith(path, dir1) && StartsWith(path, dir2)
    ensures GetWhich(path, dir1, dir2) == "?" <==> !StartsWith(path, dir1) && !StartsWith(path, dir2)
    ensures dir1 == "" ==> GetWhich(path, dir1, dir2) == "A"
  {
  }

  /** `simplify_path` picks the same side as `get_which` and swaps exactly the root's
      characters for the marker; an unmatched path is left alone. */
  lemma SimplifyAgreesWithGetWhich(path: string, dir1: string, dir2: string)
    ensures var w := GetWhich(path, dir1, dir2);
      SimplifyPath(path, dir1, dir2)
        == if w == "?" then path else Marker(w) + path[|Root(w, dir1, dir2)|..]
  {
  }

  /** The marker stands for its root: expanding a shortened path gives the path back. */
  lemma SimplifyExpand(path: string, dir1: string, dir2: string)
    requires GetWhich(path, dir1, dir2) != "?"
    ensures Expand(SimplifyPath(path, dir1, dir2), dir1, dir2) == path
  {
    var w := GetWhich(path, dir1, dir2);
    var shown := SimplifyPath(path, dir1, dir2);
    assert shown == Marker(w) + path[|Root(w, dir1, dir2)|..];
    assert shown[..3] == Marker(w);
    if w == "B" {
      assert Marker("A")[1] != Marker("B")[1];
      assert !StartsWith(shown, Marker("A"));
    }
    assert shown[3..] == path[|Root(w, dir1, dir2)|..];
    assert path == Root(w, dir1, dir2) + path[|Root(w, dir1, dir2)|..];
  }

  /** Shortening twice is shortening once, as long as neither root is empty or itself
      begins with a marker. */
  lemma SimplifyIdempotent(path: string, dir1: string, dir2: string)
    requires dir1 != [] && dir1[0] != '\U{AB}'
    requires dir2 != [] && dir2[0] != '\U{AB}'
    ensures SimplifyPath(SimplifyPath(path, dir1, dir2), dir1, dir2) == SimplifyPath(path, dir1, dir2)
  {
    var shown := SimplifyPath(path, dir1, dir2);
    if GetWhich(path, dir1, dir2) != "?" {
      SimplifyAgreesWithGetWhich(path, dir1, dir2);
      assert shown[0] == '\U{AB}';
      assert !StartsWith(shown, dir1) && !StartsWith(shown, dir2);
    }
  }

  // ---------------------------------------------------------------------------------
  // MyAccumulator

  /** `MyAccumulator.path`: the shortened path, bold and underlined, in its side's colour. */
  function PathOut(b: Render.Buffer, colors: map<string, string>, colored: Render.Colored,
                   dir1: string, dir2: string, path: string): Render.Buffer
  {
    var which := GetWhich(path, dir1, dir2);
    var b1 := Render.Tint(b, which);
    b1.(text := b1.text + colored(SimplifyPath(path, dir1, dir2), Render.ColorOf(colors, which), Render.BoldUnderline))
  }

  /** `MyAccumulator(TextAccumulator)`: the inherited buffer is the `acc` component. */
  class MyAccumulator {
    const acc: Accumulator.TextAccumulator
    var infile: bool
    const dir1: string
    const dir2: string

    constructor (dir1: string, dir2: string, colored: Render.Colored)
      ensures fresh(acc)
      ensures acc.text == "" && acc.colors == map[] && acc.curwhich == "" && acc.colored == colored
      ensures !infile && this.dir1 == dir1 && this.dir2 == dir2
    {
      acc := new Accumulator.TextAccumulator(colored);
      infile := false;
      this.dir1 := dir1;
      this.dir2 := dir2;
    }

    method FileMode()
      modifies this
      ensures infile
    {
      infile := true;
    }

    /** Leaving a file body draws the long `=` separator, and only then. */
    method NotFileMode()
      modifies this, acc
      ensures !infile
      ensures acc.State() == if old(infile) then Render.Line(old(acc.State()), "=", true) else old(acc.State())
      ensures acc.colors == old(acc.colors)
    {
      if infile {
        acc.Line("=", true);
      }
      infile := false;
    }

    method Path(path: string)
      modifies acc
      ensures acc.State() == PathOut(old(acc.State()), acc.colors, acc.colored, dir1, dir2, path)
      ensures acc.colors == old(acc.colors)
    {
      var color := acc.SetColor(GetWhich(path, dir1, dir2));
      acc.text := acc.text + acc.colored(SimplifyPath(path, dir1, dir2), color, Render.BoldUnderline);
    }
  }

  // ---------------------------------------------------------------------------------
  // The dispatch loop of `main`

  /** What stays fixed during a run: the roots, termcolor and brief mode. */
  datatype Env = Env(dir1: string, dir2: string, colored: Render.Colored, brief: bool)

  /** The accumulator, its file-body flag and the pending ranges `lines_A`, `lines_B`. */
  datatype State = State(buf: Render.Buffer, infile: bool, linesA: string, linesB: string)

  function FileMode(s: State): State {
    s.(infile := true)
  }

  function NotFileMode(s: State): State {
    if s.infile then s.(buf := Render.Line(s.buf, "=", true), infile := false) else s
  }

  function Add(env: Env, b: Render.Buffer, val: string, which: string, endline: bool, bold: bool): Render.Buffer {
    Render.Add(b, COLORS, env.colored, val, which, endline, bold)
  }

  function Mode(env: Env, b: Render.Buffer, header: string, which: string, endline: bool): Render.Buffer {
    Render.Mode(b, COLORS, env.colored, header, which, endline)
  }

  function Path(env: Env, b: Render.Buffer, path: string): Render.Buffer {
    PathOut(b, COLORS, env.colored, env.dir1, env.dir2, path)
  }

  /** One iteration of `for line in stream`: the line is stripped of ASCII white space;
      `None` is a line whose bytes failed to decode, which is skipped. */
  function Step(env: Env, s: State, line: Option<string>): State {
    if line.None? then s
    else
      var t := Strip(line.value, AsciiSpace);
      Apply(env, s, Classify(t, env.dir1, env.dir2), t)
  }

  /** The branch of the if/elif chain that the record of line `raw` selects; in brief mode
      every branch but the three messages does nothing. */
  function Apply(env: Env, s: State, rec: Record, raw: string): State {
    match rec
    case Binary(pa, pb) => OnBinary(env, s, pa, pb)
    case OnlyIn(d, n) => OnOnlyIn(env, s, d, n)
    case FilesDiffer(fa, fb) => OnFilesDiffer(env, s, fa, fb)
    case Removed(body) => if env.brief then s else OnRemoved(env, s, body)
    case Added(body) => if env.brief then s else OnAdded(env, s, body)
    case Change(ra, rb) => if env.brief then s else OnChange(env, s, ra, rb)
    case Delete(ra, rb) => if env.brief then s else OnDelete(env, s, ra, rb)
    case Append(ra, rb) => if env.brief then s else OnAppend(env, s, ra, rb, raw)
    case Unrecognized => s
  }

  /** `Binary files (.*) and (.*) differ`: close any file body, then the header and the two
      paths. */
  function OnBinary(env: Env, s: State, pa: string, pb: string): State {
    var s1 := NotFileMode(s);
    var b1 := Mode(env, s1.buf, "BINARY", "BINARY", false);
    var b2 := Path(env, b1, pa);
    var b3 := Add(env, b2, " and ", "", false, false);
    s1.(buf := Path(env, b3, pb))
  }

  /** `Only in (.*): (.*)$`: close any file body, then the side that has the entry and the
      joined path. */
  function OnOnlyIn(env: Env, s: State, d: string, n: string): State {
    var s1 := NotFileMode(s);
    var path := PathJoin(d, n);
    var which := GetWhich(path, env.dir1, env.dir2);
    var b1 := Mode(env, s1.buf, "ONLY " + which + " HAS THE FILE", which, false);
    s1.(buf := Path(env, b1, path))
  }

  /** The `diff` header of a file: both shortened paths on one line; a file body opens
      unless in brief mode. */
  function OnFilesDiffer(env: Env, s: State, fa: string, fb: string): State {
    var b1 := Mode(env, s.buf, "FILES DIFFER", "", false);
    var b2 := Add(env, b1, SimplifyPath(PathJoin(env.dir1, fa), env.dir1, env.dir2), "A", false, false);
    var b3 := Add(env, b2, SimplifyPath(PathJoin(env.dir2, fb), env.dir1, env.dir2), "B", true, false);
    if env.brief then s.(buf := b3) else FileMode(s.(buf := b3))
  }

  /** A `<` line: the pending range label of A first, if any, then the body. */
  function OnRemoved(env: Env, s: State, body: string): State {
    var s1 := if s.linesA != ""
              then s.(buf := Add(env, s.buf, "--in A " + OutLine(s.linesA), "A", true, true), linesA := "")
              else s;
    s1.(buf := Add(env, s1.buf, body, "A", true, false))
  }

  /** A `>` line: the pending range label of B first, if any, then the body. */
  function OnAdded(env: Env, s: State, body: string): State {
    var s1 := if s.linesB != ""
              then s.(buf := Add(env, s.buf, "--in B " + OutLine(s.linesB), "B", true, true), linesB := "")
              else s;
    s1.(buf := Add(env, s1.buf, body, "B", true, false))
  }

  /** A `c` hunk header: a short separator, the header, and both ranges pending. */
  function OnChange(env: Env, s: State, ra: string, rb: string): State {
    s.(buf := ChangeHeader(env, s.buf), linesA := ra, linesB := rb)
  }

  function ChangeHeader(env: Env, b: Render.Buffer): Render.Buffer {
    Mode(env, Render.Line(b, "-", false), "text in A and B differ", "BOTH", true)
  }

  /** A `d` hunk header: a short separator, the header and both ranges. */
  function OnDelete(env: Env, s: State, ra: string, rb: string): State {
    s.(buf := DeleteHeader(env, s.buf, ra, rb))
  }

  function DeleteHeader(env: Env, b: Render.Buffer, ra: string, rb: string): Render.Buffer {
    var b1 := Render.Line(b, "-", false);
    var b2 := Mode(env, b1, "text only in A", "A", false);
    var b3 := Add(env, b2, OutLine(ra), "", false, false);
    Add(env, b3, "(compare " + OutLine(rb) + ")", "B", true, false)
  }

  /** An `a` hunk header: as for `d` with the sides exchanged, then the header line itself. */
  function OnAppend(env: Env, s: State, ra: string, rb: string, raw: string): State {
    s.(buf := AppendHeader(env, s.buf, ra, rb, raw))
  }

  function AppendHeader(env: Env, b: Render.Buffer, ra: string, rb: string, raw: string): Render.Buffer {
    var b1 := Render.Line(b, "-", false);
    var b2 := Mode(env, b1, "text only in B", "B", false);
    var b3 := Add(env, b2, OutLine(rb), "", false, false);
    var b4 := Add(env, b3, "(compare " + OutLine(ra) + ")", "A", true, false);
    Add(env, Render.StartLine(b4), raw, "", true, false)
  }

  /** The loop over a whole stream, from state `s`. */
  function Run(env: Env, s: State, lines: seq<Option<string>>): State
    decreases |lines|
  {
    if lines == [] then s else Step(env, Run(env, s, lines[..|lines| - 1]), lines[|lines| - 1])
  }

  /** The state before the loop: the two `DIR «A»: ...` / `FILE «B»: ...` headers and a
      long separator. */
  function Start(env: Env, isDir: bool): State {
    var kind := if isDir then "DIR" else "FILE";
    var b1 := Add(env, Render.Empty, kind + " " + Marker("A") + ": " + env.dir1, "A", true, true);
    var b2 := Add(env, b1, kind + " " + Marker("B") + ": " + env.dir2, "B", true, true);
    State(Render.Line(b2, "=", true), false, "", "")
  }

  function Snapshot(result: MyAccumulator, linesA: string, linesB: string): State
    reads result, result.acc
  {
    State(result.acc.State(), result.infile, linesA, linesB)
  }

  function EnvOf(result: MyAccumulator, brief: bool): Env {
    Env(result.dir1, result.dir2, result.acc.colored, brief)
  }

  /** The body of the loop in `main`, on the accumulator and the pending ranges. */
  method Dispatch(result: MyAccumulator, line: Option<string>, brief: bool, linesA: string, linesB: string)
    returns (newA: string, newB: string)
    requires result.acc.colors == COLORS
    modifies result, result.acc
    ensures result.acc.colors == COLORS
    ensures Snapshot(result, newA, newB) == Step(EnvOf(result, brief), old(Snapshot(result, linesA, linesB)), line)
  {
    newA, newB := linesA, linesB;
    if line.None? {
      // the undecodable line is reported on standard output and skipped
      return;
    }
    var t := Strip(line.value, AsciiSpace);
    var rec := Classify(t, result.dir1, result.dir2);
    newA, newB := Handle(result, rec, t, brief, linesA, linesB);
  }

  /** The branches of the if/elif chain, once the line is classified. */
  method Handle(result: MyAccumulator, rec: Record, raw: string, brief: bool, linesA: string, linesB: string)
    returns (newA: string, newB: string)
    requires result.acc.colors == COLORS
    modifies result, result.acc
    ensures result.acc.colors == COLORS
    ensures Snapshot(result, newA, newB) == Apply(EnvOf(result, brief), old(Snapshot(result, linesA, linesB)), rec, raw)
  {
    newA, newB := linesA, linesB;
    if rec.Binary? || rec.OnlyIn? || rec.FilesDiffer? {
      HandleMessage(result, rec, raw, brief, linesA, linesB);
    } else if rec.Removed? || rec.Added? {
      newA, newB := HandleBody(result, rec, raw, brief, linesA, linesB);
    } else if !rec.Unrecognized? {
      newA, newB := HandleHunk(result, rec, raw, brief, linesA, linesB);
    }
  }

  /** The three message branches: `Binary files`, `Only in` and the `diff` header. */
  method HandleMessage(result: MyAccumulator, rec: Record, raw: string, brief: bool, linesA: string, linesB: string)
    requires rec.Binary? || rec.OnlyIn? || rec.FilesDiffer?
    requires result.acc.colors == COLORS
    modifies result, result.acc
    ensures result.acc.colors == COLORS
    ensures Snapshot(result, linesA, linesB) == Apply(EnvOf(result, brief), old(Snapshot(result, linesA, linesB)), rec, raw)
  {
    var dir1, dir2 := result.dir1, result.dir2;
    match rec
    case Binary(pa, pb) =>
      result.NotFileMode();
      result.acc.Mode("BINARY", "BINARY", false);
      result.Path(pa);
      result.acc.Add(" and ", "", false, false);
      result.Path(pb);
    case OnlyIn(d, n) =>
      result.NotFileMode();
      var path := PathJoin(d, n);
      var which := GetWhich(path, dir1, dir2);
      result.acc.Mode("ONLY " + which + " HAS THE FILE", which, false);
      result.Path(path);
    case FilesDiffer(fa, fb) =>
      result.acc.Mode("FILES DIFFER", "", false);
      result.acc.Add(SimplifyPath(PathJoin(dir1, fa), dir1, dir2), "A", false, false);
      result.acc.Add(SimplifyPath(PathJoin(dir2, fb), dir1, dir2), "B", true, false);
      if !brief {
        result.FileMode();
      }
  }

  /** The body-line branches: `<` and `>`. */
  method HandleBody(result: MyAccumulator, rec: Record, raw: string, brief: bool, linesA: string, linesB: string)
    returns (newA: string, newB: string)
    requires rec.Removed? || rec.Added?
    requires result.acc.colors == COLORS
    modifies result, result.acc
    ensures result.acc.colors == COLORS
    ensures Snapshot(result, newA, newB) == Apply(EnvOf(result, brief), old(Snapshot(result, linesA, linesB)), rec, raw)
  {
    newA, newB := linesA, linesB;
    var dir1, dir2 := result.dir1, result.dir2;
    match rec
    case Removed(body) =>
      if !brief {
        if newA != "" {
          result.acc.Add("--in A " + OutLine(newA), "A", true, true);
          newA := "";
        }
        result.acc.Add(body, "A", true, false);
      }
    case Added(body) =>
      if !brief {
        if newB != "" {
          result.acc.Add("--in B " + OutLine(newB), "B", true, true);
          newB := "";
        }
        result.acc.Add(body, "B", true, false);
      }
  }

  /** The hunk-header branches: `c`, `d` and `a`. */
  method HandleHunk(result: MyAccumulator, rec: Record, raw: string, brief: bool, linesA: string, linesB: string)
    returns (newA: string, newB: string)
    requires rec.Change? || rec.Delete? || rec.Append?
    requires result.acc.colors == COLORS
    modifies result.acc
    ensures result.acc.colors == COLORS
    ensures Snapshot(result, newA, newB) == Apply(EnvOf(result, brief), old(Snapshot(result, linesA, linesB)), rec, raw)
  {
    newA, newB := linesA, linesB;
    if brief {
      return;
    }
    var env := EnvOf(result, brief);
    match rec
    case Change(ra, rb) =>
      EmitChange(result.acc, env);
      newA, newB := ra, rb;
    case Delete(ra, rb) =>
      EmitDelete(result.acc, env, ra, rb);
    case Append(ra, rb) =>
      EmitAppend(result.acc, env, ra, rb, raw);
  }

  /** The output of a `c` header on the accumulator. */
  method EmitChange(acc: Accumulator.TextAccumulator, env: Env)
    requires acc.colors == COLORS && acc.colored == env.colored
    modifies acc
    ensures acc.colors == COLORS
    ensures acc.State() == ChangeHeader(env, old(acc.State()))
  {
    acc.Line("-", false);
    acc.Mode("text in A and B differ", "BOTH", true);
  }

  /** The output of a `d` header on the accumulator. */
  method EmitDelete(acc: Accumulator.TextAccumulator, env: Env, ra: string, rb: string)
    requires acc.colors == COLORS && acc.colored == env.colored
    modifies acc
    ensures acc.colors == COLORS
    ensures acc.State() == DeleteHeader(env, old(acc.State()), ra, rb)
  {
    acc.Line("-", false);
    acc.Mode("text only in A", "A", false);
    acc.Add(OutLine(ra), "", false, false);
    acc.Add("(compare " + OutLine(rb) + ")", "B", true, false);
  }

  /** The output of an `a` header on the accumulator. */
  method EmitAppend(acc: Accumulator.TextAccumulator, env: Env, ra: string, rb: string, raw: string)
    requires acc.colors == COLORS && acc.colored == env.colored
    modifies acc
    ensures acc.colors == COLORS
    ensures acc.State() == AppendHeader(env, old(acc.State()), ra, rb, raw)
  {
    acc.Line("-", false);
    acc.Mode("text only in B", "B", false);
    acc.Add(OutLine(rb), "", false, false);
    acc.Add("(compare " + OutLine(ra) + ")", "A", true, false);
    acc.StartLine();
    acc.Add(raw, "", true, false);
  }

  /** The accumulator of `main` with the colour table set and the headers written. */
  method Open(env: Env, isDir: bool) returns (result: MyAccumulator)
    ensures fresh(result) && fresh(result.acc)
    ensures result.acc.colors == COLORS
    ensures EnvOf(result, env.brief) == env
    ensures Snapshot(result, "", "") == Start(env, isDir)
  {
    result := new MyAccumulator(env.dir1, env.dir2, env.colored);
    result.acc.colors := COLORS;
    var kind := if isDir then "DIR" else "FILE";
    result.acc.Add(kind + " " + Marker("A") + ": " + env.dir1, "A", true, true);
    result.acc.Add(kind + " " + Marker("B") + ": " + env.dir2, "B", true, true);
    result.acc.Line("=", true);
  }

  /** `main(dir1, dir2, brief=...)` from the headers to `return result.text`, over the lines
      the diff process writes; `isDir` stands for `os.path.isdir(dir1)`. */
  method Report(dir1: string, dir2: string, isDir: bool, brief: bool, colored: Render.Colored,
                lines: seq<Option<string>>) returns (text: string)
    ensures text == Run(Env(dir1, dir2, colored, brief), Start(Env(dir1, dir2, colored, brief), isDir), lines).buf.text
  {
    var env := Env(dir1, dir2, colored, brief);
    var result := Open(env, isDir);
    var linesA, linesB := "", "";
    var i := 0;
    while i < |lines|
      invariant 0 <= i <= |lines|
      invariant result.acc.colors == COLORS
      invariant EnvOf(result, brief) == env
      invariant Snapshot(result, linesA, linesB) == Run(env, Start(env, isDir), lines[..i])
    {
      linesA, linesB := Dispatch(result, lines[i], brief, linesA, linesB);
      assert lines[..i + 1][..i] == lines[..i];
      i := i + 1;
    }
    assert lines[..|lines|] == lines;
    text := result.acc.text;
  }

  // ---------------------------------------------------------------------------------
  // What the loop promises

  /** A line already free of surrounding white space is passed on unchanged. */
  lemma StripClean(line: string)
    requires line == [] || (line[0] !in AsciiSpace && line[|line| - 1] !in AsciiSpace)
    ensures Strip(line, AsciiSpace) == line
  {
  }

  /** A removed body line carries the pending `--in A` label, in bold, on a line of its own
      before it, and clears it; without a pending range only the body line is written. */
  lemma RemovedLine(env: Env, s: State, body: string, raw: string)
    requires !env.brief
    ensures var r := Apply(env, s, Removed(body), raw);
      && r.linesA == "" && r.linesB == s.linesB && r.infile == s.infile
      && r.buf.text == s.buf.text
           + (if s.linesA != "" then env.colored("--in A " + OutLine(s.linesA), "red", ["bold"]) + " \n" else "")
           + env.colored(body, "red", []) + " \n"
  {
  }

  /** The same for an added body line and the pending `--in B` label. */
  lemma AddedLine(env: Env, s: State, body: string, raw: string)
    requires !env.brief
    ensures var r := Apply(env, s, Added(body), raw);
      && r.linesB == "" && r.linesA == s.linesA && r.infile == s.infile
      && r.buf.text == s.buf.text
           + (if s.linesB != "" then env.colored("--in B " + OutLine(s.linesB), "cyan", ["bold"]) + " \n" else "")
           + env.colored(body, "cyan", []) + " \n"
  {
  }

  /** A change hunk `NcM` sets both pending ranges, and the first removed line after it is
      labelled with the A range, which is then used up. */
  lemma ChangeHunkLabelsFirstLine(env: Env, s: State, ra: string, rb: string, x: string, hunk: string, body: string)
    requires !env.brief && ra != ""
    ensures var mid := Apply(env, s, Change(ra, rb), hunk);
      var r := Apply(env, mid, Removed(x), body);
      && mid.linesA == ra && mid.linesB == rb
      && r.linesA == "" && r.linesB == rb
      && r.buf.text == mid.buf.text + env.colored("--in A " + OutLine(ra), "red", ["bold"]) + " \n"
                       + env.colored(x, "red", []) + " \n"
  {
    var mid := Apply(env, s, Change(ra, rb), hunk);
    ChangeSetsRanges(env, s, ra, rb, hunk);
    RemovedLine(env, mid, x, body);
  }

  /** A change hunk outside brief mode makes its two ranges the pending ones. */
  lemma ChangeSetsRanges(env: Env, s: State, ra: string, rb: string, hunk: string)
    requires !env.brief
    ensures var mid := Apply(env, s, Change(ra, rb), hunk);
      mid.linesA == ra && mid.linesB == rb && mid.infile == s.infile
  {
  }

  /** `d` and `a` hunk headers only write: the pending ranges and the file-body flag are
      as before, in brief mode and out of it. */
  lemma DeleteAppendKeepRanges(env: Env, s: State, rec: Record, raw: string)
    requires rec.Delete? || rec.Append?
    ensures var r := Apply(env, s, rec, raw);
      r.linesA == s.linesA && r.linesB == s.linesB && r.infile == s.infile
  {
  }

  /** So a range set by a `c` header outlives a following `d` or `a` header and still
      labels the next removed line. */
  lemma ChangeRangeOutlivesHunk(env: Env, s: State, ra: string, rb: string, hunk: string,
                                rec: Record, raw: string, mid: State, x: string, body: string)
    requires !env.brief && ra != "" && (rec.Delete? || rec.Append?)
    requires mid == Apply(env, Apply(env, s, Change(ra, rb), hunk), rec, raw)
    ensures var r := Apply(env, mid, Removed(x), body);
      && r.linesA == "" && r.linesB == rb
      && r.buf.text == mid.buf.text + env.colored("--in A " + OutLine(ra), "red", ["bold"]) + " \n"
                       + env.colored(x, "red", []) + " \n"
  {
    ChangeThenHunk(env, s, ra, rb, hunk, rec, raw);
    PendingRangeLabels(env, mid, ra, rb, x, body);
  }

  /** A removed line after which the A range `ra` is pending carries its label. */
  lemma PendingRangeLabels(env: Env, mid: State, ra: string, rb: string, x: string, body: string)
    requires !env.brief && ra != "" && mid.linesA == ra && mid.linesB == rb
    ensures var r := Apply(env, mid, Removed(x), body);
      && r.linesA == "" && r.linesB == rb
      && r.buf.text == mid.buf.text + env.colored("--in A " + OutLine(ra), "red", ["bold"]) + " \n"
                       + env.colored(x, "red", []) + " \n"
  {
    RemovedLine(env, mid, x, body);
  }

  /** A `c` header followed by a `d` or `a` header leaves the `c` ranges pending. */
  lemma ChangeThenHunk(env: Env, s: State, ra: string, rb: string, hunk: string, rec: Record, raw: string)
    requires !env.brief && (rec.Delete? || rec.Append?)
    ensures var mid := Apply(env, Apply(env, s, Change(ra, rb), hunk), rec, raw);
      mid.linesA == ra && mid.linesB == rb
  {
    ChangeSetsRanges(env, s, ra, rb, hunk);
    DeleteAppendKeepRanges(env, Apply(env, s, Change(ra, rb), hunk), rec, raw);
  }

  /** The two lines of such a hunk, `NcM` and `< x`, are classified as a change and a
      removed line whatever the roots are. */
  lemma ChangeLineClassified(env: Env, ra: string, rb: string)
    requires IsRange(ra) && IsRange(rb) && ra != ""
    ensures var hunk := ra + "c" + rb;
      Strip(hunk, AsciiSpace) == hunk && Classify(hunk, env.dir1, env.dir2) == Change(ra, rb)
  {
    var hunk := ra + "c" + rb;
    assert hunk[0] == ra[0];
    StripClean(hunk);
    RangeLineClassified(hunk, env.dir1, env.dir2, 'c', ra, rb);
  }

  lemma RemovedLineClassified(env: Env, x: string)
    requires x != [] && x[|x| - 1] !in AsciiSpace
    ensures var body := "< " + x;
      Strip(body, AsciiSpace) == body && Classify(body, env.dir1, env.dir2) == Removed(x)
  {
    var body := "< " + x;
    assert body[0] == '<' && body[|body| - 1] == x[|x| - 1];
    StripClean(body);
    assert StartsWith(body, "<");
    BodyLineClassified(body, env.dir1, env.dir2);
    assert body[2..] == x;
  }

  /** The lines that still matter in brief mode: the three one-line messages. */
  function Messages(env: Env, lines: seq<Option<string>>): (r: seq<Option<string>>)
    ensures |r| <= |lines|
    decreases |lines|
  {
    if lines == [] then []
    else
      var last := lines[|lines| - 1];
      var keep := last.Some? &&
        var rec := Classify(Strip(last.value, AsciiSpace), env.dir1, env.dir2);
        rec.Binary? || rec.OnlyIn? || rec.FilesDiffer?;
      Messages(env, lines[..|lines| - 1]) + (if keep then [last] else [])
  }

  /** Brief mode reports exactly what it would report if every body line, every range
      line and every unrecognised line were removed from the stream. */
  lemma {:induction false} BriefIgnoresBodies(env: Env, s: State, lines: seq<Option<string>>)
    requires env.brief
    ensures Run(env, s, lines) == Run(env, s, Messages(env, lines))
    decreases |lines|
  {
    if lines != [] {
      var init := lines[..|lines| - 1];
      var last := lines[|lines| - 1];
      BriefIgnoresBodies(env, s, init);
      var kept := Messages(env, init);
      if Messages(env, lines) != kept {
        assert Messages(env, lines) == kept + [last];
        assert (kept + [last])[..|kept|] == kept;
      }
    }
  }

  /** In brief mode no file body is entered and no range is ever pending, so no `=`
      separator is drawn between messages. */
  lemma {:induction false} BriefNeverInFile(env: Env, s: State, lines: seq<Option<string>>)
    requires env.brief && !s.infile && s.linesA == "" && s.linesB == ""
    ensures var r := Run(env, s, lines); !r.infile && r.linesA == "" && r.linesB == ""
    decreases |lines|
  {
    if lines != [] {
      var init := lines[..|lines| - 1];
      var last := lines[|lines| - 1];
      BriefNeverInFile(env, s, init);
      var before := Run(env, s, init);
      if last.Some? {
        var t := Strip(last.value, AsciiSpace);
        BriefApply(env, before, Classify(t, env.dir1, env.dir2), t);
      }
    }
  }

  lemma BriefApply(env: Env, s: State, rec: Record, raw: string)
    requires env.brief && !s.infile && s.linesA == "" && s.linesB == ""
    ensures var r := Apply(env, s, rec, raw); !r.infile && r.linesA == "" && r.linesB == ""
  {
  }

  /** A `diff` header starts a file body unless in brief mode, keeps the pending ranges,
      and writes the two shortened paths in the A and B colours on one line. */
  lemma FilesDifferLine(env: Env, s: State, fa: string, fb: string, raw: string)
    ensures var r := Apply(env, s, FilesDiffer(fa, fb), raw);
      && r.infile == (s.infile || !env.brief)
      && r.linesA == s.linesA && r.linesB == s.linesB
      && r.buf.text == Mode(env, s.buf, "FILES DIFFER", "", false).text
           + env.colored(SimplifyPath(PathJoin(env.dir1, fa), env.dir1, env.dir2), "red", []) + " "
           + env.colored(SimplifyPath(PathJoin(env.dir2, fb), env.dir1, env.dir2), "cyan", []) + " \n"
  {
  }

  /** The A file of a `diff` header is always shown under the A marker, relative to the
      root (a relative name cannot escape the root). */
  lemma HeaderPathA(dir1: string, dir2: string, fa: string)
    requires !StartsWith(fa, "/")
    ensures SimplifyPath(PathJoin(dir1, fa), dir1, dir2)
              == Marker("A") + (if dir1 == [] || dir1[|dir1| - 1] == '/' then fa else "/" + fa)
  {
    var p := PathJoin(dir1, fa);
    assert StartsWith(p, dir1);
    SimplifyAgreesWithGetWhich(p, dir1, dir2);
  }

  /** The B file is shown under the A marker when the A root is a prefix of the B root
      (as with roots `src` and `src2`): the A root is tried first. */
  lemma HeaderPathBUnderA(dir1: string, dir2: string, fb: string)
    requires StartsWith(dir2, dir1) && !StartsWith(fb, "/")
    ensures GetWhich(PathJoin(dir2, fb), dir1, dir2) == "A"
    ensures SimplifyPath(PathJoin(dir2, fb), dir1, dir2) == Marker("A") + PathJoin(dir2, fb)[|dir1|..]
  {
    var p := PathJoin(dir2, fb);
    assert StartsWith(p, dir2);
    assert p[..|dir1|] == p[..|dir2|][..|dir1|];
    SimplifyAgreesWithGetWhich(p, dir1, dir2);
  }

  /** A binary or only-in message ends a file body: it draws the long `=` separator on a
      line of its own exactly when a file body was open, and closes it. */
  lemma MessageEndsFileBody(env: Env, s: State, rec: Record, raw: string)
    requires rec.Binary? || rec.OnlyIn?
    ensures var r := Apply(env, s, rec, raw);
      && !r.infile && r.linesA == s.linesA && r.linesB == s.linesB
      && StartsWith(r.buf.text, NotFileMode(s).buf.text)
    ensures s.infile ==> NotFileMode(s).buf.text == Render.StartLine(s.buf).text + Repeat("=", 80) + "\n"
    ensures !s.infile ==> NotFileMode(s).buf == s.buf
  {
    var s1 := NotFileMode(s);
    if s.infile {
      Render.LineSeparator(s.buf, "=", true);
    }
    var r := Apply(env, s, rec, raw);
    match rec
    case Binary(pa, pb) =>
      var b1 := Mode(env, s1.buf, "BINARY", "BINARY", false);
      var b2 := Path(env, b1, pa);
      var b3 := Add(env, b2, " and ", "", false, false);
      assert StartsWith(b1.text, s1.buf.text) by { Render.AppendOnly(s1.buf, COLORS, env.colored, "BINARY", "BINARY", false, false, "", false); }
      Render.PrefixTrans(s1.buf.text, b1.text, b2.text);
      Render.PrefixTrans(s1.buf.text, b2.text, b3.text);
      Render.PrefixTrans(s1.buf.text, b3.text, r.buf.text);
    case OnlyIn(d, n) =>
      var path := PathJoin(d, n);
      var which := GetWhich(path, env.dir1, env.dir2);
      var b1 := Mode(env, s1.buf, "ONLY " + which + " HAS THE FILE", which, false);
      assert StartsWith(b1.text, s1.buf.text) by { Render.AppendOnly(s1.buf, COLORS, env.colored, "ONLY " + which + " HAS THE FILE", which, false, false, "", false); }
      Render.PrefixTrans(s1.buf.text, b1.text, r.buf.text);
  }

  /** Every line only appends to the report. */
  lemma ApplyAppendOnly(env: Env, s: State, rec: Record, raw: string)
    ensures StartsWith(Apply(env, s, rec, raw).buf.text, s.buf.text)
  {
    if rec.Binary? || rec.OnlyIn? || rec.FilesDiffer? {
      MessageAppendOnly(env, s, rec, raw);
    } else {
      BodyAppendOnly(env, s, rec, raw);
    }
  }

  lemma MessageAppendOnly(env: Env, s: State, rec: Record, raw: string)
    requires rec.Binary? || rec.OnlyIn? || rec.FilesDiffer?
    ensures StartsWith(Apply(env, s, rec, raw).buf.text, s.buf.text)
  {
    var r := Apply(env, s, rec, raw);
    match rec
    case Binary(_, _) =>
      MessageEndsFileBody(env, s, rec, raw);
      NotFileModeExtends(s);
      Render.PrefixTrans(s.buf.text, NotFileMode(s).buf.text, r.buf.text);
    case OnlyIn(_, _) =>
      MessageEndsFileBody(env, s, rec, raw);
      NotFileModeExtends(s);
      Render.PrefixTrans(s.buf.text, NotFileMode(s).buf.text, r.buf.text);
    case FilesDiffer(fa, fb) =>
      var b1 := Mode(env, s.buf, "FILES DIFFER", "", false);
      ModeExtends(env, s.buf, "FILES DIFFER", "", false);
      FilesDifferLine(env, s, fa, fb, raw);
      Render.PrefixTrans(s.buf.text, b1.text, r.buf.text);
  }

  lemma BodyAppendOnly(env: Env, s: State, rec: Record, raw: string)
    requires !(rec.Binary? || rec.OnlyIn? || rec.FilesDiffer?)
    ensures StartsWith(Apply(env, s, rec, raw).buf.text, s.buf.text)
  {
    var r := Apply(env, s, rec, raw);
    match rec
    case Removed(body) =>
      if !env.brief {
        RemovedLine(env, s, body, raw);
      }
    case Added(body) =>
      if !env.brief {
        AddedLine(env, s, body, raw);
      }
    case Change(ra, rb) =>
      if !env.brief {
        var b1 := Render.Line(s.buf, "-", false);
        LineExtends(s.buf, "-", false);
        ModeExtends(env, b1, "text in A and B differ", "BOTH", true);
        Render.PrefixTrans(s.buf.text, b1.text, r.buf.text);
      }
    case Delete(ra, rb) =>
      if !env.brief {
        DeleteAppendOnly(env, s, ra, rb);
      }
    case Append(ra, rb) =>
      if !env.brief {
        AppendAppendOnly(env, s, ra, rb, raw);
      }
    case Unrecognized =>
  }

  lemma DeleteAppendOnly(env: Env, s: State, ra: string, rb: string)
    ensures var b1 := Render.Line(s.buf, "-", false);
      var b2 := Mode(env, b1, "text only in A", "A", false);
      var b3 := Add(env, b2, OutLine(ra), "", false, false);
      StartsWith(Add(env, b3, "(compare " + OutLine(rb) + ")", "B", true, false).text, s.buf.text)
  {
    var b1 := Render.Line(s.buf, "-", false);
    var b2 := Mode(env, b1, "text only in A", "A", false);
    var b3 := Add(env, b2, OutLine(ra), "", false, false);
    var b4 := Add(env, b3, "(compare " + OutLine(rb) + ")", "B", true, false);
    LineExtends(s.buf, "-", false);
    ModeExtends(env, b1, "text only in A", "A", false);
    AddExtends(env, b2, OutLine(ra), "", false, false);
    AddExtends(env, b3, "(compare " + OutLine(rb) + ")", "B", true, false);
    Render.PrefixTrans(s.buf.text, b1.text, b2.text);
    Render.PrefixTrans(s.buf.text, b2.text, b3.text);
    Render.PrefixTrans(s.buf.text, b3.text, b4.text);
  }

  lemma AppendAppendOnly(env: Env, s: State, ra: string, rb: string, raw: string)
    ensures var b1 := Render.Line(s.buf, "-", false);
      var b2 := Mode(env, b1, "text only in B", "B", false);
      var b3 := Add(env, b2, OutLine(rb), "", false, false);
      var b4 := Add(env, b3, "(compare " + OutLine(ra) + ")", "A", true, false);
      StartsWith(Add(env, Render.StartLine(b4), raw, "", true, false).text, s.buf.text)
  {
    var b1 := Render.Line(s.buf, "-", false);
    var b2 := Mode(env, b1, "text only in B", "B", false);
    var b3 := Add(env, b2, OutLine(rb), "", false, false);
    var b4 := Add(env, b3, "(compare " + OutLine(ra) + ")", "A", true, false);
    var b5 := Render.StartLine(b4);
    var b6 := Add(env, b5, raw, "", true, false);
    LineExtends(s.buf, "-", false);
    ModeExtends(env, b1, "text only in B", "B", false);
    AddExtends(env, b2, OutLine(rb), "", false, false);
    AddExtends(env, b3, "(compare " + OutLine(ra) + ")", "A", true, false);
    AddExtends(env, b5, raw, "", true, false);
    Render.PrefixTrans(s.buf.text, b1.text, b2.text);
    Render.PrefixTrans(s.buf.text, b2.text, b3.text);
    Render.PrefixTrans(s.buf.text, b3.text, b4.text);
    Render.PrefixTrans(s.buf.text, b4.text, b5.text);
    Render.PrefixTrans(s.buf.text, b5.text, b6.text);
  }

  lemma AddExtends(env: Env, b: Render.Buffer, val: string, which: string, endline: bool, bold: bool)
    ensures StartsWith(Add(env, b, val, which, endline, bold).text, b.text)
  {
    Render.AppendOnly(b, COLORS, env.colored, val, which, endline, bold, "", false);
  }

  lemma ModeExtends(env: Env, b: Render.Buffer, header: string, which: string, endline: bool)
    ensures StartsWith(Mode(env, b, header, which, endline).text, b.text)
  {
    Render.AppendOnly(b, COLORS, env.colored, header, which, endline, false, "", false);
  }

  lemma LineExtends(b: Render.Buffer, ch: string, longline: bool)
    ensures StartsWith(Render.Line(b, ch, longline).text, b.text)
  {
    Render.AppendOnly(b, map[], (x, y, z) => x, "", "", false, false, ch, longline);
  }

  lemma NotFileModeExtends(s: State)
    ensures StartsWith(NotFileMode(s).buf.text, s.buf.text)
  {
    LineExtends(s.buf, "=", true);
  }

  /** The report is written as the stream is read: the report of the first `i` lines is
      a prefix of the report of the whole stream. */
  lemma {:induction false} RunExtends(env: Env, s: State, lines: seq<Option<string>>, i: nat)
    requires i <= |lines|
    ensures StartsWith(Run(env, s, lines).buf.text, Run(env, s, lines[..i]).buf.text)
    decreases |lines|
  {
    if i < |lines| {
      var init := lines[..|lines| - 1];
      var last := lines[|lines| - 1];
      RunExtends(env, s, init, i);
      assert init[..i] == lines[..i];
      var before := Run(env, s, init);
      if last.Some? {
        var t := Strip(last.value, AsciiSpace);
        ApplyAppendOnly(env, before, Classify(t, env.dir1, env.dir2), t);
      }
      Render.PrefixTrans(Run(env, s, lines[..i]).buf.text, before.buf.text, Run(env, s, lines).buf.text);
    } else {
      assert lines[..i] == lines;
    }
  }
}
