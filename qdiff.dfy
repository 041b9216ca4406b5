/** qdiff.py: the quick variant, over the output of `diff -qr`. It sorts the lines into
    the files that differ (`inBoth`), the entries only under the first root (`inA`) and
    those only under the second (`inB`), printing each as it goes. */
module QDiff {
  import opened Strings
  import opened Patterns
  import Render

  // ---------------------------------------------------------------------------------
  // hilite_path

  /** The directory label and colour `hilite_path` gives a path: `A` in red when its
      directory is exactly the first root, else `B` in cyan when it is exactly the second,
      else the directory itself in white. */
  function Side(path: string, dir1: string, dir2: string): (r: (string, string))
    ensures r.0 == "A" && r.1 == "red" <==> Dirname(path) == dir1
    ensures r.0 == "B" && r.1 == "cyan" <==> Dirname(path) != dir1 && Dirname(path) == dir2
    ensures Dirname(path) != dir1 && Dirname(path) != dir2 ==> r == (Dirname(path), "white")
  {
    var dir := Dirname(path);
    if dir == dir1 then ("A", "red")
    else if dir == dir2 then ("B", "cyan")
    else (dir, "white")
  }

  /** `hilite_path`: the directory label and a slash in the side's colour, then the base
      name in bold underline. */
  function HilitePath(colored: Render.Colored, path: string, dir1: string, dir2: string): string {
    var side := Side(path, dir1, dir2);
    colored(side.0 + "/", side.1, []) + colored(Basename(path), side.1, Render.BoldUnderline)
  }

  /** A path one level further down than the first root keeps its real directory and
      is not coloured as A: the comparison is by equality, not by prefix. */
  lemma HiliteNeedsExactDirectory(dir1: string, dir2: string)
    requires dir2 != "d/sub"
    ensures Side("d/sub/f", "d", dir2) == ("d/sub", "white")
    ensures Side("d/f", "d", dir2) == ("A", "red")
  {
    assert OccursAt("d/sub/f", "/", 5);
    assert "d/sub/f"[6..7] == "f";
    assert !OccursAt("d/sub/f", "/", 6);
    assert LastOccurrence("d/sub/f", "/", 6) == Some(5);
    assert SplitPoint("d/sub/f") == 6;
    assert "d/sub/f"[..6] == "d/sub/";
    assert "d/sub/"[5] == '/' && "d/sub/"[4] == 'b';
    assert !AllSlashes("d/sub/");
    assert StripTrailingSlashes("d/sub") == "d/sub";
    assert "d/sub/"[..5] == "d/sub";
    assert Dirname("d/sub/f") == "d/sub";
    assert OccursAt("d/f", "/", 1);
    assert "d/f"[2..3] == "f";
    assert !OccursAt("d/f", "/", 2);
    assert LastOccurrence("d/f", "/", 2) == Some(1);
    assert "d/f"[..2] == "d/" && "d/"[..1] == "d";
    assert "d/"[0] == 'd';
    assert Dirname("d/f") == "d";
  }

  /** What is shown for a path: `A/` in red when it sits directly in the first root, `B/`
      in cyan when directly in the second, else its own directory in white; the base name
      follows, in the same colour, bold and underlined. */
  lemma HiliteLabels(colored: Render.Colored, path: string, dir1: string, dir2: string)
    ensures var base := Basename(path);
      var r := HilitePath(colored, path, dir1, dir2);
      && (Dirname(path) == dir1 ==>
            r == colored("A/", "red", []) + colored(base, "red", Render.BoldUnderline))
      && (Dirname(path) != dir1 && Dirname(path) == dir2 ==>
            r == colored("B/", "cyan", []) + colored(base, "cyan", Render.BoldUnderline))
      && (Dirname(path) != dir1 && Dirname(path) != dir2 ==>
            r == colored(Dirname(path) + "/", "white", []) + colored(base, "white", Render.BoldUnderline))
  {
    assert "A" + "/" == "A/" && "B" + "/" == "B/";
  }

  /** When both roots are the path's directory, the first one wins. */
  lemma HiliteFirstRootFirst(path: string, dir: string)
    requires Dirname(path) == dir
    ensures Side(path, dir, dir) == ("A", "red")
  {
  }

  // ---------------------------------------------------------------------------------
  // The loop over `diff -qr` output

  datatype Env = Env(dir1: string, dir2: string, colored: Render.Colored)

  /** The three lists and the lines printed so far. */
  datatype Lists = Lists(inA: seq<string>, inB: seq<string>, inBoth: seq<string>, printed: seq<string>)

  /** The kinds of line the loop tells apart. */
  datatype Line = Both(name: string) | OnlyA(entry: string) | OnlyB(entry: string) | Other

  /** `re.match(f"Only in {dir}/?(.*): (.*)$", line)`: the optional slash is taken when the
      rest of the pattern can still match after it. */
  function OnlyMatch(line: string, dir: string): Option<Split> {
    var slash := MatchGreedy(line, "Only in " + dir + "/", ": ", "");
    if slash.Some? then slash else MatchGreedy(line, "Only in " + dir, ": ", "")
  }

  /** The if/elif chain: `Files` first, then the first root's `Only in`, then the second's. */
  function Classify(line: string, dir1: string, dir2: string): Line {
    var files := MatchGreedy(line, "Files " + dir1 + "/", " and " + dir2 + "/", " differ");
    var onlyA := OnlyMatch(line, dir1);
    var onlyB := OnlyMatch(line, dir2);
    if files.Some? then Both(files.value.first)
    else if onlyA.Some? then OnlyA(onlyA.value.first + "/" + onlyA.value.second)
    else if onlyB.Some? then OnlyB(onlyB.value.first + "/" + onlyB.value.second)
    else Other
  }

  function Apply(env: Env, s: Lists, kind: Line, line: string): Lists {
    match kind
    case Both(name) => s.(inBoth := s.inBoth + [name], printed := s.printed + [env.colored(name, "magenta", [])])
    case OnlyA(entry) => s.(inA := s.inA + [entry], printed := s.printed + [env.colored(entry, "red", [])])
    case OnlyB(entry) => s.(inB := s.inB + [entry], printed := s.printed + [env.colored(entry, "cyan", [])])
    case Other => s.(printed := s.printed + [line])
  }

  /** One iteration of `for line in stream`, after `line.strip()`. */
  function Step(env: Env, s: Lists, raw: string): Lists {
    var line := Strip(raw, UnicodeSpace);
    Apply(env, s, Classify(line, env.dir1, env.dir2), line)
  }

  function Run(env: Env, s: Lists, lines: seq<string>): Lists
    decreases |lines|
  {
    if lines == [] then s else Step(env, Run(env, s, lines[..|lines| - 1]), lines[|lines| - 1])
  }

  /** The two header lines printed before the loop; `print` puts a space between its two
      arguments. */
  function Start(env: Env): Lists {
    Lists([], [], [], ["DIR1: " + " " + env.colored(env.dir1, "red", []), "DIR2: " + " " + env.colored(env.dir2, "cyan", [])])
  }

  /** The script from the headers to the end of the loop, over the lines of `diff -qr`. */
  method Report(dir1: string, dir2: string, colored: Render.Colored, stream: seq<string>)
    returns (inA: seq<string>, inB: seq<string>, inBoth: seq<string>, printed: seq<string>)
    ensures Lists(inA, inB, inBoth, printed) == Run(Env(dir1, dir2, colored), Start(Env(dir1, dir2, colored)), stream)
  {
    var env := Env(dir1, dir2, colored);
    printed := ["DIR1: " + " " + colored(dir1, "red", []), "DIR2: " + " " + colored(dir2, "cyan", [])];
    inA, inB, inBoth := [], [], [];
    for i := 0 to |stream|
      invariant Lists(inA, inB, inBoth, printed) == Run(env, Start(env), stream[..i])
    {
      assert stream[..i + 1][..i] == stream[..i];
      var line := Strip(stream[i], UnicodeSpace);
      inA, inB, inBoth, printed := Sort(env, line, inA, inB, inBoth, printed);
    }
    assert stream[..|stream|] == stream;
  }

  /** The body of the loop for one stripped line: the first pattern that matches decides
      the list, and the entry just appended is what is printed. */
  method Sort(env: Env, line: string, inA0: seq<string>, inB0: seq<string>, inBoth0: seq<string>, printed0: seq<string>)
    returns (inA: seq<string>, inB: seq<string>, inBoth: seq<string>, printed: seq<string>)
    ensures Lists(inA, inB, inBoth, printed)
            == Apply(env, Lists(inA0, inB0, inBoth0, printed0), Classify(line, env.dir1, env.dir2), line)
  {
    inA, inB, inBoth, printed := inA0, inB0, inBoth0, printed0;
    var files := MatchGreedy(line, "Files " + env.dir1 + "/", " and " + env.dir2 + "/", " differ");
    if files.Some? {
      inBoth := inBoth + [files.value.first];
      printed := printed + [env.colored(inBoth[|inBoth| - 1], "magenta", [])];
      return;
    }
    var onlyA := OnlyMatch(line, env.dir1);
    if onlyA.Some? {
      inA := inA + [onlyA.value.first + "/" + onlyA.value.second];
      printed := printed + [env.colored(inA[|inA| - 1], "red", [])];
      return;
    }
    var onlyB := OnlyMatch(line, env.dir2);
    if onlyB.Some? {
      inB := inB + [onlyB.value.first + "/" + onlyB.value.second];
      printed := printed + [env.colored(inB[|inB| - 1], "cyan", [])];
      return;
    }
    printed := printed + [line];
  }

  // ---------------------------------------------------------------------------------
  // What the loop promises

  /** Each line adds to at most one of the three lists, none of them loses anything, and
      exactly one line is printed for it; a line that matches nothing is printed as is. */
  lemma OneListPerLine(env: Env, s: Lists, raw: string)
    ensures var r := Step(env, s, raw);
      && s.inA <= r.inA && s.inB <= r.inB && s.inBoth <= r.inBoth
      && |r.inA| + |r.inB| + |r.inBoth| <= |s.inA| + |s.inB| + |s.inBoth| + 1
      && |r.printed| == |s.printed| + 1 && s.printed <= r.printed
    ensures var line := Strip(raw, UnicodeSpace);
      Classify(line, env.dir1, env.dir2) == Other ==>
        Step(env, s, raw) == s.(printed := s.printed + [line])
  {
    var line := Strip(raw, UnicodeSpace);
    OneList(env, s, Classify(line, env.dir1, env.dir2), line);
  }

  lemma OneList(env: Env, s: Lists, kind: Line, line: string)
    ensures var r := Apply(env, s, kind, line);
      && s.inA <= r.inA && s.inB <= r.inB && s.inBoth <= r.inBoth
      && |r.inA| + |r.inB| + |r.inBoth| <= |s.inA| + |s.inB| + |s.inBoth| + 1
      && |r.printed| == |s.printed| + 1 && s.printed <= r.printed
  {
  }

  /** Over a whole stream the lists only grow, and one line is printed per input line. */
  lemma {:induction false} RunGrows(env: Env, s: Lists, lines: seq<string>)
    ensures var r := Run(env, s, lines);
      && s.inA <= r.inA && s.inB <= r.inB && s.inBoth <= r.inBoth
      && |r.printed| == |s.printed| + |lines|
    decreases |lines|
  {
    if lines != [] {
      var init := lines[..|lines| - 1];
      RunGrows(env, s, init);
      OneListPerLine(env, Run(env, s, init), lines[|lines| - 1]);
    }
  }

  /** A `Files` line naming a file `x` under both roots lands in `inBoth`, with the
      longest name the pattern allows, one that is followed by ` and <root 2>/`. */
  lemma FilesLineToBoth(env: Env, line: string, x: string, y: string)
    requires line == "Files " + env.dir1 + "/" + x + " and " + env.dir2 + "/" + y + " differ"
    ensures Classify(line, env.dir1, env.dir2).Both?
    ensures |x| <= |Classify(line, env.dir1, env.dir2).name|
    ensures StartsWith(line, "Files " + env.dir1 + "/" + Classify(line, env.dir1, env.dir2).name + " and " + env.dir2 + "/")
  {
    var pre := "Files " + env.dir1 + "/";
    var mid := " and " + env.dir2 + "/";
    assert Fits(line, pre, x, mid, y, " differ") by {
      assert line[..|line|] == line;
    }
    MatchGreedyLongest(line, pre, mid, " differ", x, y);
    FilesMatched(line, env.dir1, env.dir2);
  }

  /** Whenever the `Files` pattern matches, the line is a `Both` whose name is the first
      group, and the line begins with that name between the two roots. */
  lemma FilesMatched(line: string, dir1: string, dir2: string)
    requires MatchGreedy(line, "Files " + dir1 + "/", " and " + dir2 + "/", " differ").Some?
    ensures var m := MatchGreedy(line, "Files " + dir1 + "/", " and " + dir2 + "/", " differ").value;
      && Classify(line, dir1, dir2) == Both(m.first)
      && StartsWith(line, "Files " + dir1 + "/" + m.first + " and " + dir2 + "/")
  {
    var pre := "Files " + dir1 + "/";
    var mid := " and " + dir2 + "/";
    MatchGreedySound(line, pre, mid, " differ");
    var m := MatchGreedy(line, pre, mid, " differ").value;
    var head := pre + m.first + mid;
    assert line == head + (m.second + " differ" + m.rest);
    assert line[..|head|] == head;
  }

  /** A `Files` line changes only `inBoth` (and the printed lines). */
  lemma FilesLineOnlyBoth(env: Env, s: Lists, line: string)
    requires Classify(line, env.dir1, env.dir2).Both?
    ensures var r := Apply(env, s, Classify(line, env.dir1, env.dir2), line);
      r.inA == s.inA && r.inB == s.inB && r.inBoth == s.inBoth + [Classify(line, env.dir1, env.dir2).name]
  {
  }

  /** `Only in <root 1>: n`, an entry directly in the first root, is recorded in `inA` as
      `/n` (the empty subdirectory and a slash), when the name holds no colon. */
  lemma OnlyInRootItself(env: Env, n: string)
    requires ':' !in n
    ensures Classify("Only in " + env.dir1 + ": " + n, env.dir1, env.dir2) == OnlyA("/" + n)
  {
    var dir1 := env.dir1;
    var line := "Only in " + dir1 + ": " + n;
    var pre := "Only in " + dir1;
    assert line[..|pre|] == pre;
    assert line[|pre|] == ':';
    assert !StartsWith(line, pre + "/") by {
      assert (pre + "/")[|pre|] == '/';
    }
    assert !StartsWith(line, "Files " + dir1 + "/") by {
      assert line[0] == 'O' && ("Files " + dir1 + "/")[0] == 'F';
    }
    assert Fits(line, pre, "", ": ", n, "") by {
      assert pre + "" + ": " + n + "" == line;
    }
    MatchGreedyLongest(line, pre, ": ", "", "", n);
    MatchGreedySound(line, pre, ": ", "");
    MatchToEnd(line, pre, ": ");
    var m := MatchGreedy(line, pre, ": ", "").value;
    assert line == pre + m.first + ": " + m.second;
    assert m.second == n;
  }

  /** The first root is tried first: when it is a string prefix of the second root (say
      `src` and `src2`), an `Only in <root 2>: n` line is recorded in `inA`, not `inB`. */
  lemma PrefixRootLandsInA(env: Env, n: string)
    requires StartsWith(env.dir2, env.dir1)
    ensures Classify("Only in " + env.dir2 + ": " + n, env.dir1, env.dir2).OnlyA?
  {
    var dir1, dir2 := env.dir1, env.dir2;
    var line := "Only in " + dir2 + ": " + n;
    assert !StartsWith(line, "Files " + dir1 + "/") by {
      assert line[0] == 'O' && ("Files " + dir1 + "/")[0] == 'F';
    }
    var pre := "Only in " + dir1;
    var a := dir2[|dir1|..];
    assert dir2 == dir1 + a;
    assert Fits(line, pre, a, ": ", n, "") by {
      assert pre + a + ": " + n + "" == line;
    }
    MatchGreedyLongest(line, pre, ": ", "", a, n);
  }

  /** `Only in <root 1>/r: n`, an entry `n` in the subdirectory `r` of the first root, is
      recorded in `inA` as `r/n`, when `": "` does not occur in the name. */
  lemma OnlyInSubdir(env: Env, r: string, n: string)
    requires forall k :: !OccursAt(n, ": ", k)
    ensures Classify("Only in " + env.dir1 + "/" + r + ": " + n, env.dir1, env.dir2) == OnlyA(r + "/" + n)
  {
    var line := "Only in " + env.dir1 + "/" + r + ": " + n;
    assert !StartsWith(line, "Files " + env.dir1 + "/") by {
      assert line[0] == 'O' && ("Files " + env.dir1 + "/")[0] == 'F';
    }
    OnlyMatchSubdir(env.dir1, r, n);
    OnlyMatchSlash(line, env.dir1);
  }

  /** The same line under the second root is recorded in `inB` as `r/n`, provided the
      first root's pattern does not already claim it (see `PrefixRootLandsInA`). */
  lemma OnlyInSubdirB(env: Env, r: string, n: string)
    requires forall k :: !OccursAt(n, ": ", k)
    requires !StartsWith("Only in " + env.dir2 + "/" + r + ": " + n, "Only in " + env.dir1)
    ensures Classify("Only in " + env.dir2 + "/" + r + ": " + n, env.dir1, env.dir2) == OnlyB(r + "/" + n)
  {
    var line := "Only in " + env.dir2 + "/" + r + ": " + n;
    var pre := "Only in " + env.dir1;
    assert !StartsWith(line, "Files " + env.dir1 + "/") by {
      assert line[0] == 'O' && ("Files " + env.dir1 + "/")[0] == 'F';
    }
    assert !StartsWith(line, pre + "/") by {
      if |pre + "/"| <= |line| {
        assert line[..|pre|] == line[..|pre + "/"|][..|pre|];
        assert (pre + "/")[..|pre|] == pre;
      }
    }
    OnlyMatchSubdir(env.dir2, r, n);
    OnlyMatchSlash(line, env.dir2);
  }

  /** When the pattern can take the optional slash, it does. */
  lemma OnlyMatchSlash(line: string, dir: string)
    requires MatchGreedy(line, "Only in " + dir + "/", ": ", "").Some?
    ensures OnlyMatch(line, dir) == MatchGreedy(line, "Only in " + dir + "/", ": ", "")
  {
  }

  /** The first root's `Only in` pattern, on an entry of its subdirectory `r`, takes `r`
      as the directory group and the name as the rest of the line. */
  lemma OnlyMatchSubdir(dir: string, r: string, n: string)
    requires forall k :: !OccursAt(n, ": ", k)
    ensures MatchGreedy("Only in " + dir + "/" + r + ": " + n, "Only in " + dir + "/", ": ", "") == Some(Split(r, n, ""))
  {
    var pre := "Only in " + dir + "/";
    MatchAtLastSeparator(pre + r + ": " + n, pre, r, n);
  }

  /** `pre(.*): (.*)$` on `pre + r + ": " + n` gives the groups `r` and `n` when `n` holds
      no `": "`. */
  lemma MatchAtLastSeparator(line: string, pre: string, r: string, n: string)
    requires forall k :: !OccursAt(n, ": ", k)
    requires line == pre + r + ": " + n
    ensures MatchGreedy(line, pre, ": ", "") == Some(Split(r, n, ""))
  {
    SeparatorMatch(line, pre, r, n);
    var m := MatchGreedy(line, pre, ": ", "").value;
    SplitAtLastSeparator(r + ": " + n, r, n, m.first, m.second);
  }

  /** Any split of `pre + r + ": " + n` fits that pattern, so the match exists, its first
      group is no shorter than `r`, and it runs to the end of the line. */
  lemma SeparatorMatch(line: string, pre: string, r: string, n: string)
    requires line == pre + r + ": " + n
    ensures MatchGreedy(line, pre, ": ", "").Some?
    ensures var m := MatchGreedy(line, pre, ": ", "").value;
      |r| <= |m.first| && m.rest == "" && r + ": " + n == m.first + ": " + m.second
  {
    FitsSeparator(line, pre, r, n);
    MatchGreedyLongest(line, pre, ": ", "", r, n);
    MatchGreedySound(line, pre, ": ", "");
    MatchToEnd(line, pre, ": ");
    var m := MatchGreedy(line, pre, ": ", "").value;
    SameTail(line, pre, r + ": " + n, m.first, m.second);
  }

  lemma FitsSeparator(line: string, pre: string, r: string, n: string)
    requires line == pre + r + ": " + n
    ensures Fits(line, pre, r, ": ", n, "")
  {
    assert pre + r + ": " + n + "" == line;
    assert line[..|line|] == line;
  }

  lemma SameTail(line: string, pre: string, t: string, f: string, g: string)
    requires line == pre + t
    requires line == pre + f + ": " + g + "" + ""
    ensures t == f + ": " + g
  {
    assert line == pre + (f + ": " + g);
    DropPrefix(pre, t, f + ": " + g);
  }

  lemma DropPrefix(pre: string, x: string, y: string)
    requires pre + x == pre + y
    ensures x == y
  {
    assert x == (pre + x)[|pre|..];
    assert y == (pre + y)[|pre|..];
  }

  /** A text `r: n` in which `n` holds no `": "` splits at no later `": "` than the one
      after `r`. */
  lemma SplitAtLastSeparator(t: string, r: string, n: string, f: string, g: string)
    requires forall k :: !OccursAt(n, ": ", k)
    requires t == r + ": " + n && t == f + ": " + g && |r| <= |f|
    ensures f == r && g == n
  {
    assert OccursAt(t, ": ", |f|) by {
      assert t[|f|..|f| + 2] == ": ";
    }
    forall k | |r| < k
      ensures !OccursAt(t, ": ", k)
    {
      if k + 2 <= |t| {
        if k == |r| + 1 {
          assert t[k..k + 2][0] == t[k] == ' ';
        } else {
          var j := k - |r| - 2;
          assert t[k..k + 2] == n[j..j + 2];
          assert !OccursAt(n, ": ", j);
        }
      }
    }
    assert |f| == |r|;
    assert f == t[..|r|] == r;
    assert g == t[|r| + 2..] == n;
  }
}
