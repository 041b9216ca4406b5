/** pdiff/__init__.py `process_args`: sorting the command line into long flags, bundled
    single-letter flags and directories, the brief switch, the deny-list of letters and the
    flag text handed to the `diff` invocation. */
module PDiffArgs {
  import opened Strings

  /** What `process_args` ends in: the help text, the usage line, or a call of `main`. */
  datatype Outcome =
    | Help
    | Usage
    | Invoke(dir1: string, dir2: string, brief: bool, flags: string)

  datatype Kind = LongFlag | ShortFlags | Directory

  /** Letters never passed on to `diff`, besides `b`. */
  const Denied: string := "qenylrdv"

  predicate IsHelp(arg: string) {
    arg == "--help" || arg == "-h"
  }

  predicate HasHelp(args: seq<string>) {
    exists k :: 0 <= k < |args| && IsHelp(args[k])
  }

  /** The if/elif chain of the loop. The third test asks whether `"="` is one of the
      arguments, not whether `arg` holds a `=`. */
  function KindOf(arg: string, all: seq<string>): Kind {
    if StartsWith(arg, "--") then LongFlag
    else if StartsWith(arg, "-") && '=' !in arg then ShortFlags
    else if StartsWith(arg, "-") && "=" in all then LongFlag
    else Directory
  }

  /** `long_flags` after the arguments `args` (out of the whole list `all`). */
  function LongFlags(args: seq<string>, all: seq<string>): seq<string> {
    if args == [] then []
    else
      var last := args[|args| - 1];
      LongFlags(args[..|args| - 1], all) + (if KindOf(last, all) == LongFlag then [last] else [])
  }

  /** `flags` after the arguments `args`: the letters after the dash, run together. */
  function ShortLetters(args: seq<string>, all: seq<string>): string {
    if args == [] then []
    else
      var last := args[|args| - 1];
      ShortLetters(args[..|args| - 1], all) + (if KindOf(last, all) == ShortFlags then last[1..] else [])
  }

  /** `dirs` after the arguments `args`. */
  function Dirs(args: seq<string>, all: seq<string>): seq<string> {
    if args == [] then []
    else
      var last := args[|args| - 1];
      Dirs(args[..|args| - 1], all) + (if KindOf(last, all) == Directory then [last] else [])
  }

  /** The letters left after removing each of `letters` in turn with `str.replace`. */
  function RemoveAll(flags: string, letters: string): string
    decreases |letters|
  {
    if letters == [] then flags
    else RemoveAll(ReplaceAll(flags, [letters[0]], []), letters[1..])
  }

  /** `map(lambda x: "-" + x, flags)` */
  function Dashed(letters: string): (r: seq<string>)
    ensures |r| == |letters|
    ensures forall k :: 0 <= k < |letters| ==> r[k] == ['-', letters[k]]
  {
    if letters == [] then [] else [['-', letters[0]]] + Dashed(letters[1..])
  }

  /** `" ".join(long_flags + [" ".join(map(lambda x: "-" + x, flags))])` */
  function FlagText(longFlags: seq<string>, letters: string): string {
    Join(" ", longFlags + [Join(" ", Dashed(letters))])
  }

  /** `process_dir`: the first match of the pattern with its trailing slashes removed, or
      the empty string; `glob` stands for `glob.glob`. */
  function ProcessDir(glob: string -> seq<string>, arg: string): string {
    var found := glob(arg);
    if found == [] then "" else StripTrailingSlashes(found[0])
  }

  /** What `process_args(args)` does, as a function of the arguments. */
  function Parse(args: seq<string>, glob: string -> seq<string>): Outcome {
    if HasHelp(args) then Help
    else
      var dirs := Dirs(args, args);
      if |dirs| < 2 then Usage
      else
        var flags := ShortLetters(args, args);
        var brief := 'b' in flags;
        var kept := RemoveAll(flags, "b" + Denied);
        Invoke(ProcessDir(glob, dirs[0]), ProcessDir(glob, dirs[1]), brief, FlagText(LongFlags(args, args), kept))
  }

  /** The loop of `process_args` over the arguments, stopping at the first help flag, and
      what follows it. */
  method ProcessArgs(args: seq<string>, glob: string -> seq<string>) returns (out: Outcome)
    ensures out == Parse(args, glob)
  {
    var help, longFlags, flags, dirs := SortArgs(args);
    if help {
      return Help;
    }
    if |dirs| < 2 {
      return Usage;
    }
    var brief := false;
    if 'b' in flags {
      brief := true;
      flags := ReplaceAll(flags, "b", "");
    } else {
      forall k ensures !OccursAt(flags, "b", k) {
        if 0 <= k < |flags| {
          assert flags[k..k + 1] == [flags[k]];
        }
      }
      ReplaceAllAbsent(flags, "b", "");
    }
    assert ("b" + Denied)[0] == 'b' && ("b" + Denied)[1..] == Denied;
    flags := DropDenied(flags);
    var flagText := Join(" ", Dashed(flags));
    flagText := Join(" ", longFlags + [flagText]);
    out := Invoke(ProcessDir(glob, dirs[0]), ProcessDir(glob, dirs[1]), brief, flagText);
  }

  /** The `for arg in args` loop: `help` when it stops at a help flag, otherwise the three
      lists it built. */
  method SortArgs(args: seq<string>) returns (help: bool, longFlags: seq<string>, flags: string, dirs: seq<string>)
    ensures help == HasHelp(args)
    ensures !help ==> longFlags == LongFlags(args, args) && flags == ShortLetters(args, args)
                      && dirs == Dirs(args, args)
  {
    flags, longFlags, dirs := "", [], [];
    for i := 0 to |args|
      invariant !HasHelp(args[..i])
      invariant longFlags == LongFlags(args[..i], args)
      invariant flags == ShortLetters(args[..i], args)
      invariant dirs == Dirs(args[..i], args)
    {
      var arg := args[i];
      var seen := args[..i + 1];
      assert seen == args[..i] + [arg];
      SortOneMore(args[..i], arg, args);
      if arg == "--help" || arg == "-h" {
        assert IsHelp(args[i]);
        return true, longFlags, flags, dirs;
      }
      if StartsWith(arg, "--") {
        longFlags := longFlags + [arg];
      } else if StartsWith(arg, "-") && '=' !in arg {
        flags := flags + arg[1..];
      } else if StartsWith(arg, "-") && "=" in args {
        longFlags := longFlags + [arg];
      } else {
        dirs := dirs + [arg];
      }
      assert !HasHelp(seen) by {
        forall k | 0 <= k < |seen| ensures !IsHelp(seen[k]) {
          if k < i {
            assert seen[k] == args[..i][k];
          }
        }
      }
    }
    assert args[..|args|] == args;
    return false, longFlags, flags, dirs;
  }

  /** `for letter in "qenylrdv": flags = flags.replace(letter, "")` */
  method DropDenied(flags: string) returns (kept: string)
    ensures kept == RemoveAll(flags, Denied)
  {
    kept := flags;
    for j := 0 to |Denied|
      invariant kept == RemoveAll(flags, Denied[..j])
    {
      RemoveAllStep(flags, Denied[..j], Denied[j]);
      assert Denied[..j + 1] == Denied[..j] + [Denied[j]];
      kept := ReplaceAll(kept, [Denied[j]], "");
    }
    assert Denied[..|Denied|] == Denied;
  }

  /** Sorting one more argument extends exactly one of the three lists. */
  lemma SortOneMore(args: seq<string>, x: string, all: seq<string>)
    ensures LongFlags(args + [x], all) == LongFlags(args, all) + (if KindOf(x, all) == LongFlag then [x] else [])
    ensures ShortLetters(args + [x], all) == ShortLetters(args, all) + (if KindOf(x, all) == ShortFlags then x[1..] else [])
    ensures Dirs(args + [x], all) == Dirs(args, all) + (if KindOf(x, all) == Directory then [x] else [])
  {
    assert (args + [x])[..|args|] == args;
  }

  /** A non-empty argument not starting with a dash is a directory. */
  lemma PlainIsDirectory(arg: string, all: seq<string>)
    requires arg != [] && arg[0] != '-'
    ensures KindOf(arg, all) == Directory && !IsHelp(arg)
  {
  }

  /** Removing one more letter at the end of the list is one more `replace`. */
  lemma {:induction false} RemoveAllStep(flags: string, letters: string, c: char)
    ensures RemoveAll(flags, letters + [c]) == ReplaceAll(RemoveAll(flags, letters), [c], [])
    decreases |letters|
  {
    if letters != [] {
      assert (letters + [c])[1..] == letters[1..] + [c];
      RemoveAllStep(ReplaceAll(flags, [letters[0]], []), letters[1..], c);
    }
  }

  /** Removing letters keeps exactly the other letters. */
  lemma {:induction false} RemoveAllKeeps(flags: string, letters: string)
    ensures forall x :: x in RemoveAll(flags, letters) <==> x in flags && x !in letters
    decreases |letters|
  {
    if letters != [] {
      ReplaceLetterByNothing(flags, letters[0]);
      RemoveAllKeeps(ReplaceAll(flags, [letters[0]], []), letters[1..]);
      assert forall x :: x in letters <==> x == letters[0] || x in letters[1..];
    }
  }

  /** The argument is a bundle of single-letter flags that holds the letter `x`. */
  predicate Carries(arg: string, all: seq<string>, x: char) {
    KindOf(arg, all) == ShortFlags && x in arg[1..]
  }

  /** A letter is among the bundled flags exactly when some single-dash argument without
      a `=` carries it. */
  lemma {:induction false} ShortLettersFrom(args: seq<string>, all: seq<string>, x: char)
    ensures x in ShortLetters(args, all) <==> exists k :: 0 <= k < |args| && Carries(args[k], all, x)
    decreases |args|
  {
    if args != [] {
      var init := args[..|args| - 1];
      var last := args[|args| - 1];
      ShortLettersFrom(init, all, x);
      var extra := if KindOf(last, all) == ShortFlags then last[1..] else [];
      assert ShortLetters(args, all) == ShortLetters(init, all) + extra;
      assert x in extra <==> Carries(last, all, x);
      if exists k :: 0 <= k < |init| && Carries(init[k], all, x) {
        var k :| 0 <= k < |init| && Carries(init[k], all, x);
        assert args[k] == init[k];
      }
      if exists k :: 0 <= k < |args| && Carries(args[k], all, x) {
        var k :| 0 <= k < |args| && Carries(args[k], all, x);
        if k < |init| {
          assert init[k] == args[k];
        }
      }
    }
  }

  /** Brief mode is on exactly when `b` appears in a bundle of single-letter flags. */
  lemma BriefIffB(args: seq<string>, glob: string -> seq<string>)
    requires Parse(args, glob).Invoke?
    ensures Parse(args, glob).brief <==> exists k :: 0 <= k < |args| && Carries(args[k], args, 'b')
  {
    ShortLettersFrom(args, args, 'b');
  }

  /** The letters handed to `diff` are the bundled letters other than `b` and the deny-list,
      each as its own `-x`. */
  lemma ForwardedLetters(args: seq<string>, glob: string -> seq<string>)
    requires Parse(args, glob).Invoke?
    ensures var kept := RemoveAll(ShortLetters(args, args), "b" + Denied);
      && Parse(args, glob).flags == FlagText(LongFlags(args, args), kept)
      && (forall x :: x in kept <==> x in ShortLetters(args, args) && x !in "bqenylrdv")
  {
    RemoveAllKeeps(ShortLetters(args, args), "b" + Denied);
  }

  /** The program name is an argument like any other: with `pdiff a b` the two paths
      compared are the program's own path and `a`, and `b` is ignored. */
  lemma ProgramNameIsFirstDir(prog: string, a: string, b: string, glob: string -> seq<string>)
    requires prog != [] && prog[0] != '-' && a != [] && a[0] != '-' && b != [] && b[0] != '-'
    ensures Parse([prog, a, b], glob) == Invoke(ProcessDir(glob, prog), ProcessDir(glob, a), false, "")
  {
    var args := [prog, a, b];
    SortPlain(prog, a, b);
    ParseNoLetters(args, glob);
    assert FlagText([], []) == "";
  }

  lemma SortPlain(prog: string, a: string, b: string)
    requires prog != [] && prog[0] != '-' && a != [] && a[0] != '-' && b != [] && b[0] != '-'
    ensures var args := [prog, a, b];
      && !HasHelp(args) && Dirs(args, args) == args
      && ShortLetters(args, args) == [] && LongFlags(args, args) == []
  {
    var args := [prog, a, b];
    PlainIsDirectory(prog, args);
    PlainIsDirectory(a, args);
    PlainIsDirectory(b, args);
    assert !HasHelp(args) by {
      forall k | 0 <= k < |args| ensures !IsHelp(args[k]) {
      }
    }
    ThreeDirectories(prog, a, b, args);
  }

  lemma {:induction false} NothingToRemove(letters: string)
    ensures RemoveAll([], letters) == []
    decreases |letters|
  {
    if letters != [] {
      NothingToRemove(letters[1..]);
    }
  }

  /** An argument such as `-k=v` is taken for a directory unless some argument is exactly
      `=`. */
  lemma EqualsFlagIsDir(prog: string, glob: string -> seq<string>)
    requires prog != [] && prog[0] != '-' && prog != "="
    ensures Parse([prog, "-k=v", "x"], glob) == Invoke(ProcessDir(glob, prog), ProcessDir(glob, "-k=v"), false, "")
  {
    var args := [prog, "-k=v", "x"];
    SortEquals(prog);
    ParseNoLetters(args, glob);
    assert FlagText([], []) == "";
  }

  /** With a bare `=` among the arguments, `-k=v` is a long flag, and the empty bundle of
      letters leaves a trailing space in the flag text. */
  lemma EqualsFlagIsLongFlag(prog: string, glob: string -> seq<string>)
    requires prog != [] && prog[0] != '-'
    ensures Parse([prog, "-k=v", "=", "x"], glob) == Invoke(ProcessDir(glob, prog), ProcessDir(glob, "="), false, "-k=v ")
  {
    var args := [prog, "-k=v", "=", "x"];
    SortEqualsSign(prog);
    ParseNoLetters(args, glob);
    OneLongFlagText("-k=v");
  }

  /** Without bundled letters nothing is brief and no letter is passed on. */
  lemma ParseNoLetters(args: seq<string>, glob: string -> seq<string>)
    requires !HasHelp(args) && |Dirs(args, args)| >= 2 && ShortLetters(args, args) == []
    ensures var dirs := Dirs(args, args);
      Parse(args, glob) == Invoke(ProcessDir(glob, dirs[0]), ProcessDir(glob, dirs[1]), false, FlagText(LongFlags(args, args), []))
  {
    NothingToRemove("b" + Denied);
  }

  /** One long flag and no letters: the flag and the space before the empty bundle. */
  lemma OneLongFlagText(flag: string)
    ensures FlagText([flag], []) == flag + " "
  {
    var parts := [flag] + [Join(" ", Dashed([]))];
    assert Join(" ", Dashed([])) == "";
    assert parts == [flag, ""] && parts[1..] == [""];
    assert Join(" ", parts[1..]) == "";
  }

  lemma SortEquals(prog: string)
    requires prog != [] && prog[0] != '-' && prog != "="
    ensures var args := [prog, "-k=v", "x"];
      && !HasHelp(args) && Dirs(args, args) == args
      && ShortLetters(args, args) == [] && LongFlags(args, args) == []
  {
    var args := [prog, "-k=v", "x"];
    assert !HasHelp(args) by {
      PlainIsDirectory(prog, args);
      forall k | 0 <= k < |args| ensures !IsHelp(args[k]) {
      }
    }
    KindsEquals(prog);
    ThreeDirectories(prog, "-k=v", "x", args);
  }

  /** Without a bare `=`, all three arguments of `prog -k=v x` are directories. */
  lemma KindsEquals(prog: string)
    requires prog != [] && prog[0] != '-' && prog != "="
    ensures var args := [prog, "-k=v", "x"];
      KindOf(prog, args) == Directory && KindOf("-k=v", args) == Directory && KindOf("x", args) == Directory
  {
    var args := [prog, "-k=v", "x"];
    assert "=" !in args;
    assert "-k=v"[1] == 'k' && "-k=v"[2] == '=';
    PlainIsDirectory(prog, args);
    PlainIsDirectory("x", args);
  }

  /** Three arguments that are all directories: they are the directories, in order, and
      there are neither letters nor long flags. */
  lemma ThreeDirectories(a: string, b: string, c: string, all: seq<string>)
    requires KindOf(a, all) == Directory && KindOf(b, all) == Directory && KindOf(c, all) == Directory
    ensures Dirs([a, b, c], all) == [a, b, c]
    ensures ShortLetters([a, b, c], all) == [] && LongFlags([a, b, c], all) == []
  {
    ThreeDirs(a, b, c, all);
    ThreeNoLetters(a, b, c, all);
    ThreeNoLongFlags(a, b, c, all);
  }

  lemma ThreeDirs(a: string, b: string, c: string, all: seq<string>)
    requires KindOf(a, all) == Directory && KindOf(b, all) == Directory && KindOf(c, all) == Directory
    ensures Dirs([a, b, c], all) == [a, b, c]
  {
    assert Dirs([a], all) == [a] by {
      assert [a][..0] == [];
    }
    assert Dirs([a, b], all) == [a, b] by {
      assert [a, b][..1] == [a];
    }
    assert [a, b, c][..2] == [a, b];
  }

  lemma ThreeNoLetters(a: string, b: string, c: string, all: seq<string>)
    requires KindOf(a, all) == Directory && KindOf(b, all) == Directory && KindOf(c, all) == Directory
    ensures ShortLetters([a, b, c], all) == []
  {
    assert ShortLetters([a], all) == [] by {
      assert [a][..0] == [];
    }
    assert ShortLetters([a, b], all) == [] by {
      assert [a, b][..1] == [a];
    }
    assert [a, b, c][..2] == [a, b];
  }

  lemma ThreeNoLongFlags(a: string, b: string, c: string, all: seq<string>)
    requires KindOf(a, all) == Directory && KindOf(b, all) == Directory && KindOf(c, all) == Directory
    ensures LongFlags([a, b, c], all) == []
  {
    assert LongFlags([a], all) == [] by {
      assert [a][..0] == [];
    }
    assert LongFlags([a, b], all) == [] by {
      assert [a, b][..1] == [a];
    }
    assert [a, b, c][..2] == [a, b];
  }

  lemma SortEqualsSign(prog: string)
    requires prog != [] && prog[0] != '-'
    ensures var args := [prog, "-k=v", "=", "x"];
      && !HasHelp(args) && Dirs(args, args) == [prog, "=", "x"]
      && ShortLetters(args, args) == [] && LongFlags(args, args) == ["-k=v"]
  {
    NoHelpEqualsSign(prog);
    DirsEqualsSign(prog);
    ShortEqualsSign(prog);
    LongEqualsSign(prog);
  }

  /** The kinds of the four arguments of `prog -k=v = x`. */
  lemma KindsEqualsSign(prog: string)
    requires prog != [] && prog[0] != '-'
    ensures var args := [prog, "-k=v", "=", "x"];
      && KindOf(prog, args) == Directory && KindOf("-k=v", args) == LongFlag
      && KindOf("=", args) == Directory && KindOf("x", args) == Directory
  {
    var args := [prog, "-k=v", "=", "x"];
    assert args[2] == "=";
    assert "-k=v"[1] == 'k' && "-k=v"[2] == '=';
    PlainIsDirectory(prog, args);
    PlainIsDirectory("=", args);
    PlainIsDirectory("x", args);
  }

  lemma DirsEqualsSign(prog: string)
    requires prog != [] && prog[0] != '-'
    ensures var args := [prog, "-k=v", "=", "x"]; Dirs(args, args) == [prog, "=", "x"]
  {
    var args := [prog, "-k=v", "=", "x"];
    KindsEqualsSign(prog);
    assert Dirs([prog], args) == [prog] by {
      assert [prog][..0] == [];
    }
    assert Dirs([prog, "-k=v"], args) == [prog] by {
      assert [prog, "-k=v"][..1] == [prog];
    }
    assert Dirs([prog, "-k=v", "="], args) == [prog, "="] by {
      assert [prog, "-k=v", "="][..2] == [prog, "-k=v"];
    }
    assert args[..3] == [prog, "-k=v", "="];
  }

  lemma ShortEqualsSign(prog: string)
    requires prog != [] && prog[0] != '-'
    ensures var args := [prog, "-k=v", "=", "x"]; ShortLetters(args, args) == []
  {
    var args := [prog, "-k=v", "=", "x"];
    KindsEqualsSign(prog);
    assert ShortLetters([prog], args) == [] by {
      assert [prog][..0] == [];
    }
    assert ShortLetters([prog, "-k=v"], args) == [] by {
      assert [prog, "-k=v"][..1] == [prog];
    }
    assert ShortLetters([prog, "-k=v", "="], args) == [] by {
      assert [prog, "-k=v", "="][..2] == [prog, "-k=v"];
    }
    assert args[..3] == [prog, "-k=v", "="];
  }

  lemma LongEqualsSign(prog: string)
    requires prog != [] && prog[0] != '-'
    ensures var args := [prog, "-k=v", "=", "x"]; LongFlags(args, args) == ["-k=v"]
  {
    var args := [prog, "-k=v", "=", "x"];
    KindsEqualsSign(prog);
    assert LongFlags([prog], args) == [] by {
      assert [prog][..0] == [];
    }
    assert LongFlags([prog, "-k=v"], args) == ["-k=v"] by {
      assert [prog, "-k=v"][..1] == [prog];
    }
    assert LongFlags([prog, "-k=v", "="], args) == ["-k=v"] by {
      assert [prog, "-k=v", "="][..2] == [prog, "-k=v"];
    }
    assert args[..3] == [prog, "-k=v", "="];
  }

  lemma NoHelpEqualsSign(prog: string)
    requires prog != [] && prog[0] != '-'
    ensures !HasHelp([prog, "-k=v", "=", "x"])
  {
    var args := [prog, "-k=v", "=", "x"];
    forall k | 0 <= k < |args| ensures !IsHelp(args[k]) {
    }
  }
}
