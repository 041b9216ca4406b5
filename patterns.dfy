/** The line shapes of `diff -r` output that cdiff.py and pdiff recognise, and the
    first-match classification of one output line.

    The scripts use `re.match` with greedy `(.*)` groups. Every pattern they use has the
    form `pre(.*)mid(.*)post` followed by anything: `MatchGreedy` models it as an explicit
    split, with the regex engine's preference for the longest first group and then the
    longest second group. The range lines `([0-9,]*)X([0-9,]*)$` split uniquely at the
    letter X (`ParseRange`). */
module Patterns {
  import opened Strings

  /** The three groups of a match of `pre(.*)mid(.*)post`: `rest` is whatever follows. */
  datatype Split = Split(first: string, second: string, rest: string)

  /** `pre + a + mid + b + post` begins `line`: `a`, `b` are admissible groups. */
  predicate Fits(line: string, pre: string, a: string, mid: string, b: string, post: string) {
    StartsWith(line, pre + a + mid + b + post)
  }

  /** `re.match("pre(.*)mid(.*)post", line)`: the second group ends at the last `post`,
      the first at the last `mid` that still leaves room before it. */
  function MatchGreedy(line: string, pre: string, mid: string, post: string): Option<Split> {
    if !StartsWith(line, pre) then None
    else
      var t := line[|pre|..];
      var j := LastOccurrence(t, post, |t|);
      if j.None? || j.value < |mid| then None
      else
        var i := LastOccurrence(t, mid, j.value - |mid|);
        if i.None? then None
        else Some(Split(t[..i.value], t[i.value + |mid|..j.value], t[j.value + |post|..]))
  }

  /** An admissible pair of groups places `mid` and `post` in the text after `pre`. */
  lemma FitsPlaces(line: string, pre: string, a: string, mid: string, b: string, post: string)
    requires Fits(line, pre, a, mid, b, post)
    ensures StartsWith(line, pre)
    ensures OccursAt(line[|pre|..], mid, |a|)
    ensures OccursAt(line[|pre|..], post, |a| + |mid| + |b|)
  {
    var w := pre + a + mid + b + post;
    assert StartsWith(line, pre) by {
      assert w == [] + pre + (a + mid + b + post);
      Middle([], pre, a + mid + b + post);
      SliceOfPrefix(line, w, 0, |pre|);
    }
    assert OccursAt(line[|pre|..], mid, |a|) by {
      var p := |pre| + |a|;
      assert w == (pre + a) + mid + (b + post);
      Middle(pre + a, mid, b + post);
      SliceOfPrefix(line, w, p, p + |mid|);
      assert line[|pre|..][|a|..|a| + |mid|] == line[p..p + |mid|];
    }
    assert OccursAt(line[|pre|..], post, |a| + |mid| + |b|) by {
      var q := |pre| + |a| + |mid| + |b|;
      assert w == (pre + a + mid + b) + post + [];
      Middle(pre + a + mid + b, post, []);
      SliceOfPrefix(line, w, q, q + |post|);
      assert line[|pre|..][q - |pre|..q - |pre| + |post|] == line[q..q + |post|];
    }
  }

  lemma Middle(x: string, y: string, z: string)
    ensures (x + y + z)[|x|..|x| + |y|] == y
  {
  }

  lemma SliceOfPrefix(line: string, w: string, lo: nat, hi: nat)
    requires StartsWith(line, w) && lo <= hi <= |w|
    ensures line[lo..hi] == w[lo..hi]
  {
    assert line[..|w|] == w;
    forall k | 0 <= k < hi - lo
      ensures line[lo..hi][k] == w[lo..hi][k]
    {
      assert line[..|w|][lo + k] == line[lo + k];
    }
  }

  /** Conversely, occurrences of `mid` and `post` in order give a decomposition of the line. */
  lemma PlacesFit(line: string, pre: string, mid: string, post: string, i: nat, j: nat)
    requires StartsWith(line, pre)
    requires OccursAt(line[|pre|..], mid, i)
    requires OccursAt(line[|pre|..], post, j)
    requires i + |mid| <= j
    ensures var t := line[|pre|..];
      line == pre + t[..i] + mid + t[i + |mid|..j] + post + t[j + |post|..]
  {
    var t := line[|pre|..];
    var u := t[i + |mid|..];
    assert t == t[..i] + (mid + u) by {
      assert t == t[..i] + t[i..];
      assert t[i..] == t[i..i + |mid|] + u;
    }
    assert u == t[i + |mid|..j] + (post + t[j + |post|..]) by {
      assert u == t[i + |mid|..j] + t[j..];
      assert t[j..] == t[j..j + |post|] + t[j + |post|..];
    }
    assert line == line[..|pre|] + t;
    Regroup(pre, t[..i], mid, t[i + |mid|..j], post, t[j + |post|..]);
  }

  lemma Regroup(a: string, b: string, c: string, d: string, e: string, f: string)
    ensures a + (b + (c + (d + (e + f)))) == a + b + c + d + e + f
  {
  }

  /** A match is a decomposition `pre + first + mid + second + post + rest` of the line. */
  lemma MatchGreedySound(line: string, pre: string, mid: string, post: string)
    requires MatchGreedy(line, pre, mid, post).Some?
    ensures var m := MatchGreedy(line, pre, mid, post).value;
      line == pre + m.first + mid + m.second + post + m.rest
  {
    var t := line[|pre|..];
    var j := LastOccurrence(t, post, |t|).value;
    var i := LastOccurrence(t, mid, j - |mid|).value;
    var m := MatchGreedy(line, pre, mid, post).value;
    assert m == Split(t[..i], t[i + |mid|..j], t[j + |post|..]);
    PlacesFit(line, pre, mid, post, i, j);
  }

  /** A match exists exactly when some pair of groups is admissible, and the match takes
      the longest first group and, for it, the longest second group, as `re.match` does
      with two greedy `(.*)`. */
  lemma MatchGreedyLongest(line: string, pre: string, mid: string, post: string, a: string, b: string)
    requires Fits(line, pre, a, mid, b, post)
    ensures MatchGreedy(line, pre, mid, post).Some?
    ensures var m := MatchGreedy(line, pre, mid, post).value;
      |a| < |m.first| || (|a| == |m.first| && |b| <= |m.second|)
  {
    FitsPlaces(line, pre, a, mid, b, post);
    var t := line[|pre|..];
    var q := |a| + |mid| + |b|;
    var j := LastOccurrence(t, post, |t|);
    assert OccursAt(t, post, q);
    assert j.Some? && q <= j.value;
    var i := LastOccurrence(t, mid, j.value - |mid|);
    assert OccursAt(t, mid, |a|);
    assert i.Some? && |a| <= i.value;
  }

  /** The greedy match is not just any admissible split: it is one. */
  lemma MatchGreedyFits(line: string, pre: string, mid: string, post: string)
    requires MatchGreedy(line, pre, mid, post).Some?
    ensures var m := MatchGreedy(line, pre, mid, post).value;
      Fits(line, pre, m.first, mid, m.second, post)
  {
    MatchGreedySound(line, pre, mid, post);
    var m := MatchGreedy(line, pre, mid, post).value;
    var w := pre + m.first + mid + m.second + post;
    assert line == w + m.rest;
    assert line[..|w|] == w;
  }

  /** With an empty `post` (a pattern ending in `(.*)$`), the second group runs to the end. */
  lemma MatchToEnd(line: string, pre: string, mid: string)
    requires MatchGreedy(line, pre, mid, "").Some?
    ensures MatchGreedy(line, pre, mid, "").value.rest == ""
  {
    var t := line[|pre|..];
    assert OccursAt(t, "", |t|);
  }

  // ---------------------------------------------------------------------------------
  // Range lines: `([0-9,]*)c([0-9,]*)$` and the same with `d` and `a`

  predicate IsRangeChar(c: char) {
    '0' <= c <= '9' || c == ','
  }

  predicate IsRange(s: string) {
    forall k :: 0 <= k < |s| ==> IsRangeChar(s[k])
  }

  /** Length of the longest prefix of `s` made of digits and commas. */
  function RangeSpan(s: string): (n: nat)
    ensures n <= |s|
    ensures IsRange(s[..n])
    ensures n < |s| ==> !IsRangeChar(s[n])
  {
    if s == [] || !IsRangeChar(s[0]) then 0
    else
      var n := 1 + RangeSpan(s[1..]);
      assert forall k :: 1 <= k < n ==> s[..n][k] == s[1..][..n - 1][k - 1];
      n
  }

  /** `re.match("([0-9,]*)" + letter + "([0-9,]*)$", line)` and its two groups. */
  function ParseRange(line: string, letter: char): Option<(string, string)> {
    var n := RangeSpan(line);
    if n < |line| && line[n] == letter && IsRange(line[n + 1..]) then Some((line[..n], line[n + 1..]))
    else None
  }

  predicate RangeShape(line: string, letter: char, g1: string, g2: string) {
    line == g1 + [letter] + g2 && IsRange(g1) && IsRange(g2)
  }

  /** The range pattern matches exactly the lines `g1 + letter + g2` with both groups made of
      digits and commas, and its groups are exactly those: the split is unique. */
  lemma ParseRangeExact(line: string, letter: char, g1: string, g2: string)
    requires !IsRangeChar(letter)
    ensures ParseRange(line, letter) == Some((g1, g2)) <==> RangeShape(line, letter, g1, g2)
  {
    var n := RangeSpan(line);
    if RangeShape(line, letter, g1, g2) {
      assert line[|g1|] == letter;
      assert forall k :: 0 <= k < |g1| ==> line[k] == g1[k];
      assert n == |g1|;
      assert line[..n] == g1;
      assert line[n + 1..] == g2;
    }
    if ParseRange(line, letter) == Some((g1, g2)) {
      assert line == line[..n] + [line[n]] + line[n + 1..];
    }
  }

  /** No line has the shape of two different range commands. */
  lemma RangeLettersExclusive(line: string, x: char, y: char)
    requires !IsRangeChar(x) && !IsRangeChar(y) && x != y
    ensures !(ParseRange(line, x).Some? && ParseRange(line, y).Some?)
  {
  }

  // ---------------------------------------------------------------------------------
  // One line of `diff -r` output, classified as the main loops of cdiff.py and pdiff do

  datatype Record =
    | Binary(pathA: string, pathB: string)       // Binary files P and Q differ
    | OnlyIn(dir: string, name: string)          // Only in D: N
    | FilesDiffer(relA: string, relB: string)    // diff ... dir1/X dir2/Y
    | Removed(body: string)                      // < text
    | Added(body: string)                        // > text
    | Change(rangeA: string, rangeB: string)     // NcM
    | Delete(rangeA: string, rangeB: string)     // NdM
    | Append(rangeA: string, rangeB: string)     // NaM
    | Unrecognized                               // anything else (---, \ No newline ...)

  /** `line[2:]` */
  function Tail2(line: string): string {
    if |line| >= 2 then line[2..] else []
  }

  /** The `diff` per-file header with both roots interpolated into the pattern. */
  function DiffHeader(line: string, dir1: string, dir2: string): Option<Split> {
    MatchGreedy(line, "diff ", " " + dir1 + "/", " " + dir2 + "/")
  }

  /** The if/elif chain of the main loop: the first of the eight shapes that matches. */
  function Classify(line: string, dir1: string, dir2: string): Record {
    var binary := MatchGreedy(line, "Binary files ", " and ", " differ");
    var only := MatchGreedy(line, "Only in ", ": ", "");
    var header := DiffHeader(line, dir1, dir2);
    if binary.Some? then Binary(binary.value.first, binary.value.second)
    else if only.Some? then OnlyIn(only.value.first, only.value.second)
    else if header.Some? then FilesDiffer(header.value.second, header.value.rest)
    else if StartsWith(line, "<") then Removed(Tail2(line))
    else if StartsWith(line, ">") then Added(Tail2(line))
    else if ParseRange(line, 'c').Some? then Change(ParseRange(line, 'c').value.0, ParseRange(line, 'c').value.1)
    else if ParseRange(line, 'd').Some? then Delete(ParseRange(line, 'd').value.0, ParseRange(line, 'd').value.1)
    else if ParseRange(line, 'a').Some? then Append(ParseRange(line, 'a').value.0, ParseRange(line, 'a').value.1)
    else Unrecognized
  }

  /** A line that does not start with any of the letters the three message patterns start
      with matches none of them. */
  lemma NoMessage(line: string, dir1: string, dir2: string)
    requires line == [] || (line[0] != 'B' && line[0] != 'O' && (line[0] != 'd' || |line| < 2 || line[1] != 'i'))
    ensures MatchGreedy(line, "Binary files ", " and ", " differ").None?
    ensures MatchGreedy(line, "Only in ", ": ", "").None?
    ensures DiffHeader(line, dir1, dir2).None?
  {
    assert !StartsWith(line, "Binary files ");
    assert !StartsWith(line, "Only in ");
    assert !StartsWith(line, "diff ");
  }

  /** A `<` line is a removed body line whatever the roots are, with its 2-character
      prefix dropped; likewise a `>` line. */
  lemma BodyLineClassified(line: string, dir1: string, dir2: string)
    requires StartsWith(line, "<") || StartsWith(line, ">")
    ensures StartsWith(line, "<") ==> Classify(line, dir1, dir2) == Removed(Tail2(line))
    ensures StartsWith(line, ">") ==> Classify(line, dir1, dir2) == Added(Tail2(line))
  {
    NoMessage(line, dir1, dir2);
  }

  /** A range line is classified by its letter, with the two groups it splits into. */
  lemma RangeLineClassified(line: string, dir1: string, dir2: string, letter: char, g1: string, g2: string)
    requires letter in "cda"
    requires RangeShape(line, letter, g1, g2)
    ensures letter == 'c' ==> Classify(line, dir1, dir2) == Change(g1, g2)
    ensures letter == 'd' ==> Classify(line, dir1, dir2) == Delete(g1, g2)
    ensures letter == 'a' ==> Classify(line, dir1, dir2) == Append(g1, g2)
  {
    if g1 != [] {
      assert line[0] == g1[0];
    } else {
      assert line[0] == letter;
      assert |line| > 1 ==> line[1] == g2[0];
    }
    NoMessage(line, dir1, dir2);
    ParseRangeExact(line, letter, g1, g2);
    forall other | other in "cda" && other != letter
      ensures ParseRange(line, other).None?
    {
      RangeLettersExclusive(line, letter, other);
    }
  }

  /** The `---` divider of a change hunk matches no shape, so the loops skip it. */
  lemma DividerUnrecognized(dir1: string, dir2: string)
    ensures Classify("---", dir1, dir2) == Unrecognized
  {
    NoMessage("---", dir1, dir2);
    assert RangeSpan("---") == 0;
  }

  /** An `Only in D: N` line (when it is not also a Binary line) is classified with the
      directory ending at the last `": "` and the name running to the end of the line. */
  lemma OnlyInClassified(line: string, dir1: string, dir2: string, d: string, n: string)
    requires line == "Only in " + d + ": " + n
    ensures var r := Classify(line, dir1, dir2);
      r.OnlyIn? && line == "Only in " + r.dir + ": " + r.name && |d| <= |r.dir|
  {
    assert line[0] == 'O';
    assert !StartsWith(line, "Binary files ");
    assert Fits(line, "Only in ", d, ": ", n, "") by {
      assert "Only in " + d + ": " + n + "" == line;
    }
    MatchGreedyLongest(line, "Only in ", ": ", "", d, n);
    MatchGreedySound(line, "Only in ", ": ", "");
    MatchToEnd(line, "Only in ", ": ");
    var m := MatchGreedy(line, "Only in ", ": ", "").value;
    assert line == "Only in " + m.first + ": " + m.second + "" + "";
  }
}
