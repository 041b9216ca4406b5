/** String operations of Python's `str` and `posixpath` that the three scripts rely on,
    written out over `seq<char>`. */
module Strings {

  datatype Option<T> = None | Some(value: T)

  /** `s.startswith(p)` */
  predicate StartsWith(s: string, p: string) {
    |p| <= |s| && s[..|p|] == p
  }

  /** `p` occurs in `s` at index `k` */
  predicate OccursAt(s: string, p: string, k: int) {
    0 <= k && k + |p| <= |s| && s[k..k + |p|] == p
  }

  /** The largest index `k <= hi` at which `p` occurs in `s`, if any. */
  function LastOccurrence(s: string, p: string, hi: int): (r: Option<nat>)
    decreases hi
    ensures r.Some? ==> r.value <= hi && OccursAt(s, p, r.value)
    ensures r.Some? ==> forall k :: r.value < k <= hi ==> !OccursAt(s, p, k)
    ensures r.None? ==> forall k :: k <= hi ==> !OccursAt(s, p, k)
  {
    if hi < 0 then None
    else if OccursAt(s, p, hi) then Some(hi)
    else LastOccurrence(s, p, hi - 1)
  }

  /** `s.replace(pat, rep)`: every non-overlapping occurrence, scanning left to right;
      an empty `pat` puts `rep` before every character and at the end. */
  function ReplaceAll(s: string, pat: string, rep: string): string
    decreases |s|
  {
    if pat == [] then
      (if s == [] then rep else rep + [s[0]] + ReplaceAll(s[1..], pat, rep))
    else if StartsWith(s, pat) then rep + ReplaceAll(s[|pat|..], pat, rep)
    else if s == [] then []
    else [s[0]] + ReplaceAll(s[1..], pat, rep)
  }

  /** `s.replace(pat, rep, 1)`: the leftmost occurrence only. */
  function ReplaceFirst(s: string, pat: string, rep: string): string
    decreases |s|
  {
    if StartsWith(s, pat) then rep + s[|pat|..]
    else if s == [] then []
    else [s[0]] + ReplaceFirst(s[1..], pat, rep)
  }

  /** `s` with every `c` taken out (the reference for `s.replace(c, "")`). */
  function Without(s: string, c: char): (r: string)
    ensures c !in r
    ensures forall x :: x in r <==> x in s && x != c
  {
    if s == [] then []
    else if s[0] == c then Without(s[1..], c)
    else [s[0]] + Without(s[1..], c)
  }

  /** `c * n` */
  function Repeat(c: string, n: nat): string {
    if n == 0 then [] else c + Repeat(c, n - 1)
  }

  /** `sep.join(parts)` */
  function Join(sep: string, parts: seq<string>): string {
    if parts == [] then []
    else if |parts| == 1 then parts[0]
    else parts[0] + sep + Join(sep, parts[1..])
  }

  /** `os.path.join(a, b)` on POSIX. */
  function PathJoin(a: string, b: string): string {
    if StartsWith(b, "/") then b
    else if a == [] || a[|a| - 1] == '/' then a + b
    else a + "/" + b
  }

  /** Index just past the last '/' of `p` (0 when there is none): `p.rfind('/') + 1`. */
  function SplitPoint(p: string): (i: nat)
    ensures i <= |p|
    ensures i > 0 ==> p[i - 1] == '/'
    ensures forall k :: i <= k < |p| ==> p[k] != '/'
  {
    match LastOccurrence(p, "/", |p| - 1)
    case None =>
      assert forall k :: 0 <= k < |p| ==> p[k] != '/' by {
        forall k | 0 <= k < |p| ensures p[k] != '/' {
          assert !OccursAt(p, "/", k);
          assert p[k..k + 1] == [p[k]];
        }
      }
      0
    case Some(k) =>
      assert p[k..k + 1] == [p[k]];
      assert forall j :: k < j < |p| ==> p[j] != '/' by {
        forall j | k < j < |p| ensures p[j] != '/' {
          assert !OccursAt(p, "/", j);
          assert p[j..j + 1] == [p[j]];
        }
      }
      k + 1
  }

  /** The characters `bytes.strip()` removes: ASCII space, tab, line feed, carriage return,
      vertical tab and form feed. */
  const AsciiSpace: set<char> := {' ', '\t', '\n', '\r', '\U{000B}', '\U{000C}'}

  /** The characters `str.strip()` removes: the ASCII ones, the information separators
      0x1C-0x1F, and the Unicode white space characters. */
  const UnicodeSpace: set<char> :=
    AsciiSpace + {'\U{001C}', '\U{001D}', '\U{001E}', '\U{001F}', '\U{0085}', '\U{00A0}', '\U{1680}',
                  '\U{2000}', '\U{2001}', '\U{2002}', '\U{2003}', '\U{2004}', '\U{2005}', '\U{2006}',
                  '\U{2007}', '\U{2008}', '\U{2009}', '\U{200A}', '\U{2028}', '\U{2029}', '\U{202F}',
                  '\U{205F}', '\U{3000}'}

  /** The number of white space characters `s.strip()` removes at the front. */
  function LeadingSpace(s: string, ws: set<char>): (n: nat)
    ensures n <= |s|
    ensures forall k :: 0 <= k < n ==> s[k] in ws
    ensures n < |s| ==> s[n] !in ws
  {
    if s != [] && s[0] in ws then
      var n := 1 + LeadingSpace(s[1..], ws);
      assert forall k :: 1 <= k < n ==> s[k] == s[1..][k - 1];
      n
    else 0
  }

  /** The index where the white space `s.strip()` removes at the back begins. */
  function TrailingStart(s: string, ws: set<char>): (n: nat)
    ensures n <= |s|
    ensures forall k :: n <= k < |s| ==> s[k] in ws
    ensures n > 0 ==> s[n - 1] !in ws
  {
    if s != [] && s[|s| - 1] in ws then TrailingStart(s[..|s| - 1], ws) else |s|
  }

  /** `s.strip()`: the text between the leading and the trailing white space. */
  function Strip(s: string, ws: set<char>): string {
    var t := s[LeadingSpace(s, ws)..];
    t[..TrailingStart(t, ws)]
  }

  /** The stripped line is the slice of the line that starts after the leading white
      space: only white space is cut away on either side, and the result neither begins nor
      ends with white space. */
  lemma StripSlice(s: string, ws: set<char>)
    ensures var r := Strip(s, ws); var i := LeadingSpace(s, ws);
      i + |r| <= |s| && r == s[i..i + |r|]
        && (forall k :: 0 <= k < i ==> s[k] in ws)
        && (forall k :: i + |r| <= k < |s| ==> s[k] in ws)
    ensures var r := Strip(s, ws); r != [] ==> r[0] !in ws && r[|r| - 1] !in ws
  {
    var i := LeadingSpace(s, ws);
    var t := s[i..];
    var j := TrailingStart(t, ws);
    assert Strip(s, ws) == t[..j];
    assert t[..j] == s[i..i + j];
    forall k | i + j <= k < |s| ensures s[k] in ws {
      assert s[k] == t[k - i];
    }
    if j > 0 {
      assert t[..j][0] == t[0] == s[i];
    }
  }

  /** Stripping twice is stripping once. */
  lemma StripIdempotent(s: string, ws: set<char>)
    ensures Strip(Strip(s, ws), ws) == Strip(s, ws)
  {
    StripSlice(s, ws);
  }

  predicate AllSlashes(s: string) {
    forall k :: 0 <= k < |s| ==> s[k] == '/'
  }

  /** `s.rstrip('/')` */
  function StripTrailingSlashes(s: string): string {
    if s != [] && s[|s| - 1] == '/' then StripTrailingSlashes(s[..|s| - 1]) else s
  }

  /** `os.path.basename(p)` on POSIX. */
  function Basename(p: string): string {
    p[SplitPoint(p)..]
  }

  /** `os.path.dirname(p)` on POSIX: the head, with trailing slashes removed unless it
      consists of slashes only. */
  function Dirname(p: string): string {
    var head := p[..SplitPoint(p)];
    if head != [] && !AllSlashes(head) then StripTrailingSlashes(head) else head
  }

  lemma {:induction false} ReplaceAllAbsent(s: string, pat: string, rep: string)
    requires pat != []
    requires forall k :: !OccursAt(s, pat, k)
    ensures ReplaceAll(s, pat, rep) == s
    decreases |s|
  {
    if s != [] {
      assert !OccursAt(s, pat, 0);
      assert !StartsWith(s, pat);
      forall k ensures !OccursAt(s[1..], pat, k) {
        assert !OccursAt(s, pat, k + 1);
      }
      ReplaceAllAbsent(s[1..], pat, rep);
    }
  }

  /** `s.replace(c, "")` removes exactly the letter `c`. */
  lemma {:induction false} ReplaceLetterByNothing(s: string, c: char)
    ensures ReplaceAll(s, [c], []) == Without(s, c)
    decreases |s|
  {
    if s != [] {
      ReplaceLetterByNothing(s[1..], c);
      if s[0] == c {
        assert StartsWith(s, [c]);
      } else {
        assert !StartsWith(s, [c]);
      }
    }
  }

  /** `os.path.basename` never holds a '/', and `os.path.dirname` is a prefix of the path. */
  lemma BasenameDirname(p: string)
    ensures '/' !in Basename(p)
    ensures StartsWith(p, Dirname(p))
  {
    var i := SplitPoint(p);
    assert forall k :: 0 <= k < |Basename(p)| ==> Basename(p)[k] == p[i + k];
    StripKeepsPrefix(p[..i]);
    var head := p[..i];
    assert StartsWith(p, head);
    if head != [] && !AllSlashes(head) {
      var d := StripTrailingSlashes(head);
      assert |d| <= |head| && head[..|d|] == d;
      assert p[..|d|] == head[..|d|];
    }
  }

  lemma {:induction false} StripKeepsPrefix(s: string)
    ensures |StripTrailingSlashes(s)| <= |s|
    ensures s[..|StripTrailingSlashes(s)|] == StripTrailingSlashes(s)
    decreases |s|
  {
    if s != [] && s[|s| - 1] == '/' {
      StripKeepsPrefix(s[..|s| - 1]);
    }
  }
}
