/** The Python `str` operations the scripts rely on, written out over
    `seq<char>`: `strip`/`lstrip`/`rstrip`, `startswith`, the `in` substring
    test, `lower`, `split()`, `split(sep)`, `splitlines()`, `sep.join(...)`,
    `int(...)` and slicing.  Each is defined the way CPython behaves on the
    inputs the scripts give it; the lemmas are the facts the stub engines need. */
module PyText {
  import opened Wrappers

  // ---------------------------------------------------------------------
  // Character classes
  // ---------------------------------------------------------------------

  /** The characters `str.isspace()` accepts; `strip()` and `split()` with no
      argument and the regex class `\s` remove or match exactly these. */
  predicate IsSpace(c: char)
  {
    c == ' ' || c == '\t' || c == '\n' || c == '\r' || c == '\U{0B}' || c == '\U{0C}'
    || ('\U{1C}' <= c <= '\U{1F}') || c == '\U{85}' || c == '\U{A0}' || c == '\U{1680}'
    || ('\U{2000}' <= c <= '\U{200A}') || c == '\U{2028}' || c == '\U{2029}'
    || c == '\U{202F}' || c == '\U{205F}' || c == '\U{3000}'
  }

  /** The line boundaries of `str.splitlines()` ("\r\n" is one boundary). */
  predicate IsLineBreak(c: char)
  {
    c == '\n' || c == '\r' || c == '\U{0B}' || c == '\U{0C}'
    || ('\U{1C}' <= c <= '\U{1E}') || c == '\U{85}' || c == '\U{2028}' || c == '\U{2029}'
  }

  predicate IsAsciiUpper(c: char) { 'A' <= c <= 'Z' }
  predicate IsAsciiLetter(c: char) { 'A' <= c <= 'Z' || 'a' <= c <= 'z' }
  predicate IsDigit(c: char) { '0' <= c <= '9' }

  /** `[A-Za-z0-9_]`, also the model's `\w` (see README, Left out). */
  predicate IsIdentChar(c: char) { IsAsciiLetter(c) || IsDigit(c) || c == '_' }

  /** `^[A-Za-z_][A-Za-z0-9_]*$` on a string without a trailing newline. */
  predicate IsIdent(s: string)
  {
    |s| > 0 && (IsAsciiLetter(s[0]) || s[0] == '_') && IdentChars(s)
  }

  predicate IdentChars(s: string) { forall i | 0 <= i < |s| :: IsIdentChar(s[i]) }

  predicate NoBreaks(s: string) { forall i | 0 <= i < |s| :: !IsLineBreak(s[i]) }

  /** `s.strip() == ''`. */
  predicate IsBlank(s: string) { forall i | 0 <= i < |s| :: IsSpace(s[i]) }

  lemma NoBreaksConcat(a: string, b: string)
    requires NoBreaks(a) && NoBreaks(b)
    ensures NoBreaks(a + b)
  {
  }

  lemma IdentCharsNoBreaks(s: string)
    requires IdentChars(s)
    ensures NoBreaks(s)
  {
  }

  // ---------------------------------------------------------------------
  // strip, lstrip, rstrip
  // ---------------------------------------------------------------------

  /** One past the last non-whitespace character of `s[..j]`, or 0. */
  function TrailStart(s: string, j: nat): (i: nat)
    requires j <= |s|
    ensures i <= j
    ensures forall q | i <= q < j :: IsSpace(s[q])
    ensures i == 0 || !IsSpace(s[i - 1])
  {
    if j > 0 && IsSpace(s[j - 1]) then TrailStart(s, j - 1) else j
  }

  /** `s.lstrip()`: the suffix left after dropping the leading whitespace. */
  function LStrip(s: string): (r: string)
    ensures r == [] || !IsSpace(r[0])
  {
    s[SpaceRunEnd(s, 0, true)..]
  }

  /** `s.rstrip()`: the prefix left after dropping the trailing whitespace. */
  function RStrip(s: string): (r: string)
    ensures r == [] || !IsSpace(r[|r| - 1])
  {
    s[..TrailStart(s, |s|)]
  }

  /** `s.strip()`, that is `s.lstrip().rstrip()`; it is empty exactly when
      `s` is all whitespace. */
  function Strip(s: string): (r: string)
    ensures (r == []) == IsBlank(s)
    ensures r == [] || (!IsSpace(r[0]) && !IsSpace(r[|r| - 1]))
  {
    var a := SpaceRunEnd(s, 0, true);
    var b := TrailStart(s, |s|);
    if a < b then s[a..b] else []
  }

  /** The two ways of stripping agree. */
  lemma StripIsRStripOfLStrip(s: string)
    ensures Strip(s) == RStrip(LStrip(s))
  {
    var a := SpaceRunEnd(s, 0, true);
    var b := TrailStart(s, |s|);
    var t := s[a..];
    assert LStrip(s) == t;
    if a < b {
      TrailStartShift(s, a, |s|);
      assert RStrip(t) == t[..b - a];
      assert t[..b - a] == s[a..b];
    } else {
      RunsMeet(s);
      assert t == [];
    }
  }

  /** When the leading and trailing runs of whitespace meet, the string is
      all whitespace. */
  lemma RunsMeet(s: string)
    requires TrailStart(s, |s|) <= SpaceRunEnd(s, 0, true)
    ensures SpaceRunEnd(s, 0, true) == |s|
  {
  }

  lemma {:induction false} TrailStartShift(s: string, a: nat, j: nat)
    requires a <= |s| && a <= j <= |s|
    requires TrailStart(s, j) > a || (j > a && !IsSpace(s[j - 1]))
    ensures TrailStart(s[a..], j - a) == TrailStart(s, j) - a
    decreases j
  {
    if j > 0 && IsSpace(s[j - 1]) {
      assert s[a..][j - a - 1] == s[j - 1];
      TrailStartShift(s, a, j - 1);
    } else {
      assert j > a;
      assert s[a..][j - a - 1] == s[j - 1];
    }
  }

  /** A line that starts with a non-blank prefix keeps it through stripping. */
  lemma StripKeepsPrefix(s: string, p: string)
    requires StartsWith(s, p) && |p| > 0 && !IsSpace(p[0]) && !IsSpace(p[|p| - 1])
    ensures LStrip(s) == s && !IsBlank(s) && StartsWith(Strip(s), p)
  {
    assert s[0] == p[0];
    assert SpaceRunEnd(s, 0, true) == 0;
    assert s[|p| - 1] == p[|p| - 1];
    var b := TrailStart(s, |s|);
    assert b >= |p|;
    assert Strip(s) == s[..b];
    assert Strip(s)[..|p|] == s[..|p|];
  }

  /** `s.lstrip(chars)` for an explicit set of characters. */
  function LStripChars(s: string, chars: set<char>): (r: string)
    ensures |r| <= |s| && r == s[|s| - |r|..]
    ensures r == [] || r[0] !in chars
  {
    if s != [] && s[0] in chars then LStripChars(s[1..], chars) else s
  }

  /** `s.rstrip(chars)` for an explicit set of characters. */
  function RStripChars(s: string, chars: set<char>): (r: string)
    ensures |r| <= |s| && r == s[..|r|]
    ensures r == [] || r[|r| - 1] !in chars
  {
    if s != [] && s[|s| - 1] in chars then RStripChars(s[..|s| - 1], chars) else s
  }

  // ---------------------------------------------------------------------
  // startswith and the substring test `w in s`
  // ---------------------------------------------------------------------

  predicate StartsWith(s: string, prefix: string)
  {
    |prefix| <= |s| && s[..|prefix|] == prefix
  }

  /** `w` occurs in `s` at offset `k`. */
  predicate IsAt(s: string, w: string, k: nat)
  {
    k + |w| <= |s| && s[k..k + |w|] == w
  }

  /** Python's `w in s` for strings. */
  predicate Contains(s: string, w: string)
  {
    exists k: nat | k <= |s| :: IsAt(s, w, k)
  }

  /** A text without the first character of `w` does not contain `w`. */
  lemma MissingFirstChar(s: string, w: string)
    requires |w| > 0 && forall k | 0 <= k < |s| :: s[k] != w[0]
    ensures !Contains(s, w)
  {
    forall k: nat | k <= |s| ensures !IsAt(s, w, k) {
      if k + |w| <= |s| {
        assert s[k..k + |w|][0] == s[k];
      }
    }
  }

  lemma ContainsAt(s: string, w: string, k: nat)
    requires IsAt(s, w, k)
    ensures Contains(s, w)
  {
  }

  lemma ContainsLeft(a: string, b: string, w: string)
    requires Contains(a, w)
    ensures Contains(a + b, w)
  {
    var k: nat :| k <= |a| && IsAt(a, w, k);
    assert (a + b)[k..k + |w|] == a[k..k + |w|];
    ContainsAt(a + b, w, k);
  }

  lemma ContainsRight(a: string, b: string, w: string)
    requires Contains(b, w)
    ensures Contains(a + b, w)
  {
    var k: nat :| k <= |b| && IsAt(b, w, k);
    assert (a + b)[|a| + k..|a| + k + |w|] == b[k..k + |w|];
    ContainsAt(a + b, w, |a| + k);
  }

  lemma ContainsSelf(s: string)
    ensures Contains(s, s)
  {
    assert IsAt(s, s, 0);
  }

  /** The substring relation is transitive. */
  lemma ContainsTrans(a: string, b: string, c: string)
    requires Contains(a, b) && Contains(b, c)
    ensures Contains(a, c)
  {
    var k: nat :| k <= |a| && IsAt(a, b, k);
    var j: nat :| j <= |b| && IsAt(b, c, j);
    forall i | 0 <= i < |c| ensures a[k + j + i] == c[i] {
      assert c[i] == b[j + i];
      assert b[j + i] == a[k + j + i];
    }
    assert a[k + j..k + j + |c|] == c;
    ContainsAt(a, c, k + j);
  }

  lemma SliceContained(s: string, a: nat, b: nat)
    requires a <= b <= |s|
    ensures Contains(s, s[a..b])
  {
    assert IsAt(s, s[a..b], a);
  }

  /** Each of the strip functions leaves a substring of its argument. */
  lemma LStripContained(s: string)
    ensures Contains(s, LStrip(s))
  {
    assert IsAt(s, LStrip(s), SpaceRunEnd(s, 0, true));
  }

  lemma RStripContained(s: string)
    ensures Contains(s, RStrip(s))
  {
    assert IsAt(s, RStrip(s), 0);
  }

  lemma StripContained(s: string)
    ensures Contains(s, Strip(s))
  {
    var a := SpaceRunEnd(s, 0, true);
    if a < TrailStart(s, |s|) {
      assert IsAt(s, Strip(s), a);
    } else {
      assert IsAt(s, Strip(s), 0);
    }
  }

  lemma StripCharsContained(s: string, chars: set<char>)
    ensures Contains(s, LStripChars(s, chars)) && Contains(s, RStripChars(s, chars))
  {
    var l := LStripChars(s, chars);
    var r := RStripChars(s, chars);
    assert IsAt(s, l, |s| - |l|);
    assert IsAt(s, r, 0);
  }

  // ---------------------------------------------------------------------
  // lower()
  // ---------------------------------------------------------------------

  function LowerChar(c: char): char
  {
    if 'A' <= c <= 'Z' then (c as int + 32) as char else c
  }

  /** `s.lower()` on ASCII letters; every other character is kept. */
  function Lower(s: string): (r: string)
    ensures |r| == |s|
    ensures forall i | 0 <= i < |s| :: r[i] == LowerChar(s[i])
  {
    seq(|s|, i requires 0 <= i < |s| => LowerChar(s[i]))
  }

  lemma LowerConcat(a: string, b: string)
    ensures Lower(a + b) == Lower(a) + Lower(b)
  {
  }

  /** Lowering both sides keeps an occurrence. */
  lemma LowerContains(s: string, w: string)
    requires Contains(s, w)
    ensures Contains(Lower(s), Lower(w))
  {
    var k: nat :| k <= |s| && IsAt(s, w, k);
    assert Lower(s)[k..k + |w|] == Lower(w);
    ContainsAt(Lower(s), Lower(w), k);
  }

  /** Concatenation regroups freely; stated once so that proofs can ask
      for it instead of rediscovering it element by element. */
  lemma ConcatAssoc<T>(x: seq<T>, y: seq<T>, z: seq<T>)
    ensures x + (y + z) == x + y + z
  {
  }

  /** `[f(x) for x in xs]`. */
  function MapSeq<A, B>(xs: seq<A>, f: A -> B): (r: seq<B>)
    ensures |r| == |xs| && forall i | 0 <= i < |xs| :: r[i] == f(xs[i])
  {
    seq(|xs|, i requires 0 <= i < |xs| => f(xs[i]))
  }

  lemma MapSeqConcat<A, B>(a: seq<A>, b: seq<A>, f: A -> B)
    ensures MapSeq(a + b, f) == MapSeq(a, f) + MapSeq(b, f)
  {
    var l, r := MapSeq(a + b, f), MapSeq(a, f) + MapSeq(b, f);
    forall i | 0 <= i < |l| ensures l[i] == r[i] {
      if i < |a| {
        assert (a + b)[i] == a[i];
      } else {
        assert (a + b)[i] == b[i - |a|];
      }
    }
  }

  // ---------------------------------------------------------------------
  // sep.join(parts), s.split(c), s.split()
  // ---------------------------------------------------------------------

  /** `sep.join(parts)`. */
  function Join(parts: seq<string>, sep: string): string
  {
    if |parts| == 0 then []
    else if |parts| == 1 then parts[0]
    else Join(parts[..|parts| - 1], sep) + sep + parts[|parts| - 1]
  }

  lemma {:induction false} JoinFront(a: string, rest: seq<string>, sep: string)
    requires |rest| >= 1
    ensures Join([a] + rest, sep) == a + sep + Join(rest, sep)
    decreases |rest|
  {
    if |rest| == 1 {
      assert ([a] + rest)[..1] == [a];
    } else {
      var n := |rest|;
      assert ([a] + rest)[..n] == [a] + rest[..n - 1];
      JoinFront(a, rest[..n - 1], sep);
    }
  }

  lemma {:induction false} JoinConcat(xs: seq<string>, ys: seq<string>, sep: string)
    requires |xs| >= 1 && |ys| >= 1
    ensures Join(xs + ys, sep) == Join(xs, sep) + sep + Join(ys, sep)
    decreases |ys|
  {
    if |ys| == 1 {
      assert (xs + ys)[..|xs + ys| - 1] == xs;
    } else {
      var n := |ys|;
      assert (xs + ys)[..|xs + ys| - 1] == xs + ys[..n - 1];
      JoinConcat(xs, ys[..n - 1], sep);
    }
  }

  /** Five parts joined, spelled out. */
  lemma JoinFive(a: string, b: string, c: string, d: string, e: string, sep: string)
    ensures Join([a, b, c, d, e], sep) == a + sep + b + sep + c + sep + d + sep + e
  {
    var ps := [a, b, c, d, e];
    assert ps[..2][..1] == [a];
    assert Join(ps[..2], sep) == a + sep + b;
    assert ps[..3][..2] == ps[..2];
    assert Join(ps[..3], sep) == a + sep + b + sep + c;
    assert ps[..4][..3] == ps[..3];
    assert Join(ps[..4], sep) == a + sep + b + sep + c + sep + d;
    assert ps[..4] == ps[..|ps| - 1];
  }

  /** A string spelled as the concatenation of short pieces (long string
      constants are written this way so that each piece can be checked on
      its own). */
  function Cat(ps: seq<string>): string
  {
    if ps == [] then [] else Cat(ps[..|ps| - 1]) + ps[|ps| - 1]
  }

  lemma {:induction false} CatNoBreaks(ps: seq<string>)
    requires forall k | 0 <= k < |ps| :: NoBreaks(ps[k])
    ensures NoBreaks(Cat(ps))
    decreases |ps|
  {
    if ps != [] {
      CatNoBreaks(ps[..|ps| - 1]);
      NoBreaksConcat(Cat(ps[..|ps| - 1]), ps[|ps| - 1]);
    }
  }

  lemma {:induction false} CatStartsWith(ps: seq<string>, p: string)
    requires |ps| > 0 && StartsWith(ps[0], p)
    ensures StartsWith(Cat(ps), p)
    decreases |ps|
  {
    if |ps| == 1 {
      assert Cat(ps) == Cat([]) + ps[0];
    } else {
      CatStartsWith(ps[..|ps| - 1], p);
      assert Cat(ps)[..|p|] == Cat(ps[..|ps| - 1])[..|p|];
    }
  }

  /** `'\n'.join(lines) + '\n'`, the way every script writes text back. */
  function Render(lines: seq<string>): string
  {
    Join(lines, "\n") + "\n"
  }

  /** `s.split(c)` for a one-character separator: the maximal pieces between
      occurrences of `c`, empty pieces included. */
  function SplitOn(s: string, c: char): (parts: seq<string>)
    ensures |parts| >= 1
    ensures forall i, j | 0 <= i < |parts| && 0 <= j < |parts[i]| :: parts[i][j] != c
  {
    if s == [] then [[]]
    else
      var prev := SplitOn(s[..|s| - 1], c);
      var x := s[|s| - 1];
      if x == c then prev + [[]]
      else prev[..|prev| - 1] + [prev[|prev| - 1] + [x]]
  }

  /** Nothing is lost by `split`: joining the pieces gives the string back. */
  lemma {:induction false} JoinSplitOn(s: string, c: char)
    ensures Join(SplitOn(s, c), [c]) == s
    decreases |s|
  {
    if s != [] {
      var t := s[..|s| - 1];
      assert s == t + [s[|s| - 1]];
      JoinSplitOn(t, c);
      JoinSplitOnSnoc(t, s[|s| - 1], c);
    }
  }

  lemma JoinSplitOnSnoc(t: string, x: char, c: char)
    requires Join(SplitOn(t, c), [c]) == t
    ensures Join(SplitOn(t + [x], c), [c]) == t + [x]
  {
    var s := t + [x];
    assert s[..|s| - 1] == t;
    var prev := SplitOn(t, c);
    if x == c {
      assert SplitOn(s, c) == prev + [[]];
      JoinSnoc(prev, [], [c]);
    } else {
      assert SplitOn(s, c) == prev[..|prev| - 1] + [prev[|prev| - 1] + [x]];
      JoinExtendLast(prev, [x], [c]);
    }
  }

  lemma JoinSnoc(ps: seq<string>, q: string, sep: string)
    requires |ps| >= 1
    ensures Join(ps + [q], sep) == Join(ps, sep) + sep + q
  {
    assert (ps + [q])[..|ps|] == ps;
  }

  /** Lengthening the last part lengthens the join by as much. */
  lemma JoinExtendLast(ps: seq<string>, x: string, sep: string)
    requires |ps| >= 1
    ensures Join(ps[..|ps| - 1] + [ps[|ps| - 1] + x], sep) == Join(ps, sep) + x
  {
    var n := |ps|;
    var init := ps[..n - 1];
    if n == 1 {
      assert init + [ps[0] + x] == [ps[0] + x];
    } else {
      JoinSnoc(init, ps[n - 1] + x, sep);
      assert ps[..n - 1][..n - 2] == ps[..n - 2];
      assert Join(ps, sep) == Join(init, sep) + sep + ps[n - 1];
      assert Join(init, sep) + sep + (ps[n - 1] + x) == Join(init, sep) + sep + ps[n - 1] + x;
    }
  }

  /** ... and splitting a join of pieces free of `c` gives the pieces back. */
  lemma {:induction false} SplitOnJoin(parts: seq<string>, c: char)
    requires |parts| >= 1
    requires forall i | 0 <= i < |parts| :: c !in parts[i]
    ensures SplitOn(Join(parts, [c]), c) == parts
    decreases |parts|
  {
    if |parts| == 1 {
      SplitOnFree(parts[0], c);
    } else {
      var n := |parts|;
      var init := parts[..n - 1];
      assert parts == init + [parts[n - 1]];
      assert forall i | 0 <= i < |init| :: init[i] == parts[i];
      SplitOnJoin(init, c);
      SplitOnJoinSnoc(init, parts[n - 1], c);
    }
  }

  lemma SplitOnJoinSnoc(init: seq<string>, last: string, c: char)
    requires |init| >= 1 && SplitOn(Join(init, [c]), c) == init
    requires c !in last
    ensures SplitOn(Join(init + [last], [c]), c) == init + [last]
  {
    JoinSnoc(init, last, [c]);
    SplitOnAfterSep(Join(init, [c]), last, c);
  }

  lemma {:induction false} SplitOnFree(s: string, c: char)
    requires c !in s
    ensures SplitOn(s, c) == [s]
    decreases |s|
  {
    if s != [] {
      var t := s[..|s| - 1];
      assert c !in t by { forall i | 0 <= i < |t| ensures t[i] != c { assert t[i] == s[i]; } }
      SplitOnFree(t, c);
      assert t + [s[|s| - 1]] == s;
    }
  }

  lemma {:induction false} SplitOnAfterSep(a: string, b: string, c: char)
    requires c !in b
    ensures SplitOn(a + [c] + b, c) == SplitOn(a, c) + [b]
    decreases |b|
  {
    var s := a + [c] + b;
    if b == [] {
      assert s[..|s| - 1] == a;
    } else {
      var b' := b[..|b| - 1];
      assert c !in b' by { forall i | 0 <= i < |b'| ensures b'[i] != c { assert b'[i] == b[i]; } }
      SplitOnAfterSep(a, b', c);
      assert s[..|s| - 1] == a + [c] + b';
      assert b' + [b[|b| - 1]] == b;
    }
  }

  /** The end of the run of characters starting at `i` that are (`space`)
      or are not (`!space`) whitespace. */
  function SpaceRunEnd(s: string, i: nat, space: bool): (j: nat)
    requires i <= |s|
    ensures i <= j <= |s|
    ensures forall q | i <= q < j :: IsSpace(s[q]) == space
    ensures j == |s| || IsSpace(s[j]) != space
    decreases |s| - i
  {
    if i < |s| && IsSpace(s[i]) == space then SpaceRunEnd(s, i + 1, space) else i
  }

  /** A non-empty run of non-whitespace. */
  predicate IsWord(w: string)
  {
    w != [] && forall j | 0 <= j < |w| :: !IsSpace(w[j])
  }

  /** The words of `s[i..]`. */
  function WordsFrom(s: string, i: nat): (ws: seq<string>)
    requires i <= |s|
    ensures forall k | 0 <= k < |ws| :: IsWord(ws[k])
    decreases |s| - i
  {
    var a := SpaceRunEnd(s, i, true);
    if a == |s| then []
    else
      var b := SpaceRunEnd(s, a, false);
      [s[a..b]] + WordsFrom(s, b)
  }

  /** `s.split()`: the maximal runs of non-whitespace, in order. */
  function Words(s: string): (ws: seq<string>)
    ensures forall k | 0 <= k < |ws| :: IsWord(ws[k])
  {
    WordsFrom(s, 0)
  }

  lemma WordsBlank(s: string)
    ensures (Words(s) == []) == IsBlank(s)
  {
  }

  /** Every word of `s[i..].split()` occurs in `s`, at the offset returned. */
  lemma {:induction false} WordOffset(s: string, i: nat, k: nat) returns (o: nat)
    requires i <= |s| && k < |WordsFrom(s, i)|
    ensures IsAt(s, WordsFrom(s, i)[k], o)
    decreases |s| - i
  {
    var a := SpaceRunEnd(s, i, true);
    var b := SpaceRunEnd(s, a, false);
    if k == 0 {
      o := a;
    } else {
      o := WordOffset(s, b, k - 1);
    }
  }

  lemma WordsContained(s: string, i: nat)
    requires i < |Words(s)|
    ensures Contains(s, Words(s)[i])
  {
    var k := WordOffset(s, 0, i);
    ContainsAt(s, Words(s)[i], k);
  }

  /** The first piece of `s.split(c)` is a prefix of `s`. */
  lemma SplitOnFirstContained(s: string, c: char)
    ensures Contains(s, SplitOn(s, c)[0])
  {
    JoinSplitOn(s, c);
    JoinContainsPart(SplitOn(s, c), [c], 0);
  }

  // ---------------------------------------------------------------------
  // splitlines()
  // ---------------------------------------------------------------------

  /** The index of the first line boundary, or |s| when there is none. */
  function BreakAt(s: string): (j: nat)
    ensures j <= |s| && NoBreaks(s[..j])
    ensures j < |s| ==> IsLineBreak(s[j])
  {
    if s == [] || IsLineBreak(s[0]) then 0
    else
      var j := 1 + BreakAt(s[1..]);
      assert s[..j] == [s[0]] + s[1..][..j - 1];
      j
  }

  /** The length of the boundary at `j`: 2 for "\r\n", else 1, or 0 at the end. */
  function BreakLen(s: string, j: nat): nat
    requires j <= |s|
  {
    if j == |s| then 0
    else if s[j] == '\r' && j + 1 < |s| && s[j + 1] == '\n' then 2
    else 1
  }

  /** `s.splitlines()`: the lines without their boundaries; a final boundary
      does not start a further empty line. */
  function SplitLines(s: string): (lines: seq<string>)
    ensures forall i | 0 <= i < |lines| :: NoBreaks(lines[i])
    ensures (lines == []) == (s == [])
    decreases |s|
  {
    if s == [] then []
    else
      var j := BreakAt(s);
      [s[..j]] + SplitLines(s[j + BreakLen(s, j)..])
  }

  lemma {:induction false} BreakAtNone(a: string)
    requires NoBreaks(a)
    ensures BreakAt(a) == |a|
    decreases |a|
  {
    if a != [] { BreakAtNone(a[1..]); }
  }

  lemma {:induction false} BreakAtFirst(a: string, rest: string)
    requires NoBreaks(a) && rest != [] && IsLineBreak(rest[0])
    ensures BreakAt(a + rest) == |a|
    decreases |a|
  {
    var s := a + rest;
    if a == [] {
      assert s == rest;
    } else {
      assert s[0] == a[0];
      assert s[1..] == a[1..] + rest;
      NoBreaksTail(a);
      BreakAtFirst(a[1..], rest);
    }
  }

  lemma NoBreaksTail(a: string)
    requires a != [] && NoBreaks(a)
    ensures !IsLineBreak(a[0]) && NoBreaks(a[1..])
  {
    forall i | 0 <= i < |a| - 1 ensures !IsLineBreak(a[1..][i]) {
      assert a[1..][i] == a[i + 1];
    }
  }

  /** Reading back what `Render` wrote gives the same lines, provided no line
      holds a line boundary. */
  lemma {:induction false} SplitLinesRender(lines: seq<string>)
    requires |lines| >= 1
    requires forall i | 0 <= i < |lines| :: NoBreaks(lines[i])
    ensures SplitLines(Render(lines)) == lines
    decreases |lines|
  {
    var a := lines[0];
    var s := Render(lines);
    var tail: string;
    if |lines| == 1 {
      tail := [];
      assert s == a + "\n" + tail;
    } else {
      tail := Render(lines[1..]);
      JoinFront(a, lines[1..], "\n");
      assert [a] + lines[1..] == lines;
      assert s == a + "\n" + tail;
    }
    BreakAtFirst(a, "\n" + tail);
    assert a + ("\n" + tail) == s;
    assert BreakAt(s) == |a|;
    assert s[|a|] == '\n';
    assert BreakLen(s, |a|) == 1;
    assert s[..|a|] == a;
    assert s[|a| + 1..] == tail;
    assert SplitLines(s) == [a] + SplitLines(tail);
    if |lines| > 1 {
      SplitLinesRender(lines[1..]);
      assert [a] + lines[1..] == lines;
    }
  }

  /** An occurrence of a boundary-free word in the lowered text lies within
      one line of that text; `i` names the line. */
  lemma ContainsLowerInLine(s: string, w: string) returns (i: nat)
    requires |w| > 0 && NoBreaks(w)
    requires Contains(Lower(s), w)
    ensures i < |SplitLines(s)| && Contains(Lower(SplitLines(s)[i]), w)
  {
    var p: nat :| p <= |Lower(s)| && IsAt(Lower(s), w, p);
    i := LineOfOccurrence(s, w, p);
  }

  /** The line holding the occurrence at `p`. */
  lemma {:induction false} LineOfOccurrence(s: string, w: string, p: nat) returns (i: nat)
    requires |w| > 0 && NoBreaks(w) && IsAt(Lower(s), w, p)
    ensures i < |SplitLines(s)| && Contains(Lower(SplitLines(s)[i]), w)
    decreases |s|
  {
    var j := BreakAt(s);
    if p + |w| <= j {
      FirstLineOccurrence(s, w, p);
      i := 0;
    } else {
      var k := OccurrenceInRest(s, w, p);
      var i' := LineOfOccurrence(s[k..], w, p - k);
      LaterLine(s, i');
      i := i' + 1;
    }
  }

  /** An occurrence past the first line is one in the text after the first
      boundary, which starts at `k`. */
  lemma OccurrenceInRest(s: string, w: string, p: nat) returns (k: nat)
    requires |w| > 0 && NoBreaks(w) && IsAt(Lower(s), w, p)
    requires p + |w| > BreakAt(s)
    ensures k == BreakAt(s) + BreakLen(s, BreakAt(s)) && k <= p
    ensures IsAt(Lower(s[k..]), w, p - k)
  {
    k := BreakAt(s) + BreakLen(s, BreakAt(s));
    OccurrenceAfterBreak(s, w, p);
    ShiftOccurrence(s[k..], s, w, p, k);
  }

  lemma LaterLine(s: string, i: nat)
    requires s != []
    requires i < |SplitLines(s[BreakAt(s) + BreakLen(s, BreakAt(s))..])|
    ensures i + 1 < |SplitLines(s)|
    ensures SplitLines(s)[i + 1] == SplitLines(s[BreakAt(s) + BreakLen(s, BreakAt(s))..])[i]
  {
    SplitLinesUnfold(s);
    assert SplitLines(s)[i + 1] == SplitLines(s)[1..][i];
  }

  lemma FirstLineOccurrence(s: string, w: string, p: nat)
    requires s != [] && IsAt(Lower(s), w, p) && p + |w| <= BreakAt(s)
    ensures Contains(Lower(SplitLines(s)[0]), w)
  {
    SplitLinesUnfold(s);
    ShiftOccurrence(s[..BreakAt(s)], s, w, p, 0);
    ContainsAt(Lower(s[..BreakAt(s)]), w, p);
  }

  lemma SplitLinesUnfold(s: string)
    requires s != []
    ensures |SplitLines(s)| >= 1 && SplitLines(s)[0] == s[..BreakAt(s)]
    ensures SplitLines(s)[1..] == SplitLines(s[BreakAt(s) + BreakLen(s, BreakAt(s))..])
  {
  }

  /** An occurrence in `s` at `p` is one in the slice `t == s[k..k + |t|]` at `p - k`. */
  lemma ShiftOccurrence(t: string, s: string, w: string, p: nat, k: nat)
    requires k <= p && k + |t| <= |s| && t == s[k..k + |t|]
    requires IsAt(Lower(s), w, p) && p + |w| <= k + |t|
    ensures IsAt(Lower(t), w, p - k)
  {
    var piece := s[p..p + |w|];
    LowerSlice(s, p, p + |w|);
    assert Lower(piece) == w;
    SliceOfSlice(t, s, p, p + |w|, k);
    assert t[p - k..p - k + |w|] == piece;
    LowerSlice(t, p - k, p - k + |w|);
    assert Lower(t)[p - k..p - k + |w|] == w;
  }

  lemma SliceOfSlice(t: string, s: string, a: nat, b: nat, k: nat)
    requires k + |t| <= |s| && t == s[k..k + |t|]
    requires k <= a <= b <= k + |t|
    ensures t[a - k..b - k] == s[a..b]
  {
    forall i | 0 <= i < b - a ensures t[a - k..b - k][i] == s[a..b][i] {
      assert t[a - k + i] == s[k..k + |t|][a - k + i];
    }
  }

  /** An occurrence of a boundary-free word that does not end within the
      first line starts after the first boundary. */
  lemma OccurrenceAfterBreak(s: string, w: string, p: nat)
    requires |w| > 0 && NoBreaks(w) && IsAt(Lower(s), w, p)
    requires p + |w| > BreakAt(s)
    ensures p >= BreakAt(s) + BreakLen(s, BreakAt(s))
  {
    var j := BreakAt(s);
    NoBreakInside(s, w, p);
    assert j < |s|;
    assert !(p <= j < p + |w|);
    if BreakLen(s, j) == 2 {
      assert IsLineBreak(s[j + 1]);
      assert !(p <= j + 1 < p + |w|);
    }
  }

  lemma LowerSlice(s: string, a: nat, b: nat)
    requires a <= b <= |s|
    ensures Lower(s)[a..b] == Lower(s[a..b])
  {
  }

  lemma NoBreakInside(s: string, w: string, p: nat)
    requires IsAt(Lower(s), w, p) && NoBreaks(w)
    ensures forall q | p <= q < p + |w| :: !IsLineBreak(s[q])
  {
    forall q | p <= q < p + |w| ensures !IsLineBreak(s[q]) {
      assert Lower(s)[p..p + |w|][q - p] == w[q - p];
      assert Lower(s)[q] == LowerChar(s[q]);
    }
  }

  /** Each line of a rendered text occurs in it. */
  lemma {:induction false} JoinContainsPart(parts: seq<string>, sep: string, i: nat)
    requires i < |parts|
    ensures Contains(Join(parts, sep), parts[i])
    decreases |parts|
  {
    var n := |parts|;
    if n == 1 {
      ContainsSelf(parts[0]);
    } else if i == n - 1 {
      ContainsSelf(parts[i]);
      ContainsRight(Join(parts[..n - 1], sep) + sep, parts[i], parts[i]);
    } else {
      JoinContainsPart(parts[..n - 1], sep, i);
      ContainsLeft(Join(parts[..n - 1], sep), sep + parts[n - 1], parts[i]);
      assert Join(parts[..n - 1], sep) + (sep + parts[n - 1]) == Join(parts, sep);
    }
  }

  lemma RenderContainsLine(lines: seq<string>, i: nat)
    requires i < |lines|
    ensures Contains(Render(lines), lines[i])
  {
    JoinContainsPart(lines, "\n", i);
    ContainsLeft(Join(lines, "\n"), "\n", lines[i]);
  }

  // ---------------------------------------------------------------------
  // Slicing and int()
  // ---------------------------------------------------------------------

  /** A Python slice bound: negative counts from the end, then clamped. */
  function SliceIndex(i: int, n: nat): (r: nat)
    ensures r <= n
  {
    if i < 0 then (if i + n < 0 then 0 else i + n) else (if i > n then n else i)
  }

  /** `s[start:stop]`. */
  function PySlice<T>(s: seq<T>, start: int, stop: int): (r: seq<T>)
    ensures |r| <= |s|
    ensures 0 <= start && start <= stop ==> |r| <= stop - start
    ensures 0 <= start <= |s| && 0 <= stop ==> r == s[start..if stop < |s| then (if stop < start then start else stop) else |s|]
  {
    var a := SliceIndex(start, |s|);
    var b := SliceIndex(stop, |s|);
    if a < b then s[a..b] else []
  }

  function DigitValue(c: char): nat
    requires IsDigit(c)
  {
    c as int - '0' as int
  }

  /** `digit ("_"? digit)*`, the body `int()` accepts after an optional sign. */
  predicate WellFormedDigits(t: string)
  {
    |t| > 0 && IsDigit(t[0]) && IsDigit(t[|t| - 1])
    && (forall i | 0 <= i < |t| :: IsDigit(t[i]) || t[i] == '_')
    && (forall i | 0 <= i < |t| - 1 :: !(t[i] == '_' && t[i + 1] == '_'))
  }

  /** The value of the digits of `t`, underscores ignored. */
  function DigitsValue(t: string): nat
    requires forall i | 0 <= i < |t| :: IsDigit(t[i]) || t[i] == '_'
  {
    if t == [] then 0
    else if t[|t| - 1] == '_' then DigitsValue(t[..|t| - 1])
    else 10 * DigitsValue(t[..|t| - 1]) + DigitValue(t[|t| - 1])
  }

  /** `int(s)` for a decimal string, `None` where Python raises ValueError. */
  function ParseInt(s: string): Option<int>
  {
    var t := Strip(s);
    if t != [] && (t[0] == '+' || t[0] == '-') then
      if WellFormedDigits(t[1..]) then
        var v: int := DigitsValue(t[1..]);
        Some(if t[0] == '-' then -v else v)
      else None
    else if WellFormedDigits(t) then Some(DigitsValue(t))
    else None
  }

  /** The decimal spelling of `n`, as `str(n)` writes it. */
  function Decimal(n: nat): (r: string)
    ensures |r| > 0 && forall i | 0 <= i < |r| :: IsDigit(r[i])
  {
    if n < 10 then [('0' as int + n) as char]
    else Decimal(n / 10) + [('0' as int + n % 10) as char]
  }

  lemma {:induction false} DecimalValue(n: nat)
    ensures DigitsValue(Decimal(n)) == n
    decreases n
  {
    var r := Decimal(n);
    if n < 10 {
      assert r[..0] == [];
    } else {
      DecimalValue(n / 10);
      assert r[..|r| - 1] == Decimal(n / 10);
    }
  }

  /** `int(str(n)) == n`, with any surrounding whitespace. */
  lemma ParseIntDecimal(n: nat, pad: string, pad': string)
    requires IsBlank(pad) && IsBlank(pad')
    ensures ParseInt(pad + Decimal(n) + pad') == Some(n)
  {
    var d := Decimal(n);
    assert IsDigit(d[0]) && IsDigit(d[|d| - 1]);
    StripPadded(pad, d, pad');
    ParseDigits(pad + d + pad', d);
    DecimalValue(n);
  }

  /** A string that strips to digits alone is read as their value. */
  lemma ParseDigits(s: string, d: string)
    requires Strip(s) == d
    requires |d| > 0 && forall i | 0 <= i < |d| :: IsDigit(d[i])
    ensures ParseInt(s) == Some(DigitsValue(d) as int)
  {
    assert IsDigit(d[0]) && IsDigit(d[|d| - 1]);
    assert WellFormedDigits(d);
  }

  lemma StripPadded(pad: string, d: string, pad': string)
    requires IsBlank(pad) && IsBlank(pad')
    requires d != [] && !IsSpace(d[0]) && !IsSpace(d[|d| - 1])
    ensures Strip(pad + d + pad') == d
  {
    var s := pad + d + pad';
    LStripPadded(pad, d + pad');
    assert pad + (d + pad') == s;
    RStripPadded(d, pad');
  }

  lemma {:induction false} LStripPadded(pad: string, t: string)
    requires IsBlank(pad) && t != [] && !IsSpace(t[0])
    ensures LStrip(pad + t) == t
    decreases |pad|
  {
    if pad != [] {
      assert (pad + t)[1..] == pad[1..] + t;
      LStripPadded(pad[1..], t);
    }
  }

  lemma {:induction false} RStripPadded(t: string, pad: string)
    requires IsBlank(pad) && t != [] && !IsSpace(t[|t| - 1])
    ensures RStrip(t + pad) == t
    decreases |pad|
  {
    if pad != [] {
      assert (t + pad)[..|t + pad| - 1] == t + pad[..|pad| - 1];
      RStripPadded(t, pad[..|pad| - 1]);
    } else {
      assert t + pad == t;
    }
  }
}
