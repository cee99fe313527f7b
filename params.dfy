/** `safe_param_names` of insert_business_rules.py: a tokenizer that splits a
    parameter list at the commas outside angle brackets, followed by a
    conservative filter that keeps only plain parameter names. */
module ParamNames {
  import opened Wrappers
  import opened PyText

  // ---------------------------------------------------------------------
  // The bracket-depth tokenizer
  // ---------------------------------------------------------------------

  /** One step of the depth counter: `<` opens, `>` closes but never below 0. */
  function Step(d: nat, ch: char): nat
  {
    if ch == '<' then d + 1
    else if ch == '>' then (if d > 0 then d - 1 else 0)
    else d
  }

  /** The depth after reading all of `s`. */
  function Depth(s: string): nat
  {
    if s == [] then 0 else Step(Depth(s[..|s| - 1]), s[|s| - 1])
  }

  /** The character `s[i]` is a comma read at depth 0 (the depth after
      reading it, which a comma does not change). */
  predicate TopLevelComma(s: string, i: nat)
    requires i < |s|
  {
    s[i] == ',' && Depth(s[..i + 1]) == 0
  }

  /** The pieces accumulated in `cur` between top-level commas, unstripped;
      the last one is what is left in `cur` after the loop. */
  function Segments(s: string): (segs: seq<string>)
    ensures |segs| >= 1
  {
    if s == [] then [[]]
    else
      var prev := Segments(s[..|s| - 1]);
      if TopLevelComma(s, |s| - 1) then prev + [[]]
      else prev[..|prev| - 1] + [prev[|prev| - 1] + [s[|s| - 1]]]
  }

  /** The number of top-level commas in `s`. */
  function TopLevelCommas(s: string): (n: nat)
    ensures n <= |s|
  {
    if s == [] then 0
    else TopLevelCommas(s[..|s| - 1]) + (if TopLevelComma(s, |s| - 1) then 1 else 0)
  }

  /** The segments are exactly the text between top-level commas: there is
      one more of them than there are such commas ... */
  lemma {:induction false} SegmentCount(s: string)
    ensures |Segments(s)| == TopLevelCommas(s) + 1
  {
    if s != [] {
      SegmentCount(s[..|s| - 1]);
    }
  }

  /** ... and joining them with commas gives the text back. */
  lemma {:induction false} JoinSegments(s: string)
    ensures Join(Segments(s), ",") == s
  {
    if s != [] {
      var t := s[..|s| - 1];
      var x := s[|s| - 1];
      JoinSegments(t);
      if TopLevelComma(s, |s| - 1) {
        JoinSnoc(Segments(t), [], ",");
      } else {
        JoinExtendLast(Segments(t), [x], ",");
      }
      assert s == t + [x];
    }
  }

  /** `[x.strip() for x in xs]`. */
  function StripAll(xs: seq<string>): (r: seq<string>)
    ensures |r| == |xs| && forall i | 0 <= i < |xs| :: r[i] == Strip(xs[i])
  {
    if xs == [] then [] else StripAll(xs[..|xs| - 1]) + [Strip(xs[|xs| - 1])]
  }

  lemma StripAllSnoc(xs: seq<string>, x: string)
    ensures StripAll(xs + [x]) == StripAll(xs) + [Strip(x)]
  {
    assert (xs + [x])[..|xs|] == xs;
  }

  /** How reading one more character extends the depth and the segments. */
  lemma SegmentsSnoc(s: string, ch: char)
    ensures Depth(s + [ch]) == Step(Depth(s), ch)
    ensures var prev := Segments(s);
      Segments(s + [ch]) ==
        if ch == ',' && Depth(s + [ch]) == 0 then prev + [[]]
        else prev[..|prev| - 1] + [prev[|prev| - 1] + [ch]]
  {
    assert (s + [ch])[..|s|] == s;
    assert (s + [ch])[..|s| + 1] == s + [ch];
  }

  /** The stripped segments, the last one only when it is not blank. */
  function Tokens(s: string): (ps: seq<string>)
    ensures |ps| <= |Segments(s)|
  {
    Flush(Segments(s))
  }

  /** The pieces stripped, the last one dropped when blank. */
  function Flush(segs: seq<string>): (ps: seq<string>)
    requires |segs| >= 1
    ensures |ps| <= |segs|
  {
    var last := Strip(segs[|segs| - 1]);
    StripAll(segs[..|segs| - 1]) + (if last != [] then [last] else [])
  }

  /** The parts the filter sees: nothing at all for a blank input. */
  function Parts(s: string): (ps: seq<string>)
    ensures |ps| <= |Segments(s)|
  {
    if Strip(s) == [] then [] else Tokens(s)
  }

  /** Each part is a stripped segment. */
  lemma TokenAt(s: string, j: nat)
    requires j < |Tokens(s)|
    ensures Tokens(s)[j] == Strip(Segments(s)[j])
  {
    FlushAt(Segments(s), j);
  }

  lemma FlushAt(segs: seq<string>, j: nat)
    requires |segs| >= 1 && j < |Flush(segs)|
    ensures Flush(segs)[j] == Strip(segs[j])
  {
    if j < |segs| - 1 {
      FlushFront(segs, j);
    } else {
      FlushLast(segs);
    }
  }

  lemma FlushFront(segs: seq<string>, j: nat)
    requires j < |segs| - 1
    ensures Flush(segs)[j] == Strip(segs[j])
  {
    var front := segs[..|segs| - 1];
    assert front[j] == segs[j];
  }

  lemma FlushLast(segs: seq<string>)
    requires |segs| >= 1 && |Flush(segs)| == |segs|
    ensures Flush(segs)[|segs| - 1] == Strip(segs[|segs| - 1])
  {
  }

  lemma PartAt(s: string, j: nat)
    requires j < |Parts(s)|
    ensures Parts(s)[j] == Strip(Segments(s)[j])
  {
    assert Parts(s) == Tokens(s);
    TokenAt(s, j);
  }

  // ---------------------------------------------------------------------
  // The filter
  // ---------------------------------------------------------------------

  /** The part mentions a function type, a call, a closure or a generic. */
  predicate Complex(p: string)
  {
    Contains(p, "(") || Contains(p, "Function") || Contains(p, "=>") || Contains(p, "<")
  }

  /** The last word of the text before the first `=` (the default value
      dropped), if there is one. */
  function LastWord(p: string): (r: Option<string>)
    ensures r.Some? ==> IsWord(r.value)
  {
    var toks := Words(Strip(SplitOn(p, '=')[0]));
    if toks == [] then None else Some(toks[|toks| - 1])
  }

  /** The word with leading `{`/`[`, then trailing `]`, then trailing `}`
      removed, then stripped. */
  function CleanName(t: string): string
  {
    Strip(RStripChars(RStripChars(LStripChars(t, {'{', '['}), {']'}), {'}'}))
  }

  /** The name kept for one part, if any: the cleaned last word, provided it
      is a plain identifier and the part is not complex. */
  function NameOf(p: string): (r: Option<string>)
    ensures Complex(p) ==> r.None?
    ensures r.Some? ==> IsIdent(r.value)
  {
    if Complex(p) then None
    else
      match LastWord(p)
      case None => None
      case Some(t) => if IsIdent(CleanName(t)) then Some(CleanName(t)) else None
  }

  /** `NameOf` applied to every part. */
  function NameOptions(parts: seq<string>): (opts: seq<Option<string>>)
    ensures |opts| == |parts| && forall i | 0 <= i < |parts| :: opts[i] == NameOf(parts[i])
  {
    seq(|parts|, i requires 0 <= i < |parts| => NameOf(parts[i]))
  }

  /** `safe_param_names(s)`. */
  function ParamNamesOf(s: string): (names: seq<string>)
    ensures IsBlank(s) ==> names == []
  {
    Somes(NameOptions(Parts(s)))
  }

  /** Every returned name is a plain identifier, and the name of some part. */
  lemma NamesAreIdents(s: string, i: nat) returns (j: nat)
    requires i < |ParamNamesOf(s)|
    ensures j < |Parts(s)| && NameOf(Parts(s)[j]) == Some(ParamNamesOf(s)[i])
    ensures IsIdent(ParamNamesOf(s)[i]) && !Complex(Parts(s)[j])
  {
    j := SomeSource(NameOptions(Parts(s)), i);
  }

  /** Every part with a name contributes it. */
  lemma PartNameKept(s: string, j: nat)
    requires j < |Parts(s)| && NameOf(Parts(s)[j]).Some?
    ensures NameOf(Parts(s)[j]).value in ParamNamesOf(s)
  {
    SomeKept(NameOptions(Parts(s)), j);
  }

  lemma LastWordContained(p: string)
    requires LastWord(p).Some?
    ensures Contains(p, LastWord(p).value)
  {
    var a := SplitOn(p, '=')[0];
    var b := Strip(a);
    SplitOnFirstContained(p, '=');
    StripContained(a);
    WordsContained(b, |Words(b)| - 1);
    ContainsTrans(p, a, b);
    ContainsTrans(p, b, LastWord(p).value);
  }

  lemma CleanNameContained(t: string)
    ensures Contains(t, CleanName(t))
  {
    var c := LStripChars(t, {'{', '['});
    var d := RStripChars(c, {']'});
    var e := RStripChars(d, {'}'});
    StripCharsContained(t, {'{', '['});
    StripCharsContained(c, {']'});
    StripCharsContained(d, {'}'});
    StripContained(e);
    ContainsTrans(t, c, d);
    ContainsTrans(t, d, e);
    ContainsTrans(t, e, Strip(e));
  }

  /** Every kept name literally occurs in its part. */
  lemma NameOccursInPart(p: string)
    requires NameOf(p).Some?
    ensures Contains(p, NameOf(p).value)
  {
    var t := LastWord(p).value;
    LastWordContained(p);
    CleanNameContained(t);
    ContainsTrans(p, t, CleanName(t));
  }

  /** Every name returned occurs in the parameter text. */
  lemma NamesOccurInInput(s: string, i: nat)
    requires i < |ParamNamesOf(s)|
    ensures Contains(s, ParamNamesOf(s)[i])
  {
    var parts := Parts(s);
    var j := NamesAreIdents(s, i);
    var seg := Segments(s)[j];
    PartAt(s, j);
    NameOccursInPart(parts[j]);
    StripContained(seg);
    JoinSegments(s);
    JoinContainsPart(Segments(s), ",", j);
    ContainsTrans(s, seg, parts[j]);
    ContainsTrans(s, parts[j], ParamNamesOf(s)[i]);
  }

  // ---------------------------------------------------------------------
  // The loops of the source
  // ---------------------------------------------------------------------

  /** The depth after one more character. */
  lemma DepthSnoc(s: string, ch: char)
    ensures Depth(s + [ch]) == Step(Depth(s), ch)
  {
    assert (s + [ch])[..|s|] == s;
  }

  /** The loop's variables after reading `s`: the depth, the stripped
      pieces already closed and the piece being read. */
  predicate TokState(s: string, depth: nat, parts: seq<string>, cur: string)
  {
    var segs := Segments(s);
    depth == Depth(s) && parts == StripAll(segs[..|segs| - 1]) && cur == segs[|segs| - 1]
  }

  /** A top-level comma closes the current piece: its stripped text joins
      the parts and a new, empty piece begins. */
  lemma TokenizeComma(s: string, parts: seq<string>, cur: string)
    requires TokState(s, 0, parts, cur)
    ensures TokState(s + [','], 0, parts + [Strip(cur)], [])
  {
    SegmentsSnoc(s, ',');
    var prev := Segments(s);
    StripAllSnoc(prev[..|prev| - 1], cur);
    assert prev[..|prev| - 1] + [cur] == prev;
    assert (prev + [[]])[..|prev|] == prev;
  }

  /** Any other character goes into the current piece. */
  lemma TokenizeChar(s: string, ch: char, depth: nat, parts: seq<string>, cur: string)
    requires TokState(s, depth, parts, cur) && !(ch == ',' && depth == 0)
    ensures TokState(s + [ch], Step(depth, ch), parts, cur + [ch])
  {
    SegmentsSnoc(s, ch);
    var prev := Segments(s);
    assert (prev[..|prev| - 1] + [cur + [ch]])[..|prev| - 1] == prev[..|prev| - 1];
  }

  /** After the loop: the final piece is flushed unless it is blank. */
  lemma TokenizeEnd(s: string, depth: nat, parts: seq<string>, cur: string)
    requires TokState(s, depth, parts, cur)
    ensures Tokens(s) == parts + if Strip(cur) != [] then [Strip(cur)] else []
  {
    assert Tokens(s) == Flush(Segments(s));
  }

  /** The character loop of `safe_param_names`, with the final flush of
      `cur`. */
  method Tokenize(paramStr: string) returns (parts: seq<string>)
    ensures parts == Tokens(paramStr)
  {
    parts := [];
    var depth: nat := 0;
    var cur: string := [];
    var i := 0;
    while i < |paramStr|
      invariant 0 <= i <= |paramStr|
      invariant TokState(paramStr[..i], depth, parts, cur)
    {
      var ch := paramStr[i];
      assert paramStr[..i + 1] == paramStr[..i] + [ch];
      if ch == ',' && depth == 0 {
        TokenizeComma(paramStr[..i], parts, cur);
        parts := parts + [Strip(cur)];
        cur := [];
      } else {
        TokenizeChar(paramStr[..i], ch, depth, parts, cur);
        cur := cur + [ch];
        if ch == '<' {
          depth := depth + 1;
        } else if ch == '>' {
          depth := if depth > 0 then depth - 1 else 0;
        }
      }
      i := i + 1;
    }
    assert paramStr[..i] == paramStr;
    TokenizeEnd(paramStr, depth, parts, cur);
    if Strip(cur) != [] {
      parts := parts + [Strip(cur)];
    }
  }

  /** `safe_param_names`: the early exit for a blank input, the tokenizer,
      then the filter loop. */
  method SafeParamNames(paramStr: string) returns (names: seq<string>)
    ensures names == ParamNamesOf(paramStr)
  {
    if Strip(paramStr) == [] {
      return [];
    }
    var parts := Tokenize(paramStr);
    ghost var opts := NameOptions(parts);
    names := [];
    var k := 0;
    while k < |parts|
      invariant 0 <= k <= |parts|
      invariant names == Somes(opts[..k])
    {
      SomesSnoc(opts, k);
      var name := NameOf(parts[k]);
      if name.Some? {
        names := names + [name.value];
      }
      k := k + 1;
    }
    assert opts[..k] == opts;
  }

  // ---------------------------------------------------------------------
  // Examples
  // ---------------------------------------------------------------------

  /** No `,`, `<` or `>` in `x`. */
  predicate Plain(x: string)
  {
    forall i | 0 <= i < |x| :: x[i] != ',' && x[i] != '<' && x[i] != '>'
  }

  /** `segs` with `x` appended to its last element. */
  function ExtendLast(segs: seq<string>, x: string): (r: seq<string>)
    requires |segs| >= 1
    ensures |r| == |segs|
  {
    segs[..|segs| - 1] + [segs[|segs| - 1] + x]
  }

  lemma ExtendLastTwice(segs: seq<string>, x: string, ch: char)
    requires |segs| >= 1
    ensures ExtendLast(ExtendLast(segs, x), [ch]) == ExtendLast(segs, x + [ch])
  {
    var q := ExtendLast(segs, x);
    assert q[..|q| - 1] == segs[..|segs| - 1];
    assert (segs[|segs| - 1] + x) + [ch] == segs[|segs| - 1] + (x + [ch]);
  }

  lemma ExtendLastEmpty(segs: seq<string>)
    requires |segs| >= 1
    ensures ExtendLast(segs, []) == segs
  {
    assert segs[|segs| - 1] + [] == segs[|segs| - 1];
  }

  lemma PlainPrefix(x: string)
    requires Plain(x) && x != []
    ensures Plain(x[..|x| - 1])
  {
    var x' := x[..|x| - 1];
    forall i | 0 <= i < |x'| ensures x'[i] != ',' && x'[i] != '<' && x'[i] != '>' {
      assert x'[i] == x[i];
    }
  }

  /** Reading a character other than `,`, `<` and `>` keeps the depth and
      extends the last segment. */
  lemma SnocPlain(a: string, ch: char)
    requires ch != ',' && ch != '<' && ch != '>'
    ensures Depth(a + [ch]) == Depth(a)
    ensures Segments(a + [ch]) == ExtendLast(Segments(a), [ch])
  {
    SegmentsSnoc(a, ch);
  }

  /** One more plain character after plain text. */
  lemma PlainStep(a: string, x: string, ch: char)
    requires ch != ',' && ch != '<' && ch != '>'
    requires Depth(a + x) == Depth(a) && Segments(a + x) == ExtendLast(Segments(a), x)
    ensures Depth(a + x + [ch]) == Depth(a)
    ensures Segments(a + x + [ch]) == ExtendLast(Segments(a), x + [ch])
  {
    SnocPlain(a + x, ch);
    ExtendLastTwice(Segments(a), x, ch);
  }

  /** Appending plain text keeps the depth and extends the last segment. */
  lemma {:induction false} AppendPlain(a: string, x: string)
    requires Plain(x)
    ensures Depth(a + x) == Depth(a)
    ensures Segments(a + x) == ExtendLast(Segments(a), x)
    decreases |x|
  {
    if x == [] {
      assert a + x == a;
      ExtendLastEmpty(Segments(a));
    } else {
      var x' := x[..|x| - 1];
      var ch := x[|x| - 1];
      PlainPrefix(x);
      AppendPlain(a, x');
      PlainStep(a, x', ch);
      assert x == x' + [ch];
      ConcatAssoc(a, x', [ch]);
    }
  }

  /** A comma read at depth 0 followed by plain text starts a new segment. */
  lemma CommaThenPlain(p: string, e: string)
    requires Depth(p) == 0 && Plain(e)
    ensures Segments(p + "," + e) == Segments(p) + [e]
    ensures Depth(p + "," + e) == 0
  {
    var t := p + ",";
    SegmentsSnoc(p, ',');
    assert t == p + [','];
    var q := Segments(t);
    assert q == Segments(p) + [[]];
    AppendPlain(t, e);
    assert q[..|q| - 1] == Segments(p);
    assert q[|q| - 1] + e == e;
  }

  /** Plain text read from the start: one segment, depth 0. */
  lemma PlainAlone(a: string)
    requires Plain(a)
    ensures Segments(a) == [a] && Depth(a) == 0
  {
    AppendPlain([], a);
    assert [] + a == a;
  }

  /** A bracket followed by plain text, read while there is one segment. */
  lemma BracketThenPlain(p: string, ch: char, x: string)
    requires Segments(p) == [p] && (ch == '<' || ch == '>' || (ch == ',' && Depth(p) > 0)) && Plain(x)
    ensures Segments(p + [ch] + x) == [p + [ch] + x]
    ensures Depth(p + [ch] + x) == Step(Depth(p), ch)
  {
    SegmentsSnoc(p, ch);
    AppendPlain(p + [ch], x);
  }

  /** A comma inside angle brackets does not split, the next top-level one
      does: `A<B,C>D,E` has the two segments `A<B,C>D` and `E`, as in
      `Map<String, int> m, String s`. */
  lemma CommaInsideAngles(a: string, b: string, c: string, d: string, e: string)
    requires Plain(a) && Plain(b) && Plain(c) && Plain(d) && Plain(e)
    ensures Segments(a + "<" + b + "," + c + ">" + d + "," + e) == [a + "<" + b + "," + c + ">" + d, e]
  {
    ClosedAngles(a, b, c, d);
    CommaAfterOne(a + "<" + b + "," + c + ">" + d, e);
  }

  /** `A<B,C>D` is one segment, back at depth zero. */
  lemma ClosedAngles(a: string, b: string, c: string, d: string)
    requires Plain(a) && Plain(b) && Plain(c) && Plain(d)
    ensures Segments(a + "<" + b + "," + c + ">" + d) == [a + "<" + b + "," + c + ">" + d]
    ensures Depth(a + "<" + b + "," + c + ">" + d) == 0
  {
    var p2 := a + "<" + b + "," + c;
    InsideAngles(a, b, c);
    BracketThenPlain(p2, '>', d);
    assert p2 + ">" + d == p2 + ['>'] + d;
  }

  /** A top-level comma after a single segment starts a second one. */
  lemma CommaAfterOne(p: string, e: string)
    requires Segments(p) == [p] && Depth(p) == 0 && Plain(e)
    ensures Segments(p + "," + e) == [p, e]
  {
    CommaThenPlain(p, e);
  }

  /** `A<B,C` is one segment, one level deep. */
  lemma InsideAngles(a: string, b: string, c: string)
    requires Plain(a) && Plain(b) && Plain(c)
    ensures Segments(a + "<" + b + "," + c) == [a + "<" + b + "," + c]
    ensures Depth(a + "<" + b + "," + c) == 1
  {
    var p1 := a + "<" + b;
    PlainAlone(a);
    BracketThenPlain(a, '<', b);
    assert Segments(p1) == [p1] && Depth(p1) == 1;
    BracketThenPlain(p1, ',', c);
  }
}
