/** Hand-written matchers for the fixed, single-line regular expressions the
    scripts apply to Dart text.  Each function returns what the regex's
    capture group yields, or `None` where `re.match`/`re.search` returns None.
    Greedy quantifiers over a class are maximal runs here: in every one of
    these patterns the element after a run cannot start with a character of
    the run's class, so backtracking into a run never produces a match. */
module DartPatterns {
  import opened Wrappers
  import opened PyText

  /** The character classes the patterns use. */
  datatype CharClass =
    | Spaces       // \s
    | Word         // [A-Za-z0-9_]
    | TypeChar     // [A-Za-z_<>\[\]]
    | NotGreater   // [^>]
    | NotQuote     // [^'"]

  predicate InClass(c: char, k: CharClass)
  {
    match k
    case Spaces => IsSpace(c)
    case Word => IsIdentChar(c)
    case TypeChar => IsAsciiLetter(c) || c == '_' || c == '<' || c == '>' || c == '[' || c == ']'
    case NotGreater => c != '>'
    case NotQuote => !IsQuote(c)
  }

  predicate IsQuote(c: char) { c == '\'' || c == '"' }

  /** The end of the maximal run of class `k` starting at `i`. */
  function Run(s: string, i: nat, k: CharClass): (j: nat)
    requires i <= |s|
    ensures i <= j <= |s|
    ensures forall q | i <= q < j :: InClass(s[q], k)
    ensures j == |s| || !InClass(s[j], k)
    decreases |s| - i
  {
    if i < |s| && InClass(s[i], k) then Run(s, i + 1, k) else i
  }

  /** A run ends where the characters of its class end. */
  lemma {:induction false} RunTo(s: string, i: nat, j: nat, k: CharClass)
    requires i <= j <= |s|
    requires forall q | i <= q < j :: InClass(s[q], k)
    requires j == |s| || !InClass(s[j], k)
    ensures Run(s, i, k) == j
    decreases j - i
  {
    if i < j {
      RunTo(s, i + 1, j, k);
    }
  }

  /** The literal `lit` occurs at offset `i`. */
  predicate LiteralAt(s: string, i: nat, lit: string)
  {
    i + |lit| <= |s| && s[i..i + |lit|] == lit
  }

  /** `class\s+([A-Z][A-Za-z0-9_]*)` matched at offset `p`. */
  function ClassKeywordName(s: string, p: nat): (r: Option<string>)
    requires p <= |s|
    ensures r.Some? ==> |r.value| > 0 && IsAsciiUpper(r.value[0]) && IdentChars(r.value)
  {
    if LiteralAt(s, p, "class") then
      var q := Run(s, p + 5, Spaces);
      if q > p + 5 && q < |s| && IsAsciiUpper(s[q]) then
        Some(s[q..Run(s, q + 1, Word)])
      else None
    else None
  }

  /** `re.search(r'class\s+([A-Z][A-Za-z0-9_]*)', s)` from offset `p` on:
      the leftmost match wins. */
  function SearchClassNameFrom(s: string, p: nat): (r: Option<string>)
    requires p <= |s|
    ensures r.Some? ==> |r.value| > 0 && IsAsciiUpper(r.value[0]) && IdentChars(r.value)
    decreases |s| - p
  {
    var here := ClassKeywordName(s, p);
    if here.Some? then here
    else if p == |s| then None
    else SearchClassNameFrom(s, p + 1)
  }

  /** `re.search(r'class\s+([A-Z][A-Za-z0-9_]*)', s).group(1)`, or None. */
  function SearchClassName(s: string): (r: Option<string>)
    ensures r.Some? ==> |r.value| > 0 && IsAsciiUpper(r.value[0]) && IdentChars(r.value)
  {
    SearchClassNameFrom(s, 0)
  }

  /** A search finds the match at its own starting offset when there is one. */
  lemma {:induction false} SearchFindsEarliest(s: string, p: nat, m: nat)
    requires p <= m <= |s| && ClassKeywordName(s, m).Some?
    requires forall q | p <= q < m :: ClassKeywordName(s, q).None?
    ensures SearchClassNameFrom(s, p) == ClassKeywordName(s, m)
    decreases m - p
  {
    if p < m {
      SearchFindsEarliest(s, p + 1, m);
    }
  }

  /** ... and finds nothing when no offset matches. */
  lemma {:induction false} SearchFindsNothing(s: string, p: nat)
    requires p <= |s|
    requires forall q | p <= q <= |s| :: ClassKeywordName(s, q).None?
    ensures SearchClassNameFrom(s, p).None?
    decreases |s| - p
  {
    if p < |s| {
      SearchFindsNothing(s, p + 1);
    }
  }

  /** `re.match(r'^(abstract\s+)?class\s+([A-Z][A-Za-z0-9_]*)\b', s).group(2)`. */
  function ClassDeclName(s: string): (r: Option<string>)
    ensures r.Some? ==> |r.value| > 0 && IsAsciiUpper(r.value[0]) && IdentChars(r.value)
  {
    if LiteralAt(s, 0, "abstract") && Run(s, 8, Spaces) > 8 then
      ClassKeywordName(s, Run(s, 8, Spaces))
    else
      ClassKeywordName(s, 0)
  }

  /** `\b` after a word-character literal that ends at `e`. */
  predicate WordEnd(s: string, e: nat)
  {
    e == |s| || (e < |s| && !IsIdentChar(s[e]))
  }

  /** `re.match(r'^class\s+([A-Z][A-Za-z0-9_]*)\s+extends\s+
      (StatefulWidget|StatelessWidget)\b', s).group(1)`. */
  function WidgetName(s: string): (r: Option<string>)
    ensures r.Some? ==> |r.value| > 0 && IsAsciiUpper(r.value[0]) && IdentChars(r.value)
  {
    if LiteralAt(s, 0, "class") then
      var q := Run(s, 5, Spaces);
      if q > 5 && q < |s| && IsAsciiUpper(s[q]) then
        var e := Run(s, q + 1, Word);
        if ExtendsWidget(s, e) then Some(s[q..e]) else None
      else None
    else None
  }

  /** `\s+extends\s+(StatefulWidget|StatelessWidget)\b` at offset `e`. */
  predicate ExtendsWidget(s: string, e: nat)
    requires e <= |s|
  {
    var f := Run(s, e, Spaces);
    f > e && LiteralAt(s, f, "extends")
    && var g := Run(s, f + 7, Spaces);
    g > f + 7
    && ((LiteralAt(s, g, "StatefulWidget") && WordEnd(s, g + 14))
        || (LiteralAt(s, g, "StatelessWidget") && WordEnd(s, g + 15)))
  }

  /** A line the widget pattern accepts is accepted by the class pattern,
      with the same name. */
  lemma WidgetIsClass(s: string)
    requires WidgetName(s).Some?
    ensures ClassDeclName(s) == WidgetName(s)
  {
    assert s[0] == 'c';
    assert !LiteralAt(s, 0, "abstract");
  }

  /** `\([^)]*\)`: a `)` somewhere at or after `i`. */
  predicate CloseParenFrom(s: string, i: nat)
  {
    exists k | i <= k < |s| :: s[k] == ')'
  }

  /** `([a-zA-Z_][A-Za-z0-9_]*)\s*\([^)]*\)\s*\{?` at offset `p`: the name. */
  function CallName(s: string, p: nat): (r: Option<string>)
    requires p <= |s|
    ensures r.Some? ==> IsIdent(r.value)
  {
    if p < |s| && (IsAsciiLetter(s[p]) || s[p] == '_') then
      var q := Run(s, p + 1, Word);
      var r := Run(s, q, Spaces);
      if r < |s| && s[r] == '(' && CloseParenFrom(s, r + 1) then Some(s[p..q]) else None
    else None
  }

  /** `Future<[^>]+>\s+` at `t`: where the name starts. */
  function FutureType(s: string, t: nat): (r: Option<nat>)
    requires t <= |s|
    ensures r.Some? ==> t < r.value <= |s|
  {
    if LiteralAt(s, t, "Future<") then
      var e := Run(s, t + 7, NotGreater);
      if e > t + 7 && e < |s| then
        var r := Run(s, e + 1, Spaces);
        if r > e + 1 then Some(r) else None
      else None
    else None
  }

  /** `[A-Za-z_<>\[\]]+\s+` at `t`: where the name starts. */
  function PlainType(s: string, t: nat): (r: Option<nat>)
    requires t <= |s|
    ensures r.Some? ==> t < r.value <= |s|
  {
    var q := Run(s, t, TypeChar);
    if q > t then
      var r := Run(s, q, Spaces);
      if r > q then Some(r) else None
    else None
  }

  /** `(?:Future<[^>]+>\s+|[A-Za-z_<>\[\]]+\s+)?` followed by the call shape,
      alternatives tried in the regex's order. */
  function TypedCallName(s: string, t: nat): (r: Option<string>)
    requires t <= |s|
    ensures r.Some? ==> IsIdent(r.value)
  {
    var viaFuture := match FutureType(s, t) case Some(n) => CallName(s, n) case None => None;
    if viaFuture.Some? then viaFuture
    else
      var viaPlain := match PlainType(s, t) case Some(n) => CallName(s, n) case None => None;
      if viaPlain.Some? then viaPlain else CallName(s, t)
  }

  /** `re.match(r'^(?:@override\s+)?(?:Future<[^>]+>\s+|[A-Za-z_<>\[\]]+\s+)?
      ([a-zA-Z_][A-Za-z0-9_]*)\s*\([^)]*\)\s*\{?', s).group(1)`. */
  function MethodName(s: string): (r: Option<string>)
    ensures r.Some? ==> IsIdent(r.value)
  {
    var viaOverride :=
      if LiteralAt(s, 0, "@override") && Run(s, 9, Spaces) > 9 then TypedCallName(s, Run(s, 9, Spaces))
      else None;
    if viaOverride.Some? then viaOverride else TypedCallName(s, 0)
  }

  /** None of the three line patterns accepts a line starting with `/`, so
      doc-comment lines never get stubs of their own. */
  lemma SlashLineMatchesNothing(s: string)
    requires |s| > 0 && s[0] == '/'
    ensures ClassDeclName(s).None? && WidgetName(s).None? && MethodName(s).None?
  {
    assert !LiteralAt(s, 0, "abstract") && !LiteralAt(s, 0, "class");
    assert !LiteralAt(s, 0, "@override");
    assert FutureType(s, 0).None? by { assert !LiteralAt(s, 0, "Future<"); }
    assert Run(s, 0, TypeChar) == 0;
  }

  /** ... nor the empty line (what `lstrip` leaves of a blank one). */
  lemma EmptyLineMatchesNothing()
    ensures ClassDeclName([]).None? && WidgetName([]).None? && MethodName([]).None?
  {
  }
}
