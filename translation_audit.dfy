/** translation_audit.py: the `tr('…')` keys used in the Dart sources,
    against the keys of each translation file.  Reading the directory trees
    and decoding JSON are not part of this model: the Dart files arrive as
    their texts (`None` for one that could not be read), the translation
    files as their stems with the decoded document (`None` for one that
    failed to parse). */
module TranslationAudit {
  import opened Wrappers
  import opened PyText
  import opened DartPatterns
  import opened JsonValue
  import opened StrOrder

  // ---------------------------------------------------------------------
  // tr() keys
  // ---------------------------------------------------------------------

  predicate QuoteFree(k: string)
  {
    forall i | 0 <= i < |k| :: !IsQuote(k[i])
  }

  /** `tr\(\s*['"]([^'"]+)['"]\s*\)` matched at offset `p`: the key and the
      offset just past the match.  The two quotes need not be the same. */
  function TrKeyAt(s: string, p: nat): (r: Option<(string, nat)>)
    requires p <= |s|
    ensures r.Some? ==> p < r.value.1 <= |s| && r.value.0 != [] && QuoteFree(r.value.0)
    ensures r.Some? ==> LiteralAt(s, p, "tr(") && s[r.value.1 - 1] == ')'
  {
    if LiteralAt(s, p, "tr(") then
      var q := Run(s, p + 3, Spaces);
      if q < |s| && IsQuote(s[q]) then
        var b := Run(s, q + 1, NotQuote);
        if b > q + 1 && b < |s| && IsQuote(s[b]) then
          var e := Run(s, b + 1, Spaces);
          if e < |s| && s[e] == ')' then Some((s[q + 1..b], e + 1)) else None
        else None
      else None
    else None
  }

  /** The keys `pattern.finditer(s)` yields from offset `p` on: matches do
      not overlap, and the scan goes on after the end of each match. */
  function KeysFrom(s: string, p: nat): (r: set<string>)
    requires p <= |s|
    ensures forall k | k in r :: k != [] && QuoteFree(k)
    decreases |s| - p
  {
    match TrKeyAt(s, p)
    case Some(m) => {m.0} + KeysFrom(s, m.1)
    case None => if p == |s| then {} else KeysFrom(s, p + 1)
  }

  predicate AllIn(s: string, i: nat, j: nat, k: CharClass)
    requires i <= j <= |s|
  {
    forall q | i <= q < j :: InClass(s[q], k)
  }

  /** The pattern matches at `p` exactly when the text there is `tr(`,
      whitespace up to `q`, a quote, a non-empty quote-free key up to `b`,
      a quote, whitespace up to `e` and `)`: the match is that key and
      ends past the `)`. */
  lemma {:induction false} KeyAt(s: string, p: nat, q: nat, b: nat, e: nat)
    requires p + 3 <= q < b < e < |s| && q + 1 < b
    requires LiteralAt(s, p, "tr(") && AllIn(s, p + 3, q, Spaces) && IsQuote(s[q])
    requires AllIn(s, q + 1, b, NotQuote) && IsQuote(s[b])
    requires AllIn(s, b + 1, e, Spaces) && s[e] == ')'
    ensures TrKeyAt(s, p) == Some((s[q + 1..b], e + 1))
  {
    KeyRuns(s, p, q, b, e);
  }

  /** The three runs of the pattern end at `q`, `b` and `e`. */
  lemma KeyRuns(s: string, p: nat, q: nat, b: nat, e: nat)
    requires p + 3 <= q < b < e < |s|
    requires AllIn(s, p + 3, q, Spaces) && IsQuote(s[q])
    requires AllIn(s, q + 1, b, NotQuote) && IsQuote(s[b])
    requires AllIn(s, b + 1, e, Spaces) && s[e] == ')'
    ensures Run(s, p + 3, Spaces) == q && Run(s, q + 1, NotQuote) == b && Run(s, b + 1, Spaces) == e
  {
    RunTo(s, p + 3, q, Spaces);
    RunTo(s, q + 1, b, NotQuote);
    RunTo(s, b + 1, e, Spaces);
  }

  /** A text that is a single call `tr( 'key' )`, with any whitespace
      around the quoted key, yields exactly its key. */
  lemma KeyOfCall(w1: string, q1: char, k: string, q2: char, w2: string)
    requires IsBlank(w1) && IsBlank(w2) && IsQuote(q1) && IsQuote(q2)
    requires k != [] && QuoteFree(k)
    ensures KeysFrom("tr(" + w1 + [q1] + k + [q2] + w2 + ")", 0) == {k}
  {
    var s := "tr(" + w1 + [q1] + k + [q2] + w2 + ")";
    var q := 3 + |w1|;
    var b := q + 1 + |k|;
    var e := b + 1 + |w2|;
    CallPieces(w1, q1, k, q2, w2);
    KeyAt(s, 0, q, b, e);
    KeysAfterMatch(s, 0, k, |s|);
  }

  lemma KeysAfterMatch(s: string, p: nat, k: string, e: nat)
    requires p <= |s| && TrKeyAt(s, p) == Some((k, e))
    ensures KeysFrom(s, p) == {k} + KeysFrom(s, e)
  {
  }

  lemma CallPieces(w1: string, q1: char, k: string, q2: char, w2: string)
    requires IsBlank(w1) && IsBlank(w2) && QuoteFree(k)
    ensures var s := "tr(" + w1 + [q1] + k + [q2] + w2 + ")";
      var q := 3 + |w1|;
      var b := q + 1 + |k|;
      var e := b + 1 + |w2|;
      |s| == e + 1 && LiteralAt(s, 0, "tr(") && AllIn(s, 3, q, Spaces) && s[q] == q1
      && AllIn(s, q + 1, b, NotQuote) && s[q + 1..b] == k && s[b] == q2
      && AllIn(s, b + 1, e, Spaces) && s[e] == ')'
  {
    var s := "tr(" + w1 + [q1] + k + [q2] + w2 + ")";
    var q := 3 + |w1|;
    var b := q + 1 + |k|;
    var e := b + 1 + |w2|;
    assert s[..3] == "tr(";
    assert forall i | 3 <= i < q :: s[i] == w1[i - 3];
    assert forall i | q + 1 <= i < b :: s[i] == k[i - q - 1];
    assert s[q + 1..b] == k;
    assert forall i | b + 1 <= i < e :: s[i] == w2[i - b - 1];
  }

  /** `for m in pattern.finditer(text): keys_found.add(m.group(1))`. */
  method ScanText(s: string, found: set<string>) returns (found': set<string>)
    ensures found' == found + KeysFrom(s, 0)
  {
    found' := found;
    var p := 0;
    while p < |s|
      invariant p <= |s|
      invariant found' + KeysFrom(s, p) == found + KeysFrom(s, 0)
      decreases |s| - p
    {
      match TrKeyAt(s, p)
      case Some(m) =>
        found' := found' + {m.0};
        p := m.1;
      case None =>
        p := p + 1;
    }
  }

  /** The keys of all readable files. */
  function KeysOfFiles(texts: seq<Option<string>>): set<string>
  {
    if texts == [] then {}
    else
      KeysOfFiles(texts[..|texts| - 1])
      + match texts[|texts| - 1] case Some(s) => KeysFrom(s, 0) case None => {}
  }

  /** The scan over the Dart files: every file counts as scanned, one that
      cannot be read adds no keys. */
  method ScanFiles(texts: seq<Option<string>>) returns (found: set<string>, scanned: nat)
    ensures found == KeysOfFiles(texts) && scanned == |texts|
  {
    found, scanned := {}, 0;
    var i := 0;
    while i < |texts|
      invariant i <= |texts| && scanned == i
      invariant found == KeysOfFiles(texts[..i])
    {
      scanned := scanned + 1;
      assert texts[..i + 1][..i] == texts[..i];
      if texts[i].Some? {
        found := ScanText(texts[i].value, found);
      }
      i := i + 1;
    }
    assert texts[..i] == texts;
  }

  // ---------------------------------------------------------------------
  // flatten
  // ---------------------------------------------------------------------

  /** `f"{prefix}.{k}" if prefix else k`. */
  function Key(prefix: string, k: string): string
  {
    if prefix == [] then k else prefix + "." + k
  }

  /** `flatten(d, prefix)`: a non-object gives no keys; an object's members
      are taken in order, each adding its subtree's keys (or its own key,
      for a leaf) over what was there. */
  function Flatten(d: Value, prefix: string): (r: map<string, Value>)
    ensures d.Leaf? ==> r == map[]
    decreases d, 1
  {
    match d
    case Leaf(_) => map[]
    case Object(ms) => FlattenMembers(d, |ms|, prefix)
  }

  /** The first `n` members of the object `d` flattened. */
  function FlattenMembers(d: Value, n: nat, prefix: string): (r: map<string, Value>)
    requires d.Object? && n <= |d.members|
    ensures n == 0 ==> r == map[]
    decreases d, 0, n
  {
    if n == 0 then map[]
    else
      var (k, v) := d.members[n - 1];
      assert d.members[n - 1].1 < d;
      var nk := Key(prefix, k);
      FlattenMembers(d, n - 1, prefix)
      + if v.Object? then Flatten(v, nk) else map[nk := v]
  }

  /** The path of keys from `d` down to a leaf. */
  predicate LeafAt(d: Value, path: seq<string>)
    decreases path
  {
    d.Object? && path != []
    && exists i | 0 <= i < |d.members| :: d.members[i].0 == path[0]
         && (if |path| == 1 then d.members[i].1.Leaf? else LeafAt(d.members[i].1, path[1..]))
  }

  /** The flattened name of a path below `prefix`. */
  function Dotted(prefix: string, path: seq<string>): string
    decreases |path|
  {
    if path == [] then prefix else Dotted(Key(prefix, path[0]), path[1..])
  }

  /** Every flattened key names a path to a leaf ... */
  lemma {:induction false} FlattenedKeyIsLeaf(d: Value, prefix: string, key: string) returns (path: seq<string>)
    requires key in Flatten(d, prefix)
    ensures LeafAt(d, path) && Dotted(prefix, path) == key
    decreases d, 1
  {
    path := MemberKeyIsLeaf(d, |d.members|, prefix, key);
  }

  lemma {:induction false} MemberKeyIsLeaf(d: Value, n: nat, prefix: string, key: string) returns (path: seq<string>)
    requires d.Object? && n <= |d.members| && key in FlattenMembers(d, n, prefix)
    ensures LeafAt(d, path) && Dotted(prefix, path) == key
    decreases d, 0, n
  {
    var (k, v) := d.members[n - 1];
    assert d.members[n - 1].1 < d;
    var nk := Key(prefix, k);
    var last := if v.Object? then Flatten(v, nk) else map[nk := v];
    if key in last {
      if v.Object? {
        var sub := FlattenedKeyIsLeaf(v, nk, key);
        path := [k] + sub;
        assert path[1..] == sub;
      } else {
        path := [k];
      }
      assert d.members[n - 1].0 == path[0];
    } else {
      path := MemberKeyIsLeaf(d, n - 1, prefix, key);
    }
  }

  /** ... and every path to a leaf gives a flattened key. */
  lemma {:induction false} LeafIsFlattenedKey(d: Value, prefix: string, path: seq<string>)
    requires LeafAt(d, path)
    ensures Dotted(prefix, path) in Flatten(d, prefix)
    decreases d, 1
  {
    var i :| 0 <= i < |d.members| && d.members[i].0 == path[0]
      && (if |path| == 1 then d.members[i].1.Leaf? else LeafAt(d.members[i].1, path[1..]));
    LeafInMembers(d, |d.members|, prefix, path, i);
  }

  lemma {:induction false} LeafInMembers(d: Value, n: nat, prefix: string, path: seq<string>, i: nat)
    requires d.Object? && i < n <= |d.members| && path != [] && d.members[i].0 == path[0]
    requires if |path| == 1 then d.members[i].1.Leaf? else LeafAt(d.members[i].1, path[1..])
    ensures Dotted(prefix, path) in FlattenMembers(d, n, prefix)
    decreases d, 0, n
  {
    var (k, v) := d.members[n - 1];
    assert d.members[n - 1].1 < d;
    if i < n - 1 {
      LeafInMembers(d, n - 1, prefix, path, i);
    } else {
      var nk := Key(prefix, k);
      if |path| == 1 {
        assert Dotted(prefix, path) == nk;
      } else {
        LeafIsFlattenedKey(v, nk, path[1..]);
      }
    }
  }

  /** The keys of a flattened document are exactly its leaf paths, dotted. */
  lemma FlattenKeysIff(d: Value, key: string)
    ensures key in Flatten(d, "") <==> exists path :: LeafAt(d, path) && Dotted("", path) == key
  {
    if key in Flatten(d, "") {
      var path := FlattenedKeyIsLeaf(d, "", key);
    }
    if exists path :: LeafAt(d, path) && Dotted("", path) == key {
      var path :| LeafAt(d, path) && Dotted("", path) == key;
      LeafIsFlattenedKey(d, "", path);
    }
  }

  /** An empty object, at any depth, contributes no keys. */
  lemma EmptyObjectNoKeys(prefix: string)
    ensures Flatten(Object([]), prefix) == map[]
  {
  }

  /** `json.loads` keeps the last of two members named alike, so a nested
      object followed by a leaf of the same name leaves only the leaf's
      key. */
  lemma RepeatedNameLastWins()
    ensures Flatten(Load(Object([("a", Object([("x", Leaf("1"))])), ("a", Leaf("2"))])), "").Keys == {"a"}
  {
    var inner := Object([("x", Leaf("1"))]);
    var doc := Object([("a", inner), ("a", Leaf("2"))]);
    var ms := LoadMembers(doc, 2);
    LoadMembersAt(doc, 2, 1);
    assert ms[1] == ("a", Leaf("2"));
    assert DictOf(ms[..1]) == [ms[0]];
    assert DictOf(ms) == [("a", Leaf("2"))];
    assert Load(doc) == Object([("a", Leaf("2"))]);
  }

  // ---------------------------------------------------------------------
  // Languages
  // ---------------------------------------------------------------------

  /** `languages` after the loop over the translation files. */
  function LanguagesOf(files: seq<(string, Option<Value>)>): map<string, set<string>>
  {
    if files == [] then map[]
    else
      var prev := LanguagesOf(files[..|files| - 1]);
      var (lang, data) := files[|files| - 1];
      if data.Some? then prev[lang := Flatten(Load(data.value), "").Keys] else prev
  }

  /** A language is loaded exactly when one of its files parsed ... */
  lemma {:induction false} LanguagesOfIff(files: seq<(string, Option<Value>)>, lang: string)
    ensures lang in LanguagesOf(files) <==>
      exists i | 0 <= i < |files| :: files[i].0 == lang && files[i].1.Some?
    decreases |files|
  {
    if files != [] {
      var init := files[..|files| - 1];
      LanguagesOfIff(init, lang);
      assert forall i | 0 <= i < |init| :: init[i] == files[i];
    }
  }

  /** ... and its keys are those of the last file of that name that parsed. */
  lemma {:induction false} LanguageKeys(files: seq<(string, Option<Value>)>, i: nat)
    requires i < |files| && files[i].1.Some?
    requires forall j | i < j < |files| :: files[j].0 != files[i].0
    ensures files[i].0 in LanguagesOf(files)
    ensures LanguagesOf(files)[files[i].0] == Flatten(Load(files[i].1.value), "").Keys
    decreases |files|
  {
    if i < |files| - 1 {
      var init := files[..|files| - 1];
      assert init[i] == files[i];
      LanguageKeys(init, i);
    }
  }

  /** The loop over the translation files; a file that fails to parse is
      skipped. */
  method LoadLanguages(files: seq<(string, Option<Value>)>) returns (languages: map<string, set<string>>)
    ensures languages == LanguagesOf(files)
  {
    languages := map[];
    var i := 0;
    while i < |files|
      invariant i <= |files| && languages == LanguagesOf(files[..i])
    {
      assert files[..i + 1][..i] == files[..i];
      var (lang, data) := files[i];
      if data.Some? {
        languages := languages[lang := Flatten(Load(data.value), "").Keys];
      }
      i := i + 1;
    }
    assert files[..i] == files;
  }

  // ---------------------------------------------------------------------
  // Report
  // ---------------------------------------------------------------------

  /** `r == sorted(s)`. */
  ghost predicate SortedOf(r: seq<string>, s: set<string>)
  {
    StrictlySorted(r) && (forall x :: x in r <==> x in s) && |r| == |s|
  }

  /** The printed listing of keys: the first 200, then `... and N more`
      when there are more. */
  function ListingLines(keys: seq<string>): (r: seq<string>)
  {
    var shown := if |keys| <= 200 then keys else keys[..200];
    seq(|shown|, i requires 0 <= i < |shown| => "  " + shown[i])
    + if |keys| > 200 then ["  ... and " + Decimal(|keys| - 200) + " more"] else []
  }

  /** The listing shows the first keys, at most 200 of them, one per line;
      past 200 its last line carries a count that, read back as a number,
      accounts for exactly the keys not shown. */
  lemma ListingAccountsForAll(keys: seq<string>)
    ensures var r := ListingLines(keys);
      var n := if |keys| <= 200 then |keys| else 200;
      |r| == n + (if |keys| > 200 then 1 else 0)
      && (forall i | 0 <= i < n :: r[i] == "  " + keys[i])
      && (|keys| > 200 ==> exists d :: r[n] == "  ... and " + d + " more"
                                      && ParseInt(d) == Some(|keys| - n))
  {
    if |keys| > 200 {
      var d := Decimal(|keys| - 200);
      ParseIntDecimal(|keys| - 200, "", "");
      assert "" + d + "" == d;
      assert ListingLines(keys)[200] == "  ... and " + d + " more";
    }
  }

  /** `sys.exit(2)` without languages, else 0 when no language misses a
      key, else 3. */
  function ExitCode(languages: map<string, set<string>>, found: set<string>): (code: int)
    ensures code in {0, 2, 3}
  {
    if languages == map[] then 2
    else if exists lang | lang in languages :: !(found <= languages[lang]) then 3
    else 0
  }

  lemma ExitCodeIff(languages: map<string, set<string>>, found: set<string>)
    ensures ExitCode(languages, found) == 2 <==> |languages| == 0
    ensures ExitCode(languages, found) == 0 <==>
      |languages| > 0 && forall lang | lang in languages :: found <= languages[lang]
    ensures ExitCode(languages, found) == 3 <==>
      |languages| > 0 && exists lang | lang in languages :: exists k | k in found :: k !in languages[lang]
  {
    if languages != map[] {
      assert exists lang :: lang in languages;
    }
  }

  /** The first loop of the report: per language, the sorted tr() keys it
      lacks. */
  method MissingKeys(found: set<string>, languages: map<string, set<string>>)
    returns (missing: map<string, seq<string>>)
    ensures missing.Keys == languages.Keys
    ensures forall lang | lang in languages :: SortedOf(missing[lang], found - languages[lang])
  {
    missing := map[];
    var rest := languages.Keys;
    while rest != {}
      invariant rest <= languages.Keys && missing.Keys == languages.Keys - rest
      invariant forall lang | lang in missing :: SortedOf(missing[lang], found - languages[lang])
      decreases |rest|
    {
      var lang :| lang in rest;
      var m := SortedListing(found - languages[lang]);
      missing := missing[lang := m];
      rest := rest - {lang};
    }
  }

  /** The second loop: per language, the sorted keys no tr() call uses. */
  method UnusedKeys(found: set<string>, languages: map<string, set<string>>)
    returns (unused: map<string, seq<string>>)
    ensures unused.Keys == languages.Keys
    ensures forall lang | lang in languages :: SortedOf(unused[lang], languages[lang] - found)
  {
    unused := map[];
    var rest := languages.Keys;
    while rest != {}
      invariant rest <= languages.Keys && unused.Keys == languages.Keys - rest
      invariant forall lang | lang in unused :: SortedOf(unused[lang], languages[lang] - found)
      decreases |rest|
    {
      var lang :| lang in rest;
      var u := SortedListing(languages[lang] - found);
      unused := unused[lang := u];
      rest := rest - {lang};
    }
  }

  /** A language misses keys exactly when its listing of missing keys is
      not empty. */
  lemma AnyMissingIff(found: set<string>, languages: map<string, set<string>>, missing: map<string, seq<string>>)
    requires languages != map[] && missing.Keys == languages.Keys
    requires forall lang | lang in languages :: SortedOf(missing[lang], found - languages[lang])
    ensures (exists lang | lang in missing :: |missing[lang]| > 0) <==> ExitCode(languages, found) == 3
  {
    forall lang | lang in languages
      ensures (|missing[lang]| > 0) == !(found <= languages[lang])
    {
      if found <= languages[lang] {
        assert found - languages[lang] == {};
      } else {
        var k :| k in found && k !in languages[lang];
        assert k in found - languages[lang];
      }
    }
  }

  /** The whole audit. */
  method Audit(texts: seq<Option<string>>, files: seq<(string, Option<Value>)>)
    returns (scanned: nat, found: set<string>, languages: map<string, set<string>>,
             missing: map<string, seq<string>>, unused: map<string, seq<string>>, code: int)
    ensures scanned == |texts| && found == KeysOfFiles(texts) && languages == LanguagesOf(files)
    ensures missing.Keys == languages.Keys && unused.Keys == languages.Keys
    ensures forall lang | lang in languages :: SortedOf(missing[lang], found - languages[lang])
    ensures forall lang | lang in languages :: SortedOf(unused[lang], languages[lang] - found)
    ensures languages == map[] ==> missing == map[] && unused == map[]
    ensures code == ExitCode(languages, found)
  {
    found, scanned := ScanFiles(texts);
    languages := LoadLanguages(files);
    missing, unused := map[], map[];
    if languages == map[] {
      return scanned, found, languages, missing, unused, 2;
    }
    missing := MissingKeys(found, languages);
    unused := UnusedKeys(found, languages);
    var anyMissing := exists lang | lang in missing :: |missing[lang]| > 0;
    AnyMissingIff(found, languages, missing);
    code := if anyMissing then 3 else 0;
  }
}
