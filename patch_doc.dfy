/** patch_doc_batch1.py: a file whose stripped text does not already start
    with a `///` comment gets a short doc stub put in front of it, named
    after the first class the text declares, or after the file when it
    declares none.  The loop over the fixed list of paths only reads,
    writes and prints; one file is modelled. */
module PatchDoc {
  import opened Wrappers
  import opened PyText
  import opened DartPatterns
  import opened FileEffects

  /** `text.strip().startswith('///')`. */
  predicate Documented(text: string)
  {
    StartsWith(Strip(text), "///")
  }

  // ---------------------------------------------------------------------
  // Path(p).stem
  // ---------------------------------------------------------------------

  /** `s.rfind(c)`: the last offset of `c` in `s`, or -1. */
  function RFind(s: string, c: char): (r: int)
    ensures -1 <= r < |s|
    ensures r >= 0 ==> s[r] == c
    ensures forall q | r < q < |s| :: s[q] != c
    decreases |s|
  {
    if s == [] then -1
    else if s[|s| - 1] == c then |s| - 1
    else RFind(s[..|s| - 1], c)
  }

  /** `Path(p).name`: what follows the last `/`. */
  function BaseName(path: string): (r: string)
    ensures '/' !in r
    ensures |r| <= |path| && r == path[|path| - |r|..]
  {
    var i := RFind(path, '/');
    SliceWithout(path, i + 1, '/');
    path[i + 1..]
  }

  lemma SliceWithout(s: string, a: nat, c: char)
    requires a <= |s| && forall q | a <= q < |s| :: s[q] != c
    ensures c !in s[a..]
  {
  }

  /** `Path(p).stem`: the name without its last suffix; a name whose only
      dot is its first or its last character keeps it. */
  function Stem(path: string): (r: string)
    ensures StartsWith(BaseName(path), r) && '/' !in r
  {
    var name := BaseName(path);
    var i := RFind(name, '.');
    if 0 < i < |name| - 1 then name[..i] else name
  }

  /** The stem drops exactly the last `.suffix`, when there is one. */
  lemma StemDropsSuffix(path: string)
    ensures var name := BaseName(path);
      Stem(path) == name
      || (0 < |Stem(path)| < |name| - 1 && name[|Stem(path)|] == '.'
          && '.' !in name[|Stem(path)| + 1..])
  {
    var name := BaseName(path);
    var i := RFind(name, '.');
    if 0 < i < |name| - 1 {
      SliceWithout(name, i + 1, '.');
    }
  }

  // ---------------------------------------------------------------------
  // The stub
  // ---------------------------------------------------------------------

  /** `m.group(1) if m else Path(p).stem`, where `m` searches the text for
      `class\s+([A-Z][A-Za-z0-9_]*)`. */
  function StubName(path: string, text: string): (r: string)
    ensures SearchClassName(text).Some? ==> r == SearchClassName(text).value && IsAsciiUpper(r[0])
    ensures SearchClassName(text).None? ==> r == Stem(path)
  {
    match SearchClassName(text)
    case Some(n) => n
    case None => Stem(path)
  }

  /** The lines of the stub after the name line. */
  const StubBody := "\n///\n/// Business Rules:\n/// - Add the main business rules or invariants enforced by this class.\n\n"

  /** The stub: a `///` line with the name, an empty `///` line, the
      Business Rules heading and item, and an empty line. */
  function Stub(name: string): string
  {
    "/// " + name + StubBody
  }

  /** The stub opens with `/// name` and ends with an empty line. */
  lemma StubShape(name: string)
    ensures StartsWith(Stub(name), "/// " + name)
    ensures |Stub(name)| >= 2 && Stub(name)[|Stub(name)| - 2..] == "\n\n"
  {
    var s := Stub(name);
    assert s[..|"/// " + name|] == "/// " + name;
    assert StubBody[|StubBody| - 2..] == "\n\n";
    assert s[|s| - 2..] == StubBody[|StubBody| - 2..];
  }

  // ---------------------------------------------------------------------
  // One file
  // ---------------------------------------------------------------------

  /** The new text of a file: unchanged when documented, else the stub put
      in front of the original. */
  function PatchText(path: string, text: string): (r: string)
    ensures Documented(text) ==> r == text
    ensures !Documented(text) ==> r == Stub(StubName(path, text)) + text
  {
    if Documented(text) then text else Stub(StubName(path, text)) + text
  }

  /** The original text is always a suffix of the new one, and the text in
      front of it is empty or the stub. */
  lemma OriginalIsSuffix(path: string, text: string)
    ensures var r := PatchText(path, text);
      |r| >= |text| && r[|r| - |text|..] == text
      && (r[..|r| - |text|] == [] || r[..|r| - |text|] == Stub(StubName(path, text)))
  {
    var r := PatchText(path, text);
    if !Documented(text) {
      var st := Stub(StubName(path, text));
      assert r[|r| - |text|..] == text;
      assert r[..|r| - |text|] == st;
    }
  }

  /** Whatever the input, the new text is documented. */
  lemma PatchedIsDocumented(path: string, text: string)
    ensures Documented(PatchText(path, text))
  {
    if !Documented(text) {
      var s := Stub(StubName(path, text)) + text;
      assert s[..3] == "///";
      StripKeepsPrefix(s, "///");
    }
  }

  /** Patching twice is patching once. */
  lemma PatchIdempotent(path: string, text: string)
    ensures PatchText(path, PatchText(path, text)) == PatchText(path, text)
  {
    PatchedIsDocumented(path, text);
  }

  /** What the script reports for a file. */
  datatype Outcome = Missing | AlreadyDocumented | Patched

  /** One iteration of the loop: a missing file is skipped, a documented one
      left alone; otherwise the backup is made if absent and the new text
      written. */
  function PatchFile(path: string, f: Option<FileState>): (r: (Option<FileState>, Outcome))
    ensures f.None? ==> r == (None, Missing)
    ensures f.Some? && Documented(f.value.content) ==> r == (f, AlreadyDocumented)
    ensures f.Some? && !Documented(f.value.content) ==>
      r.1 == Patched && r.0.Some?
      && r.0.value.content == PatchText(path, f.value.content)
      && r.0.value.backup == BackupOnce(f.value).backup
  {
    match f
    case None => (None, Missing)
    case Some(st) =>
      if Documented(st.content) then (f, AlreadyDocumented)
      else (Some(Patch(st, PatchText(path, st.content))), Patched)
  }

  /** A second run over the result reports the file as documented and
      changes nothing, backup included. */
  lemma PatchFileTwice(path: string, f: Option<FileState>)
    requires f.Some?
    ensures PatchFile(path, PatchFile(path, f).0) == (PatchFile(path, f).0, AlreadyDocumented)
  {
    PatchedIsDocumented(path, f.value.content);
  }
}
