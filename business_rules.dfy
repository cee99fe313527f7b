/** `main` of insert_business_rules.py: the CSV row selection
    (`scripts/insert_business_rules.py:162-176`), the two passes over one
    file (lines 189-221) and the write and backup decision (lines 223-239),
    with the loop over the selected files. */
module BusinessRules {
  import opened Wrappers
  import opened PyText
  import opened Substitution
  import opened MethodStubs
  import opened ClassPass
  import opened FileEffects

  // ---------------------------------------------------------------------
  // CSV rows
  // ---------------------------------------------------------------------

  /** `int(parts[1])`, or 0 where it raises (no second field, or not an
      integer). */
  function Issues(parts: seq<string>): int
  {
    if |parts| > 1 then ParseInt(parts[1]).GetOr(0) else 0
  }

  /** The entry one CSV line contributes, if any. */
  function RowEntry(l: string): Option<(string, int)>
  {
    if Strip(l) == [] then None
    else
      var parts := SplitOn(l, ',');
      var issues := Issues(parts);
      if issues > 0 then Some((Strip(parts[0]), issues)) else None
  }

  /** A line gives an entry exactly when it is not blank and its count is
      positive; the entry is the stripped first field with that count. */
  lemma RowEntrySpec(l: string)
    ensures RowEntry(l).Some? <==> !IsBlank(l) && Issues(SplitOn(l, ',')) > 0
    ensures RowEntry(l).Some? ==> RowEntry(l).value == (Strip(SplitOn(l, ',')[0]), Issues(SplitOn(l, ',')))
    ensures RowEntry(l).Some? ==> RowEntry(l).value.1 > 0
  {
  }

  /** The entry of each CSV line, in file order. */
  function Rows(lines: seq<string>): (rs: seq<Option<(string, int)>>)
    ensures |rs| == |lines| && forall i | 0 <= i < |lines| :: rs[i] == RowEntry(lines[i])
  {
    MapSeq(lines, RowEntry)
  }

  /** `entries`, built from the CSV lines in file order. */
  function CsvEntries(lines: seq<string>): (es: seq<(string, int)>)
    ensures |es| <= |lines|
  {
    Somes(Rows(lines))
  }

  /** What the loop body makes of one line: the path and count it appends,
      if any. */
  lemma ReadRow(l: string, path: string, issues: int)
    requires Strip(l) != []
    requires path == Strip(SplitOn(l, ',')[0]) && issues == Issues(SplitOn(l, ','))
    ensures RowEntry(l) == if issues > 0 then Some((path, issues)) else None
  {
  }

  /** The loop at lines 163-174. */
  method ReadEntries(lines: seq<string>) returns (entries: seq<(string, int)>)
    ensures entries == CsvEntries(lines)
  {
    ghost var rows := Rows(lines);
    entries := [];
    var i := 0;
    while i < |lines|
      invariant 0 <= i <= |lines|
      invariant entries == Somes(rows[..i])
    {
      SomesSnoc(rows, i);
      var l := lines[i];
      if Strip(l) == [] {
        i := i + 1;
        continue;
      }
      var parts := SplitOn(l, ',');
      var path := Strip(parts[0]);
      var issues := 0;
      if |parts| > 1 {
        var parsed := ParseInt(parts[1]);
        if parsed.Some? {
          issues := parsed.value;
        }
      }
      ReadRow(l, path, issues);
      if issues > 0 {
        entries := entries + [(path, issues)];
      }
      i := i + 1;
    }
    assert rows[..i] == rows;
  }

  /** `entries[OFFSET:OFFSET + BATCH_SIZE]` of the CSV text. */
  function Selected(csv: string, offset: int, batch: int): seq<(string, int)>
  {
    var entries := CsvEntries(SplitLines(csv));
    PySlice(entries, offset, offset + batch)
  }

  /** Entries keep file order: the lines of two consecutive stretches give
      the entries of the first, then those of the second. */
  lemma CsvEntriesConcat(a: seq<string>, b: seq<string>)
    ensures CsvEntries(a + b) == CsvEntries(a) + CsvEntries(b)
  {
    MapSeqConcat(a, b, RowEntry);
    SomesConcat(Rows(a), Rows(b));
  }

  /** Every entry comes from a line of its own, with a positive count. */
  lemma EntrySource(lines: seq<string>, k: nat) returns (j: nat)
    requires k < |CsvEntries(lines)|
    ensures j < |lines| && RowEntry(lines[j]) == Some(CsvEntries(lines)[k])
    ensures CsvEntries(lines)[k].1 > 0
  {
    j := SomeSource(Rows(lines), k);
    RowEntrySpec(lines[j]);
  }

  /** Every line with a positive count gives an entry. */
  lemma LineKept(lines: seq<string>, j: nat)
    requires j < |lines| && RowEntry(lines[j]).Some?
    ensures RowEntry(lines[j]).value in CsvEntries(lines)
  {
    SomeKept(Rows(lines), j);
  }

  /** A blank row, or one whose count is missing, not an integer, or not
      positive, contributes nothing. */
  lemma SkippedRows(l: string)
    requires IsBlank(l) || |SplitOn(l, ',')| < 2 || ParseInt(SplitOn(l, ',')[1]).None?
      || ParseInt(SplitOn(l, ',')[1]).value <= 0
    ensures RowEntry(l).None?
  {
    RowEntrySpec(l);
  }

  /** A line with one comma splits into the text before it and after. */
  lemma SplitAtComma(path: string, d: string)
    requires ',' !in path && ',' !in d
    ensures SplitOn(path + [','] + d, ',') == [path, d]
  {
    SplitOnAfterSep(path, d, ',');
    SplitOnFree(path, ',');
  }

  /** A decimal count followed by blanks holds no comma. */
  lemma CountField(n: nat, rest: string)
    requires IsBlank(rest)
    ensures ',' !in Decimal(n) + rest
  {
    var d := Decimal(n);
    assert ',' !in d by {
      forall k | 0 <= k < |d| ensures d[k] != ',' {
        assert IsDigit(d[k]);
      }
    }
    assert ',' !in rest by {
      forall k | 0 <= k < |rest| ensures rest[k] != ',' {
        assert IsSpace(rest[k]);
      }
    }
    assert ',' !in d + rest;
  }

  /** A row `path,count` with a positive decimal count is kept, with the
      stripped path. */
  lemma RowWithCount(path: string, n: nat, rest: string)
    requires ',' !in path && n > 0 && !IsBlank(path) && IsBlank(rest)
    ensures RowEntry(path + "," + Decimal(n) + rest) == Some((Strip(path), n))
  {
    var d := Decimal(n) + rest;
    var l := path + [','] + d;
    ConcatAssoc(path + [','], Decimal(n), rest);
    RowFields(path, n, rest);
    NotBlankPrefix(path, [','] + d);
    ConcatAssoc(path, [','], d);
    RowEntrySpec(l);
  }

  /** The fields of such a row: the path, and a count that reads as `n`. */
  lemma RowFields(path: string, n: nat, rest: string)
    requires ',' !in path && IsBlank(rest)
    ensures var d := Decimal(n) + rest;
      SplitOn(path + [','] + d, ',') == [path, d] && Issues([path, d]) == n
  {
    CountField(n, rest);
    SplitAtComma(path, Decimal(n) + rest);
    CountValue(path, n, rest);
  }

  lemma CountValue(path: string, n: nat, rest: string)
    requires IsBlank(rest)
    ensures Issues([path, Decimal(n) + rest]) == n
  {
    var d := Decimal(n) + rest;
    CountParses(n, rest);
    assert [path, d][1] == d;
  }

  /** A decimal count followed by blanks reads as the count. */
  lemma CountParses(n: nat, rest: string)
    requires IsBlank(rest)
    ensures ParseInt(Decimal(n) + rest) == Some(n)
  {
    var d := Decimal(n);
    assert IsDigit(d[0]) && IsDigit(d[|d| - 1]);
    StripPadded("", d, rest);
    assert "" + d + rest == d + rest;
    ParseDigits(d + rest, d);
    DecimalValue(n);
  }

  lemma NotBlankPrefix(a: string, b: string)
    requires !IsBlank(a)
    ensures !IsBlank(a + b)
  {
    var k :| 0 <= k < |a| && !IsSpace(a[k]);
    assert (a + b)[k] == a[k];
  }

  /** The selection is the window of entries starting at the offset. */
  lemma SelectedWindow(csv: string, offset: nat, batch: nat)
    ensures var es := CsvEntries(SplitLines(csv));
      Selected(csv, offset, batch)
      == if offset >= |es| then [] else es[offset..if offset + batch < |es| then offset + batch else |es|]
  {
  }

  // ---------------------------------------------------------------------
  // One file
  // ---------------------------------------------------------------------

  /** The span a method match covers: the signature. */
  function MethodSpan(m: MethodMatch): string
  {
    m.fullSig
  }

  /** `insert_method_stubs_into_text`: the text after the method pass, and
      whether any `method_repl` call set the flag. */
  function MethodPassText(chunks: seq<Chunk<MethodMatch>>): string
  {
    PassText(chunks, MethodReplacement)
  }

  predicate MethodPassChanged(chunks: seq<Chunk<MethodMatch>>)
  {
    PassChanged(chunks, MethodReplacement)
  }

  /** The regex matches of one file: the class pattern's on the original
      text, and the method pattern's on the text after the class pass. */
  datatype FileMatches = FileMatches(classChunks: seq<Chunk<ClassMatch>>, methodChunks: seq<Chunk<MethodMatch>>)

  /** The matches are cut from the texts the passes run on. */
  predicate MatchesOf(fm: FileMatches, original: string)
  {
    Source(fm.classChunks, ClassSpan) == original
    && Source(fm.methodChunks, MethodSpan) == ClassPassText(fm.classChunks)
  }

  /** `new_text` and `changed_flags['changed']` for one file whose text is
      `original`: the class pass runs on `original`, and with method stubs
      on the method pass runs on the class pass's output. */
  function ProcessFile(fm: FileMatches, original: string, methodStubs: bool): (r: Outcome)
    requires MatchesOf(fm, original)
    ensures !methodStubs ==> r.text == ClassPassText(fm.classChunks)
    ensures methodStubs ==> r.text == MethodPassText(fm.methodChunks)
    ensures r.setsChanged <==> ClassPassChanged(fm.classChunks) || (methodStubs && MethodPassChanged(fm.methodChunks))
  {
    var classText := ClassPassText(fm.classChunks);
    if methodStubs then
      Outcome(MethodPassText(fm.methodChunks), ClassPassChanged(fm.classChunks) || MethodPassChanged(fm.methodChunks))
    else Outcome(classText, ClassPassChanged(fm.classChunks))
  }

  /** A method pass that sets no flag gives its input back. */
  lemma UnflaggedMethodPass(chunks: seq<Chunk<MethodMatch>>)
    requires !MethodPassChanged(chunks)
    ensures MethodPassText(chunks) == Source(chunks, MethodSpan)
  {
    UnflaggedPass(chunks, MethodSpan, MethodReplacement);
  }

  /** The passes are chained: with method stubs on and no method
      replacement setting the flag, the file's new text is the class pass's
      output, whatever the method pattern matched in it. */
  lemma MethodPassOnClassText(fm: FileMatches, original: string)
    requires MatchesOf(fm, original) && !MethodPassChanged(fm.methodChunks)
    ensures ProcessFile(fm, original, true).text == ClassPassText(fm.classChunks)
    ensures ProcessFile(fm, original, true).setsChanged == ClassPassChanged(fm.classChunks)
  {
    UnflaggedMethodPass(fm.methodChunks);
  }

  /** A file in which neither pattern matches comes back as it was, with
      no flag set. */
  lemma NoMatchKeepsFile(fm: FileMatches, original: string, methodStubs: bool)
    requires MatchesOf(fm, original)
    requires forall i | 0 <= i < |fm.classChunks| :: fm.classChunks[i].Plain?
    requires forall i | 0 <= i < |fm.methodChunks| :: fm.methodChunks[i].Plain?
    ensures ProcessFile(fm, original, methodStubs) == Outcome(original, false)
  {
    NoHitPass(fm.classChunks, ClassSpan, ClassReplacement);
    NoHitPass(fm.methodChunks, MethodSpan, MethodReplacement);
  }

  /** The result of lines 223-239 for one file: its new state, and whether
      it goes on the `patched` list. */
  datatype FileOutcome = FileOutcome(file: FileState, patched: bool)

  /** A file is patched only when the flag is set and the text differs; a
      dry run writes nothing; a live run backs the original up if no
      backup exists, then writes the new text. */
  function Decide(f: FileState, out: Outcome, dryRun: bool): (r: FileOutcome)
    ensures r.patched <==> out.setsChanged && out.text != f.content
    ensures !r.patched || dryRun ==> r.file == f
    ensures r.patched && !dryRun ==> r.file.content == out.text
    ensures f.backup.Some? ==> r.file.backup == f.backup
    ensures r.patched && !dryRun ==> r.file.backup == Some(if f.backup.Some? then f.backup.value else f.content)
  {
    if out.setsChanged && out.text != f.content then
      FileOutcome(if dryRun then f else Patch(f, out.text), true)
    else FileOutcome(f, false)
  }

  /** As written, a class pass with no flag set may still drop whitespace
      between a docblock and its class; such a file is not written unless
      the method pass sets the flag. */
  lemma GapOnlyChangeNotWritten(f: FileState, fm: FileMatches, methodStubs: bool, dryRun: bool)
    requires MatchesOf(fm, f.content) && !ClassPassChanged(fm.classChunks)
    requires !methodStubs || !MethodPassChanged(fm.methodChunks)
    ensures Decide(f, ProcessFile(fm, f.content, methodStubs), dryRun) == FileOutcome(f, false)
  {
  }

  // ---------------------------------------------------------------------
  // The loop over the selected files
  // ---------------------------------------------------------------------

  /** The files on disk, by path. */
  type Files = map<string, FileState>

  /** The regex engine over every text a batch can meet: for each text,
      the class pattern's matches on it and the method pattern's matches on
      the class pass's output.  A text no pattern matches is one `Plain`
      stretch. */
  type Matcher = string -> FileMatches

  /** Every text's matches are cut from that text. */
  ghost predicate Cuts(matches: Matcher)
  {
    forall t :: MatchesOf(matches(t), t)
  }

  /** What `process_file` makes of a file's current text. */
  function ProcessText(matches: Matcher, methodStubs: bool, text: string): Outcome
    requires Cuts(matches)
  {
    ProcessFile(matches(text), text, methodStubs)
  }

  /** The state of the files and the `patched` list after the selected
      paths, in order; a path with no file is skipped. */
  function Batch(files: Files, paths: seq<string>, matches: Matcher, methodStubs: bool, dryRun: bool): (r: (Files, seq<string>))
    requires Cuts(matches)
    ensures r.0.Keys == files.Keys
  {
    if paths == [] then (files, [])
    else
      var prev := Batch(files, paths[..|paths| - 1], matches, methodStubs, dryRun);
      var p := paths[|paths| - 1];
      if p !in prev.0 then prev
      else
        var r := Decide(prev.0[p], ProcessText(matches, methodStubs, prev.0[p].content), dryRun);
        (prev.0[p := r.file], prev.1 + (if r.patched then [p] else []))
  }

  /** A batch keeps the set of files, and lists only selected paths that
      have a file. */
  lemma {:induction false} BatchShape(files: Files, paths: seq<string>, matches: Matcher, methodStubs: bool, dryRun: bool)
    requires Cuts(matches)
    ensures forall p | p in Batch(files, paths, matches, methodStubs, dryRun).1 :: p in paths && p in files
    decreases |paths|
  {
    if paths != [] {
      var init := paths[..|paths| - 1];
      BatchShape(files, init, matches, methodStubs, dryRun);
      assert forall p | p in init :: p in paths;
    }
  }

  /** The paths of the selected entries, in order. */
  function Paths(selected: seq<(string, int)>): (r: seq<string>)
    ensures |r| == |selected| && forall k | 0 <= k < |r| :: r[k] == selected[k].0
  {
    seq(|selected|, k requires 0 <= k < |selected| => selected[k].0)
  }

  /** `main` after the arguments are read: the files and the `patched`
      list after one batch. */
  function RunBatch(csv: string, offset: int, batch: int, files: Files, matches: Matcher, methodStubs: bool, dryRun: bool): (r: (Files, seq<string>))
    requires Cuts(matches)
    ensures forall p | p in r.1 :: p in files && exists k | 0 <= k < |Selected(csv, offset, batch)| :: Selected(csv, offset, batch)[k].0 == p
  {
    var sel := Selected(csv, offset, batch);
    var r := Batch(files, Paths(sel), matches, methodStubs, dryRun);
    BatchShape(files, Paths(sel), matches, methodStubs, dryRun);
    r
  }

  /** The loop at lines 180-239. */
  method PatchSelected(files: Files, paths: seq<string>, matches: Matcher, methodStubs: bool, dryRun: bool)
    returns (files': Files, patched: seq<string>)
    requires Cuts(matches)
    ensures (files', patched) == Batch(files, paths, matches, methodStubs, dryRun)
  {
    files' := files;
    patched := [];
    var i := 0;
    while i < |paths|
      invariant 0 <= i <= |paths|
      invariant (files', patched) == Batch(files, paths[..i], matches, methodStubs, dryRun)
    {
      BatchSnoc(files, paths, matches, methodStubs, dryRun, i);
      var p := paths[i];
      if p !in files' {
        i := i + 1;
        continue;
      }
      var r := Decide(files'[p], ProcessText(matches, methodStubs, files'[p].content), dryRun);
      files' := files'[p := r.file];
      if r.patched {
        patched := patched + [p];
      } else {
        assert patched + [] == patched;
      }
      i := i + 1;
    }
    assert paths[..i] == paths;
  }

  /** One more path of the batch. */
  lemma BatchSnoc(files: Files, paths: seq<string>, matches: Matcher, methodStubs: bool, dryRun: bool, i: nat)
    requires Cuts(matches)
    requires i < |paths|
    ensures var prev := Batch(files, paths[..i], matches, methodStubs, dryRun);
      var p := paths[i];
      Batch(files, paths[..i + 1], matches, methodStubs, dryRun)
      == if p !in prev.0 then prev
         else
           var r := Decide(prev.0[p], ProcessText(matches, methodStubs, prev.0[p].content), dryRun);
           (prev.0[p := r.file], prev.1 + (if r.patched then [p] else []))
  {
    assert paths[..i + 1][..i] == paths[..i];
  }

  /** A dry run leaves every file as it was. */
  lemma {:induction false} DryRunWritesNothing(files: Files, paths: seq<string>, matches: Matcher, methodStubs: bool)
    requires Cuts(matches)
    ensures Batch(files, paths, matches, methodStubs, true).0 == files
    decreases |paths|
  {
    if paths != [] {
      DryRunWritesNothing(files, paths[..|paths| - 1], matches, methodStubs);
    }
  }

  /** A file that is not selected is left alone, and a backup that exists is
      never overwritten. */
  lemma {:induction false} BatchKeepsOthers(files: Files, paths: seq<string>, matches: Matcher, methodStubs: bool, dryRun: bool, q: string)
    requires Cuts(matches)
    requires q in files
    ensures q !in paths ==> Batch(files, paths, matches, methodStubs, dryRun).0[q] == files[q]
    ensures files[q].backup.Some? ==> Batch(files, paths, matches, methodStubs, dryRun).0[q].backup == files[q].backup
    decreases |paths|
  {
    if paths != [] {
      BatchKeepsOthers(files, paths[..|paths| - 1], matches, methodStubs, dryRun, q);
    }
  }

  /** After a live run, every file on the patched list exists and has a
      backup. */
  lemma {:induction false} PatchedHaveBackups(files: Files, paths: seq<string>, matches: Matcher, methodStubs: bool, p: string)
    requires Cuts(matches)
    requires p in Batch(files, paths, matches, methodStubs, false).1
    ensures p in Batch(files, paths, matches, methodStubs, false).0
    ensures Batch(files, paths, matches, methodStubs, false).0[p].backup.Some?
    decreases |paths|
  {
    BatchShape(files, paths, matches, methodStubs, false);
    var prev := Batch(files, paths[..|paths| - 1], matches, methodStubs, false);
    var last := paths[|paths| - 1];
    if p in prev.1 {
      PatchedHaveBackups(files, paths[..|paths| - 1], matches, methodStubs, p);
    }
  }
}
