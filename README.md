# Documentation-stub engine for Dart sources, modelled in Dafny

This project models five small Python scripts that a Dart code base uses to
add placeholder documentation and to keep its translation tables in check:

- `scripts/insert_business_rules.py` has two passes. A class pass gives
  every `class Name` a `/// **Business Rules:**` section: a full template
  when no `///` block is above it, or a section spliced in after the
  block's first doc line. An optional method pass adds `/// @param name`
  and `/// Returns:` placeholder lines above method signatures. Candidate
  files come from a CSV of `path,issue_count` rows, read in a
  batch/offset window. A file is written only when something changed, and
  a `.bak` copy of the original is made first, once.
- `scripts/insert_doc_stubs.py` walks the lines of a file. It puts a long
  template above each public class and each allow-listed lifecycle method
  (`build`, `initState`, `dispose`, `onEvent`, `onChange`,
  `onTransition`, `main`) that has no doc comment above it.
- `scripts/patch_doc_batch1.py` puts a short stub in front of a whole
  file unless the file already starts with `///`.
- `scripts/translation_audit.py` gathers the keys of every `tr('key')`
  call. It flattens each nested translation file into dotted keys. It
  reports, per language, the missing keys and the unused keys, sorted and
  cut at 200. It exits with 2, 0 or 3.
- `scripts/convert_arb_to_json.py` drops the `@` metadata keys of an ARB
  file and writes the keys in sorted order. A key the file names twice is
  written with its last value, because `json.load` keeps that one.

## How it is organised

- One module per script: `BusinessRules`, `MethodStubs`, `ClassPass` and
  `ParamNames` for `insert_business_rules.py`, then `DocStubs`,
  `PatchDoc`, `TranslationAudit` and `ArbConvert`.
- Shared modules:
  - `PyText`: the Python string operations the scripts use (`strip`,
    `split`, `splitlines`, `join`, `lower`, `int`, slicing).
  - `DartPatterns`: hand-written matchers for the single-line regular
    expressions.
  - `DocBlocks`: the "first `///` line" search and the list splice.
  - `SectionText`: the Business Rules section and class template of
    `insert_business_rules.py` as text, and the marker test.
  - `Substitution`: `re.sub` with a callable, over a text already cut
    into matches and the stretches between them.
  - `FileEffects`: a file and its `.bak` backup.
  - `JsonValue`: a parsed JSON document and what `json.load` makes of
    it.
  - `StubTemplates`, `StrOrder` and `Wrappers`.
- Where a script works in a loop, there is a `method` with that loop and
  its invariants. Each such method is proved equal to a function, and the
  properties are lemmas about that function.
- The multi-line regular expressions of `insert_business_rules.py` are
  not modelled. Each of their matches is an input record of its capture
  groups: `MethodMatch` and `ClassMatch`.

Where the code and its design description differ, the model follows the
code:

- The Business Rules test (line 202) is two case-sensitive substrings, not
  a case-insensitive search. `ClassPass.LowerCaseMarkerNotSeen` shows that
  a lower-case `business rules` gets a second section.
- The method pass's match covers only the signature (line 78). Its
  replacement writes the new block between the old docblock and the
  signature (lines 142-144), so the old block's lines appear twice.
  `MethodStubs.InjectedBlockRepeatsDocblock` states this.
- The class pass consumes the whitespace between the docblock and
  `class` and never writes it back (lines 190, 200, 213).
  `ClassPass.MarkedKeepsSpanIffNoGap` states this, and
  `BusinessRules.GapOnlyChangeNotWritten` shows that such a file is not
  written unless some flag is set.
- `convert_arb_to_json.py` means to keep the first occurrence of a
  repeated key (lines 22-24). `json.load` has already collapsed repeated
  keys to their last value (line 15), so that branch never fires and the
  last value is written. `ArbConvert.RepeatBranchDead` and
  `ArbConvert.ConvertedLast` state this. `translation_audit.py` flattens
  the collapsed document the same way (`TranslationAudit.RepeatedNameLastWins`).
- Each pass is one `re.sub` over the text the pass started from. Every
  method match therefore looks for its docblock in that text, not in a
  text that earlier replacements already changed.

## Model

| member | source | states |
|---|---|---|
| `ParamNames.Tokenize` | scripts/insert_business_rules.py:36-50 | the character loop returns the stripped pieces between commas read at angle depth 0 (`<` opens, `>` closes, clamped at 0), the final piece only if not blank |
| `ParamNames.SegmentCount` | scripts/insert_business_rules.py:39-48 | there is exactly one more piece than there are commas at depth 0 |
| `ParamNames.JoinSegments` | scripts/insert_business_rules.py:39-48 | joining the pieces with commas gives the parameter text back: the tokenizer loses no character |
| `ParamNames.CommaInsideAngles` | scripts/insert_business_rules.py:39-50 | a comma inside `<…>` does not split: `A<B,C>D,E` (as in `Map<String, int> m, String s`) gives exactly two pieces |
| `ParamNames.ParamNamesOf` | scripts/insert_business_rules.py:34-35 | a whitespace-only parameter text yields no names |
| `ParamNames.NameOf` | scripts/insert_business_rules.py:53-67 | a part containing `(`, `Function`, `=>` or `<` yields no name; any name yielded matches `^[A-Za-z_][A-Za-z0-9_]*$` |
| `ParamNames.LastWord` | scripts/insert_business_rules.py:58-61 | the candidate is a whitespace-free word taken from the text before the first `=` |
| `ParamNames.SafeParamNames` | scripts/insert_business_rules.py:31-68 | the method returns, in part order, the name each part yields (empty for blank input) |
| `ParamNames.NamesAreIdents` | scripts/insert_business_rules.py:52-68 | every returned name is an identifier and is the name of some part that is not complex |
| `ParamNames.PartNameKept` | scripts/insert_business_rules.py:52-68 | every part that yields a name contributes it to the result |
| `ParamNames.NamesOccurInInput` | scripts/insert_business_rules.py:57-67 | every returned name occurs literally in the parameter text |
| `MethodStubs.ReturnType` | scripts/insert_business_rules.py:100-101 | the return type is the stripped return-type group, or empty when that match fails |
| `MethodStubs.InsertIndex` | scripts/insert_business_rules.py:134-139 | the insertion index is at least 1: after the first doc line, or 1 when there is none |
| `MethodStubs.MethodReplacement` | scripts/insert_business_rules.py:80-144 | the flag is set iff the docblock is blank or some line must be injected; the result is the signature alone when the flag is not set, otherwise the new block followed by the unchanged signature |
| `MethodStubs.MethodRepl` | scripts/insert_business_rules.py:80-144 | the replacement routine, with its loops, returns exactly the text and flag of `MethodReplacement` |
| `MethodStubs.BuildBlankLines` | scripts/insert_business_rules.py:105-113 | for a blank docblock the lines are `/// name`, `///`, one `/// @param pn ` per safe name in order, then `/// Returns: ` iff the method is not void |
| `MethodStubs.BuildInjection` | scripts/insert_business_rules.py:117-128 | the loop returns the injected lines, and `need_inject` holds iff there is at least one |
| `MethodStubs.SpliceInjection` | scripts/insert_business_rules.py:133-142 | the injected lines go into the docblock's lines at the insertion index |
| `MethodStubs.MissingNamesMembers` | scripts/insert_business_rules.py:121-124 | a name is reported missing iff it is a parameter whose lower-cased form is not a substring of the lower-cased docblock |
| `MethodStubs.ParamInjected` | scripts/insert_business_rules.py:121-124 | `/// @param pn ` is injected iff `pn.lower()` does not occur in `docblock.lower()` |
| `MethodStubs.MentionsReturnIsReturn` | scripts/insert_business_rules.py:126 | the three tests `returns`, `@return`, `return` together amount to "`return` occurs" |
| `MethodStubs.ReturnsInjected` | scripts/insert_business_rules.py:126-128 | `/// Returns: ` is injected iff the method is not void and `return` does not occur in the lower-cased docblock |
| `MethodStubs.InjectionOrder` | scripts/insert_business_rules.py:117-128 | the injection is the missing parameters' lines in parameter order, then at most a final `Returns:` line |
| `MethodStubs.ParamNamesAreIdents` | scripts/insert_business_rules.py:65-67 | every name used for `@param` lines is an identifier |
| `MethodStubs.BlankBlockLines` | scripts/insert_business_rules.py:105-115 | the block written for a blank docblock reads back line by line as `/// name`, `///`, the `@param` lines, and `Returns:` iff not void |
| `MethodStubs.InjectedAfterFirstDocLine` | scripts/insert_business_rules.py:133-144 | in the new block, the injected lines come right after the first doc line, and the docblock's own lines keep their order around them |
| `MethodStubs.InjectedBlockRepeatsDocblock` | scripts/insert_business_rules.py:141-144 | as written, every line of a non-blank docblock is repeated in the text that replaces the signature, so the old docblock stays above a second copy |
| `MethodStubs.RerunInjectsNothing` | scripts/insert_business_rules.py:117-131 | a docblock containing the block written the first time is not blank, documents every parameter and mentions `return` when non-void, so nothing is injected |
| `MethodStubs.RerunAddsNothing` | scripts/insert_business_rules.py:117-131 | idempotence: a re-run on the same signature, whose docblock holds the block written the first time, gives the signature back unchanged and does not set the flag |
| `DocBlocks.FindFirstDocLine` | scripts/insert_business_rules.py:136-139 | the search loop returns the index of the first line whose stripped form starts with `///`, or nothing |
| `DocBlocks.FirstDocLineEarliest` | scripts/insert_business_rules.py:136-139 | no line before the one found is a doc line; when none is found, no line is a doc line |
| `DocBlocks.SpliceAt` | scripts/insert_business_rules.py:141 | the slice assignment `lines[at:at] = extra` adds exactly the extra lines |
| `DocBlocks.SpliceAfter` | scripts/insert_business_rules.py:141 | after a splice behind line `i`, line `i` keeps its place, the extra lines follow it, and removing them gives the original lines in order |
| `DocBlocks.SplicedReadBack` | scripts/insert_business_rules.py:141-142 | joined with line ends and split again, the spliced lines come back as they were |
| `SectionText.SectionLinesValue` | scripts/insert_business_rules.py:8-11 | `BUSINESS_SECTION.strip('\n').split('\n')` is exactly the heading line and the placeholder line |
| `SectionText.TemplateLines` | scripts/insert_business_rules.py:13-19 | the class template filled with a name reads back as the five lines `/// name`, `///`, heading, placeholder, `///` |
| `ClassPass.TemplateName` | scripts/insert_business_rules.py:196-197 | the name filled in is a non-empty identifier that starts with an upper-case letter |
| `ClassPass.TemplateNameOfDecl` | scripts/insert_business_rules.py:196-197 | for a declaration the class pattern captures, the name filled in is the declared name; the `Class` fallback is never used |
| `ClassPass.ClassReplacement` | scripts/insert_business_rules.py:192-213 | a blank docblock gets the template and a docblock holding `Business Rules` or `Business rules` comes back verbatim; any other docblock gets the section spliced in; the flag is set iff the block is blank or unmarked |
| `ClassPass.ClassRepl` | scripts/insert_business_rules.py:192-213 | the replacement routine returns exactly the text and flag of `ClassReplacement` |
| `ClassPass.InsertSection` | scripts/insert_business_rules.py:204-211 | the section is spliced in after the first doc line, and the lines are joined with a final line end |
| `ClassPass.SpliceSectionAfter` | scripts/insert_business_rules.py:208-211 | the section lines are spliced in after the first doc line when there is one, otherwise the lines are kept as they are, and the result is joined with a final line end |
| `SectionText.SectionAfterFirstDocLine` | scripts/insert_business_rules.py:204-211 | the two section lines come right after the first doc line; the docblock's other lines keep their order |
| `ClassPass.MarkedKeepsSpanIffNoGap` | scripts/insert_business_rules.py:190-203 | a marked docblock sets no flag, yet the match's text comes back unchanged only when no whitespace separated the docblock from `class` |
| `SectionText.SectionBlockMarked` | scripts/insert_business_rules.py:202-211 | a block with the section spliced in passes the Business Rules test |
| `ClassPass.RerunLeavesClassAlone` | scripts/insert_business_rules.py:195-213 | idempotence: a re-run whose docblock contains the block this run wrote returns it verbatim and does not set the flag |
| `ClassPass.LowerCaseMarkerNotSeen` | scripts/insert_business_rules.py:202 | the test is case-sensitive: a docblock with no upper-case `B` still gets a section |
| `Substitution.OutputIdentity` | scripts/insert_business_rules.py:215 | a substitution whose replacement gives every match back unchanged leaves the text unchanged |
| `Substitution.UnflaggedPass` | scripts/insert_business_rules.py:147 | a pass in which no replacement sets the flag, each such call giving its match back, returns its input |
| `BusinessRules.RowEntrySpec` | scripts/insert_business_rules.py:164-174 | a CSV line gives an entry iff it is not blank and its count is positive; the entry is the stripped first field with that count |
| `BusinessRules.ReadEntries` | scripts/insert_business_rules.py:162-174 | the loop over the CSV lines builds exactly the entries of those lines, in file order |
| `BusinessRules.SkippedRows` | scripts/insert_business_rules.py:165-173 | a blank row, or one whose count is missing, not an integer or not positive, contributes nothing |
| `BusinessRules.RowWithCount` | scripts/insert_business_rules.py:167-174 | a row `path,n` with a positive decimal `n` gives the entry (stripped path, n) |
| `BusinessRules.CsvEntriesConcat` | scripts/insert_business_rules.py:163-174 | entries keep file order: two stretches of lines give the first stretch's entries, then the second's |
| `BusinessRules.EntrySource` | scripts/insert_business_rules.py:163-174 | every entry comes from a line of its own and has a positive count |
| `BusinessRules.LineKept` | scripts/insert_business_rules.py:163-174 | every line with a positive count gives an entry |
| `BusinessRules.SelectedWindow` | scripts/insert_business_rules.py:176 | the selection is the window `entries[offset:offset+batch]`, empty past the end |
| `BusinessRules.ProcessFile` | scripts/insert_business_rules.py:189-221 | for matches cut from the file's text (class matches from the original, method matches from the class pass's output), the new text is the class pass's text, or the method pass's when method stubs are on; the flag is set iff some class replacement set it, or, with method stubs on, some method replacement did |
| `BusinessRules.MethodPassOnClassText` | scripts/insert_business_rules.py:215-219 | the passes are chained: with method stubs on and no method flag, the file's new text is the class pass's output and the flag is the class pass's |
| `BusinessRules.NoMatchKeepsFile` | scripts/insert_business_rules.py:186-219 | a file in which neither pattern matches comes back unchanged, with no flag set |
| `BusinessRules.UnflaggedMethodPass` | scripts/insert_business_rules.py:130-131 | a method pass in which no call sets the flag gives its input text back |
| `BusinessRules.Decide` | scripts/insert_business_rules.py:223-239 | a file is patched iff the flag is set and the new text differs from the original; a dry run changes nothing; a live run writes the new text, and the backup holds the original unless a backup already existed |
| `BusinessRules.GapOnlyChangeNotWritten` | scripts/insert_business_rules.py:190-223 | when no flag is set the file is not written, even if the class pass dropped whitespace |
| `BusinessRules.Batch` | scripts/insert_business_rules.py:179-239 | processing the selected paths in turn, each file's current text through `ProcessFile` with the matches cut from it, keeps the set of files |
| `BusinessRules.BatchShape` | scripts/insert_business_rules.py:179-239 | only selected paths that exist go on the patched list |
| `BusinessRules.RunBatch` | scripts/insert_business_rules.py:176-239 | every patched path exists and is the path of a selected entry |
| `BusinessRules.PatchSelected` | scripts/insert_business_rules.py:179-239 | the loop over the selected files, skipping missing ones, ends in the state and patched list of `Batch` |
| `BusinessRules.DryRunWritesNothing` | scripts/insert_business_rules.py:225-233 | a dry run leaves every file and every backup as it was |
| `BusinessRules.BatchKeepsOthers` | scripts/insert_business_rules.py:234-238 | a file not selected is untouched, and an existing backup is never overwritten |
| `BusinessRules.PatchedHaveBackups` | scripts/insert_business_rules.py:234-239 | after a live run every patched file has a backup |
| `FileEffects.BackupOnce` | scripts/insert_business_rules.py:235-237 | the backup is written with the file's current text only when none exists; an existing one is kept |
| `FileEffects.WriteText` | scripts/insert_business_rules.py:238 | writing replaces the text and leaves the backup alone |
| `FileEffects.BackupHoldsFirstOriginal` | scripts/insert_business_rules.py:234-238 | after any number of patches the backup holds the text from before the first patch, and the file holds the last text written |
| `DocStubs.PrevNonBlank` | scripts/insert_doc_stubs.py:58-63 | the line found is above `index` and not blank |
| `DocStubs.PrevNonBlankNearest` | scripts/insert_doc_stubs.py:58-63 | only blank lines lie between the line found and `index`; when none is found, every line above is blank |
| `DocStubs.HasDocAboveScan` | scripts/insert_doc_stubs.py:58-65 | the backward loop returns false when it runs off the start, otherwise whether the nearest non-blank line, stripped, starts with `///` or `/**` |
| `DocStubs.HasDocAbovePrefix` | scripts/insert_doc_stubs.py:58-65 | the answer depends only on the lines above `index` |
| `DocStubs.DocAboveAfterComment` | scripts/insert_doc_stubs.py:65 | a line right below a `///` line has a doc above |
| `DartPatterns.ClassDeclName` | scripts/insert_doc_stubs.py:84 | the class pattern captures an identifier starting with an upper-case letter |
| `DartPatterns.WidgetName` | scripts/insert_doc_stubs.py:92 | the widget pattern captures an identifier starting with an upper-case letter |
| `DartPatterns.WidgetIsClass` | scripts/insert_doc_stubs.py:84-97 | a line the widget pattern accepts is accepted by the class pattern with the same name, so the widget branch is never reached with a match |
| `DartPatterns.MethodName` | scripts/insert_doc_stubs.py:100 | the method pattern captures an identifier |
| `DartPatterns.SlashLineMatchesNothing` | scripts/insert_doc_stubs.py:84-100 | a line starting with `/` matches none of the three patterns |
| `DartPatterns.SearchClassName` | scripts/patch_doc_batch1.py:20 | a search result is an identifier starting with an upper-case letter |
| `DartPatterns.SearchFindsEarliest` | scripts/patch_doc_batch1.py:20 | the search returns the name at the leftmost offset where `class\s+[A-Z]` matches |
| `DartPatterns.SearchFindsNothing` | scripts/patch_doc_batch1.py:20 | the search finds nothing when no offset matches |
| `StubTemplates.ClassTemplateShape` | scripts/insert_doc_stubs.py:13-37 | the class template formats to 23 lines, the first being `/// name` |
| `StubTemplates.MethodTemplateShape` | scripts/insert_doc_stubs.py:39-49 | the method template formats to 9 lines, the first being `/// name` |
| `StubTemplates.DocTemplatesAreComments` | scripts/insert_doc_stubs.py:13-49 | every line of both templates starts with `///` and holds no line boundary |
| `DocStubs.StubEntryIsStrippedTemplate` | scripts/insert_doc_stubs.py:88 | the formatted template with its final line end stripped is its lines joined by line ends |
| `DocStubs.StubsAt` | scripts/insert_doc_stubs.py:83-107 | at most two entries go above a line, and all of them are stubs |
| `DocStubs.ClassStubFor` | scripts/insert_doc_stubs.py:84-97 | the class and widget branches append exactly the class stub the decision function gives |
| `DocStubs.MethodStubFor` | scripts/insert_doc_stubs.py:100-107 | the method branch appends exactly the method stub the decision function gives |
| `DocStubs.StubsFor` | scripts/insert_doc_stubs.py:83-107 | one iteration appends the line's class stub first, then its method stub |
| `DocStubs.WalkStep` | scripts/insert_doc_stubs.py:80-110 | one iteration appends the line's stubs and then the line, and sets `changed` if there were stubs |
| `DocStubs.WalkLines` | scripts/insert_doc_stubs.py:77-110 | the loop produces `out_lines` as the interleaving of stubs and original lines; `changed` holds iff some line got a stub |
| `DocStubs.ProcessFile` | scripts/insert_doc_stubs.py:68-114 | the backup is made first if absent; the file is rewritten, as `out_lines` joined with a final line end, iff some stub was added, and otherwise is unchanged |
| `DocStubs.WalkKeepsLines` | scripts/insert_doc_stubs.py:79-110 | removing the stubs from `out_lines` gives exactly the original lines in order: nothing is deleted, changed or moved |
| `DocStubs.ClassStubIff` | scripts/insert_doc_stubs.py:84-97 | a class stub goes above line `i` iff the class pattern accepts the stripped line and no doc is above |
| `DocStubs.MethodStubIff` | scripts/insert_doc_stubs.py:100-107 | a method stub goes above line `i` iff the method pattern names one of the seven allow-listed methods and no doc is above |
| `DocStubs.StubsAtIff` | scripts/insert_doc_stubs.py:84-107 | a line gets no stub iff it matches no pattern or has a doc above |
| `DocStubs.DecisionsUseOriginalLines` | scripts/insert_doc_stubs.py:84-107 | the decisions for line `i` depend on the original lines up to `i` only, never on what was appended |
| `DocStubs.ChangedIffLonger` | scripts/insert_doc_stubs.py:71-110 | `changed` holds iff `out_lines` is longer than `lines` |
| `DocStubs.CommentNotWanted` | scripts/insert_doc_stubs.py:84-107 | a `///` line never gets a stub of its own |
| `DocStubs.WrittenIsSettled` | scripts/insert_doc_stubs.py:109-113 | the written file reads back as the stubs' and lines' lines, and every line in it that wants a stub has a doc above |
| `DocStubs.RerunAddsNothing` | scripts/insert_doc_stubs.py:68-114 | for any templates made of `///` lines, running the walk again over its own output adds nothing and changes nothing, backup included |
| `DocStubs.ScriptRerunAddsNothing` | scripts/insert_doc_stubs.py:13-114 | idempotence with the script's own two templates |
| `PatchDoc.Stem` | scripts/patch_doc_batch1.py:21 | the stem is a prefix of the file name and holds no `/` |
| `PatchDoc.StemDropsSuffix` | scripts/patch_doc_batch1.py:21 | the stem is the name itself or the name with exactly its last `.suffix` removed |
| `PatchDoc.StubName` | scripts/patch_doc_batch1.py:20-21 | the stub name is the first `class [A-Z]…` identifier in the text, else the file stem |
| `PatchDoc.StubShape` | scripts/patch_doc_batch1.py:22 | the stub opens with `/// name` and ends with an empty line |
| `PatchDoc.PatchText` | scripts/patch_doc_batch1.py:17-23 | text whose stripped form starts with `///` is unchanged; any other text becomes `stub + text` |
| `PatchDoc.OriginalIsSuffix` | scripts/patch_doc_batch1.py:22-23 | the original text is an exact suffix of the result, preceded by nothing or by the stub |
| `PatchDoc.PatchedIsDocumented` | scripts/patch_doc_batch1.py:17-23 | the result always counts as documented |
| `PatchDoc.PatchIdempotent` | scripts/patch_doc_batch1.py:17-23 | patching twice is patching once |
| `PatchDoc.PatchFile` | scripts/patch_doc_batch1.py:11-28 | a missing file is skipped and a documented one left alone; otherwise the new text is written and the backup made only if absent |
| `PatchDoc.PatchFileTwice` | scripts/patch_doc_batch1.py:11-28 | a second run reports the file as documented and changes nothing, backup included |
| `TranslationAudit.TrKeyAt` | scripts/translation_audit.py:11 | a match ends after `)` and yields a non-empty key free of quotes |
| `TranslationAudit.KeyAt` | scripts/translation_audit.py:11 | `tr(`, optional whitespace, a quote, a quote-free key, a quote, optional whitespace and `)` is a match yielding that key |
| `TranslationAudit.KeyOfCall` | scripts/translation_audit.py:11 | a text that is one such call yields exactly its key |
| `TranslationAudit.KeysFrom` | scripts/translation_audit.py:11-22 | every key found is non-empty and quote-free |
| `TranslationAudit.ScanText` | scripts/translation_audit.py:21-22 | the loop over the matches adds exactly the keys found in the text |
| `TranslationAudit.ScanFiles` | scripts/translation_audit.py:15-22 | every file counts as scanned; an unreadable file adds no keys |
| `TranslationAudit.Flatten` | scripts/translation_audit.py:35-46 | a value that is not an object flattens to no keys |
| `TranslationAudit.FlattenedKeyIsLeaf` | scripts/translation_audit.py:35-46 | every flattened key is the dotted path of keys down to a leaf |
| `TranslationAudit.LeafIsFlattenedKey` | scripts/translation_audit.py:35-46 | every path to a leaf gives a flattened key |
| `TranslationAudit.FlattenKeysIff` | scripts/translation_audit.py:35-46 | the flattened keys are exactly the dotted leaf paths, so an empty nested object contributes none |
| `TranslationAudit.LanguagesOfIff` | scripts/translation_audit.py:27-48 | a language is loaded iff one of its files parsed |
| `TranslationAudit.LanguageKeys` | scripts/translation_audit.py:27-48 | a language's keys are the flattened keys of the loaded document of its last file that parsed |
| `TranslationAudit.RepeatedNameLastWins` | scripts/translation_audit.py:30-46 | for `{"a": {"x": "1"}, "a": "2"}` only the key `a` is loaded: the decoder keeps the later member, so the nested key `a.x` never appears |
| `TranslationAudit.LoadLanguages` | scripts/translation_audit.py:26-49 | the loop over the translation files builds exactly that map, skipping files that fail to parse |
| `TranslationAudit.MissingKeys` | scripts/translation_audit.py:56-59 | per language, the missing list is `sorted(keys_found − lang_keys)` |
| `TranslationAudit.UnusedKeys` | scripts/translation_audit.py:67-68 | per language, the unused list is `sorted(lang_keys − keys_found)` |
| `TranslationAudit.ListingAccountsForAll` | scripts/translation_audit.py:61-64 | the listing shows the first keys, at most 200; past 200 it adds `... and N more`, where N reads as the number of keys not shown |
| `TranslationAudit.ExitCode` | scripts/translation_audit.py:51-83 | the exit code is 0, 2 or 3 |
| `TranslationAudit.ExitCodeIff` | scripts/translation_audit.py:51-83 | the code is 2 iff no language loaded, 0 iff some did and none lacks a found key, 3 iff some language lacks one |
| `TranslationAudit.AnyMissingIff` | scripts/translation_audit.py:76-83 | `any_missing` holds iff the exit code is 3 |
| `TranslationAudit.Audit` | scripts/translation_audit.py:15-83 | the whole audit: keys, languages, both sorted listings per language and the exit code |
| `StrOrder.SortedListing` | scripts/translation_audit.py:58 | `sorted` of a set of strings is strictly ascending and holds exactly its elements |
| `StrOrder.SortedUnique` | scripts/translation_audit.py:58 | two strictly sorted lists with the same elements are equal, so the sorted listing is determined |
| `ArbConvert.LocaleIsMetadata` | scripts/convert_arb_to_json.py:18-21 | `@@locale` is already skipped by the `@` test |
| `ArbConvert.Loaded` | scripts/convert_arb_to_json.py:15 | `json.load` gives a dict: no key occurs twice |
| `ArbConvert.Collect` | scripts/convert_arb_to_json.py:16-25 | the loop builds exactly the filtered map: metadata skipped, and of items sharing a key the first kept |
| `ArbConvert.RepeatBranchDead` | scripts/convert_arb_to_json.py:15-24 | over the dict `json.load` returns, the `k in out` test never holds, so the keep-the-first branch is dead |
| `ArbConvert.ConvertedLast` | scripts/convert_arb_to_json.py:15-25 | a message is written with the value of its last occurrence in the ARB file |
| `ArbConvert.LoadedKeys` | scripts/convert_arb_to_json.py:15-25 | the keys written are exactly the keys of the ARB file that are not metadata |
| `ArbConvert.ConvertedKeys` | scripts/convert_arb_to_json.py:17-25 | a key is kept iff it occurs in the input and does not start with `@` |
| `ArbConvert.WrittenHasNoMetadata` | scripts/convert_arb_to_json.py:18-21 | no kept key starts with `@`, and none is `@@locale` |
| `ArbConvert.ConvertedSize` | scripts/convert_arb_to_json.py:16-25 | no more keys come out than members went in |
| `ArbConvert.DistinctKeysKeepsAll` | scripts/convert_arb_to_json.py:17-25 | over a dict, every message is kept with its own value |
| `ArbConvert.DistinctKeysCount` | scripts/convert_arb_to_json.py:16-31 | over a dict, the number of keys written is the number of non-`@` members |
| `ArbConvert.SortByKey` | scripts/convert_arb_to_json.py:27 | the output pairs are in strictly ascending key order, hold exactly the map's keys, and carry the map's values |
| `ArbConvert.ConvertFile` | scripts/convert_arb_to_json.py:11-31 | a missing ARB file writes nothing; otherwise the loaded file's messages in sorted key order, one per non-`@` key and no more than the file's members |
| `JsonValue.DictGet` | scripts/convert_arb_to_json.py:15 | the dict built from an object's members maps each key to the value of its last occurrence |
| `JsonValue.DictKeys` | scripts/convert_arb_to_json.py:15 | the dict has exactly the keys the members name |
| `JsonValue.DictDistinct` | scripts/convert_arb_to_json.py:15 | the dict names each key once |
| `PyText.SplitLinesRender` | scripts/insert_doc_stubs.py:113 | text written as lines joined with a final line end reads back, with `splitlines`, as the same lines |
| `PyText.ParseIntDecimal` | scripts/insert_business_rules.py:170 | `int` reads a decimal count, with surrounding whitespace, as its value |

## Left out

- Regular-expression engine: the method-signature pattern (line 78), the
  docblock capture (line 94), the return-type match (line 100) and the
  class pattern (line 190) of `insert_business_rules.py` are not
  modelled. A match is an input record of its capture groups. Because of
  this, the 800-character lookback window and the way overlapping
  matches are found are not captured. The idempotence of
  `insert_business_rules.py` (`MethodStubs.RerunAddsNothing`,
  `ClassPass.RerunLeavesClassAlone`) is proved only under the assumption
  that, on the re-run, the docblock the pattern captures contains the
  block the first run wrote. Whether the real pattern and its lookback
  window capture it is not proved.
- `last_double_newline` (`insert_business_rules.py:89`) and the `nsub`
  count of `subn` (line 147) are computed but never used.
- Characters: the line patterns are modelled with ASCII `\w` and `\b`,
  and `lower()` with ASCII letters only. A Dart identifier containing a
  non-ASCII letter can match differently in Python. `int()` is modelled
  for ASCII decimal digits with optional sign and underscores; other
  digit forms that Python accepts read as not an integer.
- File system: reading and writing files, `Path.exists`, `rglob`, `glob`,
  `mkdir`, and the `.bak` suffix naming. A file is its text plus an
  optional backup text, and a missing file is an absent entry.
- I/O failures and the `try/except` around `process_file`
  (`insert_doc_stubs.py:130-136`): an exception while processing one file
  is not modelled.
- File selection other than the CSV: `gather_files` and its exclusion of
  `l10n` and `firebase_options.dart`; the fixed path list of
  `patch_doc_batch1.py`; the fixed `['en', 'ar']` list of
  `convert_arb_to_json.py`. One file or one language at a time is
  modelled.
- Command-line parsing (`argparse`, `sys.argv`), and the missing-CSV exit
  at `insert_business_rules.py:152-154`.
- Printed output: the `difflib` unified diff and its 200-line truncation,
  the summary counters (`updated`, `files_scanned`, `patched` printout),
  and all other messages. The audit's 200-key listing is modelled; its
  printing is not.
- JSON decoding and encoding: a parsed document is the `Value` datatype
  (objects as ordered key/value members, everything else an opaque
  leaf). `JsonValue.Load` turns each object into a dict the way
  `json.load` does. The output of `json.dump` is the ordered list of pairs it
  writes.
- The payments backend (`backend/payments-node/index.js`) is not part of
  this model. It is an HTTP server around a remote payment API.
