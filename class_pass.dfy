/** The class pass of insert_business_rules.py: the `repl` callable of
    `scripts/insert_business_rules.py:192-213`, applied to every match of
    the pattern at line 190 (a run of `///` lines, the whitespace after it,
    then `class Name`). */
module ClassPass {
  import opened Wrappers
  import opened PyText
  import opened DartPatterns
  import opened DocBlocks
  import opened Substitution
  import opened SectionText

  /** One match of the class pattern: group 1 (the `///` lines), the
      whitespace the `\s*` between them and the declaration consumes, and
      group 2 (`class` and the name). */
  datatype ClassMatch = ClassMatch(docblock: string, gap: string, classDecl: string)

  /** The text the match covers. */
  function ClassSpan(c: ClassMatch): string
  {
    c.docblock + c.gap + c.classDecl
  }

  /** The name filled into the template: the first `class Name` in the
      declaration, or `Class`. */
  function TemplateName(classDecl: string): (name: string)
    ensures |name| > 0 && IsAsciiUpper(name[0]) && IdentChars(name)
  {
    SearchClassName(classDecl).GetOr("Class")
  }

  /** What `repl` returns, and whether it sets `changed_flags['changed']`.
      The whitespace between the docblock and the declaration is never
      written back. */
  function ClassReplacement(c: ClassMatch): (r: Outcome)
    ensures r.setsChanged <==> IsBlank(c.docblock) || !HasBusinessRules(c.docblock)
    ensures !r.setsChanged ==> r.text == c.docblock + c.classDecl
    ensures IsBlank(c.docblock) ==> r.text == ClassTemplate(TemplateName(c.classDecl)) + c.classDecl
    ensures !IsBlank(c.docblock) && r.setsChanged ==> r.text == SectionBlock(c.docblock) + c.classDecl
  {
    if Strip(c.docblock) == [] then
      var name := match SearchClassName(c.classDecl) case Some(n) => n case None => "Class";
      Outcome(ClassTemplate(name) + c.classDecl, true)
    else if Contains(c.docblock, "Business Rules") || Contains(c.docblock, "Business rules") then
      Outcome(c.docblock + c.classDecl, false)
    else
      Outcome(SectionBlock(c.docblock) + c.classDecl, true)
  }

  /** `repl` as the script runs it. */
  method ClassRepl(c: ClassMatch) returns (text: string, setsChanged: bool)
    ensures Outcome(text, setsChanged) == ClassReplacement(c)
  {
    if Strip(c.docblock) == [] {
      var m := SearchClassName(c.classDecl);
      var name := if m.Some? then m.value else "Class";
      return ClassTemplate(name) + c.classDecl, true;
    }
    if Contains(c.docblock, "Business Rules") || Contains(c.docblock, "Business rules") {
      return c.docblock + c.classDecl, false;
    }
    var block := InsertSection(c.docblock);
    return block + c.classDecl, true;
  }

  /** The lines of the docblock with the section spliced in after the first
      doc line, joined again. */
  method InsertSection(docblock: string) returns (block: string)
    ensures block == SectionBlock(docblock)
  {
    var lines := SplitLines(docblock);
    var first := FindFirstDocLine(lines);
    block := SpliceSectionAfter(lines, first);
  }

  /** Lines 208-211: `lines[insert_at:insert_at] = section_lines` when a doc
      line was found, then the join. */
  method SpliceSectionAfter(lines: seq<string>, first: Option<nat>) returns (block: string)
    ensures block == SpliceSection(lines, first)
  {
    if first.Some? {
      var insertAt := first.value + 1;
      var sectionLines := SectionLines();
      SectionLinesValue();
      block := Render(SpliceAt(lines, insertAt, sectionLines));
    } else {
      block := Render(lines);
    }
  }

  /** `pattern.sub(repl, text)` over the class pass, and its flag. */
  function ClassPassText(chunks: seq<Chunk<ClassMatch>>): string
  {
    PassText(chunks, ClassReplacement)
  }

  predicate ClassPassChanged(chunks: seq<Chunk<ClassMatch>>)
  {
    PassChanged(chunks, ClassReplacement)
  }

  // ---------------------------------------------------------------------
  // Properties
  // ---------------------------------------------------------------------

  /** A docblock with the marker comes back verbatim, but the match loses
      the whitespace before `class`: the span is kept exactly when there is
      none. */
  lemma MarkedKeepsSpanIffNoGap(c: ClassMatch)
    requires !IsBlank(c.docblock) && HasBusinessRules(c.docblock)
    ensures !ClassReplacement(c).setsChanged
    ensures ClassReplacement(c).text == ClassSpan(c) <==> c.gap == []
  {
    if ClassReplacement(c).text == ClassSpan(c) {
      assert |c.docblock + c.classDecl| == |c.docblock + c.gap + c.classDecl|;
    }
  }

  /** A declaration as the pattern captures it (`class`, whitespace, an
      upper-case letter, then name characters). */
  predicate DeclShape(classDecl: string)
  {
    LiteralAt(classDecl, 0, "class")
    && Run(classDecl, 5, Spaces) > 5
    && Run(classDecl, 5, Spaces) < |classDecl|
    && IsAsciiUpper(classDecl[Run(classDecl, 5, Spaces)])
  }

  /** For a declaration the pattern captures, the template is filled with
      the declared name; the `Class` fallback is never used. */
  lemma TemplateNameOfDecl(classDecl: string)
    requires DeclShape(classDecl)
    ensures var q := Run(classDecl, 5, Spaces);
      TemplateName(classDecl) == classDecl[q..Run(classDecl, q + 1, Word)]
  {
    assert ClassKeywordName(classDecl, 0).Some?;
    SearchFindsEarliest(classDecl, 0, 0);
  }

  /** Idempotence of the class pass: when a re-run finds, above the same
      declaration, a docblock containing the block this run wrote, it leaves
      the block alone and does not set the flag.  (A non-blank docblock the
      pattern captures always holds a line starting with `///`.) */
  lemma RerunLeavesClassAlone(c: ClassMatch, doc2: string, gap2: string)
    requires ClassReplacement(c).setsChanged
    requires IsBlank(c.docblock) || FirstDocLine(SplitLines(c.docblock)).Some?
    requires var r := ClassReplacement(c).text;
      Contains(doc2, r[..|r| - |c.classDecl|])
    ensures var c2 := ClassMatch(doc2, gap2, c.classDecl);
      ClassReplacement(c2) == Outcome(doc2 + c.classDecl, false)
  {
    var r := ClassReplacement(c).text;
    var block := r[..|r| - |c.classDecl|];
    if IsBlank(c.docblock) {
      assert block == ClassTemplate(TemplateName(c.classDecl));
      TemplateMarked(TemplateName(c.classDecl));
    } else {
      assert block == SectionBlock(c.docblock);
      SectionBlockMarked(c.docblock);
    }
    MarkedTrans(doc2, block);
    MarkedNotBlank(doc2);
  }

  /** The marker test is case-sensitive: a docblock with no upper-case `B`
      (`business rules`, say) gets a second section. */
  lemma LowerCaseMarkerNotSeen(c: ClassMatch)
    requires !IsBlank(c.docblock)
    requires forall k | 0 <= k < |c.docblock| :: c.docblock[k] != 'B'
    ensures ClassReplacement(c).setsChanged
  {
    MissingFirstChar(c.docblock, "Business Rules");
    MissingFirstChar(c.docblock, "Business rules");
  }
}
