/** The text the class pass of insert_business_rules.py writes:
    `BUSINESS_SECTION` and `DOC_TEMPLATE_CLASS`
    (`scripts/insert_business_rules.py:8-19`), the marker test of line 202,
    and the block an existing docblock becomes once the section is spliced
    in after its first doc line (lines 204-211). */
module SectionText {
  import opened Wrappers
  import opened PyText
  import opened DocBlocks

  const Heading: string := "/// **Business Rules:**"
  const Placeholder: string :=
    "/// - Add the" + " main business" + " rules or" + " invariants" + " enforced by" + " this class."

  /** Neither line of the section holds a line boundary. */
  lemma SectionNoBreaks()
    ensures NoBreaks(Heading) && NoBreaks(Placeholder)
  {
    HeadingNoBreaks();
    PlaceholderNoBreaks();
  }

  lemma HeadingNoBreaks()
    ensures NoBreaks(Heading)
  {
    NoBreaksConcat("/// **Business", " Rules:**");
    assert Heading == "/// **Business" + " Rules:**";
  }

  lemma PlaceholderNoBreaks()
    ensures NoBreaks(Placeholder)
  {
    var a := "/// - Add the" + " main business";
    NoBreaksConcat("/// - Add the", " main business");
    var b := a + " rules or";
    NoBreaksConcat(a, " rules or");
    var c := b + " invariants";
    NoBreaksConcat(b, " invariants");
    var d := c + " enforced by";
    NoBreaksConcat(c, " enforced by");
    NoBreaksConcat(d, " this class.");
  }

  /** `BUSINESS_SECTION`. */
  const BusinessSection: string := Heading + "\n" + Placeholder + "\n"

  /** `DOC_TEMPLATE_CLASS.format(name=name)`. */
  function ClassTemplate(name: string): string
  {
    "/// " + name + "\n///\n" + BusinessSection + "///\n"
  }

  /** `BUSINESS_SECTION.strip('\n').split('\n')`. */
  function SectionLines(): seq<string>
  {
    SplitOn(RStripChars(LStripChars(BusinessSection, {'\n'}), {'\n'}), '\n')
  }

  /** The section splits into its heading and its placeholder line. */
  lemma SectionLinesValue()
    ensures SectionLines() == [Heading, Placeholder]
  {
    var s := BusinessSection;
    assert s[0] == '/';
    assert LStripChars(s, {'\n'}) == s;
    var t := Heading + "\n" + Placeholder;
    assert s[..|s| - 1] == t;
    assert t[|t| - 1] == '.';
    assert RStripChars(s, {'\n'}) == t;
    SectionNoBreaks();
    SplitOnFree(Heading, '\n');
    SplitOnAfterSep(Heading, Placeholder, '\n');
  }

  /** The case-sensitive test at line 202. */
  predicate HasBusinessRules(docblock: string)
  {
    Contains(docblock, "Business Rules") || Contains(docblock, "Business rules")
  }

  /** The replacement for a non-blank docblock without the marker; the lines
      spliced in are `SectionLines()`, whose value `SectionLinesValue` gives. */
  function SectionBlock(docblock: string): string
  {
    var lines := SplitLines(docblock);
    SpliceSection(lines, FirstDocLine(lines))
  }

  /** The lines with the section spliced in after line `first`, joined with
      line ends; unchanged lines when there is no doc line. */
  function SpliceSection(lines: seq<string>, first: Option<nat>): string
  {
    match first
    case Some(i) => Render(SpliceAt(lines, i + 1, [Heading, Placeholder]))
    case None => Render(lines)
  }

  /** The template's lines. */
  lemma TemplateLines(name: string)
    requires IdentChars(name)
    ensures SplitLines(ClassTemplate(name)) == ["/// " + name, "///", Heading, Placeholder, "///"]
  {
    TemplateRendered(name);
    TemplateLinesNoBreaks(name);
    SplitLinesRender(["/// " + name, "///", Heading, Placeholder, "///"]);
  }

  lemma TemplateRendered(name: string)
    ensures ClassTemplate(name) == Render(["/// " + name, "///", Heading, Placeholder, "///"])
  {
    JoinFive("/// " + name, "///", Heading, Placeholder, "///", "\n");
  }

  lemma TemplateLinesNoBreaks(name: string)
    requires IdentChars(name)
    ensures var lines := ["/// " + name, "///", Heading, Placeholder, "///"];
      forall k | 0 <= k < |lines| :: NoBreaks(lines[k])
  {
    IdentCharsNoBreaks(name);
    SectionNoBreaks();
    NoBreaksConcat("/// ", name);
  }

  /** The section goes in right after the first doc line, and the docblock's
      own lines keep their order around it. */
  lemma SectionAfterFirstDocLine(docblock: string, i: nat)
    requires FirstDocLine(SplitLines(docblock)) == Some(i)
    ensures SplitLines(SectionBlock(docblock)) == SpliceAt(SplitLines(docblock), i + 1, [Heading, Placeholder])
    ensures var lines := SplitLines(docblock);
      var out := SpliceAt(lines, i + 1, [Heading, Placeholder]);
      out[i] == lines[i]
      && out[i + 1..i + 3] == [Heading, Placeholder]
      && out[..i + 1] + out[i + 3..] == lines
  {
    SectionLinesValue();
    SectionNoBreaks();
    FirstDocLineInRange(SplitLines(docblock), i);
    SplicedLinesReadBack(SplitLines(docblock), [Heading, Placeholder], i);
  }

  lemma FirstDocLineInRange(lines: seq<string>, i: nat)
    requires FirstDocLine(lines) == Some(i)
    ensures i < |lines|
  {
  }

  /** `SplicedReadBack` for the lines of a text. */
  lemma SplicedLinesReadBack(lines: seq<string>, sec: seq<string>, i: nat)
    requires i < |lines| && |sec| == 2 && NoBreaks(sec[0]) && NoBreaks(sec[1])
    requires forall k | 0 <= k < |lines| :: NoBreaks(lines[k])
    ensures SplitLines(Render(SpliceAt(lines, i + 1, sec))) == SpliceAt(lines, i + 1, sec)
    ensures var out := SpliceAt(lines, i + 1, sec);
      out[i] == lines[i] && out[i + 1..i + 3] == sec && out[..i + 1] + out[i + 3..] == lines
  {
    SplicedReadBack(lines, sec, i);
  }

  /** What the marker test finds in the block written for an unmarked
      docblock. */
  lemma SectionBlockMarked(docblock: string)
    requires FirstDocLine(SplitLines(docblock)).Some?
    ensures HasBusinessRules(SectionBlock(docblock))
  {
    var lines := SplitLines(docblock);
    SplicedMarked(lines, FirstDocLine(lines));
  }

  lemma SplicedMarked(lines: seq<string>, first: Option<nat>)
    requires first.Some? && first.value < |lines|
    ensures HasBusinessRules(SpliceSection(lines, first))
  {
    SplicedHasHeading(lines, first.value);
    HeadingMarked();
    ContainsTrans(SpliceSection(lines, first), Heading, "Business Rules");
  }

  /** The section heading is one of the lines written after line `i`. */
  lemma SplicedHasHeading(lines: seq<string>, i: nat)
    requires i < |lines|
    ensures Contains(Render(SpliceAt(lines, i + 1, [Heading, Placeholder])), Heading)
  {
    var out := SpliceAt(lines, i + 1, [Heading, Placeholder]);
    SpliceAfter(lines, i, [Heading, Placeholder]);
    assert out[i + 1] == Heading;
    RenderContainsLine(out, i + 1);
  }

  lemma HeadingMarked()
    ensures Contains(Heading, "Business Rules")
  {
    assert Heading[6..20] == "Business Rules";
    assert IsAt(Heading, "Business Rules", 6);
  }

  lemma TemplateMarked(name: string)
    ensures HasBusinessRules(ClassTemplate(name))
  {
    var t := ClassTemplate(name);
    var k := |"/// " + name + "\n///\n"|;
    assert t[k..k + |Heading|] == Heading;
    assert IsAt(t, Heading, k);
    HeadingMarked();
    ContainsTrans(t, Heading, "Business Rules");
  }

  lemma MarkedNotBlank(s: string)
    requires HasBusinessRules(s)
    ensures !IsBlank(s)
  {
    if Contains(s, "Business Rules") {
      var k: nat :| k <= |s| && IsAt(s, "Business Rules", k);
      assert s[k] == 'B';
    } else {
      var k: nat :| k <= |s| && IsAt(s, "Business rules", k);
      assert s[k] == 'B';
    }
  }

  lemma MarkedTrans(s: string, t: string)
    requires Contains(s, t) && HasBusinessRules(t)
    ensures HasBusinessRules(s)
  {
    if Contains(t, "Business Rules") {
      ContainsTrans(s, t, "Business Rules");
    } else {
      ContainsTrans(s, t, "Business rules");
    }
  }
}
