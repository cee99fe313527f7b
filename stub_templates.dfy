/** The two doc templates of insert_doc_stubs.py
    (`scripts/insert_doc_stubs.py:13-49`), as lines with a `{name}`
    placeholder, and the fact that they format to `///` comment lines. */
module StubTemplates {
  import opened PyText

  // ---------------------------------------------------------------------
  // The two templates, line by line
  // ---------------------------------------------------------------------

  /** A line of a template: fixed text, or the text around a `{name}`
      placeholder.  The text is spelled in pieces so that no single
      literal is long. */
  datatype TemplateLine = Fixed(pieces: seq<string>) | Named(before: seq<string>, after: seq<string>)

  /** One line of `template.format(name=name)`. */
  function FillLine(t: TemplateLine, name: string): string
  {
    match t
    case Fixed(ps) => Cat(ps)
    case Named(b, a) => Cat(b) + name + Cat(a)
  }

  /** `template.format(name=name)`, split at its line ends. */
  function Fill(template: seq<TemplateLine>, name: string): (r: seq<string>)
    ensures |r| == |template|
    ensures forall k | 0 <= k < |template| :: r[k] == FillLine(template[k], name)
  {
    if template == [] then [] else [FillLine(template[0], name)] + Fill(template[1..], name)
  }

  /** The class template and the method template.  The walk is stated for
      any pair; `DocTemplates` is the pair the script formats. */
  datatype Templates = Templates(classDoc: seq<TemplateLine>, methodDoc: seq<TemplateLine>)

  const DocTemplates: Templates := Templates(ClassTemplate, MethodTemplate)

  /** `DOC_TEMPLATE_CLASS`, split at its line ends. */
  const ClassTemplate: seq<TemplateLine> :=
    [NameLine, Gap, RulesHeading, RulesItem, RulesConcise, Gap]
    + [ErrorsHeading, ErrorsItem, ErrorsItemCont, Gap]
    + [DepsHeading, DepsItem, Gap, UsageHeading, FenceOpen, ExampleComment, ExampleCall]
    + [UsageCall, FenceClose, Gap, NoteLine, VerboseLine, ChecksLine]

  /** `DOC_TEMPLATE_METHOD`, split at its line ends. */
  const MethodTemplate: seq<TemplateLine> :=
    [NameLine, Gap, DescriptionLine, Gap, ParamsHeading, ParamsItem, Gap, ReturnsHeading, ReturnsItem]

  const NameLine: TemplateLine := Named(["/// "], [])
  const Gap: TemplateLine := Fixed(["///"])
  const RulesHeading: TemplateLine := Fixed(["///", " Business", " Rules:"])
  const RulesItem: TemplateLine := Fixed(["/// - Add", " the main", " business", " rules or", " invariants", " enforced", " by this", " class."])
  const RulesConcise: TemplateLine := Fixed(["/// - Be", " concise", " and", " concrete."])
  const ErrorsHeading: TemplateLine := Fixed(["/// Error", " Scenarios:"])
  const ErrorsItem: TemplateLine := Fixed(["/// -", " Describe", " common", " errors", " and how", " the class", " responds", " (exceptions,"])
  const ErrorsItemCont: TemplateLine := Fixed(["///   ", "fallbacks,", " retries)."])
  const DepsHeading: TemplateLine := Fixed(["///", " Dependencies:"])
  const DepsItem: TemplateLine := Fixed(["/// - List", " key", " dependencies,", " required", " services,", " or", " external", " resources."])
  const UsageHeading: TemplateLine := Fixed(["///", " Example", " usage:"])
  const FenceOpen: TemplateLine := Fixed(["///", " ```dart"])
  const ExampleComment: TemplateLine := Named(["/// //", " Example:", " Create", " and use", " "], [])
  const ExampleCall: TemplateLine := Named(["/// final", " obj = "], ["();"])
  const UsageCall: TemplateLine := Fixed(["/// //", " call", " methods", " or wire", " into a", " Bloc/Widget"])
  const FenceClose: TemplateLine := Fixed(["/// ```"])
  const NoteLine: TemplateLine := Fixed(["/// NOTE:", " Replace", " the", " placeholders", " above", " with", " specific", " details."])
  const VerboseLine: TemplateLine := Fixed(["/// This", " placeholder", " is", " intentionally", " verbose", " to", " satisfy", " validator", " length"])
  const ChecksLine: TemplateLine := Fixed(["/// checks", " (200+", " characters)", " and", " should be", " edited", " with real", " content."])
  const DescriptionLine: TemplateLine := Fixed(["/// Description:", " Briefly", " explain", " what this", " method", " does."])
  const ParamsHeading: TemplateLine := Fixed(["///", " Parameters:"])
  const ParamsItem: TemplateLine := Fixed(["/// -", " (describe", " parameters)"])
  const ReturnsHeading: TemplateLine := Fixed(["///", " Returns:"])
  const ReturnsItem: TemplateLine := Fixed(["/// -", " (describe", " return", " value)"])

  /** `DOC_TEMPLATE_CLASS.format(name=name)`: 23 lines, the first naming
      the class. */
  lemma ClassTemplateShape(name: string)
    ensures var r := Fill(DocTemplates.classDoc, name); |r| == 23 && r[0] == "/// " + name
  {
    assert Cat(["/// "]) == "/// ";
    assert Cat([]) + "" == "";
  }

  /** `DOC_TEMPLATE_METHOD.format(name=name)`: 9 lines, the first naming
      the method. */
  lemma MethodTemplateShape(name: string)
    ensures var r := Fill(DocTemplates.methodDoc, name); |r| == 9 && r[0] == "/// " + name
  {
    assert Cat(["/// "]) == "/// ";
  }

  /** A `///` comment line without a line boundary. */
  predicate CommentLine(s: string)
  {
    NoBreaks(s) && StartsWith(s, "///")
  }

  /** Every stub line is a comment line. */
  predicate CommentLines(ls: seq<string>)
  {
    |ls| > 0 && forall k | 0 <= k < |ls| :: CommentLine(ls[k])
  }

  /** A template line that fills to a comment line for any identifier. */
  predicate CommentTemplateLine(t: TemplateLine)
  {
    match t
    case Fixed(ps) => CommentPieces(ps)
    case Named(b, a) => CommentPieces(b) && forall k | 0 <= k < |a| :: Printable(a[k])
  }

  /** Pieces of a comment line: the first opens it, none breaks it. */
  predicate CommentPieces(ps: seq<string>)
  {
    |ps| > 0 && StartsWith(ps[0], "///") && forall k | 0 <= k < |ps| :: Printable(ps[k])
  }

  /** Printable ASCII, in which the template text is written. */
  predicate Printable(s: string)
  {
    forall i | 0 <= i < |s| :: ' ' <= s[i] <= '~'
  }

  lemma PiecesNoBreaks(ps: seq<string>)
    requires forall k | 0 <= k < |ps| :: Printable(ps[k])
    ensures forall k | 0 <= k < |ps| :: NoBreaks(ps[k])
  {
  }

  /** A non-empty template of such lines. */
  predicate CommentTemplate(template: seq<TemplateLine>)
  {
    |template| > 0 && forall k | 0 <= k < |template| :: CommentTemplateLine(template[k])
  }

  predicate CommentTemplates(t: Templates)
  {
    CommentTemplate(t.classDoc) && CommentTemplate(t.methodDoc)
  }

  lemma FillLineComment(t: TemplateLine, name: string)
    requires CommentTemplateLine(t) && IdentChars(name)
    ensures CommentLine(FillLine(t, name))
  {
    match t
    case Fixed(ps) =>
      PiecesNoBreaks(ps);
      CatNoBreaks(ps);
      CatStartsWith(ps, "///");
    case Named(b, a) =>
      PiecesNoBreaks(b);
      PiecesNoBreaks(a);
      CatNoBreaks(b);
      CatStartsWith(b, "///");
      CatNoBreaks(a);
      IdentCharsNoBreaks(name);
      NoBreaksConcat(Cat(b), name);
      NoBreaksConcat(Cat(b) + name, Cat(a));
      assert (Cat(b) + name + Cat(a))[..3] == Cat(b)[..3];
  }

  /** A comment template fills to comment lines for any identifier. */
  lemma FillComments(template: seq<TemplateLine>, name: string)
    requires CommentTemplate(template) && IdentChars(name)
    ensures CommentLines(Fill(template, name))
  {
    forall k | 0 <= k < |template| ensures CommentLine(Fill(template, name)[k]) {
      FillLineComment(template[k], name);
    }
  }

  lemma RulesComments()
    ensures CommentTemplateLine(RulesHeading) && CommentTemplateLine(RulesConcise)
  {
  }

  lemma RulesItemComment()
    ensures CommentTemplateLine(RulesItem)
  {
  }

  lemma ErrorsComments()
    ensures CommentTemplateLine(ErrorsHeading) && CommentTemplateLine(ErrorsItemCont)
  {
  }

  lemma ErrorsItemComment()
    ensures CommentTemplateLine(ErrorsItem)
  {
  }

  lemma DepsComments()
    ensures CommentTemplateLine(DepsHeading) && CommentTemplateLine(UsageHeading) && CommentTemplateLine(FenceOpen)
  {
  }

  lemma DepsItemComment()
    ensures CommentTemplateLine(DepsItem)
  {
  }

  lemma UsageCallComment()
    ensures CommentTemplateLine(UsageCall) && CommentTemplateLine(FenceClose)
  {
  }

  lemma NoteComment()
    ensures CommentTemplateLine(NoteLine)
  {
  }

  lemma VerboseComment()
    ensures CommentTemplateLine(VerboseLine)
  {
  }

  lemma ChecksComment()
    ensures CommentTemplateLine(ChecksLine)
  {
  }

  lemma NamedComments()
    ensures CommentTemplateLine(NameLine) && CommentTemplateLine(ExampleCall)
  {
  }

  lemma ExampleComments()
    ensures CommentTemplateLine(ExampleComment)
  {
  }

  lemma DescriptionComment()
    ensures CommentTemplateLine(DescriptionLine)
  {
  }

  lemma ParamsHeadingComment()
    ensures CommentTemplateLine(ParamsHeading)
  {
  }

  lemma MethodItemComments()
    ensures CommentTemplateLine(ParamsItem) && CommentTemplateLine(ReturnsHeading) && CommentTemplateLine(ReturnsItem)
  {
  }

  lemma ClassTemplateComments()
    ensures CommentTemplate(ClassTemplate)
  {
    assert CommentTemplateLine(Gap);
    NamedComments();
    ExampleComments();
    RulesComments();
    RulesItemComment();
    ErrorsComments();
    ErrorsItemComment();
    DepsComments();
    DepsItemComment();
    UsageCallComment();
    NoteComment();
    VerboseComment();
    ChecksComment();
  }

  lemma MethodTemplateComments()
    ensures CommentTemplate(MethodTemplate)
  {
    assert CommentTemplateLine(Gap);
    NamedComments();
    DescriptionComment();
    ParamsHeadingComment();
    MethodItemComments();
  }

  /** Both of the script's templates are made of `///` lines. */
  lemma DocTemplatesAreComments()
    ensures CommentTemplates(DocTemplates)
  {
    ClassTemplateComments();
    MethodTemplateComments();
  }
}
