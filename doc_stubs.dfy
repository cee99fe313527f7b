/** insert_doc_stubs.py: a walk over the lines of a Dart file that puts a
    documentation stub above every public class declaration and every
    allow-listed lifecycle method that has no doc comment above it
    (`scripts/insert_doc_stubs.py`). */
module DocStubs {
  import opened Wrappers
  import opened PyText
  import opened DartPatterns
  import opened FileEffects
  import opened StubTemplates

  /** The entry `out_lines` receives for a stub: the formatted template with
      its final line end stripped, that is its lines joined by line ends. */
  lemma StubEntryIsStrippedTemplate(ls: seq<string>)
    requires CommentLines(ls)
    ensures RStripChars(Render(ls), {'\n'}) == Join(ls, "\n")
  {
    var j := Join(ls, "\n");
    var last := ls[|ls| - 1];
    assert |last| >= 3 && last[|last| - 1] != '\n';
    assert |j| > 0 && j[|j| - 1] == last[|last| - 1] by {
      if |ls| > 1 {
        assert j == Join(ls[..|ls| - 1], "\n") + "\n" + last;
      }
    }
    assert Render(ls)[..|Render(ls)| - 1] == j;
  }

  // ---------------------------------------------------------------------
  // has_doc_above
  // ---------------------------------------------------------------------

  // The stripped line opens a `///` comment or a block doc comment.
  predicate IsDocStart(ln: string)
  {
    StartsWith(Strip(ln), "///") || StartsWith(Strip(ln), "/**")
  }

  /** The last non-blank line above `index`, if any. */
  function PrevNonBlank(lines: seq<string>, index: nat): (r: Option<nat>)
    requires index <= |lines|
    ensures r.Some? ==> r.value < index && !IsBlank(lines[r.value])
  {
    if index == 0 then None
    else if IsBlank(lines[index - 1]) then PrevNonBlank(lines, index - 1)
    else Some(index - 1)
  }

  /** Only blank lines lie between the line found and `index`; when none is
      found, every line above `index` is blank. */
  lemma {:induction false} PrevNonBlankNearest(lines: seq<string>, index: nat)
    requires index <= |lines|
    ensures PrevNonBlank(lines, index).Some? ==>
      forall k | PrevNonBlank(lines, index).value < k < index :: IsBlank(lines[k])
    ensures PrevNonBlank(lines, index).None? ==> forall k | 0 <= k < index :: IsBlank(lines[k])
    decreases index
  {
    if index > 0 && IsBlank(lines[index - 1]) {
      PrevNonBlankNearest(lines, index - 1);
    }
  }

  /** `has_doc_above(lines, index)`: false when only blank lines are above,
      otherwise whether the nearest non-blank line above opens a doc
      comment. */
  predicate HasDocAbove(lines: seq<string>, index: nat)
    requires index <= |lines|
  {
    match PrevNonBlank(lines, index)
    case None => false
    case Some(j) => IsDocStart(lines[j])
  }

  /** The backward scan at lines 58-65. */
  method HasDocAboveScan(lines: seq<string>, index: nat) returns (r: bool)
    requires index <= |lines|
    ensures r == HasDocAbove(lines, index)
  {
    var i: int := index - 1;
    while i >= 0 && Strip(lines[i]) == []
      invariant -1 <= i < index
      invariant PrevNonBlank(lines, i + 1) == PrevNonBlank(lines, index)
    {
      i := i - 1;
    }
    if i < 0 {
      return false;
    }
    return StartsWith(Strip(lines[i]), "///") || StartsWith(Strip(lines[i]), "/**");
  }

  /** The answer depends on the lines above `index` only. */
  lemma {:induction false} PrevNonBlankPrefix(lines: seq<string>, ext: seq<string>, index: nat)
    requires index <= |lines|
    ensures PrevNonBlank(lines + ext, index) == PrevNonBlank(lines, index)
    decreases index
  {
    if index > 0 {
      assert (lines + ext)[index - 1] == lines[index - 1];
      PrevNonBlankPrefix(lines, ext, index - 1);
    }
  }

  lemma HasDocAbovePrefix(lines: seq<string>, ext: seq<string>, index: nat)
    requires index <= |lines|
    ensures HasDocAbove(lines + ext, index) == HasDocAbove(lines, index)
  {
    PrevNonBlankPrefix(lines, ext, index);
    if PrevNonBlank(lines, index).Some? {
      assert (lines + ext)[PrevNonBlank(lines, index).value] == lines[PrevNonBlank(lines, index).value];
    }
  }

  /** Right below a `///` line there is a doc above. */
  lemma DocAboveAfterComment(lines: seq<string>, index: nat)
    requires 0 < index <= |lines| && StartsWith(lines[index - 1], "///")
    ensures HasDocAbove(lines, index)
  {
    var above := lines[index - 1];
    StripKeepsPrefix(above, "///");
    assert PrevNonBlank(lines, index) == Some(index - 1);
    assert IsDocStart(above);
  }

  // ---------------------------------------------------------------------
  // The decisions for one line
  // ---------------------------------------------------------------------

  /** `target_methods`. */
  const TargetMethods: set<string> := {"build", "initState", "dispose", "onEvent", "onChange", "onTransition", "main"}

  /** Which template a stub is formatted from. */
  datatype Kind = ClassDoc | MethodDoc

  /** An entry of `out_lines`: an original line, or a stub formatted from a
      template with a name. */
  datatype Entry = Line(text: string) | Stub(kind: Kind, name: string)

  /** The lines of a formatted template. */
  function StubLines(t: Templates, kind: Kind, name: string): (r: seq<string>)
    ensures |r| == |if kind == ClassDoc then t.classDoc else t.methodDoc|
  {
    match kind
    case ClassDoc => Fill(t.classDoc, name)
    case MethodDoc => Fill(t.methodDoc, name)
  }

  /** The string `out_lines` holds for an entry. */
  function EntryText(t: Templates, e: Entry): string
  {
    match e
    case Line(text) => text
    case Stub(kind, name) => Join(StubLines(t, kind, name), "\n")
  }

  /** The class branch, lines 84-97, with the widget pattern tried only
      when the class pattern fails. */
  function ClassStub(lines: seq<string>, i: nat): seq<Entry>
    requires i < |lines|
  {
    var s := LStrip(lines[i]);
    match ClassDeclName(s)
    case Some(n) => if HasDocAbove(lines, i) then [] else [Stub(ClassDoc, n)]
    case None =>
      match WidgetName(s)
      case Some(n) => if HasDocAbove(lines, i) then [] else [Stub(ClassDoc, n)]
      case None => []
  }

  /** The method branch, lines 100-107. */
  function MethodStub(lines: seq<string>, i: nat): seq<Entry>
    requires i < |lines|
  {
    match MethodName(LStrip(lines[i]))
    case Some(n) => if n in TargetMethods && !HasDocAbove(lines, i) then [Stub(MethodDoc, n)] else []
    case None => []
  }

  /** The stubs put above line `i`. */
  function StubsAt(lines: seq<string>, i: nat): (r: seq<Entry>)
    requires i < |lines|
    ensures |r| <= 2 && forall k | 0 <= k < |r| :: r[k].Stub?
  {
    ClassStub(lines, i) + MethodStub(lines, i)
  }

  /** The stubs the walk puts above each line, in line order. */
  function Decisions(lines: seq<string>): (d: seq<seq<Entry>>)
    ensures |d| == |lines|
  {
    seq(|lines|, i requires 0 <= i < |lines| => StubsAt(lines, i))
  }

  /** `out_lines` after the first `n` iterations, given the stubs each line
      receives: the stubs for a line, then the line itself. */
  function Interleave(lines: seq<string>, stubs: seq<seq<Entry>>, n: nat): seq<Entry>
    requires n <= |lines| == |stubs|
  {
    if n == 0 then [] else Interleave(lines, stubs, n - 1) + stubs[n - 1] + [Line(lines[n - 1])]
  }

  /** `out_lines` at the end of the walk. */
  function OutEntries(lines: seq<string>): seq<Entry>
  {
    Interleave(lines, Decisions(lines), |lines|)
  }

  /** The strings of a list of entries. */
  function Texts(t: Templates, es: seq<Entry>): (r: seq<string>)
    ensures |r| == |es|
  {
    if es == [] then [] else Texts(t, es[..|es| - 1]) + [EntryText(t, es[|es| - 1])]
  }

  lemma {:induction false} TextsConcat(t: Templates, a: seq<Entry>, b: seq<Entry>)
    ensures Texts(t, a + b) == Texts(t, a) + Texts(t, b)
    decreases |b|
  {
    if b == [] {
      assert a + b == a;
    } else {
      assert (a + b)[..|a + b| - 1] == a + b[..|b| - 1];
      TextsConcat(t, a, b[..|b| - 1]);
    }
  }

  /** Some line gets a stub. */
  predicate AnyStub(lines: seq<string>, n: nat)
    requires n <= |lines|
  {
    exists i | 0 <= i < n :: StubsAt(lines, i) != []
  }

  /** The class branch of one iteration: what it appends. */
  method ClassStubFor(t: Templates, lines: seq<string>, i: nat) returns (entries: seq<string>)
    requires i < |lines|
    ensures entries == Texts(t, ClassStub(lines, i))
  {
    entries := [];
    var stripped := LStrip(lines[i]);
    var classMatch := ClassDeclName(stripped);
    if classMatch.Some? {
      var doc := HasDocAboveScan(lines, i);
      if !doc {
        entries := [Join(Fill(t.classDoc, classMatch.value), "\n")];
      }
    } else {
      var widgetMatch := WidgetName(stripped);
      if widgetMatch.Some? {
        var doc := HasDocAboveScan(lines, i);
        if !doc {
          entries := [Join(Fill(t.classDoc, widgetMatch.value), "\n")];
        }
      }
    }
  }

  /** The method branch of one iteration: what it appends. */
  method MethodStubFor(t: Templates, lines: seq<string>, i: nat) returns (entries: seq<string>)
    requires i < |lines|
    ensures entries == Texts(t, MethodStub(lines, i))
  {
    entries := [];
    var methodMatch := MethodName(LStrip(lines[i]));
    if methodMatch.Some? && methodMatch.value in TargetMethods {
      var doc := HasDocAboveScan(lines, i);
      if !doc {
        entries := [Join(Fill(t.methodDoc, methodMatch.value), "\n")];
      }
    }
  }

  /** One iteration's stubs, class stub first: what lines 84-107 append
      before the line itself. */
  method StubsFor(t: Templates, lines: seq<string>, i: nat) returns (entries: seq<string>)
    requires i < |lines|
    ensures entries == Texts(t, Decisions(lines)[i])
  {
    var classStubs := ClassStubFor(t, lines, i);
    var methodStubs := MethodStubFor(t, lines, i);
    TextsConcat(t, ClassStub(lines, i), MethodStub(lines, i));
    entries := classStubs + methodStubs;
  }

  /** One more iteration appends the line's stubs, then the line. */
  lemma TextsStep(t: Templates, lines: seq<string>, stubs: seq<seq<Entry>>, i: nat)
    requires i < |lines| == |stubs|
    ensures Texts(t, Interleave(lines, stubs, i + 1)) == Texts(t, Interleave(lines, stubs, i)) + Texts(t, stubs[i]) + [lines[i]]
  {
    var before := Interleave(lines, stubs, i);
    TextsConcat(t, before, stubs[i]);
    TextsConcat(t, before + stubs[i], [Line(lines[i])]);
  }

  /** `changed` is set by the first line that gets a stub. */
  lemma AnyStubStep(lines: seq<string>, i: nat)
    requires i < |lines|
    ensures AnyStub(lines, i + 1) == (AnyStub(lines, i) || Decisions(lines)[i] != [])
  {
    if Decisions(lines)[i] != [] {
      assert StubsAt(lines, i) != [];
    }
  }

  /** One iteration of the loop: append the line's stubs and the line,
      and set `changed` if there were stubs. */
  method WalkStep(t: Templates, lines: seq<string>, i: nat, outLines: seq<string>, changed: bool)
    returns (outLines': seq<string>, changed': bool)
    requires i < |lines|
    requires outLines == Texts(t, Interleave(lines, Decisions(lines), i))
    requires changed == AnyStub(lines, i)
    ensures outLines' == Texts(t, Interleave(lines, Decisions(lines), i + 1))
    ensures changed' == AnyStub(lines, i + 1)
  {
    var stubs := StubsFor(t, lines, i);
    TextsStep(t, lines, Decisions(lines), i);
    AnyStubStep(lines, i);
    changed' := changed || stubs != [];
    outLines' := outLines + stubs + [lines[i]];
  }

  /** The loop at lines 77-110: `out_lines` and `changed`. */
  method WalkLines(t: Templates, lines: seq<string>) returns (outLines: seq<string>, changed: bool)
    ensures outLines == Texts(t, OutEntries(lines))
    ensures changed == AnyStub(lines, |lines|)
  {
    outLines := [];
    changed := false;
    var i := 0;
    while i < |lines|
      invariant 0 <= i <= |lines|
      invariant outLines == Texts(t, Interleave(lines, Decisions(lines), i))
      invariant changed == AnyStub(lines, i)
    {
      outLines, changed := WalkStep(t, lines, i, outLines, changed);
      i := i + 1;
    }
  }

  // ---------------------------------------------------------------------
  // The file
  // ---------------------------------------------------------------------

  /** `process_file`, formatting the stubs from `t` (the script uses
      `DocTemplates`): the backup is made first, whatever follows; the file
      is rewritten, as its `out_lines` joined by line ends, only when some
      stub was added. */
  function ProcessFile(t: Templates, f: FileState): (r: (FileState, bool))
    ensures r.0.backup == BackupOnce(f).backup
    ensures r.1 == AnyStub(SplitLines(f.content), |SplitLines(f.content)|)
    ensures r.1 ==> r.0.content == Render(Texts(t, OutEntries(SplitLines(f.content))))
    ensures !r.1 ==> r.0.content == f.content
  {
    var lines := SplitLines(f.content);
    var b := BackupOnce(f);
    if AnyStub(lines, |lines|) then (WriteText(b, Render(Texts(t, OutEntries(lines)))), true)
    else (b, false)
  }

  // ---------------------------------------------------------------------
  // Properties of the walk
  // ---------------------------------------------------------------------

  /** The original lines among the entries. */
  function Originals(es: seq<Entry>): seq<string>
  {
    if es == [] then []
    else Originals(es[..|es| - 1]) + (match es[|es| - 1] case Line(t) => [t] case Stub(_, _) => [])
  }

  lemma {:induction false} OriginalsConcat(a: seq<Entry>, b: seq<Entry>)
    ensures Originals(a + b) == Originals(a) + Originals(b)
    decreases |b|
  {
    if b == [] {
      assert a + b == a;
    } else {
      assert (a + b)[..|a + b| - 1] == a + b[..|b| - 1];
      OriginalsConcat(a, b[..|b| - 1]);
    }
  }

  lemma {:induction false} StubsHaveNoOriginals(es: seq<Entry>)
    requires forall k | 0 <= k < |es| :: es[k].Stub?
    ensures Originals(es) == []
    decreases |es|
  {
    if es != [] {
      StubsHaveNoOriginals(es[..|es| - 1]);
    }
  }

  /** Every stub list holds stubs only. */
  predicate StubsOnly(stubs: seq<seq<Entry>>)
  {
    forall i | 0 <= i < |stubs| :: forall k | 0 <= k < |stubs[i]| :: stubs[i][k].Stub?
  }

  lemma OriginalsStep(prev: seq<Entry>, st: seq<Entry>, line: string)
    requires forall k | 0 <= k < |st| :: st[k].Stub?
    ensures Originals(prev + st + [Line(line)]) == Originals(prev) + [line]
  {
    OriginalsConcat(prev + st, [Line(line)]);
    OriginalsConcat(prev, st);
    StubsHaveNoOriginals(st);
    assert [Line(line)][..0] == [];
  }

  lemma {:induction false} InterleaveKeepsLines(lines: seq<string>, stubs: seq<seq<Entry>>, n: nat)
    requires n <= |lines| == |stubs| && StubsOnly(stubs)
    ensures Originals(Interleave(lines, stubs, n)) == lines[..n]
    decreases n
  {
    if n > 0 {
      InterleaveKeepsLines(lines, stubs, n - 1);
      OriginalsStep(Interleave(lines, stubs, n - 1), stubs[n - 1], lines[n - 1]);
      assert lines[..n] == lines[..n - 1] + [lines[n - 1]];
    }
  }

  lemma DecisionsAreStubs(lines: seq<string>)
    ensures StubsOnly(Decisions(lines))
  {
    forall i | 0 <= i < |lines| ensures forall k | 0 <= k < |Decisions(lines)[i]| :: Decisions(lines)[i][k].Stub? {
      assert Decisions(lines)[i] == StubsAt(lines, i);
    }
  }

  /** Dropping the stubs from `out_lines` gives the original lines back, in
      order: nothing is deleted, changed or moved. */
  lemma WalkKeepsLines(lines: seq<string>)
    ensures Originals(OutEntries(lines)) == lines
  {
    DecisionsAreStubs(lines);
    InterleaveKeepsLines(lines, Decisions(lines), |lines|);
  }

  /** A class stub goes above line `i` exactly when the class pattern
      accepts it and no doc is above it: the widget branch never adds one
      of its own. */
  lemma ClassStubIff(lines: seq<string>, i: nat)
    requires i < |lines|
    ensures var s := LStrip(lines[i]);
      ClassStub(lines, i)
      == if ClassDeclName(s).Some? && !HasDocAbove(lines, i) then [Stub(ClassDoc, ClassDeclName(s).value)] else []
  {
    var s := LStrip(lines[i]);
    if ClassDeclName(s).None? && WidgetName(s).Some? {
      WidgetIsClass(s);
    }
  }

  /** A method stub goes above line `i` exactly when the method pattern
      names an allow-listed method and no doc is above it. */
  lemma MethodStubIff(lines: seq<string>, i: nat)
    requires i < |lines|
    ensures var m := MethodName(LStrip(lines[i]));
      MethodStub(lines, i) != [] <==> m.Some? && m.value in TargetMethods && !HasDocAbove(lines, i)
    ensures MethodStub(lines, i) != [] ==> MethodStub(lines, i) == [Stub(MethodDoc, MethodName(LStrip(lines[i])).value)]
  {
  }

  /** The decisions for line `i` look at the original lines up to `i` and
      at nothing appended so far. */
  lemma DecisionsUseOriginalLines(lines: seq<string>, i: nat)
    requires i < |lines|
    ensures StubsAt(lines, i) == StubsAt(lines[..i + 1], i)
  {
    HasDocAbovePrefix(lines[..i + 1], lines[i + 1..], i);
    assert lines[..i + 1] + lines[i + 1..] == lines;
  }

  lemma {:induction false} InterleaveLength(lines: seq<string>, stubs: seq<seq<Entry>>, n: nat)
    requires n <= |lines| == |stubs|
    ensures |Interleave(lines, stubs, n)| >= n
    ensures |Interleave(lines, stubs, n)| > n <==> exists i | 0 <= i < n :: stubs[i] != []
    decreases n
  {
    if n > 0 {
      InterleaveLength(lines, stubs, n - 1);
      if stubs[n - 1] == [] && exists i | 0 <= i < n :: stubs[i] != [] {
        var i :| 0 <= i < n && stubs[i] != [];
        assert i < n - 1;
      }
    }
  }

  /** `changed` holds exactly when `out_lines` is longer than `lines`. */
  lemma ChangedIffLonger(lines: seq<string>)
    ensures AnyStub(lines, |lines|) <==> |OutEntries(lines)| > |lines|
  {
    InterleaveLength(lines, Decisions(lines), |lines|);
    if AnyStub(lines, |lines|) {
      var i :| 0 <= i < |lines| && StubsAt(lines, i) != [];
      assert Decisions(lines)[i] != [];
    }
    if exists i | 0 <= i < |lines| :: Decisions(lines)[i] != [] {
      var i :| 0 <= i < |lines| && Decisions(lines)[i] != [];
      assert StubsAt(lines, i) != [];
    }
  }

  // ---------------------------------------------------------------------
  // Running the script again
  // ---------------------------------------------------------------------

  /** The lines of a stub. */
  function EntryLines(t: Templates, e: Entry): seq<string>
  {
    match e
    case Line(text) => [text]
    case Stub(kind, name) => StubLines(t, kind, name)
  }

  /** The lines the entries become once the file is written and read back. */
  function Flat(t: Templates, es: seq<Entry>): seq<string>
  {
    if es == [] then [] else Flat(t, es[..|es| - 1]) + EntryLines(t, es[|es| - 1])
  }

  lemma {:induction false} FlatConcat(t: Templates, a: seq<Entry>, b: seq<Entry>)
    ensures Flat(t, a + b) == Flat(t, a) + Flat(t, b)
    decreases |b|
  {
    if b == [] {
      assert a + b == a;
    } else {
      var init := b[..|b| - 1];
      FlatConcat(t, a, init);
      assert b == init + [b[|b| - 1]];
      FlatConcatStep(t, a, init, b[|b| - 1]);
    }
  }

  lemma FlatConcatStep(t: Templates, a: seq<Entry>, init: seq<Entry>, e: Entry)
    requires Flat(t, a + init) == Flat(t, a) + Flat(t, init)
    ensures Flat(t, a + (init + [e])) == Flat(t, a) + Flat(t, init + [e])
  {
    FlatSnoc(t, a + init, e);
    FlatSnoc(t, init, e);
    ConcatAssoc(a, init, [e]);
    ConcatAssoc(Flat(t, a), Flat(t, init), EntryLines(t, e));
  }

  lemma FlatSnoc(t: Templates, es: seq<Entry>, e: Entry)
    ensures Flat(t, es + [e]) == Flat(t, es) + EntryLines(t, e)
  {
    assert (es + [e])[..|es|] == es;
  }

  /** A stub of an identifier: its template's lines. */
  predicate NamedStub(e: Entry)
  {
    e.Stub? && IdentChars(e.name)
  }

  /** Stubs of identifiers from comment templates flatten to `///` lines,
      one or more per stub. */
  lemma {:induction false} StubsFlatToComments(t: Templates, st: seq<Entry>)
    requires CommentTemplates(t)
    requires forall k | 0 <= k < |st| :: NamedStub(st[k])
    ensures (Flat(t, st) == []) == (st == [])
    ensures forall k | 0 <= k < |Flat(t, st)| :: CommentLine(Flat(t, st)[k])
    decreases |st|
  {
    if st != [] {
      var e := st[|st| - 1];
      StubsFlatToComments(t, st[..|st| - 1]);
      match e.kind
      case ClassDoc => FillComments(t.classDoc, e.name);
      case MethodDoc => FillComments(t.methodDoc, e.name);
    }
  }

  /** Joining the strings of the entries is joining their lines. */
  lemma {:induction false} JoinFlat(t: Templates, es: seq<Entry>)
    requires CommentTemplates(t)
    ensures (Flat(t, es) == []) == (es == [])
    ensures Join(Texts(t, es), "\n") == Join(Flat(t, es), "\n")
    decreases |es|
  {
    if es != [] {
      var init := es[..|es| - 1];
      var e := es[|es| - 1];
      JoinFlat(t, init);
      assert EntryText(t, e) == Join(EntryLines(t, e), "\n");
      assert |EntryLines(t, e)| > 0;
      assert Texts(t, es) == Texts(t, init) + [EntryText(t, e)];
      assert Flat(t, es) == Flat(t, init) + EntryLines(t, e);
      if init == [] {
        assert Flat(t, es) == EntryLines(t, e);
      } else {
        JoinConcat(Texts(t, init), [EntryText(t, e)], "\n");
        JoinConcat(Flat(t, init), EntryLines(t, e), "\n");
      }
    }
  }

  /** `lines[i]` gets a stub when it matches a pattern: the class or
      widget pattern, or the method pattern with an allow-listed name. */
  predicate Wants(line: string)
  {
    var s := LStrip(line);
    ClassDeclName(s).Some? || WidgetName(s).Some?
    || (MethodName(s).Some? && MethodName(s).value in TargetMethods)
  }

  /** A line gets stubs exactly when it wants one and has no doc above. */
  lemma StubsAtIff(lines: seq<string>, i: nat)
    requires i < |lines|
    ensures (StubsAt(lines, i) == []) == (!Wants(lines[i]) || HasDocAbove(lines, i))
  {
  }

  /** A comment line matches none of the patterns. */
  lemma CommentNotWanted(s: string)
    requires CommentLine(s)
    ensures !Wants(s)
  {
    StripKeepsPrefix(s, "///");
    SlashLineMatchesNothing(s);
  }

  /** A blank line matches none of the patterns. */
  lemma BlankNotWanted(s: string)
    requires IsBlank(s)
    ensures !Wants(s)
  {
    assert LStrip(s) == [];
    EmptyLineMatchesNothing();
  }

  /** What the stubs for each line satisfy, whoever chose them: named
      stubs; none for a blank line; and none only where the line wants
      none or has a doc above. */
  predicate Chosen(wants: string -> bool, lines: seq<string>, stubs: seq<seq<Entry>>)
  {
    |stubs| == |lines|
    && (forall i | 0 <= i < |lines| :: forall k | 0 <= k < |stubs[i]| :: NamedStub(stubs[i][k]))
    && (forall i | 0 <= i < |lines| :: IsBlank(lines[i]) ==> stubs[i] == [])
    && (forall i | 0 <= i < |lines| :: stubs[i] == [] ==> !wants(lines[i]) || HasDocAbove(lines, i))
  }

  lemma DecisionChosen(lines: seq<string>, i: nat)
    requires i < |lines|
    ensures forall k | 0 <= k < |StubsAt(lines, i)| :: NamedStub(StubsAt(lines, i)[k])
    ensures IsBlank(lines[i]) ==> StubsAt(lines, i) == []
    ensures StubsAt(lines, i) == [] ==> !Wants(lines[i]) || HasDocAbove(lines, i)
  {
    StubsAtIff(lines, i);
    if IsBlank(lines[i]) {
      BlankNotWanted(lines[i]);
    }
    var s := LStrip(lines[i]);
    if ClassDeclName(s).None? && WidgetName(s).None? && MethodName(s).Some? {
      assert IdentChars(MethodName(s).value);
    }
  }

  lemma DecisionsChosen(lines: seq<string>)
    ensures Chosen(Wants, lines, Decisions(lines))
  {
    forall i | 0 <= i < |lines|
      ensures forall k | 0 <= k < |Decisions(lines)[i]| :: NamedStub(Decisions(lines)[i][k])
      ensures IsBlank(lines[i]) ==> Decisions(lines)[i] == []
      ensures Decisions(lines)[i] == [] ==> !Wants(lines[i]) || HasDocAbove(lines, i)
    {
      DecisionChosen(lines, i);
    }
  }

  /** The line just above `k + 1` decides the answer unless it is blank. */
  lemma AboveStep(xs: seq<string>, k: nat)
    requires k < |xs|
    ensures IsBlank(xs[k]) ==> HasDocAbove(xs, k + 1) == HasDocAbove(xs, k)
    ensures !IsBlank(xs[k]) ==> HasDocAbove(xs, k + 1) == IsDocStart(xs[k])
  {
  }

  /** The lines written after `n` iterations, read back: every line that
      `wants` a stub has a doc above it, none has a line boundary, and below
      them the nearest doc is the one the original `n` lines end with.
      (`wants` is `Wants`; the steps below hold for any test.) */
  predicate Settled(wants: string -> bool, out: seq<string>, lines: seq<string>, n: nat)
    requires n <= |lines|
  {
    (forall p {:trigger wants(out[p])} | 0 <= p < |out| :: wants(out[p]) ==> HasDocAbove(out, p))
    && (forall p | 0 <= p < |out| :: NoBreaks(out[p]))
    && HasDocAbove(out, |out|) == HasDocAbove(lines, n)
  }

  /** One more line and its stubs keep the lines settled. */
  lemma SettledStep(wants: string -> bool, out: seq<string>, st: seq<string>, lines: seq<string>, n: nat, out': seq<string>)
    requires n < |lines| && NoBreaks(lines[n]) && out' == out + st + [lines[n]]
    requires Settled(wants, out, lines, n)
    requires forall k | 0 <= k < |st| :: CommentLine(st[k]) && !wants(st[k])
    requires IsBlank(lines[n]) ==> st == []
    requires st == [] ==> !wants(lines[n]) || HasDocAbove(lines, n)
    ensures Settled(wants, out', lines, n + 1)
  {
    WantedStep(wants, out, st, lines, n);
    NoBreaksStep(out, st, lines[n]);
    LastDocStep(out, st, lines, n);
  }

  lemma WantedStep(wants: string -> bool, out: seq<string>, st: seq<string>, lines: seq<string>, n: nat)
    requires n < |lines|
    requires forall p | 0 <= p < |out| :: wants(out[p]) ==> HasDocAbove(out, p)
    requires HasDocAbove(out, |out|) == HasDocAbove(lines, n)
    requires forall k | 0 <= k < |st| :: CommentLine(st[k]) && !wants(st[k])
    requires st == [] ==> !wants(lines[n]) || HasDocAbove(lines, n)
    ensures var out' := out + st + [lines[n]];
      forall p | 0 <= p < |out'| :: wants(out'[p]) ==> HasDocAbove(out', p)
  {
    var out' := out + st + [lines[n]];
    ConcatAssoc(out, st, [lines[n]]);
    WantedKept(wants, out, st + [lines[n]], out');
    WantedStubs(wants, out, st, lines[n], out');
    WantedLast(wants, out, st, lines, n, out');
    WantedCover(wants, out', |out|, |out| + |st|);
  }

  /** The three parts together: lines kept, stub lines and the new line. */
  lemma WantedCover(wants: string -> bool, out': seq<string>, a: nat, b: nat)
    requires a <= b && b + 1 == |out'|
    requires forall p | 0 <= p < a :: wants(out'[p]) ==> HasDocAbove(out', p)
    requires forall p | a <= p < b :: !wants(out'[p])
    requires wants(out'[b]) ==> HasDocAbove(out', b)
    ensures forall p | 0 <= p < |out'| :: wants(out'[p]) ==> HasDocAbove(out', p)
  {
  }

  /** Lines already settled stay settled below whatever follows them. */
  lemma WantedKept(wants: string -> bool, out: seq<string>, ext: seq<string>, out': seq<string>)
    requires out' == out + ext
    requires forall p | 0 <= p < |out| :: wants(out[p]) ==> HasDocAbove(out, p)
    ensures forall p | 0 <= p < |out| :: wants(out'[p]) ==> HasDocAbove(out', p)
  {
    forall p | 0 <= p < |out| ensures HasDocAbove(out', p) == HasDocAbove(out, p) {
      HasDocAbovePrefix(out, ext, p);
    }
  }

  /** The stub lines want nothing themselves. */
  lemma WantedStubs(wants: string -> bool, out: seq<string>, st: seq<string>, line: string, out': seq<string>)
    requires out' == out + st + [line]
    requires forall k | 0 <= k < |st| :: !wants(st[k])
    ensures forall p | |out| <= p < |out| + |st| :: !wants(out'[p])
  {
    forall p | |out| <= p < |out| + |st| ensures out'[p] == st[p - |out|] {
    }
  }

  /** The line itself has a doc above: its stub, or the doc that spared it. */
  lemma WantedLast(wants: string -> bool, out: seq<string>, st: seq<string>, lines: seq<string>, n: nat, out': seq<string>)
    requires n < |lines| && out' == out + st + [lines[n]]
    requires HasDocAbove(out, |out|) == HasDocAbove(lines, n)
    requires forall k | 0 <= k < |st| :: CommentLine(st[k])
    requires st == [] ==> !wants(lines[n]) || HasDocAbove(lines, n)
    ensures wants(lines[n]) ==> HasDocAbove(out', |out'| - 1)
  {
    if st != [] {
      AfterStub(out, st, lines[n], out');
    } else {
      SparedLine(out, lines[n], out');
    }
  }

  /** Below a stub, whose lines are `///` comments, there is a doc above. */
  lemma AfterStub(out: seq<string>, st: seq<string>, line: string, out': seq<string>)
    requires st != [] && CommentLine(st[|st| - 1])
    requires out' == out + st + [line]
    ensures HasDocAbove(out', |out'| - 1)
  {
    assert out'[|out'| - 2] == st[|st| - 1];
    DocAboveAfterComment(out', |out'| - 1);
  }

  /** A line that got no stub keeps the doc above it that it had. */
  lemma SparedLine(out: seq<string>, line: string, out': seq<string>)
    requires out' == out + [] + [line]
    ensures HasDocAbove(out', |out|) == HasDocAbove(out, |out|)
  {
    assert out' == out + [line];
    HasDocAbovePrefix(out, [line], |out|);
  }

  lemma NoBreaksStep(out: seq<string>, st: seq<string>, line: string)
    requires forall p | 0 <= p < |out| :: NoBreaks(out[p])
    requires forall k | 0 <= k < |st| :: CommentLine(st[k])
    requires NoBreaks(line)
    ensures var out' := out + st + [line];
      forall p | 0 <= p < |out'| :: NoBreaks(out'[p])
  {
  }

  lemma LastDocStep(out: seq<string>, st: seq<string>, lines: seq<string>, n: nat)
    requires n < |lines|
    requires HasDocAbove(out, |out|) == HasDocAbove(lines, n)
    requires IsBlank(lines[n]) ==> st == []
    ensures var out' := out + st + [lines[n]];
      HasDocAbove(out', |out'|) == HasDocAbove(lines, n + 1)
  {
    var out' := out + st + [lines[n]];
    AboveStep(out', |out'| - 1);
    AboveStep(lines, n);
    if IsBlank(lines[n]) {
      assert out' == out + [lines[n]];
      HasDocAbovePrefix(out, [lines[n]], |out|);
    }
  }

  /** What the stub lines put above each line satisfy: they are comments
      that want nothing; a blank line gets none; and a line gets none only
      where it wants none or already has a doc above. */
  predicate ChunksFit(wants: string -> bool, lines: seq<string>, chunks: seq<seq<string>>)
  {
    |chunks| == |lines|
    && (forall i | 0 <= i < |lines| :: forall k | 0 <= k < |chunks[i]| :: CommentLine(chunks[i][k]) && !wants(chunks[i][k]))
    && (forall i | 0 <= i < |lines| :: IsBlank(lines[i]) ==> chunks[i] == [])
    && (forall i | 0 <= i < |lines| :: chunks[i] == [] ==> !wants(lines[i]) || HasDocAbove(lines, i))
  }

  /** The lines written after the first `n` iterations: the lines before,
      the stub lines for line `n - 1`, then that line. */
  function Walked(lines: seq<string>, chunks: seq<seq<string>>, n: nat): seq<string>
    requires n <= |lines| == |chunks|
  {
    if n == 0 then [] else Walked(lines, chunks, n - 1) + chunks[n - 1] + [lines[n - 1]]
  }

  lemma {:induction false} WalkSettled(wants: string -> bool, lines: seq<string>, chunks: seq<seq<string>>, n: nat)
    requires n <= |lines| && ChunksFit(wants, lines, chunks)
    requires forall i | 0 <= i < |lines| :: NoBreaks(lines[i])
    ensures Settled(wants, Walked(lines, chunks, n), lines, n)
  {
    if n > 0 {
      WalkSettled(wants, lines, chunks, n - 1);
      ChunkAt(wants, lines, chunks, n - 1);
      SettledStep(wants, Walked(lines, chunks, n - 1), chunks[n - 1], lines, n - 1, Walked(lines, chunks, n));
    }
  }

  /** What `ChunksFit` says about one line. */
  lemma ChunkAt(wants: string -> bool, lines: seq<string>, chunks: seq<seq<string>>, m: nat)
    requires ChunksFit(wants, lines, chunks) && m < |lines|
    ensures m < |chunks|
    ensures forall k | 0 <= k < |chunks[m]| :: CommentLine(chunks[m][k]) && !wants(chunks[m][k])
    ensures IsBlank(lines[m]) ==> chunks[m] == []
    ensures chunks[m] == [] ==> !wants(lines[m]) || HasDocAbove(lines, m)
  {
  }

  /** The lines of stubs chosen as `Chosen` says fit. */
  lemma ChunksOfStubs(t: Templates, wants: string -> bool, lines: seq<string>, stubs: seq<seq<Entry>>, chunks: seq<seq<string>>)
    requires CommentTemplates(t) && Chosen(wants, lines, stubs)
    requires forall s | CommentLine(s) :: !wants(s)
    requires |chunks| == |stubs| && forall i | 0 <= i < |stubs| :: chunks[i] == Flat(t, stubs[i])
    ensures ChunksFit(wants, lines, chunks)
  {
    forall i | 0 <= i < |lines|
      ensures forall k | 0 <= k < |chunks[i]| :: CommentLine(chunks[i][k]) && !wants(chunks[i][k])
      ensures chunks[i] == [] <==> stubs[i] == []
    {
      StubsNotWanted(t, wants, stubs[i]);
    }
  }

  /** The lines of the stubs each line receives. */
  function Chunks(t: Templates, stubs: seq<seq<Entry>>): (r: seq<seq<string>>)
    ensures |r| == |stubs|
    ensures forall i | 0 <= i < |stubs| :: r[i] == Flat(t, stubs[i])
  {
    if stubs == [] then [] else [Flat(t, stubs[0])] + Chunks(t, stubs[1..])
  }

  /** The walk step by step writes the entries' lines. */
  lemma {:induction false} WalkedIsFlat(t: Templates, lines: seq<string>, stubs: seq<seq<Entry>>, n: nat)
    requires n <= |lines| == |stubs|
    ensures Walked(lines, Chunks(t, stubs), n) == Flat(t, Interleave(lines, stubs, n))
  {
    if n > 0 {
      WalkedIsFlat(t, lines, stubs, n - 1);
      WalkedFlatStep(t, lines, stubs, Chunks(t, stubs), n);
    }
  }

  lemma WalkedFlatStep(t: Templates, lines: seq<string>, stubs: seq<seq<Entry>>, chunks: seq<seq<string>>, n: nat)
    requires 0 < n <= |lines| == |stubs| == |chunks|
    requires chunks[n - 1] == Flat(t, stubs[n - 1])
    requires Walked(lines, chunks, n - 1) == Flat(t, Interleave(lines, stubs, n - 1))
    ensures Walked(lines, chunks, n) == Flat(t, Interleave(lines, stubs, n))
  {
    FlatInterleaveStep(t, lines, stubs, n);
  }

  /** The lines of one more step of the walk. */
  lemma FlatInterleaveStep(t: Templates, lines: seq<string>, stubs: seq<seq<Entry>>, n: nat)
    requires 0 < n <= |lines| == |stubs|
    ensures Flat(t, Interleave(lines, stubs, n))
      == Flat(t, Interleave(lines, stubs, n - 1)) + Flat(t, stubs[n - 1]) + [lines[n - 1]]
  {
    var before := Interleave(lines, stubs, n - 1);
    FlatConcat(t, before, stubs[n - 1]);
    FlatConcat(t, before + stubs[n - 1], [Line(lines[n - 1])]);
    assert Flat(t, [Line(lines[n - 1])]) == [lines[n - 1]];
  }

  /** The lines of a step's stubs are comments that want nothing. */
  lemma StubsNotWanted(t: Templates, wants: string -> bool, st: seq<Entry>)
    requires CommentTemplates(t)
    requires forall s | CommentLine(s) :: !wants(s)
    requires forall k | 0 <= k < |st| :: NamedStub(st[k])
    ensures (Flat(t, st) == []) == (st == [])
    ensures forall k | 0 <= k < |Flat(t, st)| :: CommentLine(Flat(t, st)[k]) && !wants(Flat(t, st)[k])
  {
    StubsFlatToComments(t, st);
  }

  /** Settled lines get no stub. */
  lemma SettledGetsNothing(out: seq<string>, lines: seq<string>)
    requires Settled(Wants, out, lines, |lines|)
    ensures !AnyStub(out, |out|)
  {
    forall p | 0 <= p < |out| ensures StubsAt(out, p) == [] {
      StubsAtIff(out, p);
    }
  }

  /** What the first run writes reads back as the entries' lines, and the
      second run finds nothing to add there. */
  lemma WrittenIsSettled(t: Templates, lines: seq<string>)
    requires CommentTemplates(t) && lines != []
    requires forall i | 0 <= i < |lines| :: NoBreaks(lines[i])
    ensures SplitLines(Render(Texts(t, OutEntries(lines)))) == Flat(t, OutEntries(lines))
    ensures !AnyStub(Flat(t, OutEntries(lines)), |Flat(t, OutEntries(lines))|)
  {
    var es := OutEntries(lines);
    DecisionsChosen(lines);
    forall s | CommentLine(s) ensures !Wants(s) {
      CommentNotWanted(s);
    }
    var chunks := Chunks(t, Decisions(lines));
    ChunksOfStubs(t, Wants, lines, Decisions(lines), chunks);
    WalkSettled(Wants, lines, chunks, |lines|);
    WalkedIsFlat(t, lines, Decisions(lines), |lines|);
    InterleaveLength(lines, Decisions(lines), |lines|);
    JoinFlat(t, es);
    SplitLinesRender(Flat(t, es));
    SettledGetsNothing(Flat(t, es), lines);
  }

  /** Running the script again over what it wrote changes nothing: the
      second run adds no stub, leaves the text as it is and keeps the
      backup the first run made. */
  lemma RerunAddsNothing(t: Templates, f: FileState)
    requires CommentTemplates(t)
    ensures ProcessFile(t, ProcessFile(t, f).0) == (ProcessFile(t, f).0, false)
  {
    var lines := SplitLines(f.content);
    if AnyStub(lines, |lines|) {
      WrittenIsSettled(t, lines);
    }
  }

  /** ... with the script's own two templates. */
  lemma ScriptRerunAddsNothing(f: FileState)
    ensures ProcessFile(DocTemplates, ProcessFile(DocTemplates, f).0) == (ProcessFile(DocTemplates, f).0, false)
  {
    DocTemplatesAreComments();
    RerunAddsNothing(DocTemplates, f);
  }
}
