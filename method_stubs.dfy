/** The method pass of insert_business_rules.py: `method_repl`
    (`scripts/insert_business_rules.py:80-144`) decides, for one match of
    the method-signature pattern, which `/// @param` and `/// Returns:`
    lines to write in front of the signature.  The decision is stated over
    plain values (docblock, name, parameter names, void-ness); `MethodMatch`
    ties it to the match. */
module MethodStubs {
  import opened Wrappers
  import opened PyText
  import opened ParamNames
  import opened DocBlocks
  import opened Substitution

  /** One match of the signature pattern, reduced to what `method_repl`
      reads from it: the whole match (`fullSig`, all the match covers), the
      method name and the parameter text (groups 2 and 3), the `///` lines
      the docblock search finds in the 800 characters before the match, and
      group 1 of the return-type match (`None` when that match fails). */
  datatype MethodMatch = MethodMatch(
    fullSig: string,
    name: string,
    params: string,
    docblock: string,
    retGroup: Option<string>)

  /** `return_type`: the stripped return-type group, or `''`. */
  function ReturnType(m: MethodMatch): (r: string)
    ensures m.retGroup.None? ==> r == []
    ensures r == [] || (!IsSpace(r[0]) && !IsSpace(r[|r| - 1]))
  {
    match m.retGroup
    case Some(g) => Strip(g)
    case None => ""
  }

  /** `is_void`: the return type is `void` or empty. */
  predicate IsVoid(m: MethodMatch)
  {
    ReturnType(m) == "void" || ReturnType(m) == ""
  }

  /** The placeholder line for one parameter. */
  function ParamLine(pn: string): string
  {
    "/// @param " + pn + " "
  }

  const ReturnsLine: string := "/// Returns: "

  function ParamLines(names: seq<string>): seq<string>
  {
    seq(|names|, i requires 0 <= i < |names| => ParamLine(names[i]))
  }

  /** The lines written for a method without a docblock. */
  function BlankLines(name: string, names: seq<string>, isVoid: bool): seq<string>
  {
    ["/// " + name, "///"] + ParamLines(names) + (if isVoid then [] else [ReturnsLine])
  }

  /** The three substring tests at line 126. */
  predicate MentionsReturn(docLower: string)
  {
    Contains(docLower, "returns") || Contains(docLower, "@return") || Contains(docLower, "return")
  }

  /** `pn` counts as documented when its lower-cased form occurs anywhere in
      the lower-cased docblock. */
  predicate Documented(docLower: string, pn: string)
  {
    Contains(docLower, Lower(pn))
  }

  /** The parameters the docblock does not document, in parameter order. */
  function MissingNames(docLower: string, names: seq<string>): seq<string>
  {
    if names == [] then []
    else
      var n := |names|;
      var rest := MissingNames(docLower, names[..n - 1]);
      rest + (if Documented(docLower, names[n - 1]) then [] else [names[n - 1]])
  }

  /** A name is missing exactly when it is a parameter the docblock does
      not document. */
  lemma {:induction false} MissingNamesMembers(docLower: string, names: seq<string>, x: string)
    ensures x in MissingNames(docLower, names) <==> x in names && !Documented(docLower, x)
    decreases |names|
  {
    if names != [] {
      var n := |names|;
      MissingNamesMembers(docLower, names[..n - 1], x);
      assert names == names[..n - 1] + [names[n - 1]];
    }
  }

  /** `injection` for a docblock whose lower-cased text is `docLower`. */
  function Injection(docLower: string, names: seq<string>, isVoid: bool): seq<string>
  {
    ParamLines(MissingNames(docLower, names))
    + (if !isVoid && !MentionsReturn(docLower) then [ReturnsLine] else [])
  }

  /** `insert_at`: after the first doc line, or 1 when there is none. */
  function InsertIndex(lines: seq<string>): (k: nat)
    ensures k >= 1
  {
    match FirstDocLine(lines)
    case Some(i) => i + 1
    case None => 1
  }

  /** The docblock's lines with `inj` spliced in at `insert_at`. */
  function SplicedLines(docblock: string, inj: seq<string>): seq<string>
  {
    var lines := SplitLines(docblock);
    SpliceAt(lines, InsertIndex(lines), inj)
  }

  /** `changed` is set for this docblock. */
  predicate NeedsDoc(docblock: string, names: seq<string>, isVoid: bool)
  {
    IsBlank(docblock) || Injection(Lower(docblock), names, isVoid) != []
  }

  /** The lines of the new block. */
  function BlockLines(docblock: string, name: string, names: seq<string>, isVoid: bool): seq<string>
  {
    if IsBlank(docblock) then BlankLines(name, names, isVoid)
    else SplicedLines(docblock, Injection(Lower(docblock), names, isVoid))
  }

  /** `newblock`: the text written in front of the signature when `changed`
      is set. */
  function NewBlock(docblock: string, name: string, names: seq<string>, isVoid: bool): string
  {
    Render(BlockLines(docblock, name, names, isVoid))
  }

  /** What `method_repl` returns for `m`: the signature, unchanged and
      alone when nothing is injected, otherwise preceded by the new block. */
  function MethodReplacement(m: MethodMatch): (r: Outcome)
    ensures var names := ParamNamesOf(m.params);
      r.setsChanged == NeedsDoc(m.docblock, names, IsVoid(m))
      && r.text == (if r.setsChanged then NewBlock(m.docblock, m.name, names, IsVoid(m)) else []) + m.fullSig
  {
    var names := ParamNamesOf(m.params);
    if Strip(m.docblock) == [] then Outcome(Render(BlankLines(m.name, names, IsVoid(m))) + m.fullSig, true)
    else
      var inj := Injection(Lower(m.docblock), names, IsVoid(m));
      if inj == [] then Outcome(m.fullSig, false)
      else Outcome(Render(SplicedLines(m.docblock, inj)) + m.fullSig, true)
  }

  // ---------------------------------------------------------------------
  // The loops of method_repl
  // ---------------------------------------------------------------------

  /** Lines 106-112: the block for a method without a docblock. */
  method BuildBlankLines(name: string, names: seq<string>, isVoid: bool) returns (lines: seq<string>)
    ensures lines == BlankLines(name, names, isVoid)
  {
    lines := ["/// " + name, "///"];
    var k := 0;
    while k < |names|
      invariant 0 <= k <= |names|
      invariant lines == ["/// " + name, "///"] + ParamLines(names[..k])
    {
      assert ParamLines(names[..k + 1]) == ParamLines(names[..k]) + [ParamLine(names[k])];
      lines := lines + [ParamLine(names[k])];
      k := k + 1;
    }
    assert names[..k] == names;
    if !isVoid {
      lines := lines + [ReturnsLine];
    }
  }

  /** Lines 118-128: the lines to inject, and `need_inject`. */
  method BuildInjection(docLower: string, names: seq<string>, isVoid: bool)
    returns (injection: seq<string>, needInject: bool)
    ensures injection == Injection(docLower, names, isVoid)
    ensures needInject == (injection != [])
  {
    needInject := false;
    injection := [];
    var k := 0;
    while k < |names|
      invariant 0 <= k <= |names|
      invariant injection == ParamLines(MissingNames(docLower, names[..k]))
      invariant needInject == (injection != [])
    {
      MissingNamesSnoc(docLower, names, k);
      if !Contains(docLower, Lower(names[k])) {
        injection := injection + [ParamLine(names[k])];
        needInject := true;
      }
      k := k + 1;
    }
    assert names[..k] == names;
    if !isVoid && !(Contains(docLower, "returns") || Contains(docLower, "@return") || Contains(docLower, "return")) {
      injection := injection + [ReturnsLine];
      needInject := true;
    }
  }

  lemma MissingNamesSnoc(docLower: string, names: seq<string>, k: nat)
    requires k < |names|
    ensures ParamLines(MissingNames(docLower, names[..k + 1]))
      == ParamLines(MissingNames(docLower, names[..k]))
         + (if Documented(docLower, names[k]) then [] else [ParamLine(names[k])])
  {
    assert names[..k + 1][..k] == names[..k];
    var missing := MissingNames(docLower, names[..k]);
    assert ParamLines(missing + [names[k]]) == ParamLines(missing) + [ParamLine(names[k])];
  }

  /** Lines 134-141: the splice after the first doc line. */
  method SpliceInjection(docblock: string, injection: seq<string>) returns (lines: seq<string>)
    ensures lines == SplicedLines(docblock, injection)
  {
    lines := SplitLines(docblock);
    var insertAt := 1;
    var first := FindFirstDocLine(lines);
    if first.Some? {
      insertAt := first.value + 1;
    }
    lines := SpliceAt(lines, insertAt, injection);
  }

  /** `method_repl` as the script runs it; `setsChanged` is whether it sets
      the `nonlocal changed` flag. */
  method MethodRepl(m: MethodMatch) returns (text: string, setsChanged: bool)
    ensures Outcome(text, setsChanged) == MethodReplacement(m)
  {
    var paramNames := SafeParamNames(m.params);
    var returnType := match m.retGroup case Some(g) => Strip(g) case None => "";
    var isVoid := returnType == "void" || returnType == "";
    assert isVoid == IsVoid(m);
    if Strip(m.docblock) == [] {
      var lines := BuildBlankLines(m.name, paramNames, isVoid);
      return Render(lines) + m.fullSig, true;
    }
    var injection, needInject := BuildInjection(Lower(m.docblock), paramNames, isVoid);
    if !needInject {
      return m.fullSig, false;
    }
    var lines := SpliceInjection(m.docblock, injection);
    return Render(lines) + m.fullSig, true;
  }

  // ---------------------------------------------------------------------
  // Which lines are injected
  // ---------------------------------------------------------------------

  lemma ParamLineInjective(a: string, b: string)
    requires ParamLine(a) == ParamLine(b)
    ensures a == b
  {
    assert a == ParamLine(a)[11..|ParamLine(a)| - 1];
    assert b == ParamLine(b)[11..|ParamLine(b)| - 1];
  }

  /** `ParamLine(pn)` is among the lines of `names` exactly when `pn` is
      among `names`. */
  lemma ParamLinesMember(names: seq<string>, pn: string)
    ensures ParamLine(pn) in ParamLines(names) <==> pn in names
  {
    if ParamLine(pn) in ParamLines(names) {
      var j :| 0 <= j < |names| && ParamLines(names)[j] == ParamLine(pn);
      ParamLineInjective(pn, names[j]);
    }
    if pn in names {
      var j :| 0 <= j < |names| && names[j] == pn;
      assert ParamLines(names)[j] == ParamLine(pn);
    }
  }

  lemma ReturnsLineNotParam(names: seq<string>)
    ensures ReturnsLine !in ParamLines(names)
  {
    forall j | 0 <= j < |names| ensures ParamLines(names)[j] != ReturnsLine {
      assert ParamLines(names)[j][4] == '@';
    }
  }

  /** The three tests at line 126 amount to one: `return` occurs. */
  lemma MentionsReturnIsReturn(d: string)
    ensures MentionsReturn(d) <==> Contains(d, "return")
  {
    if Contains(d, "returns") {
      var k: nat :| k <= |d| && IsAt(d, "returns", k);
      assert d[k..k + 6] == "returns"[..6];
      assert IsAt(d, "return", k);
    }
    if Contains(d, "@return") {
      var k: nat :| k <= |d| && IsAt(d, "@return", k);
      assert d[k + 1..k + 7] == "@return"[1..];
      assert IsAt(d, "return", k + 1);
    }
  }

  /** A parameter gets an `@param` line exactly when its lower-cased name
      occurs nowhere in the lower-cased docblock. */
  lemma ParamInjected(docLower: string, names: seq<string>, isVoid: bool, pn: string)
    requires pn in names
    ensures ParamLine(pn) in Injection(docLower, names, isVoid) <==> !Documented(docLower, pn)
  {
    MissingNamesMembers(docLower, names, pn);
    ParamLinesMember(MissingNames(docLower, names), pn);
    assert ParamLine(pn) != ReturnsLine by {
      assert ParamLine(pn)[4] == '@';
    }
  }

  /** `Returns:` is injected exactly when the method is not void and
      `return` occurs nowhere in the lower-cased docblock. */
  lemma ReturnsInjected(docLower: string, names: seq<string>, isVoid: bool)
    ensures ReturnsLine in Injection(docLower, names, isVoid) <==> !isVoid && !Contains(docLower, "return")
  {
    MentionsReturnIsReturn(docLower);
    ReturnsLineNotParam(MissingNames(docLower, names));
  }

  /** Nothing but those lines is injected, parameters first and in order. */
  lemma InjectionOrder(docLower: string, names: seq<string>, isVoid: bool, k: nat)
    requires k < |Injection(docLower, names, isVoid)|
    ensures var inj := Injection(docLower, names, isVoid);
      var missing := MissingNames(docLower, names);
      if k < |missing| then inj[k] == ParamLine(missing[k]) && missing[k] in names
      else inj[k] == ReturnsLine && k == |missing|
  {
    var missing := MissingNames(docLower, names);
    if k < |missing| {
      MissingNamesMembers(docLower, names, missing[k]);
    }
  }

  // ---------------------------------------------------------------------
  // The shape of the new block
  // ---------------------------------------------------------------------

  predicate AllIdents(names: seq<string>)
  {
    forall i | 0 <= i < |names| :: IsIdent(names[i])
  }

  /** Every name `safe_param_names` returns is an identifier. */
  lemma ParamNamesAreIdents(s: string)
    ensures AllIdents(ParamNamesOf(s))
  {
    forall i | 0 <= i < |ParamNamesOf(s)| ensures IsIdent(ParamNamesOf(s)[i]) {
      var _ := NamesAreIdents(s, i);
    }
  }

  lemma ParamLinesNoBreaks(names: seq<string>)
    requires AllIdents(names)
    ensures forall k | 0 <= k < |ParamLines(names)| :: NoBreaks(ParamLines(names)[k])
  {
    forall k | 0 <= k < |names| ensures NoBreaks(ParamLine(names[k])) {
      IdentCharsNoBreaks(names[k]);
    }
  }

  /** The block written for a method without a docblock reads back, line by
      line, as `/// name`, `///`, one `@param` line per parameter name in
      order, and `Returns:` exactly when the method is not void. */
  lemma BlankBlockLines(name: string, names: seq<string>, isVoid: bool)
    requires IsIdent(name) && AllIdents(names)
    ensures SplitLines(Render(BlankLines(name, names, isVoid)))
      == ["/// " + name, "///"] + ParamLines(names) + (if isVoid then [] else [ReturnsLine])
  {
    var lines := BlankLines(name, names, isVoid);
    IdentCharsNoBreaks(name);
    ParamLinesNoBreaks(names);
    forall i | 0 <= i < |lines| ensures NoBreaks(lines[i]) {
      if 2 <= i < 2 + |names| {
        assert lines[i] == ParamLines(names)[i - 2];
      }
    }
    SplitLinesRender(lines);
  }

  lemma InjectionNoBreaks(docLower: string, names: seq<string>, isVoid: bool)
    requires AllIdents(names)
    ensures forall k | 0 <= k < |Injection(docLower, names, isVoid)| :: NoBreaks(Injection(docLower, names, isVoid)[k])
  {
    var missing := MissingNames(docLower, names);
    assert AllIdents(missing) by {
      forall k | 0 <= k < |missing| ensures IsIdent(missing[k]) {
        MissingNamesMembers(docLower, names, missing[k]);
        var j :| 0 <= j < |names| && names[j] == missing[k];
      }
    }
    ParamLinesNoBreaks(missing);
  }

  /** The block written in front of a documented method reads back as the
      docblock's lines with the injected lines right after its first doc
      line, and the docblock's own lines in their order around them. */
  lemma InjectedAfterFirstDocLine(docblock: string, names: seq<string>, isVoid: bool, i: nat)
    requires AllIdents(names)
    requires FirstDocLine(SplitLines(docblock)) == Some(i)
    ensures var inj := Injection(Lower(docblock), names, isVoid);
      SplitLines(Render(SplicedLines(docblock, inj))) == SplicedLines(docblock, inj)
    ensures var lines := SplitLines(docblock);
      var inj := Injection(Lower(docblock), names, isVoid);
      var out := SplicedLines(docblock, inj);
      out[i] == lines[i]
      && out[i + 1..i + 1 + |inj|] == inj
      && out[..i + 1] + out[i + 1 + |inj|..] == lines
  {
    var lines := SplitLines(docblock);
    var inj := Injection(Lower(docblock), names, isVoid);
    assert SplicedLines(docblock, inj) == SpliceAt(lines, i + 1, inj);
    InjectionNoBreaks(Lower(docblock), names, isVoid);
    SplicedReadBack(lines, inj, i);
  }

  /** As written, the match covers only the signature, so the docblock above
      it stays in the text, and the new block written between it and the
      signature repeats every one of its lines. */
  lemma InjectedBlockRepeatsDocblock(m: MethodMatch, line: string)
    requires !IsBlank(m.docblock) && MethodReplacement(m).setsChanged
    requires line in SplitLines(m.docblock)
    ensures Contains(MethodReplacement(m).text, line)
  {
    var names := ParamNamesOf(m.params);
    var inj := Injection(Lower(m.docblock), names, IsVoid(m));
    var lines := SplitLines(m.docblock);
    var spliced := SplicedLines(m.docblock, inj);
    SpliceMembers(lines, InsertIndex(lines), inj, line);
    var j :| 0 <= j < |spliced| && spliced[j] == line;
    RenderContainsLine(spliced, j);
    ContainsLeft(Render(spliced), m.fullSig, line);
  }

  // ---------------------------------------------------------------------
  // Idempotence
  // ---------------------------------------------------------------------

  /** An occurrence inside one line of a block stays visible, lower-cased,
      in any docblock that contains the rendered block. */
  lemma LineSeen(lines: seq<string>, line: string, doc: string, w: string)
    requires line in lines && Contains(doc, Render(lines))
    requires Contains(Lower(line), w)
    ensures Contains(Lower(doc), w)
  {
    var i :| 0 <= i < |lines| && lines[i] == line;
    RenderContainsLine(lines, i);
    ContainsTrans(doc, Render(lines), line);
    LowerContains(doc, line);
    ContainsTrans(Lower(doc), Lower(line), w);
  }

  lemma ParamLineNames(pn: string)
    ensures Contains(Lower(ParamLine(pn)), Lower(pn))
  {
    assert IsAt(ParamLine(pn), pn, 11);
    LowerContains(ParamLine(pn), pn);
  }

  lemma ReturnsLineMentions()
    ensures Contains(Lower(ReturnsLine), "return")
  {
    assert Lower(ReturnsLine)[4..10] == "return";
    assert IsAt(Lower(ReturnsLine), "return", 4);
  }

  lemma {:induction false} MissingNone(dl: string, names: seq<string>)
    requires forall i | 0 <= i < |names| :: Documented(dl, names[i])
    ensures MissingNames(dl, names) == []
    decreases |names|
  {
    if names != [] {
      MissingNone(dl, names[..|names| - 1]);
    }
  }

  /** Every occurrence within one line of the docblock is seen again by a
      re-run whose docblock contains the new block. */
  lemma RerunSeesDoc(docblock: string, names: seq<string>, isVoid: bool, doc2: string, w: string)
    requires !IsBlank(docblock)
    requires Contains(doc2, Render(SplicedLines(docblock, Injection(Lower(docblock), names, isVoid))))
    requires |w| > 0 && NoBreaks(w) && Contains(Lower(docblock), w)
    ensures Contains(Lower(doc2), w)
  {
    var lines := SplitLines(docblock);
    var inj := Injection(Lower(docblock), names, isVoid);
    var i := ContainsLowerInLine(docblock, w);
    SpliceMembers(lines, InsertIndex(lines), inj, lines[i]);
    LineSeen(SplicedLines(docblock, inj), lines[i], doc2, w);
  }

  lemma LineOfBlock(docblock: string, name: string, names: seq<string>, isVoid: bool, line: string)
    requires if IsBlank(docblock) then line in BlankLines(name, names, isVoid)
      else line in Injection(Lower(docblock), names, isVoid)
    ensures line in BlockLines(docblock, name, names, isVoid)
  {
    if !IsBlank(docblock) {
      var lines := SplitLines(docblock);
      SpliceMembers(lines, InsertIndex(lines), Injection(Lower(docblock), names, isVoid), line);
    }
  }

  /** A text whose lower-cased form holds a `/` is not blank. */
  lemma SlashNotBlank(s: string)
    requires Contains(Lower(s), "/")
    ensures !IsBlank(s)
  {
    var k: nat :| k <= |Lower(s)| && IsAt(Lower(s), "/", k);
    assert LowerChar(s[k]) == '/';
  }

  lemma SlashLine(line: string)
    requires |line| > 0 && line[0] == '/'
    ensures Contains(Lower(line), "/")
  {
    assert IsAt(line, "/", 0);
    LowerContains(line, "/");
    assert Lower("/") == "/";
  }

  lemma BlockNotBlank(docblock: string, name: string, names: seq<string>, isVoid: bool, doc2: string)
    requires NeedsDoc(docblock, names, isVoid)
    requires Contains(doc2, NewBlock(docblock, name, names, isVoid))
    ensures !IsBlank(doc2)
  {
    var block := BlockLines(docblock, name, names, isVoid);
    var line: string;
    if IsBlank(docblock) {
      line := "///";
      assert block[1] == line;
    } else {
      var inj := Injection(Lower(docblock), names, isVoid);
      InjectionOrder(Lower(docblock), names, isVoid, 0);
      line := inj[0];
      LineOfBlock(docblock, name, names, isVoid, line);
    }
    SlashLine(line);
    LineSeen(block, line, doc2, "/");
    SlashNotBlank(doc2);
  }

  /** A line of the block, and what it holds, is seen by the re-run. */
  lemma BlockLineSeen(docblock: string, name: string, names: seq<string>, isVoid: bool, doc2: string, line: string, w: string)
    requires Contains(doc2, NewBlock(docblock, name, names, isVoid))
    requires if IsBlank(docblock) then line in BlankLines(name, names, isVoid)
      else line in Injection(Lower(docblock), names, isVoid)
    requires Contains(Lower(line), w)
    ensures Contains(Lower(doc2), w)
  {
    LineOfBlock(docblock, name, names, isVoid, line);
    LineSeen(BlockLines(docblock, name, names, isVoid), line, doc2, w);
  }

  /** A re-run documents every parameter the first run looked for. */
  lemma RerunParamDocumented(docblock: string, name: string, names: seq<string>, isVoid: bool, doc2: string, i: nat)
    requires AllIdents(names) && i < |names|
    requires Contains(doc2, NewBlock(docblock, name, names, isVoid))
    ensures Documented(Lower(doc2), names[i])
  {
    if IsBlank(docblock) {
      BlankParamSeen(docblock, name, names, isVoid, doc2, i);
    } else if Documented(Lower(docblock), names[i]) {
      DocumentedParamSeen(docblock, name, names, isVoid, doc2, i);
    } else {
      InjectedParamSeen(docblock, name, names, isVoid, doc2, i);
    }
  }

  /** Without a docblock: the parameter's own `@param` line names it. */
  lemma BlankParamSeen(docblock: string, name: string, names: seq<string>, isVoid: bool, doc2: string, i: nat)
    requires IsBlank(docblock) && i < |names|
    requires Contains(doc2, NewBlock(docblock, name, names, isVoid))
    ensures Documented(Lower(doc2), names[i])
  {
    var pn := names[i];
    ParamLineNames(pn);
    assert BlankLines(name, names, isVoid)[2 + i] == ParamLine(pn);
    BlockLineSeen(docblock, name, names, isVoid, doc2, ParamLine(pn), Lower(pn));
  }

  /** Documented already: the docblock line that names it is kept. */
  lemma DocumentedParamSeen(docblock: string, name: string, names: seq<string>, isVoid: bool, doc2: string, i: nat)
    requires AllIdents(names) && i < |names| && !IsBlank(docblock)
    requires Documented(Lower(docblock), names[i])
    requires Contains(doc2, NewBlock(docblock, name, names, isVoid))
    ensures Documented(Lower(doc2), names[i])
  {
    DocumentedWordSeen(docblock, name, names, isVoid, doc2, Lower(names[i]));
  }

  /** Not documented: its `@param` line is injected. */
  lemma InjectedParamSeen(docblock: string, name: string, names: seq<string>, isVoid: bool, doc2: string, i: nat)
    requires i < |names| && !IsBlank(docblock)
    requires !Documented(Lower(docblock), names[i])
    requires Contains(doc2, NewBlock(docblock, name, names, isVoid))
    ensures Documented(Lower(doc2), names[i])
  {
    var pn := names[i];
    ParamLineNames(pn);
    ParamInjected(Lower(docblock), names, isVoid, pn);
    BlockLineSeen(docblock, name, names, isVoid, doc2, ParamLine(pn), Lower(pn));
  }

  /** A re-run of a method that is not void finds `return`. */
  lemma RerunReturnMentioned(docblock: string, name: string, names: seq<string>, isVoid: bool, doc2: string)
    requires !isVoid
    requires Contains(doc2, NewBlock(docblock, name, names, isVoid))
    ensures MentionsReturn(Lower(doc2))
  {
    MentionsReturnIsReturn(Lower(doc2));
    if IsBlank(docblock) {
      BlankReturnSeen(docblock, name, names, doc2);
    } else if Contains(Lower(docblock), "return") {
      ReturnIsWord();
      DocumentedWordSeen(docblock, name, names, false, doc2, "return");
    } else {
      InjectedReturnSeen(docblock, name, names, doc2);
    }
  }

  lemma BlankReturnSeen(docblock: string, name: string, names: seq<string>, doc2: string)
    requires IsBlank(docblock)
    requires Contains(doc2, NewBlock(docblock, name, names, false))
    ensures Contains(Lower(doc2), "return")
  {
    ReturnsLineMentions();
    assert BlankLines(name, names, false)[|BlankLines(name, names, false)| - 1] == ReturnsLine;
    BlockLineSeen(docblock, name, names, false, doc2, ReturnsLine, "return");
  }

  /** A word of a non-blank docblock is seen again in any text holding the
      block written from it. */
  lemma DocumentedWordSeen(docblock: string, name: string, names: seq<string>, isVoid: bool, doc2: string, w: string)
    requires !IsBlank(docblock) && |w| > 0 && NoBreaks(w) && Contains(Lower(docblock), w)
    requires Contains(doc2, NewBlock(docblock, name, names, isVoid))
    ensures Contains(Lower(doc2), w)
  {
    var dl := Lower(docblock);
    assert NewBlock(docblock, name, names, isVoid)
      == Render(SplicedLines(docblock, Injection(dl, names, isVoid)));
    RerunSeesDoc(docblock, names, isVoid, doc2, w);
  }

  /** `return` is a non-empty word within one line. */
  lemma ReturnIsWord()
    ensures |"return"| > 0 && NoBreaks("return")
  {
  }

  lemma InjectedReturnSeen(docblock: string, name: string, names: seq<string>, doc2: string)
    requires !IsBlank(docblock) && !Contains(Lower(docblock), "return")
    requires Contains(doc2, NewBlock(docblock, name, names, false))
    ensures Contains(Lower(doc2), "return")
  {
    ReturnsLineMentions();
    ReturnsInjected(Lower(docblock), names, false);
    BlockLineSeen(docblock, name, names, false, doc2, ReturnsLine, "return");
  }

  /** Idempotence of the method decision: a docblock that contains the block
      written for the same parameters is non-blank and gets nothing
      injected. */
  lemma RerunInjectsNothing(docblock: string, name: string, names: seq<string>, isVoid: bool, doc2: string)
    requires AllIdents(names) && NeedsDoc(docblock, names, isVoid)
    requires Contains(doc2, NewBlock(docblock, name, names, isVoid))
    ensures !NeedsDoc(doc2, names, isVoid)
  {
    BlockNotBlank(docblock, name, names, isVoid, doc2);
    forall i | 0 <= i < |names| ensures Documented(Lower(doc2), names[i]) {
      RerunParamDocumented(docblock, name, names, isVoid, doc2, i);
    }
    MissingNone(Lower(doc2), names);
    if !isVoid {
      RerunReturnMentioned(docblock, name, names, isVoid, doc2);
    }
  }

  /** ... so the re-run of `method_repl` on the same signature, whose
      docblock search finds the block written the first time, gives the
      signature back unchanged and leaves `changed` alone. */
  lemma RerunAddsNothing(m: MethodMatch, m2: MethodMatch)
    requires MethodReplacement(m).setsChanged
    requires m2.params == m.params && m2.retGroup == m.retGroup
    requires Contains(m2.docblock, NewBlock(m.docblock, m.name, ParamNamesOf(m.params), IsVoid(m)))
    ensures MethodReplacement(m2) == Outcome(m2.fullSig, false)
  {
    ParamNamesAreIdents(m.params);
    assert IsVoid(m2) == IsVoid(m);
    RerunInjectsNothing(m.docblock, m.name, ParamNamesOf(m.params), IsVoid(m), m2.docblock);
  }
}
