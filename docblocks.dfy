/** What the two passes of insert_business_rules.py do with the lines of an
    existing `///` docblock: find the first line whose stripped form starts
    with `///` (`scripts/insert_business_rules.py:136-139, 205-207`) and
    splice extra lines in right after it with `lines[i:i] = new_lines`. */
module DocBlocks {
  import opened Wrappers
  import opened PyText

  /** `ln.strip().startswith('///')`. */
  predicate IsDocLine(ln: string)
  {
    StartsWith(Strip(ln), "///")
  }

  /** The index of the first `true` flag. */
  function FirstTrue(flags: seq<bool>): (r: Option<nat>)
    ensures r.Some? ==> r.value < |flags| && flags[r.value]
  {
    if flags == [] then None
    else if flags[0] then Some(0)
    else match FirstTrue(flags[1..])
      case None => None
      case Some(i) => Some(i + 1)
  }

  /** No flag before the one found is set; when none is found, none is. */
  lemma {:induction false} FirstTrueEarliest(flags: seq<bool>)
    ensures FirstTrue(flags).Some? ==> forall j | 0 <= j < FirstTrue(flags).value :: !flags[j]
    ensures FirstTrue(flags).None? ==> forall j | 0 <= j < |flags| :: !flags[j]
    decreases |flags|
  {
    if flags != [] && !flags[0] {
      FirstTrueEarliest(flags[1..]);
    }
  }

  lemma {:induction false} FirstTrueUnique(flags: seq<bool>, i: nat)
    requires i < |flags| && flags[i]
    requires forall j | 0 <= j < i :: !flags[j]
    ensures FirstTrue(flags) == Some(i)
    decreases i
  {
    if i > 0 {
      FirstTrueUnique(flags[1..], i - 1);
    }
  }

  lemma {:induction false} FirstTrueNone(flags: seq<bool>)
    requires forall j | 0 <= j < |flags| :: !flags[j]
    ensures FirstTrue(flags) == None
    decreases |flags|
  {
    if flags != [] {
      FirstTrueNone(flags[1..]);
    }
  }

  /** The index of the first doc line. */
  function FirstDocLine(lines: seq<string>): (r: Option<nat>)
    ensures r.Some? ==> r.value < |lines| && IsDocLine(lines[r.value])
  {
    FirstTrue(MapSeq(lines, IsDocLine))
  }

  /** No line before the one found is a doc line; when none is found, no
      line is. */
  lemma FirstDocLineEarliest(lines: seq<string>)
    ensures FirstDocLine(lines).Some? ==> forall j | 0 <= j < FirstDocLine(lines).value :: !IsDocLine(lines[j])
    ensures FirstDocLine(lines).None? ==> forall j | 0 <= j < |lines| :: !IsDocLine(lines[j])
  {
    FirstTrueEarliest(MapSeq(lines, IsDocLine));
  }

  /** The `for i, ln in enumerate(lines): if ...: break` search. */
  method FindFirstDocLine(lines: seq<string>) returns (r: Option<nat>)
    ensures r == FirstDocLine(lines)
  {
    var i := 0;
    while i < |lines|
      invariant 0 <= i <= |lines|
      invariant forall j | 0 <= j < i :: !IsDocLine(lines[j])
    {
      if StartsWith(Strip(lines[i]), "///") {
        FirstDocLineUnique(lines, i);
        return Some(i);
      }
      i := i + 1;
    }
    FirstDocLineNone(lines);
    return None;
  }

  /** The search result is determined by where the doc lines are. */
  lemma FirstDocLineUnique(lines: seq<string>, i: nat)
    requires i < |lines| && IsDocLine(lines[i])
    requires forall j | 0 <= j < i :: !IsDocLine(lines[j])
    ensures FirstDocLine(lines) == Some(i)
  {
    FirstTrueUnique(MapSeq(lines, IsDocLine), i);
  }

  lemma FirstDocLineNone(lines: seq<string>)
    requires forall j | 0 <= j < |lines| :: !IsDocLine(lines[j])
    ensures FirstDocLine(lines) == None
  {
    FirstTrueNone(MapSeq(lines, IsDocLine));
  }

  /** `lines[at:at] = extra` for `at >= 0`: Python clamps `at` to `len(lines)`. */
  function SpliceAt(lines: seq<string>, at: nat, extra: seq<string>): (r: seq<string>)
    ensures |r| == |lines| + |extra|
  {
    var k := if at <= |lines| then at else |lines|;
    lines[..k] + extra + lines[k..]
  }

  /** Spliced in after line `i`, the extra lines follow it, line `i` keeps
      its place, and removing them gives the original lines back in order. */
  lemma SpliceAfter(lines: seq<string>, i: nat, extra: seq<string>)
    requires i < |lines|
    ensures var r := SpliceAt(lines, i + 1, extra);
      r[i] == lines[i]
      && r[i + 1..i + 1 + |extra|] == extra
      && r[..i + 1] + r[i + 1 + |extra|..] == lines
  {
    var r := SpliceAt(lines, i + 1, extra);
    assert r == lines[..i + 1] + extra + lines[i + 1..];
    assert r[..i + 1] == lines[..i + 1];
    assert r[i + 1 + |extra|..] == lines[i + 1..];
    assert lines[..i + 1] + lines[i + 1..] == lines;
  }

  /** Every line of the splice result is an original line or a extra one. */
  lemma SpliceMembers(lines: seq<string>, at: nat, extra: seq<string>, x: string)
    ensures x in SpliceAt(lines, at, extra) <==> x in lines || x in extra
  {
    var k := if at <= |lines| then at else |lines|;
    assert lines == lines[..k] + lines[k..];
  }

  lemma SpliceNoBreaks(lines: seq<string>, at: nat, extra: seq<string>)
    requires forall k | 0 <= k < |lines| :: NoBreaks(lines[k])
    requires forall k | 0 <= k < |extra| :: NoBreaks(extra[k])
    ensures forall k | 0 <= k < |SpliceAt(lines, at, extra)| :: NoBreaks(SpliceAt(lines, at, extra)[k])
  {
    forall k | 0 <= k < |SpliceAt(lines, at, extra)| ensures NoBreaks(SpliceAt(lines, at, extra)[k]) {
      var x := SpliceAt(lines, at, extra)[k];
      SpliceMembers(lines, at, extra, x);
    }
  }

  /** Lines spliced in after line `i` of boundary-free lines read back
      as written: after line `i`, with the other lines in their order
      around them. */
  lemma SplicedReadBack(lines: seq<string>, inj: seq<string>, i: nat)
    requires i < |lines|
    requires forall k | 0 <= k < |lines| :: NoBreaks(lines[k])
    requires forall k | 0 <= k < |inj| :: NoBreaks(inj[k])
    ensures SplitLines(Render(SpliceAt(lines, i + 1, inj))) == SpliceAt(lines, i + 1, inj)
    ensures var out := SpliceAt(lines, i + 1, inj);
      out[i] == lines[i]
      && out[i + 1..i + 1 + |inj|] == inj
      && out[..i + 1] + out[i + 1 + |inj|..] == lines
  {
    SpliceNoBreaks(lines, i + 1, inj);
    SplitLinesRender(SpliceAt(lines, i + 1, inj));
    SpliceAfter(lines, i, inj);
  }
}
