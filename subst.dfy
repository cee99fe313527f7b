/** `pattern.sub(repl, text)` for a callable `repl`, with the regex engine
    left out: the text is given already cut into the stretches no match
    touched (`Plain`) and the matches (`Hit`), in order.  Each match is a
    record of its capture groups; `Span` gives the text it covers. */
module Substitution {

  datatype Chunk<M> = Plain(text: string) | Hit(m: M)

  /** What a replacement callable returns, and whether it sets the flag
      the script keeps beside the substitution. */
  datatype Outcome = Outcome(text: string, setsChanged: bool)

  /** The text the chunks were cut from. */
  function Source<M>(chunks: seq<Chunk<M>>, span: M -> string): string
  {
    if chunks == [] then []
    else
      var last := chunks[|chunks| - 1];
      Source(chunks[..|chunks| - 1], span)
      + (match last case Plain(t) => t case Hit(m) => span(m))
  }

  /** The result of the substitution: every match replaced by `repl` of it. */
  function Output<M>(chunks: seq<Chunk<M>>, repl: M -> string): string
  {
    if chunks == [] then []
    else
      var last := chunks[|chunks| - 1];
      Output(chunks[..|chunks| - 1], repl)
      + (match last case Plain(t) => t case Hit(m) => repl(m))
  }

  /** Some match makes `p` true: what a flag set inside `repl` records. */
  predicate AnyHit<M>(chunks: seq<Chunk<M>>, p: M -> bool)
  {
    exists i | 0 <= i < |chunks| :: chunks[i].Hit? && p(chunks[i].m)
  }

  /** A replacement that gives every match back unchanged leaves the text
      unchanged. */
  lemma {:induction false} OutputIdentity<M>(chunks: seq<Chunk<M>>, span: M -> string, repl: M -> string)
    requires forall i | 0 <= i < |chunks| :: chunks[i].Hit? ==> repl(chunks[i].m) == span(chunks[i].m)
    ensures Output(chunks, repl) == Source(chunks, span)
    decreases |chunks|
  {
    if chunks != [] {
      OutputIdentity(chunks[..|chunks| - 1], span, repl);
    }
  }

  /** The substitution works chunk by chunk: it distributes over
      concatenation. */
  lemma {:induction false} OutputConcat<M>(a: seq<Chunk<M>>, b: seq<Chunk<M>>, repl: M -> string)
    ensures Output(a + b, repl) == Output(a, repl) + Output(b, repl)
    decreases |b|
  {
    if b == [] {
      assert a + b == a;
    } else {
      OutputConcat(a, b[..|b| - 1], repl);
      assert (a + b)[..|a + b| - 1] == a + b[..|b| - 1];
    }
  }

  lemma {:induction false} SourceConcat<M>(a: seq<Chunk<M>>, b: seq<Chunk<M>>, span: M -> string)
    ensures Source(a + b, span) == Source(a, span) + Source(b, span)
    decreases |b|
  {
    if b == [] {
      assert a + b == a;
    } else {
      SourceConcat(a, b[..|b| - 1], span);
      assert (a + b)[..|a + b| - 1] == a + b[..|b| - 1];
    }
  }

  /** `pattern.sub(repl, text)` where `repl` also reports a flag. */
  function PassText<M>(chunks: seq<Chunk<M>>, repl: M -> Outcome): string
  {
    Output(chunks, m => repl(m).text)
  }

  /** Whether some call of `repl` during the substitution set the flag. */
  predicate PassChanged<M>(chunks: seq<Chunk<M>>, repl: M -> Outcome)
  {
    AnyHit(chunks, m => repl(m).setsChanged)
  }

  /** A substitution none of whose calls sets the flag returns the text
      unchanged when each such call gives its match back as it found it. */
  lemma UnflaggedPass<M>(chunks: seq<Chunk<M>>, span: M -> string, repl: M -> Outcome)
    requires forall m :: !repl(m).setsChanged ==> repl(m).text == span(m)
    requires !PassChanged(chunks, repl)
    ensures PassText(chunks, repl) == Source(chunks, span)
  {
    OutputIdentity(chunks, span, m => repl(m).text);
  }

  /** A substitution with no match returns its text and sets no flag. */
  lemma NoHitPass<M>(chunks: seq<Chunk<M>>, span: M -> string, repl: M -> Outcome)
    requires forall i | 0 <= i < |chunks| :: chunks[i].Plain?
    ensures PassText(chunks, repl) == Source(chunks, span)
    ensures !PassChanged(chunks, repl)
  {
    OutputIdentity(chunks, span, m => repl(m).text);
  }
}
