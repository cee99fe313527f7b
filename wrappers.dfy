/** The optional value used wherever the scripts test a regex match object or a
    value that may be missing against None. */
module Wrappers {

  datatype Option<T> = None | Some(value: T) {

    /** The value, or `default` when there is none (`x if x else default`). */
    function GetOr(default: T): T
    {
      match this
      case Some(v) => v
      case None => default
    }
  }

  /** The values of the `Some` entries, in order. */
  function Somes<T>(opts: seq<Option<T>>): (xs: seq<T>)
    ensures |xs| <= |opts|
  {
    if opts == [] then []
    else
      var last := opts[|opts| - 1];
      Somes(opts[..|opts| - 1]) + (if last.Some? then [last.value] else [])
  }

  /** Keeping the `Some` entries of one more option. */
  lemma SomesSnoc<T>(opts: seq<Option<T>>, k: nat)
    requires k < |opts|
    ensures Somes(opts[..k + 1]) == Somes(opts[..k]) + if opts[k].Some? then [opts[k].value] else []
  {
    assert opts[..k + 1][..k] == opts[..k];
  }

  /** Keeping the `Some` entries preserves their order: it distributes over
      concatenation. */
  lemma {:induction false} SomesConcat<T>(a: seq<Option<T>>, b: seq<Option<T>>)
    ensures Somes(a + b) == Somes(a) + Somes(b)
    decreases |b|
  {
    if b == [] {
      assert a + b == a;
    } else {
      var b' := b[..|b| - 1];
      SomesConcat(a, b');
      assert (a + b)[..|a + b| - 1] == a + b';
    }
  }

  /** Every kept value comes from some entry ... */
  lemma {:induction false} SomeSource<T>(opts: seq<Option<T>>, i: nat) returns (j: nat)
    requires i < |Somes(opts)|
    ensures j < |opts| && opts[j] == Some(Somes(opts)[i])
    decreases |opts|
  {
    var init := opts[..|opts| - 1];
    if i < |Somes(init)| {
      j := SomeSource(init, i);
    } else {
      j := |opts| - 1;
    }
  }

  /** ... and every `Some` entry is kept. */
  lemma {:induction false} SomeKept<T>(opts: seq<Option<T>>, j: nat)
    requires j < |opts| && opts[j].Some?
    ensures opts[j].value in Somes(opts)
    decreases |opts|
  {
    var init := opts[..|opts| - 1];
    if j < |opts| - 1 {
      SomeKept(init, j);
    }
  }
}
