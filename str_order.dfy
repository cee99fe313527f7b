/** Python's ordering of `str` values (lexicographic by code point), and
    `sorted(...)` of a set of strings. */
module StrOrder {

  /** `a < b` on Python strings. */
  predicate Below(a: string, b: string)
  {
    if a == [] then b != []
    else if b == [] then false
    else if a[0] != b[0] then a[0] < b[0]
    else Below(a[1..], b[1..])
  }

  lemma {:induction false} BelowIrreflexive(a: string)
    ensures !Below(a, a)
  {
    if a != [] {
      BelowIrreflexive(a[1..]);
    }
  }

  lemma {:induction false} BelowTransitive(a: string, b: string, c: string)
    requires Below(a, b) && Below(b, c)
    ensures Below(a, c)
  {
    if a != [] && b != [] && c != [] && a[0] == b[0] && b[0] == c[0] {
      BelowTransitive(a[1..], b[1..], c[1..]);
    }
  }

  lemma {:induction false} BelowTotal(a: string, b: string)
    requires a != b
    ensures Below(a, b) || Below(b, a)
  {
    if a != [] && b != [] && a[0] == b[0] {
      assert a == [a[0]] + a[1..] && b == [b[0]] + b[1..];
      BelowTotal(a[1..], b[1..]);
    }
  }

  lemma BelowAsymmetric(a: string, b: string)
    requires Below(a, b)
    ensures !Below(b, a)
  {
    if Below(b, a) {
      BelowTransitive(a, b, a);
      BelowIrreflexive(a);
    }
  }

  /** Strictly ascending, hence also free of duplicates. */
  predicate StrictlySorted(xs: seq<string>)
  {
    forall i, j | 0 <= i < j < |xs| :: Below(xs[i], xs[j])
  }

  /** Inserting `x` into a strictly sorted sequence at its place, unless it is
      already there. */
  function Insert(x: string, xs: seq<string>): (r: seq<string>)
    requires StrictlySorted(xs)
    ensures StrictlySorted(r)
    ensures forall y :: y in r <==> y == x || y in xs
  {
    if xs == [] then [x]
    else if x == xs[0] then xs
    else if Below(x, xs[0]) then
      assert forall j | 0 < j < |xs| :: Below(x, xs[j]) by {
        forall j | 0 < j < |xs| ensures Below(x, xs[j]) {
          BelowTransitive(x, xs[0], xs[j]);
        }
      }
      [x] + xs
    else
      BelowTotal(x, xs[0]);
      var rest := Insert(x, xs[1..]);
      assert forall y | y in rest :: Below(xs[0], y) by {
        forall y | y in rest ensures Below(xs[0], y) {
          if y != x {
            var j :| 1 <= j < |xs| && xs[j] == y;
          }
        }
      }
      [xs[0]] + rest
  }

  /** `sorted(s)` for a set of strings. */
  method SortedListing(s: set<string>) returns (r: seq<string>)
    ensures StrictlySorted(r)
    ensures forall x :: x in r <==> x in s
    ensures |r| == |s|
  {
    r := [];
    var rest := s;
    while rest != {}
      invariant StrictlySorted(r)
      invariant forall x :: x in r <==> x in s && x !in rest
      invariant rest <= s
      decreases |rest|
    {
      var x :| x in rest;
      r := Insert(x, r);
      rest := rest - {x};
    }
    SortedLength(r, s);
  }

  /** A strictly sorted sequence holding the elements of `s` has `|s|`
      elements. */
  lemma {:induction false} SortedLength(r: seq<string>, s: set<string>)
    requires StrictlySorted(r)
    requires forall x :: x in r <==> x in s
    ensures |r| == |s|
    decreases |r|
  {
    if r != [] {
      var x := r[|r| - 1];
      var r' := r[..|r| - 1];
      assert x !in r' by {
        forall j | 0 <= j < |r'| ensures r'[j] != x {
          assert Below(r[j], r[|r| - 1]);
          BelowIrreflexive(x);
        }
      }
      assert forall y :: y in r' <==> y in s - {x} by {
        forall y ensures y in r' <==> y in s - {x} {
          if y in r' {
            var j :| 0 <= j < |r'| && r'[j] == y;
            assert r[j] == y;
          }
          if y in r && y != x {
            var j :| 0 <= j < |r| && r[j] == y;
            assert j < |r| - 1;
            assert r'[j] == y;
          }
        }
      }
      SortedLength(r', s - {x});
    } else {
      assert forall x :: x !in s;
      assert s == {};
    }
  }

  /** Sorting determines the result: two strictly sorted sequences of the
      same elements are equal. */
  lemma {:induction false} SortedUnique(xs: seq<string>, ys: seq<string>)
    requires StrictlySorted(xs) && StrictlySorted(ys)
    requires forall z :: z in xs <==> z in ys
    ensures xs == ys
    decreases |xs|
  {
    var elems := set z | z in xs;
    SortedLength(xs, elems);
    SortedLength(ys, elems);
    if xs != [] {
      if xs[0] != ys[0] {
        BelowTotal(xs[0], ys[0]);
        if Below(xs[0], ys[0]) {
          NotBelowHead(ys, xs[0]);
        } else {
          NotBelowHead(xs, ys[0]);
        }
      }
      assert forall z :: z in xs[1..] <==> z in ys[1..] by {
        forall z ensures z in xs[1..] <==> z in ys[1..] {
          TailMembers(xs, z);
          TailMembers(ys, z);
        }
      }
      SortedUnique(xs[1..], ys[1..]);
      assert xs == [xs[0]] + xs[1..] && ys == [ys[0]] + ys[1..];
    }
  }

  /** Nothing in a strictly sorted sequence is below its head. */
  lemma NotBelowHead(xs: seq<string>, z: string)
    requires StrictlySorted(xs) && xs != [] && Below(z, xs[0])
    ensures z !in xs
  {
    if z in xs {
      var j :| 0 <= j < |xs| && xs[j] == z;
      if j == 0 {
        BelowIrreflexive(z);
      } else {
        BelowAsymmetric(z, xs[0]);
      }
    }
  }

  /** The tail of a strictly sorted sequence holds everything but the head. */
  lemma TailMembers(xs: seq<string>, z: string)
    requires StrictlySorted(xs) && xs != []
    ensures z in xs[1..] <==> z in xs && z != xs[0]
  {
    if z in xs[1..] {
      var j :| 0 <= j < |xs[1..]| && xs[1..][j] == z;
      assert Below(xs[0], xs[j + 1]);
      BelowIrreflexive(z);
    }
    if z in xs && z != xs[0] {
      var j :| 0 <= j < |xs| && xs[j] == z;
      assert xs[1..][j - 1] == z;
    }
  }
}
