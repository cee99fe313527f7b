/** A JSON document, as the parser reads it and as `json.load` hands it
    over.  An object keeps its members in order; everything that is not an
    object (strings, numbers, lists, booleans, null) is a leaf whose inside
    the scripts never look at.  Parsing the text is not part of this model:
    a parsed document may name a key twice in one object, and `Load` is
    what `json.load` then makes of it. */
module JsonValue {
  import opened Wrappers

  datatype Value =
    | Object(members: seq<(string, Value)>)
    | Leaf(text: string)

  /** The members of an object as a dict holds them: no key occurs twice. */
  predicate DistinctKeys(members: seq<(string, Value)>)
  {
    forall i, j | 0 <= i < j < |members| :: members[i].0 != members[j].0
  }

  /** Some member has key `k`. */
  predicate HasKey(members: seq<(string, Value)>, k: string)
  {
    exists i | 0 <= i < |members| :: members[i].0 == k
  }

  /** `d[k]` of a dict held as its items, `None` for a missing key. */
  function Get(d: seq<(string, Value)>, k: string): Option<Value>
  {
    if d == [] then None
    else if d[0].0 == k then Some(d[0].1)
    else Get(d[1..], k)
  }

  /** The value of the last member named `k`, if any. */
  function Last(members: seq<(string, Value)>, k: string): Option<Value>
  {
    if members == [] then None
    else if members[|members| - 1].0 == k then Some(members[|members| - 1].1)
    else Last(members[..|members| - 1], k)
  }

  /** `d[k] = v` on a dict held as its items in insertion order: a key
      already there keeps its place and takes the new value; a new key goes
      last. */
  function Put(d: seq<(string, Value)>, k: string, v: Value): (r: seq<(string, Value)>)
    ensures |r| <= |d| + 1
  {
    if d == [] then [(k, v)]
    else if d[0].0 == k then [(k, v)] + d[1..]
    else [d[0]] + Put(d[1..], k, v)
  }

  /** The dict the decoder builds from an object's members: a repeated key
      stays at the place of its first occurrence with the value of its
      last. */
  function DictOf(members: seq<(string, Value)>): (r: seq<(string, Value)>)
    ensures |r| <= |members|
  {
    if members == [] then []
    else
      var (k, v) := members[|members| - 1];
      Put(DictOf(members[..|members| - 1]), k, v)
  }

  /** `json.load`: every object of the parsed document, at any depth, made
      a dict. */
  function Load(v: Value): Value
    decreases v, 1
  {
    match v
    case Leaf(_) => v
    case Object(ms) => Object(DictOf(LoadMembers(v, |ms|)))
  }

  /** The first `n` members of the object `v`, each value loaded. */
  function LoadMembers(v: Value, n: nat): (r: seq<(string, Value)>)
    requires v.Object? && n <= |v.members|
    ensures |r| == n && forall i | 0 <= i < n :: r[i].0 == v.members[i].0
    decreases v, 0, n
  {
    if n == 0 then []
    else
      var (k, x) := v.members[n - 1];
      assert v.members[n - 1].1 < v;
      LoadMembers(v, n - 1) + [(k, Load(x))]
  }

  /** Each loaded member carries its own value, loaded. */
  lemma {:induction false} LoadMembersAt(v: Value, n: nat, i: nat)
    requires v.Object? && i < n <= |v.members|
    ensures LoadMembers(v, n)[i].1 == Load(v.members[i].1)
    decreases n
  {
    if i < n - 1 {
      LoadMembersAt(v, n - 1, i);
    }
  }

  // ---------------------------------------------------------------------
  // Put and DictOf against their lookups
  // ---------------------------------------------------------------------

  /** After `d[k] = v`, `k` maps to `v` and every other key as before. */
  lemma {:induction false} PutGet(d: seq<(string, Value)>, k: string, v: Value, x: string)
    ensures Get(Put(d, k, v), x) == if x == k then Some(v) else Get(d, x)
    decreases |d|
  {
    if d != [] && d[0].0 != k {
      PutGet(d[1..], k, v, x);
      assert Put(d, k, v)[1..] == Put(d[1..], k, v);
    }
  }

  /** The keys after `d[k] = v` are those of `d` and `k`. */
  lemma {:induction false} PutKeys(d: seq<(string, Value)>, k: string, v: Value, x: string)
    ensures HasKey(Put(d, k, v), x) <==> HasKey(d, x) || x == k
    decreases |d|
  {
    var r := Put(d, k, v);
    if d != [] && d[0].0 != k {
      var rest := Put(d[1..], k, v);
      PutKeys(d[1..], k, v, x);
      assert r == [d[0]] + rest;
      if x == d[0].0 {
        assert r[0].0 == x && d[0].0 == x;
      } else {
        if HasKey(d[1..], x) || x == k {
          var j :| 0 <= j < |rest| && rest[j].0 == x;
          assert r[j + 1].0 == x;
        }
        if HasKey(d, x) {
          var i :| 0 <= i < |d| && d[i].0 == x;
          assert d[1..][i - 1].0 == x;
        }
        if HasKey(r, x) {
          var i :| 0 <= i < |r| && r[i].0 == x;
          assert rest[i - 1].0 == x;
        }
        if HasKey(d[1..], x) {
          var j :| 0 <= j < |d[1..]| && d[1..][j].0 == x;
          assert d[j + 1].0 == x;
        }
      }
    } else if d != [] {
      assert forall i | 1 <= i < |d| :: r[i] == d[i];
      assert r[0].0 == d[0].0;
    } else {
      assert r[0].0 == k;
    }
  }

  /** `d[k] = v` keeps a dict a dict. */
  lemma {:induction false} PutDistinct(d: seq<(string, Value)>, k: string, v: Value)
    requires DistinctKeys(d)
    ensures DistinctKeys(Put(d, k, v))
    decreases |d|
  {
    var r := Put(d, k, v);
    if d != [] && d[0].0 != k {
      var rest := Put(d[1..], k, v);
      PutDistinct(d[1..], k, v);
      assert r == [d[0]] + rest;
      assert !HasKey(d[1..], d[0].0);
      PutKeys(d[1..], k, v, d[0].0);
      forall i, j | 0 <= i < j < |r| ensures r[i].0 != r[j].0 {
        if i == 0 {
          assert r[j] == rest[j - 1];
        } else {
          assert r[i] == rest[i - 1] && r[j] == rest[j - 1];
        }
      }
    } else if d != [] {
      assert forall i | 1 <= i < |d| :: r[i] == d[i];
    }
  }

  /** The dict holds, for every key, the value of its last occurrence ... */
  lemma {:induction false} DictGet(members: seq<(string, Value)>, x: string)
    ensures Get(DictOf(members), x) == Last(members, x)
    decreases |members|
  {
    if members != [] {
      var (k, v) := members[|members| - 1];
      DictGet(members[..|members| - 1], x);
      PutGet(DictOf(members[..|members| - 1]), k, v, x);
    }
  }

  /** ... holds each key once ... */
  lemma {:induction false} DictDistinct(members: seq<(string, Value)>)
    ensures DistinctKeys(DictOf(members))
    decreases |members|
  {
    if members != [] {
      var (k, v) := members[|members| - 1];
      DictDistinct(members[..|members| - 1]);
      PutDistinct(DictOf(members[..|members| - 1]), k, v);
    }
  }

  /** ... and has exactly the keys of the members. */
  lemma {:induction false} DictKeys(members: seq<(string, Value)>, x: string)
    ensures HasKey(DictOf(members), x) <==> HasKey(members, x)
    decreases |members|
  {
    if members != [] {
      var init := members[..|members| - 1];
      var (k, v) := members[|members| - 1];
      DictKeys(init, x);
      PutKeys(DictOf(init), k, v, x);
      if HasKey(init, x) {
        var i :| 0 <= i < |init| && init[i].0 == x;
        assert members[i].0 == x;
      }
      if HasKey(members, x) && x != k {
        var i :| 0 <= i < |members| && members[i].0 == x;
        assert init[i].0 == x;
      }
    }
  }

  /** The last member named `k` is found by `Last`. */
  lemma {:induction false} LastAt(members: seq<(string, Value)>, i: nat)
    requires i < |members|
    requires forall j | i < j < |members| :: members[j].0 != members[i].0
    ensures Last(members, members[i].0) == Some(members[i].1)
    decreases |members|
  {
    if i < |members| - 1 {
      var init := members[..|members| - 1];
      assert init[i] == members[i];
      LastAt(init, i);
    }
  }

  /** A key `Get` finds sits at a place of its own, with no earlier member
      of that key. */
  lemma {:induction false} GetAt(d: seq<(string, Value)>, k: string) returns (i: nat)
    requires Get(d, k).Some?
    ensures i < |d| && d[i] == (k, Get(d, k).value)
    ensures forall j | 0 <= j < i :: d[j].0 != k
    decreases |d|
  {
    if d[0].0 == k {
      i := 0;
    } else {
      var i' := GetAt(d[1..], k);
      i := i' + 1;
    }
  }
}
