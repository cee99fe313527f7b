/** convert_arb_to_json.py: the messages of an ARB file, without its
    `@` metadata, written out as a flat object with sorted keys.  Reading
    and writing the files and the JSON text itself are not part of this
    model: an ARB file arrives as the parsed members of its top-level
    object, in file order and possibly naming a key twice (`None` when the
    file does not exist), and `json.load` makes a dict of them. */
module ArbConvert {
  import opened Wrappers
  import opened PyText
  import opened JsonValue
  import opened StrOrder

  /** `k.startswith('@')`: metadata such as `@@locale` or `@greeting`. */
  predicate Metadata(k: string)
  {
    StartsWith(k, "@")
  }

  /** The separate `@@locale` test can never skip a key that the metadata
      test did not already skip. */
  lemma LocaleIsMetadata()
    ensures Metadata("@@locale")
  {
  }

  /** `data = json.load(f)`: the top-level members made a dict, so a
      repeated key keeps the value of its last occurrence. */
  function Loaded(raw: seq<(string, Value)>): (data: seq<(string, Value)>)
    ensures DistinctKeys(data)
  {
    var ms := LoadMembers(Object(raw), |raw|);
    DictDistinct(ms);
    DictOf(ms)
  }

  /** `out` after the loop over `data.items()`: metadata is skipped, and of
      items sharing a key the first would be kept. */
  function Converted(data: seq<(string, Value)>): map<string, Value>
  {
    if data == [] then map[]
    else
      var prev := Converted(data[..|data| - 1]);
      var (k, v) := data[|data| - 1];
      if Metadata(k) || k == "@@locale" || k in prev then prev else prev[k := v]
  }

  /** The loop of the script. */
  method Collect(data: seq<(string, Value)>) returns (out: map<string, Value>)
    ensures out == Converted(data)
  {
    out := map[];
    var i := 0;
    while i < |data|
      invariant i <= |data| && out == Converted(data[..i])
    {
      assert data[..i + 1][..i] == data[..i];
      var (k, v) := data[i];
      if Metadata(k) {
      } else if k == "@@locale" {
      } else if k in out {
      } else {
        out := out[k := v];
      }
      i := i + 1;
    }
    assert data[..i] == data;
  }

  /** The kept keys are exactly the keys of the input that are not
      metadata ... */
  lemma {:induction false} ConvertedKeys(data: seq<(string, Value)>, k: string)
    ensures k in Converted(data) <==>
      !Metadata(k) && exists i | 0 <= i < |data| :: data[i].0 == k
    decreases |data|
  {
    if data != [] {
      var init := data[..|data| - 1];
      ConvertedKeys(init, k);
      assert forall i | 0 <= i < |init| :: init[i] == data[i];
    }
  }

  /** Over a list of items, a key keeps the value of its first
      occurrence. */
  lemma {:induction false} ConvertedFirst(data: seq<(string, Value)>, i: nat)
    requires i < |data| && !Metadata(data[i].0)
    requires forall j | 0 <= j < i :: data[j].0 != data[i].0
    ensures data[i].0 in Converted(data) && Converted(data)[data[i].0] == data[i].1
    decreases |data|
  {
    var init := data[..|data| - 1];
    if i < |data| - 1 {
      assert init[i] == data[i];
      ConvertedFirst(init, i);
    } else {
      ConvertedKeys(init, data[i].0);
    }
  }

  /** Over the dict `json.load` returns, the `k in out` test never holds:
      no key comes round a second time. */
  lemma RepeatBranchDead(data: seq<(string, Value)>, i: nat)
    requires DistinctKeys(data) && i < |data|
    ensures data[i].0 !in Converted(data[..i])
  {
    ConvertedKeys(data[..i], data[i].0);
  }

  /** A message of the ARB file is written with the value of its last
      occurrence in the file, since `json.load` keeps that one. */
  lemma ConvertedLast(raw: seq<(string, Value)>, i: nat)
    requires i < |raw| && !Metadata(raw[i].0)
    requires forall j | i < j < |raw| :: raw[j].0 != raw[i].0
    ensures raw[i].0 in Converted(Loaded(raw))
    ensures Converted(Loaded(raw))[raw[i].0] == Load(raw[i].1)
  {
    var k := raw[i].0;
    var ms := LoadMembers(Object(raw), |raw|);
    LoadMembersAt(Object(raw), |raw|, i);
    LastAt(ms, i);
    DictGet(ms, k);
    var d := Loaded(raw);
    var at := GetAt(d, k);
    ConvertedFirst(d, at);
  }

  /** The messages written are exactly the keys of the ARB file that are
      not metadata. */
  lemma LoadedKeys(raw: seq<(string, Value)>, k: string)
    ensures k in Converted(Loaded(raw)) <==> !Metadata(k) && HasKey(raw, k)
  {
    var ms := LoadMembers(Object(raw), |raw|);
    ConvertedKeys(Loaded(raw), k);
    DictKeys(ms, k);
    if HasKey(raw, k) {
      var i :| 0 <= i < |raw| && raw[i].0 == k;
      assert ms[i].0 == k;
    }
    if HasKey(ms, k) {
      var i :| 0 <= i < |ms| && ms[i].0 == k;
      assert raw[i].0 == k;
    }
  }

  /** No more keys come out than members went in. */
  lemma {:induction false} ConvertedSize(data: seq<(string, Value)>)
    ensures |Converted(data)| <= |data|
    decreases |data|
  {
    if data != [] {
      ConvertedSize(data[..|data| - 1]);
    }
  }

  /** Over a dict, every message is kept with its own value ... */
  lemma DistinctKeysKeepsAll(data: seq<(string, Value)>)
    requires DistinctKeys(data)
    ensures forall i | 0 <= i < |data| && !Metadata(data[i].0) ::
      data[i].0 in Converted(data) && Converted(data)[data[i].0] == data[i].1
  {
    forall i | 0 <= i < |data| && !Metadata(data[i].0)
      ensures data[i].0 in Converted(data) && Converted(data)[data[i].0] == data[i].1
    {
      ConvertedFirst(data, i);
    }
  }

  /** The number of members that are messages, not metadata. */
  function MessageCount(data: seq<(string, Value)>): nat
  {
    if data == [] then 0
    else MessageCount(data[..|data| - 1]) + if Metadata(data[|data| - 1].0) then 0 else 1
  }

  /** ... and the count written is that of the messages. */
  lemma {:induction false} DistinctKeysCount(data: seq<(string, Value)>)
    requires DistinctKeys(data)
    ensures |Converted(data)| == MessageCount(data)
    decreases |data|
  {
    if data != [] {
      var init := data[..|data| - 1];
      assert DistinctKeys(init) by {
        assert forall i | 0 <= i < |init| :: init[i] == data[i];
      }
      DistinctKeysCount(init);
      var k := data[|data| - 1].0;
      if !Metadata(k) {
        ConvertedKeys(init, k);
      }
    }
  }

  /** `{k: out[k] for k in sorted(out.keys())}`, as the list of pairs
      `json.dump` writes in that order. */
  method SortByKey(out: map<string, Value>) returns (pairs: seq<(string, Value)>)
    ensures StrictlySorted(KeysOf(pairs))
    ensures forall k :: k in KeysOf(pairs) <==> k in out
    ensures |pairs| == |out|
    ensures forall i | 0 <= i < |pairs| :: pairs[i].0 in out && pairs[i].1 == out[pairs[i].0]
  {
    var keys := SortedListing(out.Keys);
    pairs := [];
    var i := 0;
    while i < |keys|
      invariant i <= |keys| && |pairs| == i
      invariant forall j | 0 <= j < i :: pairs[j] == (keys[j], out[keys[j]])
    {
      pairs := pairs + [(keys[i], out[keys[i]])];
      i := i + 1;
    }
    assert KeysOf(pairs) == keys;
  }

  /** The keys of a list of pairs, in order. */
  function KeysOf(pairs: seq<(string, Value)>): (r: seq<string>)
    ensures |r| == |pairs| && forall i | 0 <= i < |pairs| :: r[i] == pairs[i].0
  {
    seq(|pairs|, i requires 0 <= i < |pairs| => pairs[i].0)
  }

  /** One language: nothing is written when the ARB file is missing;
      otherwise its sorted messages, one per key that is not metadata. */
  method ConvertFile(arb: Option<seq<(string, Value)>>) returns (written: Option<seq<(string, Value)>>)
    ensures arb.None? <==> written.None?
    ensures arb.Some? ==>
      StrictlySorted(KeysOf(written.value))
      && (forall k :: k in KeysOf(written.value) <==> k in Converted(Loaded(arb.value)))
      && |written.value| == MessageCount(Loaded(arb.value)) <= |arb.value|
      && forall i | 0 <= i < |written.value| ::
           written.value[i].1 == Converted(Loaded(arb.value))[written.value[i].0]
  {
    if arb.None? {
      return None;
    }
    var data := Loaded(arb.value);
    var out := Collect(data);
    var pairs := SortByKey(out);
    ConvertedSize(data);
    DistinctKeysCount(data);
    written := Some(pairs);
  }

  /** The written file holds no metadata key. */
  lemma WrittenHasNoMetadata(data: seq<(string, Value)>, k: string)
    requires k in Converted(data)
    ensures !Metadata(k) && k != "@@locale"
  {
    ConvertedKeys(data, k);
  }
}
