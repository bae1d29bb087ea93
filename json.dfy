/** JSON values as `JSON.parse` produces them and `JSON.stringify`
    consumes them. Numbers are integers: the quiz content only ever stores
    indices in them. */
module Json {
  import opened Results

  datatype Json =
    | JNull
    | JBool(b: bool)
    | JNumber(n: int)
    | JString(s: string)
    | JArray(items: seq<Json>)
    | JObject(fields: seq<(string, Json)>)

  /** A text field that holds JSON, represented by what `JSON.parse`
      makes of it: the parsed value, or the raw text when it is not JSON
      (the empty text among them). `JSON.stringify(v)` is `Parsed(v)`. */
  datatype Document = Parsed(value: Json) | Unparsable(text: string)

  /** `obj[key]` on a parsed object: when a key is repeated in the text,
      the last occurrence wins. */
  function Get(fields: seq<(string, Json)>, key: string): (r: Option<Json>)
    ensures r.None? <==> forall k :: 0 <= k < |fields| ==> fields[k].0 != key
    ensures r.Some? ==> exists k :: 0 <= k < |fields| && fields[k] == (key, r.value)
                                     && forall j :: k < j < |fields| ==> fields[j].0 != key
  {
    if fields == [] then None
    else if fields[|fields| - 1].0 == key then Some(fields[|fields| - 1].1)
    else Get(fields[..|fields| - 1], key)
  }

  /** No entry of `fs` has the name `key`. */
  predicate Lacks(fs: seq<(string, Json)>, key: string) {
    forall k :: 0 <= k < |fs| ==> fs[k].0 != key
  }

  lemma ConsLacks(x: (string, Json), fs: seq<(string, Json)>, key: string)
    requires x.0 != key && Lacks(fs, key)
    ensures Lacks([x] + fs, key)
  {
    var r := [x] + fs;
    forall k | 0 <= k < |r| ensures r[k].0 != key {
      if k > 0 { assert r[k] == fs[k - 1]; }
    }
  }

  /** A key that does not occur after a given entry is read from that entry. */
  lemma {:induction false} GetLast(front: seq<(string, Json)>, key: string, v: Json, back: seq<(string, Json)>)
    requires Lacks(back, key)
    ensures Get(front + [(key, v)] + back, key) == Some(v)
    decreases |back|
  {
    var fs := front + [(key, v)] + back;
    if back != [] {
      var back' := back[..|back| - 1];
      assert fs[..|fs| - 1] == front + [(key, v)] + back';
      GetLast(front, key, v, back');
    }
  }

  function StringArray(ss: seq<string>): (j: Json)
    ensures j.JArray? && |j.items| == |ss|
  {
    JArray(seq(|ss|, k requires 0 <= k < |ss| => JString(ss[k])))
  }

  function AsString(j: Json): Option<string> {
    if j.JString? then Some(j.s) else None
  }

  function AsInt(j: Json): Option<int> {
    if j.JNumber? then Some(j.n) else None
  }

  function AsBool(j: Json): Option<bool> {
    if j.JBool? then Some(j.b) else None
  }

  /** An array whose items are all strings. */
  function AsStrings(j: Json): (r: Option<seq<string>>)
    ensures r.Some? ==> j.JArray? && |r.value| == |j.items|
                        && forall k :: 0 <= k < |j.items| ==> j.items[k] == JString(r.value[k])
    ensures j.JArray? && (forall k :: 0 <= k < |j.items| ==> j.items[k].JString?) ==> r.Some?
  {
    if j.JArray? && forall k :: 0 <= k < |j.items| ==> j.items[k].JString?
    then Some(seq(|j.items|, k requires 0 <= k < |j.items| => j.items[k].s))
    else None
  }

  function IntArray(ns: seq<int>): (j: Json)
    ensures j.JArray? && |j.items| == |ns|
  {
    JArray(seq(|ns|, k requires 0 <= k < |ns| => JNumber(ns[k])))
  }

  /** An array whose items are all numbers. */
  function AsInts(j: Json): (r: Option<seq<int>>)
    ensures r.Some? ==> j.JArray? && |r.value| == |j.items|
                        && forall k :: 0 <= k < |j.items| ==> j.items[k] == JNumber(r.value[k])
    ensures j.JArray? && (forall k :: 0 <= k < |j.items| ==> j.items[k].JNumber?) ==> r.Some?
  {
    if j.JArray? && forall k :: 0 <= k < |j.items| ==> j.items[k].JNumber?
    then Some(seq(|j.items|, k requires 0 <= k < |j.items| => j.items[k].n))
    else None
  }

  lemma StringArrayRoundTrip(ss: seq<string>)
    ensures AsStrings(StringArray(ss)) == Some(ss)
  {
    var j := StringArray(ss);
    assert forall k :: 0 <= k < |j.items| ==> j.items[k] == JString(ss[k]);
    var r := AsStrings(j);
    assert r.Some?;
    assert forall k :: 0 <= k < |ss| ==> r.value[k] == ss[k];
    assert r.value == ss;
  }

  lemma IntArrayRoundTrip(ns: seq<int>)
    ensures AsInts(IntArray(ns)) == Some(ns)
  {
    var j := IntArray(ns);
    assert forall k :: 0 <= k < |j.items| ==> j.items[k] == JNumber(ns[k]);
    var r := AsInts(j);
    assert r.Some?;
    assert forall k :: 0 <= k < |ns| ==> r.value[k] == ns[k];
    assert r.value == ns;
  }
}
