/**
 Parsed JSON values, the input of the program's runtime shape checks. An object is
 its fields in insertion order (`JSON.parse` keeps one entry per key; lookups take
 the first entry of a key).
 */
module Json {
  import opened Wrappers

  datatype Json =
    | JNull
    | JBool(b: bool)
    | JNum(n: real)
    | JStr(s: string)
    | JArr(elems: seq<Json>)
    | JObj(fields: seq<(string, Json)>)

  /** `typeof v === 'object' && v !== null`: objects and arrays. */
  predicate IsObject(v: Json) {
    v.JObj? || v.JArr?
  }

  /** The value of the first field named `key`. */
  function Lookup(fields: seq<(string, Json)>, key: string): (r: Option<Json>)
    ensures r.None? <==> forall i :: 0 <= i < |fields| ==> fields[i].0 != key
    ensures r.Some? ==> exists i :: 0 <= i < |fields| && fields[i] == (key, r.value)
  {
    if |fields| == 0 then None
    else if fields[0].0 == key then Some(fields[0].1)
    else Lookup(fields[1..], key)
  }

  /**
   `v[key]` for a named key: a field of an object; arrays have no field of the
   names the program asks for, and other values none at all.
   */
  function Member(v: Json, key: string): Option<Json> {
    if v.JObj? then Lookup(v.fields, key) else None
  }

  /** `Object.values(v)`: an object's field values in order, an array's elements. */
  function ObjectValues(v: Json): (vs: seq<Json>)
    requires IsObject(v)
    ensures v.JArr? ==> vs == v.elems
    ensures v.JObj? ==> |vs| == |v.fields| && forall i :: 0 <= i < |vs| ==> vs[i] == v.fields[i].1
  {
    if v.JArr? then v.elems else seq(|v.fields|, i requires 0 <= i < |v.fields| => v.fields[i].1)
  }

  /** Looking up in a field list with a known first field. */
  lemma LookupCons(f: (string, Json), rest: seq<(string, Json)>, key: string)
    ensures Lookup([f] + rest, key) == if f.0 == key then Some(f.1) else Lookup(rest, key)
  {
    assert ([f] + rest)[1..] == rest;
  }

  /** Appending a field with a new name leaves every existing lookup unchanged. */
  lemma {:induction false} LookupAppend(fields: seq<(string, Json)>, k: string, x: Json, key: string)
    requires forall i :: 0 <= i < |fields| ==> fields[i].0 != k
    ensures Lookup(fields + [(k, x)], key) == if key == k then Some(x) else Lookup(fields, key)
  {
    if |fields| > 0 {
      assert (fields + [(k, x)])[1..] == fields[1..] + [(k, x)];
      LookupAppend(fields[1..], k, x, key);
    } else {
      assert fields + [(k, x)] == [(k, x)];
    }
  }
}
