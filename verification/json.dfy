/** JSON-shaped values as the source handles them (`Record<string, any>`,
    `jsonb` columns, request bodies). An object is the sequence of its
    entries in `Object.entries` order. Numbers are integers here. */
module Json {
  import opened Wrappers

  datatype Value =
    | Null
    | Bool(b: bool)
    | Num(n: int)
    | Str(s: string)
    | Arr(items: seq<Value>)
    | Obj(fields: seq<Field>)

  datatype Field = Field(key: string, value: Value)

  /** The keys of an object, in entry order. */
  function Keys(fields: seq<Field>): (r: seq<string>)
    ensures |r| == |fields|
    ensures forall i :: 0 <= i < |fields| ==> r[i] == fields[i].key
  {
    seq(|fields|, i requires 0 <= i < |fields| => fields[i].key)
  }

  /** `obj[key]`: the value of the first entry with that key, if any. */
  function Get(fields: seq<Field>, key: string): (r: Option<Value>)
    ensures r.None? <==> key !in Keys(fields)
    ensures r.Some? ==> exists i :: 0 <= i < |fields| && fields[i] == Field(key, r.value)
  {
    if |fields| == 0 then None
    else if fields[0].key == key then Some(fields[0].value)
    else
      assert Keys(fields) == [fields[0].key] + Keys(fields[1..]);
      var r := Get(fields[1..], key);
      assert r.Some? ==> exists i :: 0 <= i < |fields[1..]| && fields[1..][i] == Field(key, r.value);
      r
  }

  /** A lookup passes over a first entry with another key. */
  lemma GetSkip(fields: seq<Field>, key: string)
    requires |fields| > 0 && fields[0].key != key
    ensures Get(fields, key) == Get(fields[1..], key)
  {
  }
}
