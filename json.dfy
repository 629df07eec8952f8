/** JSON-like values as `req.json()` yields them and as the sanitizer walks
    them. An object is its fields in key-enumeration order. */
module Json {
  import opened Js

  datatype Value =
    | Str(s: string)
    | Number(n: real)
    | Bool(b: bool)
    | Null
    | Object(fields: seq<Field>)
    | Array(items: seq<Value>)

  datatype Field = Field(key: string, value: Value)

  function Keys(fields: seq<Field>): (ks: seq<string>)
    ensures |ks| == |fields|
    ensures forall i :: 0 <= i < |fields| ==> ks[i] == fields[i].key
  {
    seq(|fields|, i requires 0 <= i < |fields| => fields[i].key)
  }

  /** `obj[key]` on an object: the value of the first field with that key. */
  function Get(fields: seq<Field>, key: string): (r: Option<Value>)
    ensures r.None? <==> key !in Keys(fields)
    ensures r.Some? ==> exists i :: 0 <= i < |fields| && fields[i] == Field(key, r.value)
  {
    if fields == [] then None
    else if fields[0].key == key then Some(fields[0].value)
    else
      var r := Get(fields[1..], key);
      assert Keys(fields) == [fields[0].key] + Keys(fields[1..]);
      r
  }
}
