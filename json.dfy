/**
 * Decoded JSON values and their compact re-encoding, the way Go's
 * encoding/json writes back a value it decoded into interface{}: no
 * whitespace, object members in ascending key order.
 */
module Json {
  import Text

  datatype Json =
    | Null
    | Bool(b: bool)
    | Number(n: int)
    | Str(s: string)
    | Array(items: seq<Json>)
    | Object(fields: map<string, Json>)

  /** Compact JSON text of `j`. */
  function Serialize(j: Json): (r: string)
    ensures |r| > 0
    ensures j.Str? ==> r == Text.Quote(j.s)
    ensures j.Object? <==> r[0] == '{'
    ensures j.Array? <==> r[0] == '['
    decreases j, 1, 0
  {
    match j
    case Null => "null"
    case Bool(b) => if b then "true" else "false"
    case Number(n) => Text.IntToString(n)
    case Str(s) => Text.Quote(s)
    case Array(items) => "[" + SerializeItems(j, 0) + "]"
    case Object(m) => "{" + SerializeMembers(j, Text.SortedKeys(m.Keys)) + "}"
  }

  /** The elements of array `j` from index `from` on, comma-separated. */
  function SerializeItems(j: Json, from: nat): string
    requires j.Array? && from <= |j.items|
    decreases j, 0, |j.items| - from
  {
    if from == |j.items| then ""
    else
      var head := Serialize(j.items[from]);
      if from + 1 == |j.items| then head else head + "," + SerializeItems(j, from + 1)
  }

  /** The members of object `j` named in `keys`, as `"key":value`, comma-separated. */
  function SerializeMembers(j: Json, keys: seq<string>): string
    requires j.Object? && forall k :: k in keys ==> k in j.fields
    decreases j, 0, |keys|
  {
    if keys == [] then ""
    else
      assert j.fields[keys[0]] in j.fields.Values;
      var member := Text.Quote(keys[0]) + ":" + Serialize(j.fields[keys[0]]);
      if |keys| == 1 then member else member + "," + SerializeMembers(j, keys[1..])
  }
}
