/**
 * Attribute flattener: turns the attribute payload of one resource instance
 * object into a list of key/value pairs, one per top-level attribute, each
 * value being the compact JSON text of that attribute.
 */
module Attributes {
  import opened Wrappers
  import opened Json
  import Text

  datatype Attribute = Attribute(key: string, value: string)

  datatype ObjectStatus = ObjectReady | ObjectTainted | ObjectPlanned

  /**
   * One stored instance object. `attrsJson` is the attribute document as the
   * JSON decoder left it (None when the bytes are not valid JSON);
   * `attrsFlat` is the legacy flat attribute map, empty when absent.
   */
  datatype ObjectSrc = ObjectSrc(attrsJson: Option<Json>, attrsFlat: map<string, string>, status: ObjectStatus)

  predicate DistinctKeys(attrs: seq<Attribute>) {
    forall i, j :: 0 <= i < j < |attrs| ==> attrs[i].key != attrs[j].key
  }

  /** Key set of an attribute list. */
  function KeysOf(attrs: seq<Attribute>): set<string> {
    set i | 0 <= i < |attrs| :: attrs[i].key
  }

  /**
   * The top-level fields the attributes are taken from: the legacy flat map,
   * its values read as JSON strings, when it has entries; otherwise the JSON
   * document when it is an object; otherwise nothing.
   */
  function SourceFields(src: ObjectSrc): map<string, Json> {
    if src.attrsFlat != map[] then FlatFields(src.attrsFlat)
    else match src.attrsJson
      case Some(Object(m)) => m
      case _ => map[]
  }

  /** The legacy flat map read as JSON: every value becomes a JSON string. */
  function FlatFields(flat: map<string, string>): (m: map<string, Json>)
    ensures m.Keys == flat.Keys
    ensures forall k :: k in m ==> m[k] == Str(flat[k])
  {
    map k | k in flat :: Str(flat[k])
  }

  /** One attribute per field of `m`, each holding that field's JSON text. */
  function AttributesOf(m: map<string, Json>): (r: seq<Attribute>)
    ensures |r| == |m| && DistinctKeys(r)
    ensures KeysOf(r) == m.Keys
    ensures forall i :: 0 <= i < |r| ==> r[i].key in m && r[i].value == Serialize(m[r[i].key])
  {
    var keys := Text.SortedKeys(m.Keys);
    var r := AttributeList(keys, m);
    SortedAttributes(m, keys, r);
    r
  }

  lemma SortedAttributes(m: map<string, Json>, keys: seq<string>, r: seq<Attribute>)
    requires keys == Text.SortedKeys(m.Keys)
    requires r == AttributeList(keys, m)
    ensures |r| == |m| && DistinctKeys(r)
    ensures KeysOf(r) == m.Keys
    ensures forall i :: 0 <= i < |r| ==> r[i].key in m && r[i].value == Serialize(m[r[i].key])
  {
    Text.SortedKeysDistinct(m.Keys);
    KeysFollow(keys, m.Keys, r);
  }

  /** The attributes for the listed keys of `m`, in the order listed. */
  function AttributeList(keys: seq<string>, m: map<string, Json>): (r: seq<Attribute>)
    requires forall k :: k in keys ==> k in m
    ensures |r| == |keys|
    ensures forall i :: 0 <= i < |r| ==> r[i].key == keys[i] && r[i].value == Serialize(m[keys[i]])
  {
    seq(|keys|, i requires 0 <= i < |keys| => Attribute(keys[i], Serialize(m[keys[i]])))
  }

  /** An attribute list whose keys are a duplicate-free listing of `s` has key set `s`. */
  lemma KeysFollow(keys: seq<string>, s: set<string>, r: seq<Attribute>)
    requires forall k :: k in keys <==> k in s
    requires forall i, j :: 0 <= i < j < |keys| ==> keys[i] != keys[j]
    requires |r| == |keys| && forall i :: 0 <= i < |r| ==> r[i].key == keys[i]
    ensures DistinctKeys(r)
    ensures KeysOf(r) == s
  {
    forall k | k in s
      ensures k in KeysOf(r)
    {
      var i :| 0 <= i < |keys| && keys[i] == k;
      assert r[i].key == k;
    }
  }

  /**
   * The attributes stored for an instance object; a nil object has none.
   * Field order is left to the encoder, so callers may rely only on the set
   * of keys and on the value stored under each.
   */
  function MarshalAttributeValues(src: Option<ObjectSrc>): (r: seq<Attribute>)
    ensures src.None? ==> r == []
    ensures DistinctKeys(r)
  {
    match src
    case None => []
    case Some(o) => AttributesOf(SourceFields(o))
  }

  /** A JSON document that is not an object, or not JSON at all, gives no attributes. */
  lemma NonObjectHasNoAttributes(o: ObjectSrc)
    requires o.attrsFlat == map[]
    requires o.attrsJson.None? || !o.attrsJson.value.Object?
    ensures MarshalAttributeValues(Some(o)) == []
  {
    assert SourceFields(o) == map[];
    assert |AttributesOf(SourceFields(o))| == |SourceFields(o)| == 0;
  }

  /** Without a flat map, a JSON object gives exactly one attribute per top-level field. */
  lemma ObjectFieldsBecomeAttributes(o: ObjectSrc, m: map<string, Json>)
    requires o.attrsFlat == map[] && o.attrsJson == Some(Object(m))
    ensures KeysOf(MarshalAttributeValues(Some(o))) == m.Keys
    ensures |MarshalAttributeValues(Some(o))| == |m|
    ensures forall i :: 0 <= i < |MarshalAttributeValues(Some(o))| ==>
      var a := MarshalAttributeValues(Some(o))[i]; a.key in m && a.value == Serialize(m[a.key])
  {
    assert SourceFields(o) == m;
  }

  /**
   * A non-empty flat map takes precedence over the JSON document: one
   * attribute per flat entry, its value the entry quoted as a JSON string.
   */
  lemma FlatMapTakesPrecedence(o: ObjectSrc)
    requires o.attrsFlat != map[]
    ensures KeysOf(MarshalAttributeValues(Some(o))) == o.attrsFlat.Keys
    ensures forall i :: 0 <= i < |MarshalAttributeValues(Some(o))| ==>
      var a := MarshalAttributeValues(Some(o))[i]; a.key in o.attrsFlat && a.value == Text.Quote(o.attrsFlat[a.key])
  {
    var r := MarshalAttributeValues(Some(o));
    FlatSource(o, r);
    FlatAttributes(o.attrsFlat, r);
  }

  /** With a non-empty flat map, the stored attributes are those of the flat map read as JSON. */
  lemma FlatSource(o: ObjectSrc, r: seq<Attribute>)
    requires o.attrsFlat != map[] && r == MarshalAttributeValues(Some(o))
    ensures r == AttributesOf(FlatFields(o.attrsFlat))
  {
  }

  /** Flat-map entries become attributes whose values are the entries quoted. */
  lemma FlatAttributes(flat: map<string, string>, r: seq<Attribute>)
    requires r == AttributesOf(FlatFields(flat))
    ensures KeysOf(r) == flat.Keys
    ensures forall i :: 0 <= i < |r| ==> r[i].key in flat && r[i].value == Text.Quote(flat[r[i].key])
  {
    var m := FlatFields(flat);
    forall i | 0 <= i < |r|
      ensures r[i].key in flat && r[i].value == Text.Quote(flat[r[i].key])
    {
      var k := r[i].key;
      assert r[i].value == Serialize(m[k]);
      assert m[k] == Str(flat[k]);
    }
  }

  /** A single-field object gives exactly that field. */
  lemma SingleField(o: ObjectSrc, key: string, v: Json)
    requires SourceFields(o) == map[key := v]
    ensures MarshalAttributeValues(Some(o)) == [Attribute(key, Serialize(v))]
  {
    var r := MarshalAttributeValues(Some(o));
    assert |r| == 1;
    assert r[0] in r;
  }

  /** The four cases the flattener's tests pin down. */
  lemma MarshalAttributeValuesExamples()
    ensures MarshalAttributeValues(None) == []
    ensures MarshalAttributeValues(Some(ObjectSrc(Some(Object(map["ami" := Str("bar")])), map[], ObjectReady)))
         == [Attribute("ami", "\"bar\"")]
    ensures MarshalAttributeValues(Some(ObjectSrc(Some(Str("bar")), map[], ObjectReady))) == []
    ensures MarshalAttributeValues(Some(ObjectSrc(Some(Object(map["ami" := Str("bar")])), map["ami" := "bar"], ObjectReady)))
         == [Attribute("ami", "\"bar\"")]
  {
    var plain := ObjectSrc(Some(Object(map["ami" := Str("bar")])), map[], ObjectReady);
    var flat := ObjectSrc(Some(Object(map["ami" := Str("bar")])), map["ami" := "bar"], ObjectReady);
    Text.EscapePlain("bar");
    assert Serialize(Str("bar")) == "\"bar\"";
    assert SourceFields(plain) == map["ami" := Str("bar")];
    SingleField(plain, "ami", Str("bar"));
    assert SourceFields(flat) == map["ami" := Str("bar")];
    SingleField(flat, "ami", Str("bar"));
    NonObjectHasNoAttributes(ObjectSrc(Some(Str("bar")), map[], ObjectReady));
  }
}
