/**
 * Resource index formatter: the textual suffix that tells the instances of
 * one resource apart, rendered from the instance's addressing key.
 */
module ResourceIndex {
  import opened Wrappers
  import Text

  /** How a resource instance is addressed: a singleton, a `count` index or a `for_each` key. */
  datatype InstanceKey = NoKey | IntKey(n: int) | StringKey(s: string)

  /**
   * The suffix of the instance address: "" for NoKey, `[n]` for IntKey(n),
   * `["s"]` for StringKey(s) with '"' and '\' in `s` escaped.
   */
  function GetResourceIndex(k: InstanceKey): (r: string)
    ensures r == "" <==> k == NoKey
    ensures r != "" ==> r[0] == '[' && r[|r| - 1] == ']'
    ensures k.StringKey? <==> |r| >= 4 && r[1] == '"'
  {
    match k
    case NoKey => ""
    case IntKey(n) => "[" + Text.IntToString(n) + "]"
    case StringKey(s) => "[" + Text.Quote(s) + "]"
  }

  /** Reads an instance key back from its rendered suffix; None for text no key renders to. */
  function ParseResourceIndex(r: string): Option<InstanceKey> {
    if r == "" then Some(NoKey)
    else if |r| < 2 || r[0] != '[' || r[|r| - 1] != ']' then None
    else
      var inner := r[1..|r| - 1];
      if |inner| > 0 && inner[0] == '"' then
        match Text.Unquote(inner)
        case Some(s) => Some(StringKey(s))
        case None => None
      else
        match Text.ParseInt(inner)
        case Some(n) => Some(IntKey(n))
        case None => None
  }

  /** Rendering loses nothing: the key can always be read back from its suffix. */
  lemma ResourceIndexRoundTrip(k: InstanceKey)
    ensures ParseResourceIndex(GetResourceIndex(k)) == Some(k)
  {
    var r := GetResourceIndex(k);
    match k
    case NoKey =>
    case IntKey(n) =>
      assert r[1..|r| - 1] == Text.IntToString(n);
      Text.IntToStringRoundTrip(n);
    case StringKey(s) =>
      assert r[1..|r| - 1] == Text.Quote(s);
      Text.QuoteRoundTrip(s);
  }

  /** No two keys, of the same variant or of different ones, render to the same suffix. */
  lemma ResourceIndexInjective(k1: InstanceKey, k2: InstanceKey)
    requires k1 != k2
    ensures GetResourceIndex(k1) != GetResourceIndex(k2)
  {
    ResourceIndexRoundTrip(k1);
    ResourceIndexRoundTrip(k2);
  }

  /** A string key with no '"' or '\' renders as `["` + s + `"]`, e.g. module.bar as ["module.bar"]. */
  lemma StringKeyIndex(s: string)
    requires forall i :: 0 <= i < |s| ==> s[i] != '"' && s[i] != '\\'
    ensures GetResourceIndex(StringKey(s)) == "[\"" + s + "\"]"
  {
    Text.EscapePlain(s);
  }

  /**
   * The string case the formatter's tests pin down (the empty suffix of a
   * singleton is GetResourceIndex's own first postcondition). The key is a
   * parameter fixed by the precondition rather than a literal in the call:
   * on a literal argument the verifier unfolds the escaping character by
   * character, which is far more costly than applying StringKeyIndex's
   * reasoning to a variable.
   */
  lemma ResourceIndexExamples(key: string)
    requires key == "module.bar"
    ensures GetResourceIndex(StringKey(key)) == "[\"module.bar\"]"
  {
    assert Text.Escape(key) == key by { Text.EscapePlain(key); }
    assert GetResourceIndex(StringKey(key)) == "[" + ("\"" + key + "\"") + "]";
    assert "[" + ("\"" + key + "\"") + "]" == "[\"module.bar\"]";
  }
}
