/** The decoded argument of a method call, as the standard message codec
    hands it to the plugin (`object->std_arg`), reduced to the value kinds the
    plugin inspects. */
module StdValue {
  import opened Wrappers
  import opened Search
  import opened CTypes

  datatype Value =
    | Null
    | Bool(b: bool)
    /** kStdInt32 or kStdInt64: both read through one 64-bit accessor */
    | Int(i: int64)
    | String(s: string)
    | UInt8Array(bytes: seq<u8>)
    | List(items: seq<Value>)
    /** entries in the order the codec decoded them */
    | Map(entries: seq<(Value, Value)>)

  /** The keys of a map's entries, in order. */
  function Keys(entries: seq<(Value, Value)>): (ks: seq<Value>)
    ensures |ks| == |entries|
    ensures forall i :: 0 <= i < |entries| ==> ks[i] == entries[i].0
  {
    seq(|entries|, i requires 0 <= i < |entries| => entries[i].0)
  }

  /** Lookup of a string key in a map value (`stdmap_get_str`). */
  function GetStr(entries: seq<(Value, Value)>, key: string): Option<Value> {
    match FirstIndex(Keys(entries), String(key))
    case None => None
    case Some(i) => Some(entries[i].1)
  }

  /** GetStr yields the value of the first entry whose key is that string,
      and misses exactly when no key is. */
  lemma GetStrIsFirstMatch(entries: seq<(Value, Value)>, key: string)
    ensures GetStr(entries, key).None? <==> forall i :: 0 <= i < |entries| ==> entries[i].0 != String(key)
    ensures GetStr(entries, key).Some? ==>
              exists i :: 0 <= i < |entries| && entries[i] == (String(key), GetStr(entries, key).value)
                          && forall j :: 0 <= j < i ==> entries[j].0 != String(key)
  {
  }

  /** The shape the set methods accept: a list of exactly two integers. */
  predicate IsIntPair(v: Value) {
    v.List? && |v.items| == 2 && v.items[0].Int? && v.items[1].Int?
  }
}
