/**
 * The replacement `Map.prototype.get` of src/solve.ts:132-138. The page's step-30
 * check looks up key 31 in its 30-entry code map; the shim answers "FINISH" for
 * exactly that lookup and delegates every other one to the original `get`.
 */
module MapShim {
  import opened Wrappers
  import opened SessionCodec

  /** A map key: an integer number, or any other JavaScript value (a string such
      as "31", a fraction, an object), which `=== 31` never holds for. */
  datatype Key = Number(n: int) | OtherKey(repr: string)

  /** A stored value: a string, or any other JavaScript value. */
  datatype Value = Str(s: string) | OtherValue(repr: string)

  /** The original `Map.prototype.get`: the stored value, or None for `undefined`. */
  function OriginalGet(m: map<Key, Value>, key: Key): (r: Option<Value>)
    ensures r.Some? <==> key in m
    ensures r.Some? ==> r.value == m[key]
  {
    if key in m then Some(m[key]) else None
  }

  /** The patched `get`: `key === 31 && this.size === 30` short-circuits to the sentinel. */
  function ShimmedGet(m: map<Key, Value>, key: Key): (r: Option<Value>)
    ensures r != OriginalGet(m, key) ==> key == Number(31) && |m| == 30 && r == Some(Str(Sentinel))
    ensures key == Number(31) && |m| == 30 ==> r == Some(Str(Sentinel))
  {
    if key == Number(31) && |m| == 30 then Some(Str(Sentinel)) else OriginalGet(m, key)
  }

  /** On the page's 30-entry code map, which has no key 31, the lookup of 31 that
      would be `undefined` becomes the sentinel. */
  lemma ShimSuppliesMissingCode(m: map<Key, Value>)
    requires |m| == 30 && Number(31) !in m
    ensures OriginalGet(m, Number(31)) == None
    ensures ShimmedGet(m, Number(31)) == Some(Str(Sentinel))
  {
  }

  /** The guard tests the size only: a 30-entry map that does hold key 31 has that
      entry hidden behind the sentinel. */
  lemma ShimHidesStoredKey31(m: map<Key, Value>)
    requires |m| == 30 && Number(31) in m && m[Number(31)] != Str(Sentinel)
    ensures ShimmedGet(m, Number(31)) != OriginalGet(m, Number(31))
  {
  }
}
