/** JSON values as `json.load` returns them, and the shallow `dict.update` merge. */
module Json {
  import opened Wrappers

  /** A JSON value. Numbers are integers in this model. */
  datatype Json =
    | JNull
    | JBool(b: bool)
    | JNumber(n: int)
    | JString(s: string)
    | JArray(items: seq<Json>)
    | JObject(fields: Doc)

  /** A JSON object at the top of a document: a Python `Dict[str, Any]`. */
  type Doc = map<string, Json>

  /** `d.get(key)`: the value under `key`, or `None`. */
  function Lookup(d: Doc, key: string): (r: Option<Json>)
    ensures r.Some? <==> key in d
    ensures r.Some? ==> r.value == d[key]
  {
    if key in d then Some(d[key]) else None
  }

  /** The dictionary `base` holds after `base.update(patch)`: every key of
      `patch` with its new value, every other key of `base` untouched. A key
      in both takes the value of `patch` whole, nested objects included. */
  function Update(base: Doc, patch: Doc): (r: Doc)
    ensures r.Keys == base.Keys + patch.Keys
    ensures forall k :: k in patch ==> r[k] == patch[k]
    ensures forall k :: k in base && k !in patch ==> r[k] == base[k]
  {
    base + patch
  }

  /** Updating an empty dictionary gives exactly the patch. */
  lemma UpdateEmpty(patch: Doc)
    ensures Update(map[], patch) == patch
  {
  }

  /** Applying the same update twice is the same as applying it once. */
  lemma UpdateIdempotent(base: Doc, patch: Doc)
    ensures Update(Update(base, patch), patch) == Update(base, patch)
  {
  }

  /** Two updates in a row are one update with the second patch merged over the first. */
  lemma UpdateTwice(base: Doc, first: Doc, second: Doc)
    ensures Update(Update(base, first), second) == Update(base, Update(first, second))
  {
  }

  /** The merge is shallow: when both sides hold an object under `key`, the
      result holds the new object as it is, and a nested key that only the old
      object had is gone. */
  lemma UpdateIsShallow(base: Doc, patch: Doc, key: string, nested: string)
    requires key in base && key in patch
    requires base[key].JObject? && patch[key].JObject?
    requires nested in base[key].fields && nested !in patch[key].fields
    ensures Update(base, patch)[key] == patch[key]
    ensures nested !in Update(base, patch)[key].fields
  {
  }
}
