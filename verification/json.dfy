/** Decoded JSON values, as produced by `JSON.parse` or by the shapefile decoder, and the few
    JavaScript operations the upload pipeline applies to them. */
module Json {
  import opened Wrappers

  /** A JSON value. Objects keep the last occurrence of a duplicated key, as `JSON.parse` does,
      so they are maps from key to value. */
  datatype Json =
    | JNull
    | JBool(b: bool)
    | JNum(n: real)
    | JStr(s: string)
    | JArr(items: seq<Json>)
    | JObj(fields: map<string, Json>)

  /** JavaScript truthiness (JSON holds no NaN). */
  predicate Truthy(v: Json) {
    match v
    case JNull => false
    case JBool(b) => b
    case JNum(n) => n != 0.0
    case JStr(s) => s != ""
    case JArr(_) => true
    case JObj(_) => true
  }

  /** Truthiness of a property read, where `None` is `undefined`. */
  predicate Present(v: Option<Json>) {
    v.Some? && Truthy(v.value)
  }

  /** The property read `v.k` for the keys this pipeline reads (`type`, `features`, `geometry`,
      `coordinates`, `properties`, ...): only objects carry them; arrays, strings, numbers and
      booleans yield `undefined`. Reading a property of `null` throws, which callers check first. */
  function Get(v: Json, k: string): (r: Option<Json>)
    ensures r.Some? <==> v.JObj? && k in v.fields
    ensures r.Some? ==> r.value == v.fields[k]
  {
    if v.JObj? && k in v.fields then Some(v.fields[k]) else None
  }

  /** `a || b` over property reads: the first operand when it is truthy, else the second. */
  function Or(a: Option<Json>, b: Option<Json>): (r: Option<Json>)
    ensures Present(a) ==> r == a
    ensures !Present(a) ==> r == b
  {
    if Present(a) then a else b
  }

  /** The `length` of a value as this pipeline reads it: arrays and strings have one. */
  function Length(v: Option<Json>): Option<nat> {
    match v
    case Some(JArr(items)) => Some(|items|)
    case Some(JStr(s)) => Some(|s|)
    case _ => None
  }

  /** The string `FeatureCollection` as the `type` member of a GeoJSON object. */
  const FeatureCollectionType: Json := JStr("FeatureCollection")

  /** True when `v.type === 'FeatureCollection'`. */
  predicate IsFeatureCollection(v: Json) {
    Get(v, "type") == Some(FeatureCollectionType)
  }
}
