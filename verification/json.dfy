/**
 * A JSON value as the Gson tree model holds it (the object, array, string,
 * literal and null values of RFC 8259, sections 3 to 5; numbers are not
 * needed here), with the element accessors the storage model calls.
 *
 * An object is the sequence of its members in insertion order. Gson's
 * `JsonObject` cannot hold a name twice (a repeated name keeps the last
 * value), while this sequence can; `Get` takes the first member with a name
 * and the storage reader refuses repeated names in section data. The two
 * agree on every object whose member names are distinct, which includes
 * every object the storage writer builds.
 */
module Json {
  import opened Wrappers

  datatype Json =
    | JObject(members: seq<(string, Json)>)
    | JArray(items: seq<Json>)
    | JString(str: string)
    | JBool(b: bool)
    | JNull

  /** `JsonObject.get`: the value of the first member named `key`, `None` where Gson returns null. */
  function Get(members: seq<(string, Json)>, key: string): (r: Option<Json>)
    ensures r.Some? <==> exists i :: 0 <= i < |members| && members[i].0 == key
    ensures r.Some? ==> (key, r.value) in members
  {
    if members == [] then None
    else if members[0].0 == key then Some(members[0].1)
    else Get(members[1..], key)
  }

  /** `Boolean.parseBoolean`: true exactly for `true` in any letter case. */
  predicate ParseBoolean(s: string) {
    |s| == 4 && s[0] in "tT" && s[1] in "rR" && s[2] in "uU" && s[3] in "eE"
  }

  /**
   * `JsonElement.getAsBoolean`: a literal as is, a string as `parseBoolean`
   * reads it, a one-element array as its element; `None` where Gson throws.
   */
  function AsBoolean(j: Json): (r: Option<bool>)
    ensures j.JBool? ==> r == Some(j.b)
    ensures j.JObject? || j.JNull? ==> r.None?
  {
    match j
    case JBool(b) => Some(b)
    case JString(s) => Some(ParseBoolean(s))
    case JArray(items) => if |items| == 1 then AsBoolean(items[0]) else None
    case _ => None
  }

  /**
   * `JsonElement.getAsString`: a string as is, a literal as `true`/`false`,
   * a one-element array as its element; `None` where Gson throws.
   */
  function AsString(j: Json): (r: Option<string>)
    ensures j.JString? ==> r == Some(j.str)
    ensures j.JObject? || j.JNull? ==> r.None?
  {
    match j
    case JString(s) => Some(s)
    case JBool(b) => Some(if b then "true" else "false")
    case JArray(items) => if |items| == 1 then AsString(items[0]) else None
    case _ => None
  }
}
