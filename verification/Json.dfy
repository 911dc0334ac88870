/** JSON values as owned trees, and what lies at a path of object keys. */
module Json {
  datatype Option<+T> = None | Some(value: T)

  datatype Json =
    | Null
    | Bool(b: bool)
    | Number(n: int)
    | String(s: string)
    | Array(items: seq<Json>)
    | Object(fields: map<string, Json>)

  type Path = seq<string>

  /** The value found by following `path` through nested objects. */
  function Lookup(j: Json, path: Path): Option<Json> {
    if path == [] then Some(j)
    else if j.Object? && path[0] in j.fields then Lookup(j.fields[path[0]], path[1..])
    else None
  }

  /**
   `j` already decides `path`: following it never falls off an object, so either something is
   there, or a value that is not an object blocks the way.
   */
  predicate Settles(j: Json, path: Path) {
    path == [] || !j.Object? || (path[0] in j.fields && Settles(j.fields[path[0]], path[1..]))
  }
}
