/** JSON values as the client sees them after parsing. */
module Json {
  import opened Options

  /** `Int` covers every integer JSON number and `Float` the others, so that an
      integer id never equals a floating-point one. */
  datatype Json =
    | Null
    | Bool(b: bool)
    | Int(n: int)
    | Float(r: real)
    | Str(s: string)
    | Arr(items: seq<Json>)
    | Obj(fields: map<string, Json>)

  /** The value under `key`, when `j` is an object that has it. */
  function Get(j: Json, key: string): Option<Json> {
    if j.Obj? && key in j.fields then Some(j.fields[key]) else None
  }

  /** Indexing, which reads a missing key as `null`. */
  function At(j: Json, key: string): Json {
    match Get(j, key)
    case Some(v) => v
    case None => Null
  }

  function AsStr(j: Json): Option<string> {
    if j.Str? then Some(j.s) else None
  }

  function GetStr(j: Json, key: string): Option<string> {
    match Get(j, key)
    case Some(v) => AsStr(v)
    case None => None
  }
}
