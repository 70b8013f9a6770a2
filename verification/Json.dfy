/** Values as conf.json and the settings tables hold them. */
module Json {
  datatype Json =
    | Null
    | Bool(b: bool)
    | Int(i: int)
    | Real(r: real)
    | NaN
    | Str(s: string)
    | List(items: seq<Json>)
    | Dict(entries: map<string, Json>)
}
