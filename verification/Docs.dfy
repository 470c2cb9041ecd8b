/** JSON documents: kernel states, action payloads, metadata and structured errors. */
module Docs {
  datatype Json =
    | Null
    | Bool(b: bool)
    | Int(n: int)
    | Num(r: real)
    | Str(s: string)
    | Arr(items: seq<Json>)
    | Obj(fields: map<string, Json>)

  type Doc = map<string, Json>
}
