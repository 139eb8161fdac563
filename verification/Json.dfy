/** JSON values, their members in no particular order. */
module Json {
  datatype Json =
    | Null
    | Bool(b: bool)
    | Number(n: real)
    | Str(s: string)
    | Arr(items: seq<Json>)
    | Obj(members: map<string, Json>)

  /** `value[key]`: null where there is no such member. */
  function Get(v: Json, key: string): Json {
    if v.Obj? && key in v.members then v.members[key] else Null
  }
}
