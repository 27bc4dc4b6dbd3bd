/** Decoded JSON documents, as the `map[string]any` trees that the Kubernetes
    `unstructured` helpers walk, with the one-level lookups those helpers perform. */
module Json {

  type Object = map<string, Value>

  datatype Value =
    | Null
    | Bool(b: bool)
    | Num(n: int)
    | Str(s: string)
    | List(items: seq<Value>)
    | Map(fields: Object)

  /** `m, _ := v.(map[string]any)`: anything that is not a map reads as an empty one. */
  function AsObject(v: Value): Object {
    if v.Map? then v.fields else map[]
  }

  /** `NestedString` with one field: absent or non-string fields read as "". */
  function GetString(m: Object, key: string): string {
    if key in m && m[key].Str? then m[key].s else ""
  }

  /** `NestedBool` with one field. */
  function GetBool(m: Object, key: string): bool {
    key in m && m[key].Bool? && m[key].b
  }

  /** The name of a list entry, "" for entries that are not maps. */
  function NameOf(v: Value): string {
    GetString(AsObject(v), "name")
  }

  /** Rewrite the map stored at `key`; anything else at `key` is left alone. */
  function UpdateMap(m: Object, key: string, f: Object -> Object): Object {
    if key in m && m[key].Map? then m[key := Map(f(m[key].fields))] else m
  }

  /** Rewrite the list stored at `key`; anything else at `key` is left alone. */
  function UpdateList(m: Object, key: string, f: seq<Value> -> seq<Value>): Object {
    if key in m && m[key].List? then m[key := List(f(m[key].items))] else m
  }

  /** As UpdateList, but an empty outcome deletes the key. */
  function UpdateListOrDelete(m: Object, key: string, f: seq<Value> -> seq<Value>): Object {
    if key in m && m[key].List? && f(m[key].items) == [] then m - {key}
    else UpdateList(m, key, f)
  }
}
