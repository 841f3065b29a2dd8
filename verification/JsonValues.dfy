/** JSON values, as they appear in tool arguments and run state. */
module JsonValues {

  datatype Json =
    | Null
    | Bool(truth: bool)
    | Num(number: int)
    | Str(text: string)
    | Arr(items: seq<Json>)
    | Obj(fields: map<string, Json>)

  /** Python truth: null, false, zero and empty collections are falsy. */
  predicate Truthy(v: Json) {
    match v
    case Null => false
    case Bool(b) => b
    case Num(n) => n != 0
    case Str(s) => s != ""
    case Arr(items) => items != []
    case Obj(fields) => fields != map[]
  }

  function Field(fields: map<string, Json>, key: string): Json { if key in fields then fields[key] else Null }

  /** `str(x or "")`; `render` is how values other than texts print. */
  function TextOf(v: Json, render: Json -> string): string {
    if !Truthy(v) then "" else if v.Str? then v.text else render(v)
  }

  /** Values that are true print as something. */
  ghost predicate Prints(render: Json -> string) { forall v :: Truthy(v) ==> render(v) != "" }
}
