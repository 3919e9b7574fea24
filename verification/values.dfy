/** JSON values as the portal stores them in a record's `data` field, and the
    small wrapper types shared by the other modules. */
module Values {

  datatype Option<+T> = None | Some(value: T)

  /** A decoded JSON value. `Num` stands for every JSON number; floating point
      is not modelled. `Object` is a Python dict with string keys. */
  datatype Value =
    | Null
    | Bool(b: bool)
    | Num(n: int)
    | Str(s: string)
    | List(items: seq<Value>)
    | Object(fields: map<string, Value>)

  /** Python truthiness (`not value` is false exactly for these). */
  predicate Truthy(v: Value) {
    match v
    case Null => false
    case Bool(b) => b
    case Num(n) => n != 0
    case Str(s) => s != []
    case List(items) => items != []
    case Object(fields) => fields != map[]
  }

  /** The payload seen through `isinstance(data, dict)`: an object's fields,
      and the empty dict that the views substitute for anything else. */
  function AsObject(v: Value): map<string, Value> {
    if v.Object? then v.fields else map[]
  }
}
