/**
 * The runtime values the scripts handle: a plain object is modelled by its
 * own enumerable properties, a finite map from property name to value.
 */
module JsValues {

  datatype Option<+T> = None | Some(value: T)

  /** A Date object. The model keeps the text it was built from and never interprets it. */
  datatype Date = Date(source: string)

  /** The property values that occur in the records the filters see. */
  datatype Value =
    | Undefined
    | Null
    | Bool(b: bool)
    | Num(n: int)
    | Str(s: string)
    | DateObj(date: Date)
    | FunctionObj(ref: nat)   // a function value, known only by an identity

  type Field = string

  /** An object, given by its own properties (the ones `Object.keys` lists). */
  type Record = map<Field, Value>

}
