/**
 * The slice of JavaScript's value model that the Node.js and TypeScript
 * parts of the system rely on: primitive values, plain objects used as
 * records, truthiness (`!!v`) and string conversion (`String(v)`, which is
 * also what a template literal applies to an interpolated value).
 *
 * Numbers are integers here; NaN, infinities and fractions are not part of
 * this model.  Arrays and functions stored inside records are not modelled
 * either.
 */
module JsValues {
  import opened Decimal

  datatype Value =
    | Undefined
    | Null
    | Bool(b: bool)
    | Num(n: int)
    | Str(s: string)
    | Obj(props: map<string, Value>)

  /** A plain object: its own enumerable properties and their values. */
  type Object = map<string, Value>

  /** JavaScript truthiness: `false`, `0`, `""`, `null` and `undefined` are falsy. */
  predicate Truthy(v: Value)
  {
    match v
    case Undefined => false
    case Null => false
    case Bool(b) => b
    case Num(n) => n != 0
    case Str(s) => s != ""
    case Obj(_) => true
  }

  /** Property access `o.name`: an absent property reads as `undefined`. */
  function Prop(o: Object, name: string): Value
  {
    if name in o then o[name] else Undefined
  }

  /** `String(v)`: the text a value turns into when converted or interpolated. */
  function ToText(v: Value): string
  {
    match v
    case Undefined => "undefined"
    case Null => "null"
    case Bool(b) => if b then "true" else "false"
    case Num(n) => IntToString(n)
    case Str(s) => s
    case Obj(_) => "[object Object]"
  }
}
