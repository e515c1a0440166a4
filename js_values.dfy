/** The slice of JavaScript's value model that the field extenders touch:
    plain objects as finite maps from property names to values, arrays as
    sequences, property reads that yield `undefined` for a missing key, and
    the one error the extenders can raise (reading a property of `undefined`
    or `null`). */
module JsValues {

  datatype Option<+T> = None | Some(value: T)

  /** A JavaScript value. Numbers are modelled as integers. */
  datatype Value =
    | Undefined
    | Null
    | Bool(b: bool)
    | Num(n: int)
    | Str(s: string)
    | Arr(elems: seq<Value>)
    | Obj(props: map<string, Value>)

  /** A plain JavaScript object: its own enumerable properties. A history
      record is one of these, with the keys "past", "present", "future" and
      whatever the extenders add. */
  type Object = map<string, Value>

  /** A dispatched action, reduced to its `type`: the only property the
      extenders read, and the one the redo check compares. */
  datatype Action = Action(actionType: string)

  /** The error JavaScript throws when a property is read off `undefined` or
      `null`; `property` names the missing holder. */
  datatype JsError = TypeError(property: string)

  /** What a transition function does: return a history, or throw. */
  datatype Completion = Returned(history: Object) | Threw(error: JsError)

  /** The result of a JavaScript numeric expression used as an array index:
      `NaN`, or an integer. */
  datatype Index = NaN | At(n: int)

  predicate IsNullish(v: Value) {
    v.Undefined? || v.Null?
  }

  /** `o.key`: the property's value, or `undefined` when it is absent. */
  function Get(o: Object, key: string): Value {
    if key in o then o[key] else Undefined
  }

  /** `xs[i]` on a JavaScript value: an array element when `i` is in range,
      `undefined` otherwise (including `NaN` and negative indices). */
  function ElementAt(v: Value, i: Index): (r: Value)
    ensures v.Arr? && i.At? && 0 <= i.n < |v.elems| ==> r == v.elems[i.n]
    ensures !(v.Arr? && i.At? && 0 <= i.n < |v.elems|) ==> r == Undefined
  {
    match v
    case Arr(xs) =>
      if i.At? && 0 <= i.n < |xs| then xs[i.n] else Undefined
    case _ => Undefined
  }

  /** `v - 1` under JavaScript's numeric coercion, for the values whose
      coercion the model follows. */
  function MinusOne(v: Value): (r: Index)
    ensures v.Undefined? ==> r == NaN
    ensures v.Num? ==> r == At(v.n - 1)
  {
    match v
    case Undefined => NaN
    case Null => At(-1)
    case Bool(b) => At(if b then 0 else -1)
    case Num(n) => At(n - 1)
    case _ => NaN
  }

  /** The own properties that `...v` copies into an object literal: those of
      an object, none for `undefined`, `null` and the other values the model
      follows. */
  function Spread(v: Value): (r: Object)
    ensures v.Obj? ==> r == v.props
    ensures IsNullish(v) ==> r == map[]
  {
    match v
    case Obj(m) => m
    case _ => map[]
  }
}
