/** The part of JavaScript's value semantics that the storage mirror depends on:
    which values `??` replaces, which values are falsy, and what reading the
    `newValue` property of a change entry yields. */
module JsValues {

  datatype Option<+T> = None | Some(value: T)

  /** A JavaScript value, with `undefined` and `null` kept apart from every
      other value. Numbers are modelled as integers. `Builtin(name)` is a member
      inherited from `Object.prototype` (one of its methods, or the prototype
      object itself for `__proto__`). */
  datatype Value =
    | Undefined
    | Null
    | Bool(b: bool)
    | Num(n: int)
    | Str(s: string)
    | Arr(items: seq<Value>)
    | Obj(fields: map<string, Value>)
    | Builtin(name: string)

  /** The values that `??` replaces. */
  predicate IsNullish(v: Value) {
    v.Undefined? || v.Null?
  }

  /** The values that `||` and `if` treat as false (NaN and -0 are not modelled). */
  predicate IsFalsy(v: Value) {
    v.Undefined? || v.Null? || v == Bool(false) || v == Num(0) || v == Str("")
  }

  /** `v ?? fallback`: the fallback is used for `undefined` and `null` only. */
  function Coalesce(v: Value, fallback: Value): Value {
    if IsNullish(v) then fallback else v
  }

  /** `entry.newValue`: a TypeError (None) on `undefined` or `null`, the own
      field of an object when it has one, and `undefined` for every other
      value, since no other value carries a `newValue` property. */
  function ReadNewValue(entry: Value): (r: Option<Value>)
    ensures r.None? <==> IsNullish(entry)
  {
    match entry
    case Undefined => None
    case Null => None
    case Obj(fields) => Some(if "newValue" in fields then fields["newValue"] else Undefined)
    case _ => Some(Undefined)
  }
}
