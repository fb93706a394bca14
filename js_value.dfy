/**
 * The JavaScript values that the helpers of lib/main.js handle, as immutable
 * values. A JavaScript object is its own enumerable string keys, in the order
 * Object.keys lists them, together with the value stored under each key.
 * These values are immutable, so the deep copy made by `clone` is the value
 * itself. Whether two JavaScript objects are one and the same object
 * (sharing) cannot be expressed with them.
 */
module JsValue {

  /** A plain object, or an array with its `length` property. */
  datatype ObjKind = PlainObject | ArrayObject(length: nat)

  datatype Value =
    | Undefined
    | Null
    | Bool(b: bool)
    | Num(n: int)
    | Str(s: string)
      /** An object without own enumerable properties, such as a Date. */
    | Other(tag: string)
    | Obj(kind: ObjKind, keys: seq<string>, fields: map<string, Value>)

  /** The one exception these helpers raise: Object.keys or hasOwnProperty
      applied to `null` or `undefined`, or a call of `obj.hasOwnProperty(...)`
      on an object whose own field of that name hides the inherited method. */
  datatype Error = TypeError

  datatype Result<T> = Ok(value: T) | Err(error: Error)

  datatype Option<T> = None | Some(value: T)

  predicate Distinct(keys: seq<string>) {
    forall i, j | 0 <= i < j < |keys| :: keys[i] != keys[j]
  }

  /** An object lists each of its own enumerable keys exactly once. */
  predicate KeysListed(v: Value) {
    v.Obj? ==> Distinct(v.keys) && v.fields.Keys == set k | k in v.keys
  }

  /** An array's `length` is not one of its enumerable keys, and every index
      among its keys lies below `length`; other keys are named properties
      set on the array. */
  predicate IndicesBelowLength(v: Value) {
    v.Obj? && v.kind.ArrayObject? ==>
      && "length" !in v.fields
      && forall k | k in v.fields && CanonicalIndex(k).Some? :: CanonicalIndex(k).value < v.kind.length
  }

  /** Every object, at every depth, lists each of its keys exactly once. */
  predicate KeysListedDeep(v: Value) {
    && KeysListed(v)
    && (v.Obj? ==> forall k | k in v.fields :: KeysListedDeep(v.fields[k]))
  }

  /** A value as JavaScript builds it: every object, at every depth, lists
      each of its keys exactly once, and every array agrees with its
      `length`. */
  predicate WellFormed(v: Value) {
    && KeysListed(v)
    && IndicesBelowLength(v)
    && (v.Obj? ==> forall k | k in v.fields :: WellFormed(v.fields[k]))
  }

  /** `typeof v === 'object'` */
  predicate IsTypeofObject(v: Value) {
    v.Null? || v.Other? || v.Obj?
  }

  /** The truth value JavaScript gives `v` in a condition or under `||`
      (numbers are integers here, so NaN and -0 do not arise). */
  predicate Truthy(v: Value) {
    match v
    case Undefined => false
    case Null => false
    case Bool(b) => b
    case Num(n) => n != 0
    case Str(s) => s != ""
    case Other(_) => true
    case Obj(_, _, _) => true
  }

  function DigitValue(c: char): nat
    requires '0' <= c <= '9'
  {
    c as nat - '0' as nat
  }

  /** The number written by a string of decimal digits. */
  function DecimalValue(k: string): nat
    requires forall i | 0 <= i < |k| :: '0' <= k[i] <= '9'
  {
    if k == [] then 0 else DecimalValue(k[..|k| - 1]) * 10 + DigitValue(k[|k| - 1])
  }

  /** The index that `k` names, when `k` is the canonical decimal form of a
      non-negative integer ("0", "17", but not "017" or "")). */
  function CanonicalIndex(k: string): (r: Option<nat>)
    ensures r.Some? ==> k != [] && (k[0] != '0' || k == "0")
  {
    if k != [] && (forall i | 0 <= i < |k| :: '0' <= k[i] <= '9') && (k[0] != '0' || k == "0")
    then Some(DecimalValue(k))
    else None
  }

  /** `v` has an own field named "hasOwnProperty". It hides
      Object.prototype.hasOwnProperty, and no value here can be called, so
      `v.hasOwnProperty(k)` throws. */
  predicate HidesHasOwnProperty(v: Value) {
    v.Obj? && "hasOwnProperty" in v.fields
  }

  /** `v.hasOwnProperty(k)` for a value that is neither null nor undefined,
      when the call reaches the inherited method:
      the enumerable keys of an object, the `length` of an array, and the
      indices and `length` of a string. Numbers, booleans and Dates have no
      own properties. */
  predicate HasOwnProperty(v: Value, k: string)
    requires !v.Null? && !v.Undefined?
  {
    match v
    case Obj(kind, _, fields) => k in fields || (kind.ArrayObject? && k == "length")
    case Str(s) => k == "length" || (CanonicalIndex(k).Some? && CanonicalIndex(k).value < |s|)
    case _ => false
  }

  /** `v[k]` for an own property `k` of `v`. */
  function OwnProperty(v: Value, k: string): Value
    requires !v.Null? && !v.Undefined? && HasOwnProperty(v, k)
  {
    match v
    case Obj(kind, _, fields) => if k in fields then fields[k] else Num(kind.length)
    case Str(s) => if k == "length" then Num(|s|) else Str([s[CanonicalIndex(k).value]])
  }
}
