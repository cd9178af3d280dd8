/** JavaScript values as the application reads them: whatever `JSON.parse`
    produced, plus `undefined` for a property that is not there. Property
    access, indexing, `.length`, truthiness and `typeof x === 'number'`
    follow the language's rules, so that the guards of the validators can be
    written exactly as the source writes them. */
module JsValues {

  datatype Option<+T> = None | Some(value: T)

  datatype JsValue =
    | Undefined
    | Null
    | Bool(b: bool)
    | Num(n: real)
    | Str(s: string)
    | Arr(items: seq<JsValue>)
    | Obj(fields: map<string, JsValue>)

  /** A value thrown by `throw`: an `Error` instance carries a message. */
  datatype Thrown = ErrorValue(message: string) | NonErrorValue

  /** Reading a property of these throws a TypeError. */
  predicate IsNullish(v: JsValue) {
    v.Undefined? || v.Null?
  }

  /** ToBoolean: the falsy values are undefined, null, false, 0 and "". */
  predicate Truthy(v: JsValue) {
    match v
    case Undefined => false
    case Null => false
    case Bool(b) => b
    case Num(n) => n != 0.0
    case Str(s) => |s| > 0
    case Arr(_) => true
    case Obj(_) => true
  }

  /** A property name that can never be an array index. */
  predicate IsName(key: string) {
    |key| > 0 && !('0' <= key[0] <= '9')
  }

  /** `v.key` on a value that is not null or undefined (callers rule those
      out first, because the source faults on them). Arrays and strings have
      only `length`; other primitives have none of the names read here. */
  function Prop(v: JsValue, key: string): (r: JsValue)
    requires IsName(key)
    ensures v.Obj? && key !in v.fields ==> r == Undefined
    ensures !v.Obj? && key != "length" ==> r == Undefined
  {
    match v
    case Obj(m) => if key in m then m[key] else Undefined
    case Arr(items) => if key == "length" then Num(|items| as real) else Undefined
    case Str(s) => if key == "length" then Num(|s| as real) else Undefined
    case _ => Undefined
  }

  /** `v.length` */
  function Length(v: JsValue): JsValue {
    Prop(v, "length")
  }

  function DigitChar(d: nat): char
    requires d < 10
  {
    (d + '0' as int) as char
  }

  /** The canonical decimal property name of an array index. */
  function IndexKey(i: nat): (key: string)
    ensures |key| > 0 && '0' <= key[0] <= '9'
    ensures i < 10 ==> key == [DigitChar(i)]
  {
    if i < 10 then [DigitChar(i)] else IndexKey(i / 10) + [DigitChar(i % 10)]
  }

  /** `v[i]`: an array element, a one-character string, or an object's
      property named by the decimal index. */
  function Elem(v: JsValue, i: nat): (r: JsValue)
    ensures v.Arr? && i >= |v.items| ==> r == Undefined
    ensures v.Arr? && i < |v.items| ==> r == v.items[i]
    ensures !v.Arr? && !v.Str? && !v.Obj? ==> r == Undefined
  {
    match v
    case Arr(items) => if i < |items| then items[i] else Undefined
    case Str(s) => if i < |s| then Str([s[i]]) else Undefined
    case Obj(m) => var k := IndexKey(i); if k in m then m[k] else Undefined
    case _ => Undefined
  }

  /** `v > 0` for the values a `length` read can produce: numbers compare
      numerically, `true` is 1, `null` is 0 and `undefined` is NaN. A
      string, array or object is taken as not positive. */
  predicate IsPositive(v: JsValue) {
    match v
    case Num(n) => n > 0.0
    case Bool(b) => b
    case _ => false
  }

  /** Converting `v` to a string, as a template literal does, throws a
      TypeError. For the values `JSON.parse` produces this happens exactly
      for an object with an own `toString` property: that property is not a
      function, so `valueOf` is tried next, and it gives back the object
      rather than a primitive. An array is converted by joining its
      elements, where `null` and `undefined` become empty, so it throws
      exactly when one of its other elements does. */
  predicate ToStringThrows(v: JsValue)
    decreases v
  {
    match v
    case Obj(m) => "toString" in m
    case Arr(items) => exists i :: 0 <= i < |items| && !IsNullish(items[i]) && ToStringThrows(items[i])
    case _ => false
  }

  /** The first element `depth` levels down: `v[0]`, `v[0][0]`, ... */
  function FirstAt(v: JsValue, depth: nat): JsValue
    decreases depth
  {
    if depth == 0 then v else FirstAt(Elem(v, 0), depth - 1)
  }

  /** Every value from `v[0]` down to depth `depth` is an array. */
  predicate ArraysDownTo(v: JsValue, depth: nat) {
    forall k :: 1 <= k <= depth ==> FirstAt(v, k).Arr?
  }

}
