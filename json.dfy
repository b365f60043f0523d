/**
 * JSON values as both halves of the system see them: the Flask backend reads request bodies
 * into Python dicts and the Next.js client reads responses into JavaScript objects.
 * `Undefined` only arises on the JavaScript side (reading a missing property).
 * Numbers are modelled as integers.
 */
module Json {

  datatype Value =
    | Undefined
    | Null
    | Bool(b: bool)
    | Num(n: int)
    | Str(s: string)
    | Arr(items: seq<Value>)
    | Obj(fields: map<string, Value>)

  /** Python truthiness (`if x:`, `not x`, `all([...])`): empty containers are false. */
  predicate PyTruthy(v: Value) {
    match v
    case Undefined => false
    case Null => false
    case Bool(b) => b
    case Num(n) => n != 0
    case Str(s) => s != []
    case Arr(a) => a != []
    case Obj(m) => m != map[]
  }

  /** JavaScript truthiness (`if (!x)`, `a || b`): every object and array is true. */
  predicate JsTruthy(v: Value) {
    match v
    case Undefined => false
    case Null => false
    case Bool(b) => b
    case Num(n) => n != 0
    case Str(s) => s != []
    case Arr(_) => true
    case Obj(_) => true
  }

  /** JavaScript `a || b` on values. */
  function JsOr(a: Value, b: Value): (r: Value)
    ensures JsTruthy(a) ==> r == a
    ensures !JsTruthy(a) ==> r == b
  {
    if JsTruthy(a) then a else b
  }

  /** JavaScript `a ?? b` on values: only `null` and `undefined` give way. */
  function Nullish(a: Value, b: Value): (r: Value)
    ensures a == Null || a == Undefined ==> r == b
    ensures a != Null && a != Undefined ==> r == a
  {
    if a == Null || a == Undefined then b else a
  }

  /** `||` and `??` differ exactly on the falsy values that are not null or undefined. */
  lemma OrVersusNullish(a: Value, b: Value)
    ensures JsOr(a, b) != Nullish(a, b) ==> !JsTruthy(a) && a != Null && a != Undefined && a != b
    ensures !JsTruthy(a) && a != Null && a != Undefined && a != b ==> JsOr(a, b) != Nullish(a, b)
  {
  }

  /** JavaScript property read `v.k` on a value that is not null or undefined. */
  function Prop(v: Value, k: string): (r: Value)
    ensures v.Obj? && k in v.fields ==> r == v.fields[k]
    ensures !(v.Obj? && k in v.fields) ==> r == Undefined
  {
    if v.Obj? && k in v.fields then v.fields[k] else Undefined
  }
}
