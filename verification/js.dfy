/**
 * The JavaScript value semantics the source relies on: truthiness of optional
 * strings, the `Boolean()` coercion, the `||` fallback, 32-bit integer
 * conversion and the truncating remainder operator.
 */
module Js {
  import opened Wrappers

  /** A JSON value as it arrives in a request body. Numbers are integers here. */
  datatype JsValue = Undefined | Null | Bool(b: bool) | Num(n: int) | Str(s: string) | Arr | Obj

  /** JavaScript truthiness of an optional string: present and non-empty. */
  predicate Truthy(o: Option<string>) {
    o.Some? && o.value != ""
  }

  /** `a || b` on optional strings: `a` when truthy, otherwise `b`. */
  function Or(a: Option<string>, b: Option<string>): (r: Option<string>)
    ensures Truthy(a) ==> r == a
    ensures !Truthy(a) ==> r == b
    ensures Truthy(r) <==> Truthy(a) || Truthy(b)
  {
    if Truthy(a) then a else b
  }

  /** `a || fallback` where the fallback is a plain string. */
  function OrElse(a: Option<string>, fallback: string): (r: string)
    ensures Truthy(a) ==> r == a.value
    ensures !Truthy(a) ==> r == fallback
  {
    if Truthy(a) then a.value else fallback
  }

  /** `Boolean(v)`: the JavaScript truthiness of any JSON value (NaN is left out). */
  function ToBoolean(v: JsValue): (b: bool)
    ensures v.Bool? ==> b == v.b
    ensures v.Undefined? || v.Null? ==> !b
    ensures v.Str? ==> (b <==> v.s != "")
    ensures v.Arr? || v.Obj? ==> b
  {
    match v
    case Undefined => false
    case Null => false
    case Bool(x) => x
    case Num(n) => n != 0
    case Str(s) => s != ""
    case Arr => true
    case Obj => true
  }

  const TwoTo32: int := 0x1_0000_0000
  const TwoTo31: int := 0x8000_0000

  /** ECMAScript ToInt32 of an integral number: wrap into the signed 32-bit range. */
  function ToInt32(x: int): (r: int)
    ensures -TwoTo31 <= r < TwoTo31
    ensures (r - x) % TwoTo32 == 0
    ensures -TwoTo31 <= x < TwoTo31 ==> r == x
  {
    var m := x % TwoTo32;
    if m >= TwoTo31 then m - TwoTo32 else m
  }

  /** JavaScript `a % b` for a positive divisor: the remainder takes the sign of `a`. */
  function TruncRem(a: int, b: int): (r: int)
    requires b > 0
    ensures -b < r < b
    ensures a >= 0 ==> r == a % b
    ensures a < 0 ==> r <= 0 && r == -((-a) % b)
  {
    if a >= 0 then a % b else -((-a) % b)
  }

  /** `Math.abs`. */
  function Abs(x: int): (r: nat)
    ensures r == x || r == -x
  {
    if x < 0 then -x else x
  }

  /** `String(b)` for a boolean. */
  function BoolToString(b: bool): (s: string)
    ensures s == "true" <==> b
  {
    if b then "true" else "false"
  }
}
