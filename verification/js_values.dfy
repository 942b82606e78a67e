/** The JavaScript values the form, card and page code inspect at run time, and
    the language rules they rely on: truthiness and `Object.values`. */
module JsValues {
  /** A JavaScript value. Numbers are reals: `NaN` and the infinities are not
      values of this type. An object is represented by its own enumerable property
      values, in property order. */
  datatype JsValue =
    | Undefined
    | Null
    | Bool(b: bool)
    | Num(n: real)
    | Str(s: string)
    | Arr(items: seq<JsValue>)
    | Object(values: seq<JsValue>)

  /** JavaScript truthiness. */
  predicate Truthy(v: JsValue)
  {
    match v
    case Undefined => false
    case Null => false
    case Bool(b) => b
    case Num(n) => n != 0.0
    case Str(s) => s != ""
    case Arr(_) => true
    case Object(_) => true
  }

  /** The falsy values are exactly `undefined`, `null`, `false`, `0` and `''`. */
  lemma FalsyValues(v: JsValue)
    ensures !Truthy(v) <==> v in {Undefined, Null, Bool(false), Num(0.0), Str("")}
  {
  }

  /** `Object.values(v)` for a value that is not `null` or `undefined`: an
      object's property values, an array's items, a string's characters as
      one-character strings, nothing for a number or a boolean. */
  function ObjectValues(v: JsValue): (r: seq<JsValue>)
    requires v != Undefined && v != Null
    ensures v.Object? ==> r == v.values
    ensures v.Arr? ==> r == v.items
    ensures v.Str? ==> |r| == |v.s| && forall i :: 0 <= i < |r| ==> r[i] == Str([v.s[i]])
    ensures v.Num? || v.Bool? ==> r == []
  {
    match v
    case Object(values) => values
    case Arr(items) => items
    case Str(s) => Characters(s)
    case _ => []
  }

  /** A string's characters, each as a one-character string. */
  function Characters(s: string): (r: seq<JsValue>)
    ensures |r| == |s| && forall i :: 0 <= i < |r| ==> r[i] == Str([s[i]])
  {
    if |s| == 0 then [] else [Str([s[0]])] + Characters(s[1..])
  }
}
