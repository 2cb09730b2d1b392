/**
 * The request body as JavaScript sees it once `express.json()` has parsed
 * it: a JSON value, read through JavaScript's truthiness, `typeof`,
 * property access and string conversion.
 */
module JsValue {
  import opened Wrappers
  import opened JsText

  /** A parsed JSON value. `Undefined` stands for a property that is
      absent; numbers are integer-valued here. */
  datatype Json =
    | Undefined
    | Null
    | Bool(b: bool)
    | Num(n: int)
    | Str(s: string)
    | Arr(items: seq<Json>)
    | Obj(fields: map<string, Json>)

  /** JavaScript truthiness: `undefined`, `null`, `false`, `0` and `""` are
      falsy; every array and object, even an empty one, is truthy. */
  predicate Truthy(v: Json) {
    match v
    case Undefined => false
    case Null => false
    case Bool(b) => b
    case Num(n) => n != 0
    case Str(s) => s != ""
    case Arr(_) => true
    case Obj(_) => true
  }

  /** The `typeof` operator; arrays and `null` are both "object". */
  function TypeOf(v: Json): string {
    match v
    case Undefined => "undefined"
    case Null => "object"
    case Bool(_) => "boolean"
    case Num(_) => "number"
    case Str(_) => "string"
    case Arr(_) => "object"
    case Obj(_) => "object"
  }

  /** Property access `v.key` (or a destructured field): an object's own
      field, `undefined` for a missing one and for every non-object. */
  function Get(v: Json, key: string): Json {
    if v.Obj? && key in v.fields then v.fields[key] else Undefined
  }

  /** `String(v)` succeeds on `v`. Converting an object calls its
      `toString`, then its `valueOf`; JSON can give an object its own
      `toString` key but never a function there, so such an object has no
      primitive value and the conversion throws a TypeError. An array
      converts through its elements. */
  predicate Convertible(v: Json)
    decreases v
  {
    match v
    case Arr(items) => forall i :: 0 <= i < |items| ==> Convertible(items[i])
    case Obj(fields) => "toString" !in fields
    case _ => true
  }

  /** The message of the TypeError thrown when an object has no primitive
      value. */
  const NotPrimitiveMessage: string := "Cannot convert object to primitive value"

  /** `String(v)`: arrays convert through `join(",")`, plain objects to
      "[object Object]"; `None` when the conversion throws. */
  function ToJsString(v: Json): (r: Option<string>)
    ensures r.Some? <==> Convertible(v)
    ensures v.Obj? && r.Some? ==> r.value == "[object Object]"
    ensures v.Str? ==> r == Some(v.s)
    decreases v
  {
    match v
    case Undefined => Some("undefined")
    case Null => Some("null")
    case Bool(b) => Some(if b then "true" else "false")
    case Num(n) => Some(IntToString(n))
    case Str(s) => Some(s)
    case Arr(items) => Join(items, ",")
    case Obj(fields) => if "toString" in fields then None else Some("[object Object]")
  }

  /** `Array.prototype.join(sep)`: the elements converted to strings, with
      `null` and `undefined` becoming "", separated by `sep`; `None` when
      converting an element throws, which ends the whole join. */
  function Join(items: seq<Json>, sep: string): (r: Option<string>)
    ensures r.Some? <==> forall i :: 0 <= i < |items| ==> Convertible(items[i])
    decreases items
  {
    if |items| == 0 then Some("")
    else
      var first := if items[0].Undefined? || items[0].Null? then Some("") else ToJsString(items[0]);
      if first.None? then None
      else if |items| == 1 then first
      else
        var rest := Join(items[1..], sep);
        assert forall i :: 1 <= i < |items| ==> items[i] == items[1..][i - 1];
        if rest.None? then None else Some(first.value + sep + rest.value)
  }

  /** Joining strings only: the strings with `sep` between neighbours. */
  function Interleave(xs: seq<string>, sep: string): (r: string)
    decreases |xs|
  {
    if |xs| == 0 then "" else if |xs| == 1 then xs[0] else xs[0] + sep + Interleave(xs[1..], sep)
  }

  /** Join of an array of strings never throws and gives the strings
      interleaved with `sep`. */
  lemma {:induction false} JoinOfStrings(items: seq<Json>, sep: string)
    requires forall i :: 0 <= i < |items| ==> items[i].Str?
    ensures Join(items, sep) == Some(Interleave(seq(|items|, i requires 0 <= i < |items| => items[i].s), sep))
    decreases |items|
  {
    var xs := seq(|items|, i requires 0 <= i < |items| => items[i].s);
    if |items| > 0 {
      assert ToJsString(items[0]) == Some(xs[0]);
    }
    if |items| > 1 {
      JoinOfStrings(items[1..], sep);
      assert xs[1..] == seq(|items[1..]|, i requires 0 <= i < |items[1..]| => items[1..][i].s);
    }
  }
}
