/** The JavaScript values that cross the model's boundaries (IPC arguments,
    HTTP bodies, thrown exceptions) and the few language rules the
    application relies on: truthiness, property reads and string
    conversion. */
module Js {
  import opened Wrappers
  import opened Text

  /** A JavaScript value. Numbers are integral; functions are opaque handles. */
  datatype JsValue =
    | Undefined
    | Null
    | JsBool(b: bool)
    | JsNumber(n: int)
    | JsString(s: string)
    | JsArray(items: seq<JsValue>)
    | JsObject(fields: map<string, JsValue>)
    | JsFunction(handle: nat)

  /** Something thrown: an `Error` instance with its message, or any other value. */
  datatype Thrown =
    | Error(message: string)
    | NonError(value: JsValue)

  /** JavaScript's ToBoolean. */
  predicate Truthy(v: JsValue) {
    match v
    case Undefined => false
    case Null => false
    case JsBool(b) => b
    case JsNumber(n) => n != 0
    case JsString(s) => s != ""
    case _ => true
  }

  /** The text of the TypeError V8 throws when a property is read from
      `undefined` or `null`. */
  function ReadError(base: string, key: string): string {
    "Cannot read properties of " + base + " (reading '" + key + "')"
  }

  /** `v[key]` for a key that no built-in prototype defines: the own field of
      an object, `undefined` on every other value, and a TypeError on
      `undefined` and `null`. */
  function Get(v: JsValue, key: string): (r: Result<JsValue, Thrown>)
    ensures r.Err? <==> v.Undefined? || v.Null?
    ensures r.Ok? && r.value != Undefined ==> v.JsObject? && key in v.fields
  {
    match v
    case Undefined => Err(Error(ReadError("undefined", key)))
    case Null => Err(Error(ReadError("null", key)))
    case JsObject(fields) => Ok(if key in fields then fields[key] else Undefined)
    case _ => Ok(Undefined)
  }

  /** `v?.[key]`: optional chaining yields `undefined` instead of throwing. */
  function GetOptional(v: JsValue, key: string): (r: JsValue)
    ensures v.Undefined? || v.Null? ==> r == Undefined
    ensures Get(v, key).Ok? ==> r == Get(v, key).value
  {
    match Get(v, key)
    case Ok(x) => x
    case Err(_) => Undefined
  }

  /** `e instanceof Error ? e.message : fallback`. */
  function MessageOr(e: Thrown, fallback: string): string {
    match e
    case Error(m) => m
    case NonError(_) => fallback
  }

  /** JavaScript's ToString for the values a JSON body can hold; an array is
      joined with `,` after rendering `undefined` and `null` elements as "". */
  function ToJsString(v: JsValue): string
    decreases v
  {
    match v
    case Undefined => "undefined"
    case Null => "null"
    case JsBool(b) => if b then "true" else "false"
    case JsNumber(n) => IntToString(n)
    case JsString(s) => s
    case JsArray(items) => JoinValues(items, ",")
    case JsObject(_) => "[object Object]"
    case JsFunction(_) => "function"
  }

  /** `Array.prototype.join(sep)` on arbitrary elements. */
  function JoinValues(items: seq<JsValue>, sep: string): string
    decreases items
  {
    if |items| == 0 then ""
    else
      var first := if items[0].Undefined? || items[0].Null? then "" else ToJsString(items[0]);
      if |items| == 1 then first else first + sep + JoinValues(items[1..], sep)
  }

  /** Joining string values is joining their texts. */
  lemma {:induction false} JoinValuesOfStrings(texts: seq<string>, sep: string)
    ensures JoinValues(Map(t => JsString(t), texts), sep) == Join(texts, sep)
    decreases |texts|
  {
    var items := Map(t => JsString(t), texts);
    if |texts| > 1 {
      assert items[1..] == Map(t => JsString(t), texts[1..]);
      JoinValuesOfStrings(texts[1..], sep);
    }
  }
}
