/**
 * The few JavaScript runtime notions the routes and the upload form rely on:
 * values produced by JSON.parse, truthiness, property access and what a
 * `catch (error)` block makes of a thrown value.
 */
module JsRuntime {
  import opened Wrappers

  /**
   * A value as JSON.parse produces it. Numbers are kept as reals (JSON has no
   * NaN or infinities); an object is a map from keys to values, which is what
   * JSON.parse yields when a key is repeated (the last occurrence wins).
   */
  datatype Json =
    | JNull
    | JBool(b: bool)
    | JNumber(n: real)
    | JString(s: string)
    | JArray(items: seq<Json>)
    | JObject(fields: map<string, Json>)

  /**
   * Reading `value.key` on a non-null value; `None` stands for `undefined`.
   * Only an object has own properties here; none of the keys the model reads
   * (`verses`, `questions`, `mainTopic`) names a built-in member of a string,
   * array, number or boolean, so those read as `undefined`. Reading a property
   * of `null` throws instead, and callers handle `JNull` before calling this.
   */
  function Property(value: Json, key: string): (r: Option<Json>)
    ensures r.Some? <==> value.JObject? && key in value.fields
    ensures r.Some? ==> r.value == value.fields[key]
  {
    match value
    case JObject(fields) => if key in fields then Some(fields[key]) else None
    case _ => None
  }

  /**
   * JavaScript truthiness of a possibly `undefined` value: `undefined`,
   * `null`, `false`, 0 and "" are falsy; every array and object, empty or
   * not, is truthy.
   */
  predicate Truthy(v: Option<Json>)
    ensures Truthy(v) <==> v.Some? && v.value != JNull && v.value != JBool(false)
                           && v.value != JNumber(0.0) && v.value != JString("")
    ensures v.Some? && (v.value.JArray? || v.value.JObject?) ==> Truthy(v)
    ensures v == Some(JString("")) || v == Some(JNumber(0.0)) || v == Some(JBool(false)) ==> !Truthy(v)
  {
    match v
    case None => false
    case Some(JNull) => false
    case Some(JBool(b)) => b
    case Some(JNumber(n)) => n != 0.0
    case Some(JString(s)) => s != ""
    case Some(JArray(_)) => true
    case Some(JObject(_)) => true
  }

  /** `Array.isArray(v)`. */
  predicate IsArray(v: Option<Json>) {
    v.Some? && v.value.JArray?
  }

  /** A thrown value: an `Error` instance with its message, or anything else. */
  datatype Exception = ErrorObject(message: string) | OtherThrown

  const GenericFailure := "Something went wrong"

  /** `error instanceof Error ? error.message : "Something went wrong"`. */
  function CaughtMessage(e: Exception): (m: string)
    ensures e.ErrorObject? ==> m == e.message
    ensures e.OtherThrown? ==> m == GenericFailure
  {
    match e
    case ErrorObject(message) => message
    case OtherThrown => GenericFailure
  }

  /**
   * The TypeErrors the engine throws when a property of `null` is read or
   * destructured. Their wording belongs to the JavaScript engine; the model
   * fixes the one V8 uses.
   */
  function NullReadError(key: string): Exception {
    ErrorObject("Cannot read properties of null (reading '" + key + "')")
  }

  function NullDestructureError(key: string): Exception {
    ErrorObject("Cannot destructure property '" + key + "' of '(intermediate value)' as it is null.")
  }
}
