/** Values that cross the boundary between the chatbot and the outside world:
    decoded JSON, the outcome of a language-model call, and the outcome of a
    Python step that may raise. */
module Values {

  datatype Option<+T> = None | Some(value: T)

  /** A value produced by `json.loads`. Objects keep the last binding of a
      repeated key, as a Python `dict` does. */
  datatype Json =
    | JNull
    | JBool(b: bool)
    | JNumber(n: real)
    | JString(s: string)
    | JArray(items: seq<Json>)
    | JObject(fields: map<string, Json>)
  {
    /** Python truthiness of the decoded value. */
    predicate Truthy() {
      match this
      case JNull => false
      case JBool(b) => b
      case JNumber(n) => n != 0.0
      case JString(s) => s != []
      case JArray(a) => a != []
      case JObject(m) => m != map[]
    }

    /** Whether Python's `len()` accepts the decoded value. */
    predicate HasLen() {
      JString? || JArray? || JObject?
    }
  }

  /** `d.get(key)`: the bound value, or `None` (decoded as null) when absent. */
  function Get(m: map<string, Json>, key: string): (r: Json)
    ensures key !in m ==> r == JNull
    ensures key in m ==> r == m[key]
  {
    if key in m then m[key] else JNull
  }

  /** The result of one call to the language model: the reply text, or the
      message of the exception the client raised. */
  datatype Completion = Reply(text: string) | Failure(error: string)

  /** The result of a Python computation that either returns a value or lets
      an exception escape to its caller. */
  datatype Outcome<+T> = Done(value: T) | Raised
}
