/**
 * The field-level view of `org.json.JSONObject` that the file layer uses:
 * a map from keys to values, `put`, and the lenient getters `optString` and
 * `optLong`. Parsing and printing JSON text are library behaviour and enter
 * the model as function parameters (see FileIO and MainActivity).
 */
module Json {
  import opened Strings

  /** A JSON value as the file layer sees it: a string, an integral number,
      or anything else (boolean, null, array, nested object, non-integral
      number), which carries the text `toString()` gives for it. */
  datatype JsonValue = JString(s: string) | JNumber(n: int) | JOther(text: string)

  type JsonFields = map<string, JsonValue>

  /** `optString(key, fallback)` (Android): the fallback when the key is
      absent, otherwise the value converted to a string. */
  function OptString(fields: JsonFields, key: string, fallback: string): (r: string)
    ensures key !in fields ==> r == fallback
    ensures key in fields && fields[key].JString? ==> r == fields[key].s
  {
    if key !in fields then fallback
    else match fields[key]
      case JString(s) => s
      case JNumber(n) => IntToString(n)
      case JOther(text) => text
  }

  /** `optLong(key, fallback)`: the number stored under the key, or the
      fallback when there is none. */
  function OptLong(fields: JsonFields, key: string, fallback: int): (r: int)
    ensures key in fields && fields[key].JNumber? ==> r == fields[key].n
    ensures !(key in fields && fields[key].JNumber?) ==> r == fallback
  {
    if key in fields && fields[key].JNumber? then fields[key].n else fallback
  }

  /** A mutable `JSONObject`. */
  class JsonObject {
    var fields: JsonFields

    /** `JSONObject()`: no keys. */
    constructor ()
      ensures fields == map[]
    {
      fields := map[];
    }

    /** `put(key, value)`: sets one key and leaves the others alone. */
    method Put(key: string, value: JsonValue)
      modifies this
      ensures fields == old(fields)[key := value]
    {
      fields := fields[key := value];
    }
  }
}
