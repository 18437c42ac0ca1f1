/**
 * A parsed JSON object, as fastjson2's `JSONObject` hands it to the services: a map from key to value.
 * The getters below are the typed reads the services make; a read that fastjson2 rejects with an
 * exception is a `Failure`. The JSON grammar itself is not modelled: a text that does not parse to an
 * object is `None` where the services receive it.
 */
module Json {
  import opened Wrappers
  import opened JavaInt
  import opened Strs
  import opened Colors

  datatype JValue =
    | JNull
    | JString(s: string)
    | JNumber(n: real)
    | JBool(b: bool)
    | JArray(items: seq<JValue>)
    | JObject(fields: map<string, JValue>)

  type JObj = map<string, JValue>

  /** `getString(key)`: null when the key is missing or null; a string as it is. */
  function GetString(o: JObj, key: string): (r: Result<Option<string>, string>)
    ensures key !in o || o[key] == JNull ==> r == Success(None)
    ensures key in o && o[key].JString? ==> r == Success(Some(o[key].s))
  {
    if key !in o then Success(None)
    else match o[key]
      case JNull => Success(None)
      case JString(s) => Success(Some(s))
      case _ => Failure("JSONException: not a string")
  }

  /** `Number.intValue()`: the value truncated toward zero, then its low 32 bits. */
  function IntValueOf(n: real): (r: Int32)
    ensures n == 0.0 ==> r == 0
  {
    Wrap32(if n >= 0.0 then n.Floor else -((-n).Floor))
  }

  /** `getIntValue(key)`: 0 for a missing or null key, a number's `intValue()`, a boolean as 1 / 0, an integer string parsed. */
  function GetIntValue(o: JObj, key: string): (r: Result<int, string>)
    ensures r.Success? ==> InRange32(r.value)
    ensures key !in o || o[key] == JNull ==> r == Success(0)
    ensures key in o && o[key].JNumber? ==> r == Success(IntValueOf(o[key].n))
  {
    if key !in o then Success(0)
    else match o[key]
      case JNull => Success(0)
      case JNumber(n) => Success(IntValueOf(n))
      case JBool(b) => Success(if b then 1 else 0)
      case JString(s) =>
        if s == [] then Success(0)
        else (match ParseDecInt(s)
          case Some(v) => Success(v)
          case None => Failure("NumberFormatException"))
      case _ => Failure("JSONException: not a number")
  }

  /** `getFloatValue(key)`: 0 for a missing or null key, a number's value, a boolean as 1 / 0, an integer string parsed. */
  function GetFloatValue(o: JObj, key: string): (r: Result<real, string>)
    ensures key !in o || o[key] == JNull ==> r == Success(0.0)
    ensures key in o && o[key].JNumber? ==> r == Success(o[key].n)
  {
    if key !in o then Success(0.0)
    else match o[key]
      case JNull => Success(0.0)
      case JNumber(n) => Success(n)
      case JBool(b) => Success(if b then 1.0 else 0.0)
      case JString(s) =>
        if s == [] then Success(0.0)
        else (match ParseDecInt(s)
          case Some(v) => Success(v as real)
          case None => Failure("NumberFormatException"))
      case _ => Failure("JSONException: not a number")
  }

  /** `getJSONObject(key)`: null for a missing or null key, the object itself for an object. */
  function GetObject(o: JObj, key: string): (r: Result<Option<JObj>, string>)
    ensures key !in o || o[key] == JNull ==> r == Success(None)
    ensures key in o && o[key].JObject? ==> r == Success(Some(o[key].fields))
  {
    if key !in o then Success(None)
    else match o[key]
      case JNull => Success(None)
      case JObject(m) => Success(Some(m))
      case _ => Failure("JSONException: not an object")
  }
}
