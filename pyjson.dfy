/**
 * The JSON values the configuration holds, as Python sees them after
 * `json.loads`, with the three Python operations the bot applies to them:
 * truthiness (`if not x`), `dict.get(key)` and `str(x)`.
 */
module PyJson {
  import opened Common
  import Text

  /** A parsed JSON value; an object maps keys to values like a Python `dict`. */
  datatype Json =
    | JNull
    | JBool(b: bool)
    | JInt(i: int)
    | JStr(s: string)
    | JList(items: seq<Json>)
    | JObject(fields: map<string, Json>)

  /** Python's truth value: `None`, `False`, `0`, `""`, `[]` and `{}` are false. */
  predicate Truthy(j: Json) {
    match j
    case JNull => false
    case JBool(b) => b
    case JInt(i) => i != 0
    case JStr(s) => s != ""
    case JList(items) => |items| > 0
    case JObject(fields) => |fields| > 0
  }

  /** `d.get(key)` on a `dict`: the value, or `None` when the key is absent. */
  function Member(j: Json, key: string): (r: Json)
    requires j.JObject?
    ensures key !in j.fields ==> r == JNull
    ensures key in j.fields ==> r == j.fields[key]
  {
    if key in j.fields then j.fields[key] else JNull
  }

  /**
   * `str(x)`: `None`, `True`/`False`, the decimal of an integer, a string
   * itself. Lists and dicts are rendered only by their brackets.
   */
  function PyStr(j: Json): (r: string)
    ensures j.JStr? ==> r == j.s
    ensures j.JInt? ==> r == Text.IntToDecimal(j.i)
    ensures j.JList? ==> |r| > 0 && r[0] == '['
    ensures j.JObject? ==> |r| > 0 && r[0] == '{'
  {
    match j
    case JNull => "None"
    case JBool(b) => if b then "True" else "False"
    case JInt(i) => Text.IntToDecimal(i)
    case JStr(s) => s
    case JList(_) => "[...]"
    case JObject(_) => "{...}"
  }
}
