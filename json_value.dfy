/** The in-memory form of a JSON document as the Python `json` module produces it:
    `None`, `bool`, numbers, `str`, `list` and `dict`. */
module JsonValue {

  /** A JSON value. Objects are modelled as maps, so the insertion order of their
      keys (which only affects the text that `json.dump` writes) is not modelled. */
  datatype Json =
    | JNull
    | JBool(b: bool)
    | JNum(n: int)
    | JStr(s: string)
    | JArr(items: seq<Json>)
    | JObj(fields: map<string, Json>)

  /** Python truthiness of a value, as `if value:` evaluates it: `None`, `False`,
      zero and empty strings, lists and dicts are false. Exactly six values are
      falsy, one per kind of value. */
  predicate Truthy(j: Json)
    ensures Truthy(j) <==> j !in {JNull, JBool(false), JNum(0), JStr(""), JArr([]), JObj(map[])}
  {
    match j
    case JNull => false
    case JBool(b) => b
    case JNum(n) => n != 0
    case JStr(s) => s != []
    case JArr(xs) => xs != []
    case JObj(m) => m != map[]
  }

  /** Python's `value == name` for a JSON value and a `str`: true only for a string
      with the same characters, never for a number, list, dict or `None`. */
  predicate EqualsStr(j: Json, name: string)
    ensures EqualsStr(j, name) <==> j == JStr(name)
  {
    j.JStr? && j.s == name
  }
}
