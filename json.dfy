/**
 * The JSON values the backend keeps in its session file and exchanges with the
 * agent: conversation items are dictionaries, their content a string, a list
 * of parts or a dictionary.  Numbers are integers only.
 */
module Json {

  datatype Json =
    | JNull
    | JBool(b: bool)
    | JNum(n: int)
    | JStr(s: string)
    | JList(items: seq<Json>)
    | JObj(fields: map<string, Json>)

  /** Python's `d.get(key, default)` on a dictionary. */
  function Get(fields: map<string, Json>, key: string, default: Json): (r: Json)
    ensures key in fields ==> r == fields[key]
    ensures key !in fields ==> r == default
  {
    if key in fields then fields[key] else default
  }

  /** A dictionary item `{"role": role, "content": content}`. */
  function Turn(role: string, content: string): (r: Json)
    ensures r.JObj? && Get(r.fields, "role", JNull) == JStr(role)
    ensures Get(r.fields, "content", JNull) == JStr(content)
  {
    JObj(map["role" := JStr(role), "content" := JStr(content)])
  }
}
