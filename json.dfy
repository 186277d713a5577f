/** A decoded JSON document, as `encoding/json` hands it to the view
    command and to the configuration loader (`interface{}` holding
    `map[string]interface{}`, `[]interface{}`, strings, numbers, booleans
    or nil). */
module Json {

  /** Numbers are kept as integers: the core only ever compares a number
      with a string, which is false whatever the number is. */
  datatype Value =
    | Null
    | Bool(b: bool)
    | Number(n: int)
    | Str(s: string)
    | Array(items: seq<Value>)
    | Object(fields: map<string, Value>)

  /** A decoded JSON object (`map[string]interface{}`). */
  type Obj = map<string, Value>
}
