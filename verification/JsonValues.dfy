// Parsed JSON, as the health endpoints and the views answer it.

module JsonValues {
  // A parsed JSON value. `Fraction` is a number that is not an integer.
  datatype Json =
    | Null
    | Bool(flag: bool)
    | Number(value: int)
    | Fraction(amount: real)
    | Text(text: string)
    | List(items: seq<Json>)
    | Object(fields: map<string, Json>)

  function Get(fields: map<string, Json>, key: string): Json {
    if key in fields then fields[key] else Null
  }
}
