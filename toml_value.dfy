/** The parsed TOML value tree that `input.parse::<Value>()` produces
    (the `toml` crate's `Value`). The text parser itself is not modelled:
    the model starts from the tree. */
module TomlValue {

  datatype Value =
    | Str(text: string)
    | Integer(number: int)
    | Float(bits: bv64)        // an f64, kept as its IEEE-754 bit pattern
    | Boolean(truth: bool)
    | Datetime(rfc3339: string)
    | Array(items: seq<Value>)
    | Table(entries: map<string, Value>)
}
