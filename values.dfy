/** The `mixed` values that a field's generation config and overrides hold. */
module Values {

  /** A PHP value as it may appear inside `array<string, mixed>`. The definitions never inspect
      these values; they only store them and hand them back. */
  datatype Value =
    | NullValue
    | BoolValue(b: bool)
    | IntValue(i: int)
    | StringValue(s: string)
    | ListValue(items: seq<Value>)
    | DictValue(entries: map<string, Value>)

  /** A PHP `array<string, mixed>`, as taken by `config` and `overrides`. */
  type ValueMap = map<string, Value>
}
