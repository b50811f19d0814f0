/** JSON values as `serde_json` holds them: objects are unordered, as in section 4 of RFC 8259. */
module JsonValue {

  /** Integers and other numbers are different variants and compare by equality. */
  datatype Numeral = Integer(i: int) | Decimal(d: real)

  datatype Json =
    | Null
    | Bool(b: bool)
    | Number(n: Numeral)
    | Str(s: string)
    | Array(items: seq<Json>)
    | Object(fields: map<string, Json>)

  /** `v["key"]`: a missing key, or anything but an object, reads as null. */
  function Field(v: Json, key: string): Json {
    if v.Object? && key in v.fields then v.fields[key] else Null
  }
}
