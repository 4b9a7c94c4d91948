/** JSON values, and the text a store keeps for them. */
module Json {
  import opened Wrappers

  datatype Json =
    | Null
    | Bool(flag: bool)
    | Number(amount: real)
    | String(text: string)
    | Array(items: seq<Json>)
    | Object(fields: map<string, Json>)

  /** A text handed to `JSON.parse`: the value it spells, or a syntax error. */
  datatype JsonText = Spells(value: Json) | NotJson(text: string)

  /** `typeof value === "object" && value !== null`. */
  predicate IsObjectLike(value: Json) { value.Array? || value.Object? }

  /** `value[key]`, with `None` for `undefined`. No key read here names a property of arrays. */
  function Get(value: Json, key: string): Option<Json> {
    if value.Object? && key in value.fields then Some(value.fields[key]) else None
  }

  function GetString(value: Json, key: string): Option<string> {
    match Get(value, key)
    case Some(String(text)) => Some(text)
    case _ => None
  }

  predicate IsTrue(value: Option<Json>) { value == Some(Bool(true)) }

  predicate IsBool(value: Option<Json>) { value.Some? && value.value.Bool? }

  predicate IsNull(value: Option<Json>) { value == Some(Null) }

  predicate IsString(value: Option<Json>) { value.Some? && value.value.String? }

  /** Every wanted field is there with its value. */
  predicate HoldsAll(fields: map<string, Json>, wanted: map<string, Json>) {
    forall key | key in wanted :: key in fields && fields[key] == wanted[key]
  }
}
