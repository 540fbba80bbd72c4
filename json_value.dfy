/** The values `JSON.parse` can produce, which is what the ledger reads back
    from storage and must not trust. */
module JsonValue {
  import opened Wrappers

  /** A JavaScript number. `JSON.parse` turns a literal beyond the double
      range into an infinity; `NaN` arises from other sources. */
  datatype Num = Finite(value: real) | NaN | Infinity(negative: bool)

  datatype Json =
    | JNull
    | JBool(b: bool)
    | JNum(n: Num)
    | JStr(s: string)
    | JArr(items: seq<Json>)
    | JObj(fields: map<string, Json>)

  /** Property access `value[key]`: `None` is `undefined`. Arrays and
      primitives have none of the property names the ledger reads. */
  function Field(value: Json, key: string): Option<Json> {
    if value.JObj? && key in value.fields then Some(value.fields[key]) else None
  }

  /** JavaScript truthiness of a possibly undefined value. */
  predicate Truthy(v: Option<Json>) {
    match v
    case None => false
    case Some(JNull) => false
    case Some(JBool(b)) => b
    case Some(JNum(n)) => n.Infinity? || (n.Finite? && n.value != 0.0)
    case Some(JStr(s)) => s != []
    case Some(JArr(_)) => true
    case Some(JObj(_)) => true
  }

  /** `undefined` or `null`: the values `??` replaces. */
  predicate Nullish(v: Option<Json>) {
    v.None? || v.value.JNull?
  }

  /** Nothing inside is `NaN` or an infinity. */
  predicate Durable(v: Json) {
    match v
    case JNum(n) => n.Finite?
    case JArr(items) => forall i :: 0 <= i < |items| ==> Durable(items[i])
    case JObj(fields) => forall k :: k in fields ==> Durable(fields[k])
    case _ => true
  }

  /** `JSON.parse(JSON.stringify(v))`: `JSON.stringify` writes a number
      that is not finite as `null`, at any depth, and keeps everything
      else. */
  function Stringified(v: Json): (r: Json)
    ensures Durable(r)
    ensures Durable(v) ==> r == v
  {
    match v
    case JNum(n) => if n.Finite? then v else JNull
    case JArr(items) => JArr(seq(|items|, i requires 0 <= i < |items| => Stringified(items[i])))
    case JObj(fields) => JObj(map k | k in fields :: Stringified(fields[k]))
    case _ => v
  }

  /** `a ?? b`. */
  function Coalesce(v: Option<Json>, fallback: Json): (r: Json)
    ensures !Nullish(v) ==> Some(r) == v
    ensures Nullish(v) ==> r == fallback
  {
    if Nullish(v) then fallback else v.value
  }
}
