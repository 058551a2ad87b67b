/** Parsed JSON values and the JavaScript operations the quote service
    applies to them: property access, truthiness and conversion to text in a
    template literal. Numbers are integers in this model. */
module JsonValues {
  import opened Wrappers
  import opened Text

  datatype Json =
    | JNull
    | JBool(b: bool)
    | JNum(n: int)
    | JStr(s: string)
    | JArr(elems: seq<Json>)
    | JObj(fields: map<string, Json>)

  /** `v[key]` on a value that is not null: only an object can have the
      property; on anything else it is undefined (`None`). */
  function Get(v: Json, key: string): (r: Option<Json>)
    requires !v.JNull?
    ensures r.Some? <==> v.JObj? && key in v.fields
  {
    match v
    case JObj(fs) => if key in fs then Some(fs[key]) else None
    case _ => None
  }

  /** JavaScript truthiness; undefined is falsy. */
  predicate Truthy(v: Option<Json>) {
    match v
    case None => false
    case Some(JNull) => false
    case Some(JBool(b)) => b
    case Some(JNum(n)) => n != 0
    case Some(JStr(s)) => s != []
    case Some(_) => true
  }

  /** `sep`-separated concatenation of `parts`. */
  function Join(parts: seq<string>, sep: string): string {
    if parts == [] then "" else if |parts| == 1 then parts[0] else parts[0] + sep + Join(parts[1..], sep)
  }

  /** Whether a template literal can print `v`. Parsed JSON holds no
      functions, so an object with its own `toString` property has no
      callable `toString`; its `valueOf` gives back the object itself, and
      the conversion throws a TypeError. An array prints each element that
      is not null, so it fails when one of them does. */
  predicate Printable(v: Json)
    decreases v
  {
    match v
    case JObj(fs) => "toString" !in fs
    case JArr(es) => forall i :: 0 <= i < |es| ==> es[i].JNull? || Printable(es[i])
    case _ => true
  }

  /** The message of the TypeError thrown for a value that is not `Printable`. */
  const ConversionMessage: string := "Cannot convert object to primitive value"

  /** `${v}`: what a template literal prints for a `Printable` value. An array
      prints its elements joined with commas, null elements as nothing. */
  function ToText(v: Json): (r: string)
    ensures v.JStr? ==> r == v.s
    decreases v
  {
    match v
    case JNull => "null"
    case JBool(b) => if b then "true" else "false"
    case JNum(n) => IntToString(n)
    case JStr(s) => s
    case JArr(es) =>
      Join(seq(|es|, i requires 0 <= i < |es| => if es[i].JNull? then "" else ToText(es[i])), ",")
    case JObj(_) => "[object Object]"
  }
}
