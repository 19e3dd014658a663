/**
 * JSON values as the extension receives them from `JSON.parse` and `response.json()`,
 * with the parts of JavaScript's semantics the code depends on: truthiness, property
 * access that yields `undefined` on a missing key or a non-object, indexing with `[0]`
 * and the conversion `String(v)` performed by template literals and `new Error(v)`.
 * Numbers are integers here.
 */
module JsonValue {
  import opened Wrappers
  import opened JsText

  datatype Json =
    | JNull
    | JBool(b: bool)
    | JNum(n: int)
    | JStr(s: string)
    | JArr(items: seq<Json>)
    | JObj(fields: map<string, Json>)

  /** JavaScript truthiness: `null`, `false`, `0` and `""` are falsy, arrays and objects never are. */
  predicate Truthy(v: Json) {
    match v
    case JNull => false
    case JBool(b) => b
    case JNum(n) => n != 0
    case JStr(s) => s != ""
    case _ => true
  }

  /** A value that may be `undefined` (None) is truthy. */
  predicate Present(o: Option<Json>) {
    o.Some? && Truthy(o.value)
  }

  /** `v[key]` (and `v?.[key]`), with None for `undefined`: only objects have the keys of a JSON text. */
  function Get(v: Json, key: string): (r: Option<Json>)
    ensures r.Some? <==> v.JObj? && key in v.fields
  {
    if v.JObj? && key in v.fields then Some(v.fields[key]) else None
  }

  /** `o?.[key]`: property access that propagates `undefined`. */
  function GetOpt(o: Option<Json>, key: string): Option<Json> {
    if o.Some? then Get(o.value, key) else None
  }

  /** `v[0]` as far as a later property read can observe it: the first element of an array,
      the property "0" of an object, and otherwise nothing that carries properties. */
  function Index0(o: Option<Json>): Option<Json> {
    match o
    case Some(JArr(items)) => if items != [] then Some(items[0]) else None
    case Some(JObj(_)) => Get(o.value, "0")
    case _ => None
  }

  /** `String(v)`: strings as they are, arrays joined with "," (null elements as ""),
      objects as "[object Object]". */
  function ToJsString(v: Json): string
  {
    match v
    case JNull => "null"
    case JBool(b) => if b then "true" else "false"
    case JNum(n) => IntToString(n)
    case JStr(s) => s
    case JArr(items) =>
      Join(seq(|items|, i requires 0 <= i < |items| =>
        if items[i].JNull? then "" else ToJsString(items[i])), ",")
    case JObj(_) => "[object Object]"
  }
}

/**
 * The shape of an explanation object shared by the popup and the results page.
 */
module Explanations {
  import opened Wrappers
  import opened JsonValue

  // The fixed lines of the review message that the popup generates and the results page
  // copies. The longer ones are written in pieces, so that the characters they lack can be
  // checked piece by piece.
  const Greeting: string := "Hi team! \U{1F44B}"
  const NeedsReview: string := "I've created a new PR " + "that needs your review."
  const Closing: string := "Would appreciate your " + "review when you have " + "a moment. Thanks! \U{1F64F}"

  /** None of the fixed lines holds a line break. */
  lemma FixedLinesUnbroken()
    ensures '\n' !in Greeting && '\n' !in NeedsReview && '\n' !in Closing
  {
    assert '\n' !in "I've created a new PR " && '\n' !in "that needs your review.";
    assert '\n' !in "Would appreciate your " && '\n' !in "review when you have ";
    assert '\n' !in "a moment. Thanks! \U{1F64F}";
  }

  /** The four sections the background script requires of a response. */
  const RequiredSections: seq<string> := ["summary", "implementation", "impact", "testing"]

  /** `v.sections?.summary` */
  function Summary(v: Json): Option<Json> {
    GetOpt(Get(v, "sections"), "summary")
  }

  /**
   * `parsedExplanation.sections?.summary || []` followed by `.map(...)`, given the result of
   * `JSON.parse` (None when it threw). None when the source throws: the parse failed, the
   * value is `null`, or a truthy `summary` is not an array (it has no `map`).
   */
  function SummaryPoints(parsed: Option<Json>): (r: Option<seq<Json>>)
    ensures r.None? <==>
      || parsed.None?
      || parsed == Some(JNull)
      || (Present(Summary(parsed.value)) && !Summary(parsed.value).value.JArr?)
    ensures parsed.Some? && parsed.value != JNull && !Present(Summary(parsed.value)) ==> r == Some([])
    ensures r.Some? && Present(Summary(parsed.value)) ==> Summary(parsed.value) == Some(JArr(r.value))
  {
    match parsed
    case None => None
    case Some(JNull) => None
    case Some(v) =>
      var summary := Summary(v);
      if !Present(summary) then Some([])
      else if summary.value.JArr? then Some(summary.value.items)
      else None
  }
}
