/**
 * A parsed JSON value, and what the route and the page do with one: read a
 * property the way JavaScript does (`undefined` when absent), test it for
 * truthiness (`!x`, `x || y`), and turn it into a string (`String(x)`, as
 * `new Error(x)` does). No arithmetic is done on numbers, so a number is kept
 * in the form JavaScript prints it (`String(-0)` is `"0"`).
 */
module Json {
  import opened Wrappers

  datatype Json =
    | JNull
    | JBool(b: bool)
    | JNum(text: Numeral)
    | JStr(s: string)
    | JArr(items: seq<Json>)
    | JObj(fields: map<string, Json>)

  /** A number in the form JavaScript prints it (`"42"`, `"-1.5"`, `"1e+21"`), never empty. */
  type Numeral = s: string | s != "" witness "0"

  /** JavaScript truthiness; JSON has no `NaN`, so only zero, `""`, `false` and `null` are falsy. */
  predicate Truthy(j: Json) {
    match j
    case JNull => false
    case JBool(b) => b
    case JNum(t) => t != "0"
    case JStr(s) => s != ""
    case JArr(_) => true
    case JObj(_) => true
  }

  /** A JavaScript value that may be `undefined`: `None` is `undefined`, which is falsy. */
  predicate TruthyField(v: Option<Json>) {
    v.Some? && Truthy(v.value)
  }

  /**
   * `j[key]` for a value that is not `null`: an object's own field, an array's
   * or a string's element at index `"0"` (the only index the code reads), and
   * `undefined` otherwise.
   */
  function Prop(j: Json, key: string): (r: Option<Json>)
    ensures j.JObj? ==> (r.Some? <==> key in j.fields)
    ensures j.JObj? && key in j.fields ==> r == Some(j.fields[key])
    ensures j.JArr? ==> r == if key == "0" && |j.items| > 0 then Some(j.items[0]) else None
    ensures j.JNull? || j.JBool? || j.JNum? ==> r.None?
    ensures j.JStr? ==> (r.Some? <==> key == "0" && j.s != "")
    ensures r.Some? && j.JStr? ==> r.value.JStr? && r.value.s == j.s[..1]
  {
    match j
    case JObj(m) => if key in m then Some(m[key]) else None
    case JArr(xs) => if key == "0" && |xs| > 0 then Some(xs[0]) else None
    case JStr(s) => if key == "0" && |s| > 0 then Some(JStr([s[0]])) else None
    case _ => None
  }

  /** `String(j)`: arrays print their elements joined by commas, with `null` as the empty string. */
  function ToText(j: Json): (r: string)
    ensures Truthy(j) && !j.JArr? ==> r != ""
    decreases j, 1
  {
    match j
    case JNull => "null"
    case JBool(b) => if b then "true" else "false"
    case JNum(t) => t
    case JStr(s) => s
    case JArr(items) => ItemsText(items)
    case JObj(_) => "[object Object]"
  }

  function ItemsText(items: seq<Json>): string
    decreases items, 0
  {
    if items == [] then ""
    else
      var first := if items[0].JNull? then "" else ToText(items[0]);
      if |items| == 1 then first else first + "," + ItemsText(items[1..])
  }
}
