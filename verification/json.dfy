/**
 * JavaScript values as they reach the server in request bodies, in parsed
 * JSON files and in response objects, with the two coercions the code
 * applies to them: truthiness (`if (x)`, `x || y`) and `String(x)`.
 */
module Json {
  import Text
  import opened Options

  datatype Json =
    | JNull
    | JBool(b: bool)
    | JNum(n: int)
    | JStr(s: string)
    | JArr(items: seq<Json>)
    | JObj(fields: map<string, Json>)

  /** JavaScript truthiness: `null`, `false`, `0` and `""` are falsy. */
  predicate Truthy(j: Json) {
    match j
    case JNull => false
    case JBool(b) => b
    case JNum(n) => n != 0
    case JStr(s) => s != ""
    case _ => true
  }

  function DigitChar(d: nat): char
    requires d < 10
  {
    "0123456789"[d]
  }

  /** The decimal numeral of a natural number. */
  function NatToString(n: nat): (r: string)
    ensures |r| > 0
  {
    if n < 10 then [DigitChar(n)] else NatToString(n / 10) + [DigitChar(n % 10)]
  }

  function IntToString(i: int): string {
    if i < 0 then "-" + NatToString(-i) else NatToString(i)
  }

  /**
   * `String(j)`. An array becomes its elements joined with `,`, with `null`
   * elements as the empty string; a plain object becomes `[object Object]`.
   */
  function ToJsString(j: Json): (r: string)
    ensures j.JStr? ==> r == j.s
    ensures j.JBool? ==> (r == "true" <==> j.b)
    ensures j.JNull? ==> r == "null"
    decreases j
  {
    match j
    case JNull => "null"
    case JBool(b) => if b then "true" else "false"
    case JNum(n) => IntToString(n)
    case JStr(s) => s
    case JArr(items) =>
      Text.Join(seq(|items|, i requires 0 <= i < |items| =>
        if items[i].JNull? then "" else ToJsString(items[i])), ",")
    case JObj(_) => "[object Object]"
  }

  /** An optional value is present and truthy: `if (field)`. */
  predicate Given(field: Option<Json>) {
    field.Some? && Truthy(field.value)
  }

  /** The value at `key` of an object, `undefined` (None) when absent or when `j` is not an object. */
  function Get(j: Json, key: string): Option<Json> {
    if j.JObj? && key in j.fields then Some(j.fields[key]) else None
  }
}

/**
 * MongoDB ObjectIds in their string form. The canonical form is the 24
 * lower-case hexadecimal digits `toString()` yields; `ObjectId.isValid`
 * also accepts the upper-case digits, and casting lower-cases them.
 */
module ObjectIds {
  import opened Text

  predicate IsHexDigit(c: char) {
    ('0' <= c <= '9') || ('a' <= c <= 'f') || ('A' <= c <= 'F')
  }

  predicate IsLowerHexDigit(c: char) {
    ('0' <= c <= '9') || ('a' <= c <= 'f')
  }

  /** `mongoose.Types.ObjectId.isValid` on a 24-character string. */
  predicate IsValid(s: string) {
    |s| == 24 && forall i :: 0 <= i < |s| ==> IsHexDigit(s[i])
  }

  /** The string form of a stored ObjectId. */
  predicate IsCanonical(s: string) {
    |s| == 24 && forall i :: 0 <= i < |s| ==> IsLowerHexDigit(s[i])
  }

  /** Casting a string to an ObjectId and back: the hex digits lower-cased. */
  function Cast(s: string): (r: string)
    ensures IsValid(s) ==> IsCanonical(r)
    ensures IsCanonical(s) ==> r == s
  {
    Lower(s)
  }

  lemma CanonicalIsValid(s: string)
    requires IsCanonical(s)
    ensures IsValid(s)
  {
  }
}

/** HTTP replies: a status code and a JSON body. */
module Http {
  import opened Options
  import opened Json

  datatype Response = Response(status: nat, body: Json)

  /** `res.status(status).json({ message: text })`. */
  function Message(status: nat, text: string): (r: Response)
    ensures r.status == status && Get(r.body, "message") == Some(JStr(text)) && MessageOf(r) == text
  {
    Response(status, JObj(map["message" := JStr(text)]))
  }

  /** The `message` text of a reply, or the empty string when it has none. */
  function MessageOf(r: Response): string {
    match Get(r.body, "message")
    case Some(JStr(text)) => text
    case _ => ""
  }
}
