/**
 * JSON values as the extension sees them after `JSON.parse`, together with the
 * JavaScript conversions the code applies to them: truthiness (`x || y`),
 * `String(x)`, property lookup and `JSON.stringify`.
 */
module Json {
  import opened Wrappers
  import opened Strings

  /** A parsed JSON value. Numbers are integers in this model; an object keeps
      its members in property order. */
  datatype Json =
    | JNull
    | JBool(b: bool)
    | JNumber(n: int)
    | JString(s: string)
    | JArray(items: seq<Json>)
    | JObject(members: seq<Member>)

  datatype Member = Member(key: string, value: Json)

  /** JavaScript truthiness of a JSON value. */
  predicate Truthy(j: Json) {
    match j
    case JNull => false
    case JBool(b) => b
    case JNumber(n) => n != 0
    case JString(s) => s != []
    case JArray(_) => true
    case JObject(_) => true
  }

  /** `String(n)` for an integer. */
  function IntToString(n: int): (r: string)
    ensures r != []
  {
    if n < 0 then "-" + NatToString(-n) else NatToString(n)
  }

  /** `String(j)`: arrays print their items joined by "," (null items print as
      nothing), objects print as "[object Object]". */
  function ToStr(j: Json): string
    decreases j
  {
    match j
    case JNull => "null"
    case JBool(b) => if b then "true" else "false"
    case JNumber(n) => IntToString(n)
    case JString(s) => s
    case JArray(items) =>
      Join(seq(|items|, i requires 0 <= i < |items| =>
             if items[i].JNull? then "" else ToStr(items[i])), ",")
    case JObject(_) => "[object Object]"
  }

  /** `String(x || "")` for a value that may be missing (`undefined`). */
  function TextOrEmpty(v: Option<Json>): (r: string)
    ensures v.None? || !Truthy(v.value) ==> r == []
    ensures v.Some? && v.value.JString? ==> r == v.value.s
  {
    if v.Some? && Truthy(v.value) then ToStr(v.value) else []
  }

  /** `obj[key]` for an object: the value of the first member with that key. */
  function Get(members: seq<Member>, key: string): (r: Option<Json>)
    ensures r.Some? <==> exists i :: 0 <= i < |members| && members[i].key == key
    ensures r.Some? ==> exists i :: 0 <= i < |members| && members[i] == Member(key, r.value)
  {
    if members == [] then None
    else if members[0].key == key then Some(members[0].value)
    else
      var r := Get(members[1..], key);
      assert forall i :: 0 < i < |members| ==> members[i] == members[1..][i - 1];
      r
  }

  /** The property lookup `j.key` on any value: only objects have properties
      here, every other value yields `undefined`. */
  function Property(j: Json, key: string): Option<Json> {
    if j.JObject? then Get(j.members, key) else None
  }

  /** Keys of an object are distinct, at every level (what `JSON.parse` yields). */
  predicate WellFormed(j: Json)
    decreases j
  {
    match j
    case JArray(items) => forall i :: 0 <= i < |items| ==> WellFormed(items[i])
    case JObject(members) =>
      && (forall i, k :: 0 <= i < k < |members| ==> members[i].key != members[k].key)
      && (forall i :: 0 <= i < |members| ==> WellFormed(members[i].value))
    case _ => true
  }

  /* ---------- JSON.stringify ---------- */

  function HexDigit(d: nat): char
    requires d < 16
  {
    "0123456789abcdef"[d]
  }

  /** The escape JSON.stringify writes for one character of a string. */
  function EscapeChar(c: char): string {
    if c == '"' then "\\\""
    else if c == '\\' then "\\\\"
    else if c == '\U{8}' then "\\b"
    else if c == '\t' then "\\t"
    else if c == '\n' then "\\n"
    else if c == '\U{C}' then "\\f"
    else if c == '\r' then "\\r"
    else if (c as int) < 0x20 then "\\u00" + [HexDigit(c as int / 16), HexDigit(c as int % 16)]
    else [c]
  }

  function EscapeString(s: string): string {
    if s == [] then [] else EscapeChar(s[0]) + EscapeString(s[1..])
  }

  function Quote(s: string): (r: string)
    ensures |r| >= 2 && r[0] == '"' && r[|r| - 1] == '"'
  {
    "\"" + EscapeString(s) + "\""
  }

  /** `JSON.stringify(j)` without indentation. */
  function Stringify(j: Json): (r: string)
    ensures r != []
    decreases j
  {
    match j
    case JNull => "null"
    case JBool(b) => if b then "true" else "false"
    case JNumber(n) => IntToString(n)
    case JString(s) => Quote(s)
    case JArray(items) =>
      "[" + Join(seq(|items|, i requires 0 <= i < |items| => Stringify(items[i])), ",") + "]"
    case JObject(members) =>
      "{" + Join(seq(|members|, i requires 0 <= i < |members| =>
                   Quote(members[i].key) + ":" + Stringify(members[i].value)), ",") + "}"
  }

  /** A JSON array of strings, as the extension builds it from a list of texts. */
  function StringArray(texts: seq<string>): (r: Json)
    ensures r.JArray? && |r.items| == |texts|
    ensures forall i :: 0 <= i < |texts| ==> r.items[i] == JString(texts[i])
  {
    JArray(seq(|texts|, i requires 0 <= i < |texts| => JString(texts[i])))
  }

  /** A stringified array is bracketed and carries no white space at its ends. */
  lemma StringifyArrayBracketed(items: seq<Json>)
    ensures var r := Stringify(JArray(items));
      && StartsWith(r, "[") && EndsWith(r, "]") && IsTrimmed(r)
  {
  }
}
