/**
 The checksum preimage of an operation: canonical JSON with sorted object keys, string
 escaping as in section 7 of RFC 8259, and a parser that inverts both.

 Strings are sequences of UTF-16 code units.  A finite number other than -0 stands
 for the text ECMAScript renders for it; -0 is rendered as 0, and NaN and the infinities as null.
*/
module CanonicalJson {
  import opened Common
  import opened Sorting

  type CodeUnit = u: int | 0 <= u < 0x10000

  type Text = seq<CodeUnit>

  datatype Member<V> = Member(key: Text, value: V)

  datatype Number = NonFinite | NegativeZero | Finite(digits: Text)

  datatype Json =
    | JNull
    | JBool(b: bool)
    | JNumber(n: Number)
    | JString(s: Text)
    | JArray(items: seq<Json>)
    | JObject(members: seq<Member<Json>>)

  const QUOTE: CodeUnit := 34
  const BACKSLASH: CodeUnit := 92
  const COMMA: CodeUnit := 44
  const COLON: CodeUnit := 58
  const OPEN_ARRAY: CodeUnit := 91
  const CLOSE_ARRAY: CodeUnit := 93
  const OPEN_OBJECT: CodeUnit := 123
  const CLOSE_OBJECT: CodeUnit := 125
  const BAR: CodeUnit := 124

  const NULL: Text := [110, 117, 108, 108]
  const ZERO: Text := [48]
  const TRUE: Text := [116, 114, 117, 101]
  const FALSE: Text := [102, 97, 108, 115, 101]

  predicate NumberUnit(u: CodeUnit) {
    48 <= u <= 57 || u == 43 || u == 45 || u == 46 || u == 101 // digits + - . e
  }

  /** Object keys are unique, and a finite number is a non-empty run of number characters from a digit or minus. */
  predicate WellFormed(v: Json) {
    match v
    case JNumber(Finite(d)) => d != [] && (48 <= d[0] <= 57 || d[0] == 45) && forall u <- d :: NumberUnit(u)
    case JArray(items) => forall item <- items :: WellFormed(item)
    case JObject(members) =>
      DistinctKeys(members) && forall i | 0 <= i < |members| :: WellFormed(members[i].value)
    case _ => true
  }

  predicate DistinctKeys<V>(members: seq<Member<V>>) {
    forall i, j | 0 <= i < j < |members| :: members[i].key != members[j].key
  }

  // ---------- strings ----------

  predicate HighSurrogate(u: CodeUnit) {
    0xD800 <= u <= 0xDBFF
  }

  predicate LowSurrogate(u: CodeUnit) {
    0xDC00 <= u <= 0xDFFF
  }

  function HexDigit(n: nat): CodeUnit
    requires n < 16
  {
    if n < 10 then 48 + n else 87 + n
  }

  function HexEscape(u: CodeUnit): Text {
    [BACKSLASH, 117, HexDigit(u / 4096), HexDigit(u / 256 % 16), HexDigit(u / 16 % 16), HexDigit(u % 16)]
  }

  /** One code unit that is not part of a surrogate pair. */
  function Escape(u: CodeUnit): Text {
    if u == 8 then [BACKSLASH, 98]
    else if u == 9 then [BACKSLASH, 116]
    else if u == 10 then [BACKSLASH, 110]
    else if u == 12 then [BACKSLASH, 102]
    else if u == 13 then [BACKSLASH, 114]
    else if u == QUOTE || u == BACKSLASH then [BACKSLASH, u]
    else if u < 32 || HighSurrogate(u) || LowSurrogate(u) then HexEscape(u)
    else [u]
  }

  function EscapeAll(s: Text): Text {
    if s == [] then []
    else if |s| >= 2 && HighSurrogate(s[0]) && LowSurrogate(s[1]) then s[..2] + EscapeAll(s[2..])
    else Escape(s[0]) + EscapeAll(s[1..])
  }

  function Quote(s: Text): Text {
    [QUOTE] + EscapeAll(s) + [QUOTE]
  }

  // ---------- rendering ----------

  function RenderNumber(n: Number): Text {
    match n
    case NonFinite => NULL
    case NegativeZero => ZERO
    case Finite(digits) => digits
  }

  predicate Less(a: Text, b: Text) {
    b != [] && (a == [] || a[0] < b[0] || (a[0] == b[0] && Less(a[1..], b[1..])))
  }

  predicate KeyBefore<V>(a: Member<V>, b: Member<V>) {
    Less(a.key, b.key)
  }

  function SortMembers<V>(members: seq<Member<V>>): seq<Member<V>> {
    SortBy(members, KeyBefore)
  }

  function JoinTexts(parts: seq<Text>): Text {
    if parts == [] then []
    else if |parts| == 1 then parts[0]
    else parts[0] + [COMMA] + JoinTexts(parts[1..])
  }

  function RenderMember(m: Member<Text>): Text {
    Quote(m.key) + [COLON] + m.value
  }

  function RenderMembers(members: seq<Member<Text>>): seq<Text> {
    seq(|members|, i requires 0 <= i < |members| => RenderMember(members[i]))
  }

  /** Recursively sorted object keys and no whitespace. */
  function Canonical(v: Json): Text {
    match v
    case JNull => NULL
    case JBool(b) => if b then TRUE else FALSE
    case JNumber(n) => RenderNumber(n)
    case JString(s) => Quote(s)
    case JArray(items) => [OPEN_ARRAY] + JoinTexts(CanonicalItems(items)) + [CLOSE_ARRAY]
    case JObject(members) =>
      [OPEN_OBJECT] + JoinTexts(RenderMembers(SortMembers(CanonicalMembers(members)))) + [CLOSE_OBJECT]
  }

  function CanonicalItems(items: seq<Json>): seq<Text> {
    if items == [] then [] else [Canonical(items[0])] + CanonicalItems(items[1..])
  }

  function CanonicalMembers(members: seq<Member<Json>>): seq<Member<Text>> {
    if members == [] then []
    else [Member(members[0].key, Canonical(members[0].value))] + CanonicalMembers(members[1..])
  }
}
