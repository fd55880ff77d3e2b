/**
 A parser for canonical JSON text, and through it the exact collisions of the checksum
 preimage: only a reordering of object keys, a non-finite number in place of null, or -0 in
 place of 0.
*/
module CanonicalParser {
  import opened Common
  import opened Sorting
  import opened CanonicalJson

  // ---------- the normal form and its plain rendering ----------

  /** Keys sorted, and the numbers that are written otherwise replaced by what is written. */
  function Normal(v: Json): Json {
    match v
    case JNumber(NonFinite) => JNull
    case JNumber(NegativeZero) => JNumber(Finite(ZERO))
    case JArray(items) => JArray(NormalItems(items))
    case JObject(members) => JObject(SortMembers(NormalMembers(members)))
    case _ => v
  }

  function NormalItems(items: seq<Json>): (r: seq<Json>)
    ensures |r| == |items| && forall i | 0 <= i < |items| :: r[i] == Normal(items[i])
  {
    if items == [] then [] else [Normal(items[0])] + NormalItems(items[1..])
  }

  function NormalMembers(members: seq<Member<Json>>): (r: seq<Member<Json>>)
    ensures |r| == |members|
    ensures forall i | 0 <= i < |members| :: r[i] == Member(members[i].key, Normal(members[i].value))
  {
    if members == [] then [] else [Member(members[0].key, Normal(members[0].value))] + NormalMembers(members[1..])
  }

  /** JSON text in the given order. */
  function Plain(v: Json): Text {
    match v
    case JNull => NULL
    case JBool(b) => if b then TRUE else FALSE
    case JNumber(n) => RenderNumber(n)
    case JString(s) => Quote(s)
    case JArray(items) => [OPEN_ARRAY] + JoinTexts(PlainItems(items)) + [CLOSE_ARRAY]
    case JObject(members) => [OPEN_OBJECT] + JoinTexts(RenderMembers(PlainMembers(members))) + [CLOSE_OBJECT]
  }

  function PlainItems(items: seq<Json>): (r: seq<Text>)
    ensures |r| == |items|
  {
    if items == [] then [] else [Plain(items[0])] + PlainItems(items[1..])
  }

  function PlainMembers(members: seq<Member<Json>>): (r: seq<Member<Text>>)
    ensures |r| == |members|
  {
    if members == [] then [] else [Member(members[0].key, Plain(members[0].value))] + PlainMembers(members[1..])
  }

  lemma {:induction false} InsertCommutes(m: Member<Json>, sorted: seq<Member<Json>>)
    ensures InsertBy(Member(m.key, Plain(m.value)), PlainMembers(sorted), KeyBefore)
         == PlainMembers(InsertBy(m, sorted, KeyBefore))
  {
    if sorted == [] {
      assert [m] + sorted == [m];
    } else if Less(m.key, sorted[0].key) {
      assert ([m] + sorted)[1..] == sorted;
    } else {
      InsertCommutes(m, sorted[1..]);
      assert ([sorted[0]] + InsertBy(m, sorted[1..], KeyBefore))[1..] == InsertBy(m, sorted[1..], KeyBefore);
    }
  }

  lemma {:induction false} SortCommutes(members: seq<Member<Json>>)
    ensures SortMembers(PlainMembers(members)) == PlainMembers(SortMembers(members))
  {
    if members != [] {
      SortCommutes(members[1..]);
      InsertCommutes(members[0], SortMembers(members[1..]));
    }
  }

  /** The canonical text is the plain text of the normal form. */
  lemma {:induction false} CanonicalIsPlain(v: Json)
    ensures Canonical(v) == Plain(Normal(v))
    decreases v, 0
  {
    match v
    case JArray(items) => CanonicalItemsPlain(items);
    case JObject(members) =>
      CanonicalMembersPlain(members);
      SortCommutes(NormalMembers(members));
    case _ =>
  }

  lemma {:induction false} CanonicalItemsPlain(items: seq<Json>)
    ensures CanonicalItems(items) == PlainItems(NormalItems(items))
    decreases items, 1
  {
    if items != [] {
      CanonicalIsPlain(items[0]);
      CanonicalItemsPlain(items[1..]);
      assert NormalItems(items)[1..] == NormalItems(items[1..]);
    }
  }

  lemma {:induction false} CanonicalMembersPlain(members: seq<Member<Json>>)
    ensures CanonicalMembers(members) == PlainMembers(NormalMembers(members))
    decreases members, 1
  {
    if members != [] {
      assert members[0].value < members[0];
      CanonicalIsPlain(members[0].value);
      CanonicalMembersPlain(members[1..]);
      assert NormalMembers(members)[1..] == NormalMembers(members[1..]);
    }
  }

  // ---------- the parser ----------

  function HexValue(u: CodeUnit): Option<nat> {
    if 48 <= u <= 57 then Some(u - 48) else if 97 <= u <= 102 then Some(u - 87) else None
  }

  /** One code unit of a string body. */
  function ParseUnit(t: Text): (r: Option<(CodeUnit, Text)>)
    requires t != []
    ensures r.Some? ==> |r.value.1| < |t|
  {
    if t[0] != BACKSLASH then Some((t[0], t[1..]))
    else if |t| < 2 then None
    else if t[1] == 98 then Some((8, t[2..]))
    else if t[1] == 116 then Some((9, t[2..]))
    else if t[1] == 110 then Some((10, t[2..]))
    else if t[1] == 102 then Some((12, t[2..]))
    else if t[1] == 114 then Some((13, t[2..]))
    else if t[1] == QUOTE || t[1] == BACKSLASH then Some((t[1], t[2..]))
    else if t[1] == 117 && |t| >= 6 && (forall i | 2 <= i < 6 :: HexValue(t[i]).Some?) then
      Some((HexValue(t[2]).value * 4096 + HexValue(t[3]).value * 256 + HexValue(t[4]).value * 16 + HexValue(t[5]).value,
            t[6..]))
    else None
  }

  /** A string body up to and including its closing quote. */
  function ParseChars(t: Text): (r: Option<(Text, Text)>)
    ensures r.Some? ==> |r.value.1| < |t|
    decreases |t|
  {
    if t == [] then None
    else if t[0] == QUOTE then Some(([], t[1..]))
    else
      var first := ParseUnit(t);
      if first.None? then None
      else
        var others := ParseChars(first.value.1);
        if others.None? then None else Some(([first.value.0] + others.value.0, others.value.1))
  }

  function NumberLength(t: Text): (n: nat)
    ensures n <= |t|
  {
    if t == [] || !NumberUnit(t[0]) then 0 else 1 + NumberLength(t[1..])
  }

  function ParseLiteral(literal: Text, v: Json, t: Text): Option<(Json, Text)> {
    if literal <= t then Some((v, t[|literal|..])) else None
  }

  function ParseValue(t: Text): (r: Option<(Json, Text)>)
    ensures r.Some? ==> |r.value.1| < |t|
    decreases |t|, 0
  {
    if t == [] then None
    else if t[0] == NULL[0] then ParseLiteral(NULL, JNull, t)
    else if t[0] == TRUE[0] then ParseLiteral(TRUE, JBool(true), t)
    else if t[0] == FALSE[0] then ParseLiteral(FALSE, JBool(false), t)
    else if t[0] == QUOTE then
      var s := ParseChars(t[1..]);
      if s.None? then None else Some((JString(s.value.0), s.value.1))
    else if t[0] == OPEN_ARRAY then ParseArray(t[1..])
    else if t[0] == OPEN_OBJECT then ParseObject(t[1..])
    else if 48 <= t[0] <= 57 || t[0] == 45 then
      Some((JNumber(Finite(t[..NumberLength(t)])), t[NumberLength(t)..]))
    else None
  }

  function ParseArray(t: Text): (r: Option<(Json, Text)>)
    ensures r.Some? ==> |r.value.1| < |t|
    decreases |t|, 3
  {
    if t != [] && t[0] == CLOSE_ARRAY then Some((JArray([]), t[1..]))
    else
      var items := ParseItems(t);
      if items.None? then None else Some((JArray(items.value.0), items.value.1))
  }

  function ParseObject(t: Text): (r: Option<(Json, Text)>)
    ensures r.Some? ==> |r.value.1| < |t|
    decreases |t|, 3
  {
    if t != [] && t[0] == CLOSE_OBJECT then Some((JObject([]), t[1..]))
    else
      var members := ParseMembers(t);
      if members.None? then None else Some((JObject(members.value.0), members.value.1))
  }

  function ParseItems(t: Text): (r: Option<(seq<Json>, Text)>)
    ensures r.Some? ==> |r.value.1| < |t|
    decreases |t|, 1
  {
    var first := ParseValue(t);
    if first.None? || first.value.1 == [] then None
    else if first.value.1[0] == CLOSE_ARRAY then Some(([first.value.0], first.value.1[1..]))
    else if first.value.1[0] != COMMA then None
    else
      var others := ParseItems(first.value.1[1..]);
      if others.None? then None else Some(([first.value.0] + others.value.0, others.value.1))
  }

  function ParseMember(t: Text): (r: Option<(Member<Json>, Text)>)
    ensures r.Some? ==> |r.value.1| < |t|
    decreases |t|, 1
  {
    if t == [] || t[0] != QUOTE then None
    else
      var key := ParseChars(t[1..]);
      if key.None? || key.value.1 == [] || key.value.1[0] != COLON then None
      else
        var v := ParseValue(key.value.1[1..]);
        if v.None? then None else Some((Member(key.value.0, v.value.0), v.value.1))
  }

  function ParseMembers(t: Text): (r: Option<(seq<Member<Json>>, Text)>)
    ensures r.Some? ==> |r.value.1| < |t|
    decreases |t|, 2
  {
    var first := ParseMember(t);
    if first.None? || first.value.1 == [] then None
    else if first.value.1[0] == CLOSE_OBJECT then Some(([first.value.0], first.value.1[1..]))
    else if first.value.1[0] != COMMA then None
    else
      var others := ParseMembers(first.value.1[1..]);
      if others.None? then None else Some(([first.value.0] + others.value.0, others.value.1))
  }

  // ---------- the parser inverts the rendering ----------

  lemma HexDigitValue(n: nat)
    requires n < 16
    ensures HexValue(HexDigit(n)) == Some(n)
  {
  }

  lemma HexDigits(u: CodeUnit)
    ensures u / 4096 < 16 && u == u / 4096 * 4096 + u / 256 % 16 * 256 + u / 16 % 16 * 16 + u % 16
  {
  }

  lemma ParseEscape(a: nat, b: nat, c: nat, d: nat, t: Text)
    requires a < 16 && b < 16 && c < 16 && d < 16 && |t| >= 6
    requires t[0] == BACKSLASH && t[1] == 117
    requires t[2] == HexDigit(a) && t[3] == HexDigit(b) && t[4] == HexDigit(c) && t[5] == HexDigit(d)
    ensures ParseUnit(t) == Some((a * 4096 + b * 256 + c * 16 + d, t[6..]))
  {
    HexDigitValue(a);
    HexDigitValue(b);
    HexDigitValue(c);
    HexDigitValue(d);
  }

  lemma HexRoundTrip(u: CodeUnit, rest: Text)
    ensures ParseUnit(HexEscape(u) + rest) == Some((u, rest))
  {
    var t := HexEscape(u) + rest;
    HexDigits(u);
    ParseEscape(u / 4096, u / 256 % 16, u / 16 % 16, u % 16, t);
    assert t[6..] == rest;
  }

  lemma EscapeRoundTrip(u: CodeUnit, rest: Text)
    ensures Escape(u)[0] != QUOTE && ParseUnit(Escape(u) + rest) == Some((u, rest))
  {
    var t := Escape(u) + rest;
    if |Escape(u)| == 6 {
      HexRoundTrip(u, rest);
    } else if |Escape(u)| == 2 {
      assert t[0] == BACKSLASH && t[1] == Escape(u)[1] && t[2..] == rest;
    } else {
      assert t[0] == u && t[1..] == rest;
    }
  }

  lemma CharStep(t: Text, u: CodeUnit, tail: Text, others: Text, rest: Text)
    requires t != [] && t[0] != QUOTE
    requires ParseUnit(t) == Some((u, tail))
    requires ParseChars(tail) == Some((others, rest))
    ensures ParseChars(t) == Some(([u] + others, rest))
  {
  }

  lemma PairRoundTrip(high: CodeUnit, low: CodeUnit, tail: Text, others: Text, rest: Text)
    requires HighSurrogate(high) && LowSurrogate(low)
    requires ParseChars(tail) == Some((others, rest))
    ensures ParseChars([high, low] + tail) == Some(([high, low] + others, rest))
  {
    var t := [high, low] + tail;
    assert t[1..] == [low] + tail && t[1..][1..] == tail;
    CharStep(t[1..], low, tail, others, rest);
    CharStep(t, high, t[1..], [low] + others, rest);
    assert [high] + ([low] + others) == [high, low] + others;
  }

  /** What follows an opening quote. */
  function Body(s: Text, rest: Text): Text {
    EscapeAll(s) + [QUOTE] + rest
  }

  predicate StartsPair(s: Text) {
    |s| >= 2 && HighSurrogate(s[0]) && LowSurrogate(s[1])
  }

  lemma BodyPair(s: Text, rest: Text)
    requires StartsPair(s)
    ensures Body(s, rest) == [s[0], s[1]] + Body(s[2..], rest)
    ensures s == [s[0], s[1]] + s[2..]
  {
  }

  lemma BodyCons(s: Text, rest: Text)
    requires s != [] && !StartsPair(s)
    ensures Body(s, rest) == Escape(s[0]) + Body(s[1..], rest)
    ensures s == [s[0]] + s[1..]
  {
  }

  lemma BodyEmpty(rest: Text)
    ensures ParseChars(Body([], rest)) == Some(([], rest))
  {
    assert Body([], rest) == [QUOTE] + rest && ([QUOTE] + rest)[1..] == rest;
  }

  lemma SingleRoundTrip(u: CodeUnit, tail: Text, others: Text, rest: Text)
    requires ParseChars(tail) == Some((others, rest))
    ensures ParseChars(Escape(u) + tail) == Some(([u] + others, rest))
  {
    EscapeRoundTrip(u, tail);
    CharStep(Escape(u) + tail, u, tail, others, rest);
  }

  lemma {:induction false} StringRoundTrip(s: Text, rest: Text)
    ensures ParseChars(Body(s, rest)) == Some((s, rest))
    decreases |s|
  {
    if s == [] {
      BodyEmpty(rest);
    } else if StartsPair(s) {
      StringRoundTrip(s[2..], rest);
      BodyPair(s, rest);
      PairRoundTrip(s[0], s[1], Body(s[2..], rest), s[2..], rest);
    } else {
      StringRoundTrip(s[1..], rest);
      BodyCons(s, rest);
      SingleRoundTrip(s[0], Body(s[1..], rest), s[1..], rest);
    }
  }

  lemma QuoteRoundTrip(s: Text, rest: Text)
    ensures (Quote(s) + rest)[0] == QUOTE && ParseChars((Quote(s) + rest)[1..]) == Some((s, rest))
  {
    assert (Quote(s) + rest)[1..] == Body(s, rest);
    StringRoundTrip(s, rest);
  }

  predicate Stops(rest: Text) {
    rest == [] || !NumberUnit(rest[0])
  }

  lemma {:induction false} NumberRoundTrip(digits: Text, rest: Text)
    requires forall u <- digits :: NumberUnit(u)
    requires Stops(rest)
    ensures NumberLength(digits + rest) == |digits|
  {
    if digits == [] {
      assert digits + rest == rest;
    } else {
      assert (digits + rest)[1..] == digits[1..] + rest;
      NumberRoundTrip(digits[1..], rest);
    }
  }

  /** Well-formed and without non-finite numbers: what `Normal` produces. */
  predicate Finitary(v: Json) {
    match v
    case JNumber(n) => n.Finite? && WellFormed(v)
    case JArray(items) => forall item <- items :: Finitary(item)
    case JObject(members) => forall i | 0 <= i < |members| :: Finitary(members[i].value)
    case _ => true
  }

  lemma LiteralRoundTrip(v: Json, rest: Text)
    requires v.JNull? || v.JBool?
    ensures ParseValue(Plain(v) + rest) == Some((v, rest))
  {
    var t, literal := Plain(v) + rest, Plain(v);
    assert t[0] == literal[0] && literal <= t && t[|literal|..] == rest;
  }

  lemma LeafRoundTrip(v: Json, rest: Text)
    requires v.JNumber? || v.JString?
    requires Finitary(v) && Stops(rest)
    ensures ParseValue(Plain(v) + rest) == Some((v, rest))
  {
    var t := Plain(v) + rest;
    match v
    case JNumber(n) =>
      NumberRoundTrip(n.digits, rest);
      assert t[0] == n.digits[0] && t[..|n.digits|] == n.digits && t[|n.digits|..] == rest;
    case JString(s) => QuoteRoundTrip(s, rest);
  }

  lemma Bracketed(t: Text)
    ensures ParseValue([OPEN_ARRAY] + t) == ParseArray(t)
    ensures ParseValue([OPEN_OBJECT] + t) == ParseObject(t)
  {
    assert ([OPEN_ARRAY] + t)[1..] == t && ([OPEN_OBJECT] + t)[1..] == t;
  }

  /** What follows an opening bracket or brace. */
  function ArrayBody(items: seq<Json>, rest: Text): Text {
    JoinTexts(PlainItems(items)) + [CLOSE_ARRAY] + rest
  }

  function ObjectBody(members: seq<Member<Json>>, rest: Text): Text {
    JoinTexts(RenderMembers(PlainMembers(members))) + [CLOSE_OBJECT] + rest
  }

  lemma ObjectText(members: seq<Member<Json>>, rest: Text)
    ensures Plain(JObject(members)) + rest == [OPEN_OBJECT] + ObjectBody(members, rest)
  {
  }

  lemma EmptyBodies(rest: Text)
    ensures ParseArray(ArrayBody([], rest)) == Some((JArray([]), rest))
    ensures ParseObject(ObjectBody([], rest)) == Some((JObject([]), rest))
  {
    assert ArrayBody([], rest) == [CLOSE_ARRAY] + rest && ([CLOSE_ARRAY] + rest)[1..] == rest;
    assert ObjectBody([], rest) == [CLOSE_OBJECT] + rest && ([CLOSE_OBJECT] + rest)[1..] == rest;
  }

  lemma {:induction false} ArrayRoundTrip(items: seq<Json>, rest: Text)
    requires forall item <- items :: Finitary(item)
    ensures ParseValue(Plain(JArray(items)) + rest) == Some((JArray(items), rest))
    decreases items, 3
  {
    Bracketed(ArrayBody(items, rest));
    assert Plain(JArray(items)) + rest == [OPEN_ARRAY] + ArrayBody(items, rest);
    if items == [] { EmptyBodies(rest); } else { ItemsRoundTrip(items, rest); }
  }

  lemma {:induction false} ObjectRoundTrip(members: seq<Member<Json>>, rest: Text)
    requires forall i | 0 <= i < |members| :: Finitary(members[i].value)
    ensures ParseValue(Plain(JObject(members)) + rest) == Some((JObject(members), rest))
    decreases members, 3
  {
    Bracketed(ObjectBody(members, rest));
    ObjectText(members, rest);
    if members == [] { EmptyBodies(rest); } else { MembersRoundTrip(members, rest); }
  }

  /** Parsing any rendered value gives the value back and leaves the rest of the text. */
  lemma {:induction false} RoundTrip(v: Json, rest: Text)
    requires Finitary(v) && Stops(rest)
    ensures ParseValue(Plain(v) + rest) == Some((v, rest))
    decreases v, 0
  {
    match v
    case JArray(items) => ArrayRoundTrip(items, rest);
    case JObject(members) => ObjectRoundTrip(members, rest);
    case JNumber(_) => LeafRoundTrip(v, rest);
    case JString(_) => LeafRoundTrip(v, rest);
    case _ => LiteralRoundTrip(v, rest);
  }

  lemma {:induction false} FirstUnit(v: Json)
    requires Finitary(v)
    ensures Plain(v) != [] && Plain(v)[0] != CLOSE_ARRAY
  {
  }

  lemma LastItem(t: Text, v: Json, rest: Text)
    requires ParseValue(t) == Some((v, [CLOSE_ARRAY] + rest))
    ensures ParseItems(t) == Some(([v], rest))
  {
    assert ([CLOSE_ARRAY] + rest)[1..] == rest;
  }

  lemma MoreItems(t: Text, v: Json, tail: Text, others: seq<Json>, rest: Text)
    requires ParseValue(t) == Some((v, [COMMA] + tail))
    requires ParseItems(tail) == Some((others, rest))
    ensures ParseItems(t) == Some(([v] + others, rest))
  {
    assert ([COMMA] + tail)[1..] == tail;
  }

  lemma JoinCons(parts: seq<Text>, tail: Text)
    requires parts != []
    ensures |parts| == 1 ==> JoinTexts(parts) + tail == parts[0] + tail
    ensures |parts| > 1 ==> JoinTexts(parts) + tail == parts[0] + ([COMMA] + (JoinTexts(parts[1..]) + tail))
  {
  }

  lemma ArrayBodyCons(items: seq<Json>, rest: Text)
    requires items != []
    ensures |items| == 1 ==> ArrayBody(items, rest) == Plain(items[0]) + ([CLOSE_ARRAY] + rest)
    ensures |items| > 1 ==> ArrayBody(items, rest) == Plain(items[0]) + ([COMMA] + ArrayBody(items[1..], rest))
    ensures items == [items[0]] + items[1..]
  {
    var parts, tail := PlainItems(items), [CLOSE_ARRAY] + rest;
    JoinCons(parts, tail);
    assert parts[1..] == PlainItems(items[1..]);
    assert ArrayBody(items, rest) == JoinTexts(parts) + tail;
    assert ArrayBody(items[1..], rest) == JoinTexts(parts[1..]) + tail;
  }

  lemma {:induction false} ItemsRoundTrip(items: seq<Json>, rest: Text)
    requires items != [] && forall item <- items :: Finitary(item)
    ensures ArrayBody(items, rest)[0] != CLOSE_ARRAY
    ensures ParseItems(ArrayBody(items, rest)) == Some((items, rest))
    decreases items, 1
  {
    FirstUnit(items[0]);
    ArrayBodyCons(items, rest);
    if |items| == 1 {
      RoundTrip(items[0], [CLOSE_ARRAY] + rest);
      LastItem(ArrayBody(items, rest), items[0], rest);
      assert items == [items[0]];
    } else {
      var tail := ArrayBody(items[1..], rest);
      RoundTrip(items[0], [COMMA] + tail);
      ItemsRoundTrip(items[1..], rest);
      MoreItems(ArrayBody(items, rest), items[0], tail, items[1..], rest);
    }
  }

  lemma {:induction false} MemberRoundTrip(m: Member<Json>, rest: Text)
    requires Finitary(m.value) && Stops(rest)
    ensures var t := RenderMember(Member(m.key, Plain(m.value))) + rest;
      t[0] == QUOTE && ParseMember(t) == Some((m, rest))
    decreases m, 1
  {
    var t := RenderMember(Member(m.key, Plain(m.value))) + rest;
    var tail := [COLON] + Plain(m.value) + rest;
    assert t == Quote(m.key) + tail;
    QuoteRoundTrip(m.key, tail);
    assert tail[1..] == Plain(m.value) + rest;
    RoundTrip(m.value, rest);
  }

  lemma LastMember(t: Text, m: Member<Json>, rest: Text)
    requires ParseMember(t) == Some((m, [CLOSE_OBJECT] + rest))
    ensures ParseMembers(t) == Some(([m], rest))
  {
    assert ([CLOSE_OBJECT] + rest)[1..] == rest;
  }

  lemma MoreMembers(t: Text, m: Member<Json>, tail: Text, others: seq<Member<Json>>, rest: Text)
    requires ParseMember(t) == Some((m, [COMMA] + tail))
    requires ParseMembers(tail) == Some((others, rest))
    ensures ParseMembers(t) == Some(([m] + others, rest))
  {
    assert ([COMMA] + tail)[1..] == tail;
  }

  lemma ObjectBodyCons(members: seq<Member<Json>>, rest: Text)
    requires members != []
    ensures var first := RenderMember(Member(members[0].key, Plain(members[0].value)));
      && (|members| == 1 ==> ObjectBody(members, rest) == first + ([CLOSE_OBJECT] + rest))
      && (|members| > 1 ==> ObjectBody(members, rest) == first + ([COMMA] + ObjectBody(members[1..], rest)))
    ensures members == [members[0]] + members[1..]
  {
    var texts, tail := RenderMembers(PlainMembers(members)), [CLOSE_OBJECT] + rest;
    JoinCons(texts, tail);
    assert texts[0] == RenderMember(Member(members[0].key, Plain(members[0].value)));
    assert texts[1..] == RenderMembers(PlainMembers(members[1..]));
    assert ObjectBody(members, rest) == JoinTexts(texts) + tail;
    assert ObjectBody(members[1..], rest) == JoinTexts(texts[1..]) + tail;
  }

  lemma {:induction false} MembersRoundTrip(members: seq<Member<Json>>, rest: Text)
    requires members != [] && forall i | 0 <= i < |members| :: Finitary(members[i].value)
    ensures ObjectBody(members, rest)[0] != CLOSE_OBJECT
    ensures ParseMembers(ObjectBody(members, rest)) == Some((members, rest))
    decreases members, 2
  {
    ObjectBodyCons(members, rest);
    if |members| == 1 {
      MemberRoundTrip(members[0], [CLOSE_OBJECT] + rest);
      LastMember(ObjectBody(members, rest), members[0], rest);
      assert members == [members[0]];
    } else {
      var tail := ObjectBody(members[1..], rest);
      MemberRoundTrip(members[0], [COMMA] + tail);
      MembersRoundTrip(members[1..], rest);
      MoreMembers(ObjectBody(members, rest), members[0], tail, members[1..], rest);
    }
  }
}
