/** What the canonical text looks like, said without the renderer's own helpers and constants. */
module CanonicalNotation {
  import opened Common
  import opened Sorting
  import opened CanonicalJson
  import opened ChecksumPreimage

  predicate Spells(t: Text, s: string) {
    |t| == |s| && forall i | 0 <= i < |s| :: t[i] == s[i] as int
  }

  // ---------- strings ----------

  predicate LowerHex(u: CodeUnit) {
    '0' as int <= u <= '9' as int || 'a' as int <= u <= 'f' as int
  }

  function HexOf(u: CodeUnit): nat
    requires LowerHex(u)
  {
    if u <= '9' as int then u - '0' as int else u - 'a' as int + 10
  }

  /** A backslash, a `u` and four lower-case digits. */
  predicate HexText(t: Text, u: CodeUnit) {
    && |t| == 6 && Spells(t[..2], "\\u") && LowerHex(t[2]) && LowerHex(t[3]) && LowerHex(t[4]) && LowerHex(t[5])
    && u == 4096 * HexOf(t[2]) + 256 * HexOf(t[3]) + 16 * HexOf(t[4]) + HexOf(t[5])
  }

  predicate Surrogate(u: CodeUnit) {
    0xD800 <= u <= 0xDFFF
  }

  predicate NeedsEscape(u: CodeUnit) {
    u < 0x20 || u == '\"' as int || u == '\\' as int
  }

  /** The escapes of section 7 of RFC 8259 that ECMAScript writes. */
  predicate UnitText(t: Text, u: CodeUnit) {
    if u == 0x08 then Spells(t, "\\b")
    else if u == 0x09 then Spells(t, "\\t")
    else if u == 0x0A then Spells(t, "\\n")
    else if u == 0x0C then Spells(t, "\\f")
    else if u == 0x0D then Spells(t, "\\r")
    else if u == 0x22 then Spells(t, "\\\"")
    else if u == 0x5C then Spells(t, "\\\\")
    else if NeedsEscape(u) || Surrogate(u) then HexText(t, u)
    else t == [u]
  }

  lemma HexDigitIs(n: nat)
    requires n < 16
    ensures LowerHex(HexDigit(n)) && HexOf(HexDigit(n)) == n
  {
  }

  lemma DigitsAddUp(u: nat)
    requires u < 0x10000
    ensures u / 4096 < 16 && u == 4096 * (u / 4096) + 256 * (u / 256 % 16) + 16 * (u / 16 % 16) + u % 16
  {
    assert u / 16 == 16 * (u / 256) + u / 16 % 16 && u / 256 == 16 * (u / 4096) + u / 256 % 16;
  }

  lemma HexIsWritten(u: CodeUnit)
    ensures HexText(HexEscape(u), u)
  {
    DigitsAddUp(u);
    HexDigitIs(u / 4096);
    HexDigitIs(u / 256 % 16);
    HexDigitIs(u / 16 % 16);
    HexDigitIs(u % 16);
    assert HexEscape(u)[..2] == [92, 117];
  }

  /** One code unit that is not part of a surrogate pair. */
  lemma UnitIsWritten(u: CodeUnit)
    ensures UnitText(Escape(u), u)
  {
    if (NeedsEscape(u) || Surrogate(u)) && u !in {0x08, 0x09, 0x0A, 0x0C, 0x0D, 0x22, 0x5C} {
      HexIsWritten(u);
      assert Escape(u) == HexEscape(u);
    }
  }

  /** Every surrogate has its other half. */
  predicate WellPaired(s: Text) {
    && (forall i | 0 <= i < |s| && 0xD800 <= s[i] <= 0xDBFF :: i + 1 < |s| && 0xDC00 <= s[i + 1] <= 0xDFFF)
    && (forall i | 0 <= i < |s| && 0xDC00 <= s[i] <= 0xDFFF :: i > 0 && 0xD800 <= s[i - 1] <= 0xDBFF)
  }

  /** A well-formed string without control characters, quotes and backslashes stays as it is. */
  lemma {:induction false} PlainStringStays(s: Text)
    requires WellPaired(s) && forall i | 0 <= i < |s| :: !NeedsEscape(s[i])
    ensures EscapeAll(s) == s
    decreases |s|
  {
    if s != [] {
      assert forall k | 1 <= k < |s| :: s[1..][k - 1] == s[k];
      assert forall k | 2 <= k < |s| :: s[2..][k - 2] == s[k];
      if 0xD800 <= s[0] <= 0xDBFF {
        PairedTail(s, 2);
        PlainStringStays(s[2..]);
        assert s == s[..2] + s[2..];
      } else {
        PairedTail(s, 1);
        PlainStringStays(s[1..]);
        assert s == [s[0]] + s[1..];
      }
    }
  }

  lemma PairedTail(s: Text, k: nat)
    requires WellPaired(s) && 0 < k <= |s| && !(0xD800 <= s[k - 1] <= 0xDBFF)
    ensures WellPaired(s[k..])
  {
    var t := s[k..];
    assert forall i | 0 <= i < |t| :: t[i] == s[i + k];
    forall i | 0 <= i < |t| && 0xDC00 <= t[i] <= 0xDFFF ensures i > 0 && 0xD800 <= t[i - 1] <= 0xDBFF {
      assert 0xD800 <= s[i + k - 1] <= 0xDBFF;
    }
  }

  // ---------- values ----------

  /** Null, true and false, and the numbers JSON does not have. */
  lemma LiteralsAreWritten()
    ensures Spells(Canonical(JNull), "null")
    ensures Spells(Canonical(JBool(true)), "true") && Spells(Canonical(JBool(false)), "false")
    ensures Spells(Canonical(JNumber(NonFinite)), "null") && Spells(Canonical(JNumber(NegativeZero)), "0")
    ensures forall digits :: Canonical(JNumber(Finite(digits))) == digits
  {
  }

  /** The parts with commas between them. */
  function Listed(parts: seq<Text>): Text {
    if parts == [] then [] else parts[0] + WithCommas(parts[1..])
  }

  function WithCommas(parts: seq<Text>): Text {
    if parts == [] then [] else [',' as int] + parts[0] + WithCommas(parts[1..])
  }

  lemma {:induction false} JoinIsListed(parts: seq<Text>)
    ensures JoinTexts(parts) == Listed(parts)
  {
    if |parts| >= 2 {
      JoinIsListed(parts[1..]);
    } else if |parts| == 1 {
      assert WithCommas(parts[1..]) == [];
    }
  }

  function TextsOf(items: seq<Json>): seq<Text> {
    seq(|items|, i requires 0 <= i < |items| => Canonical(items[i]))
  }

  lemma {:induction false} ItemsAre(items: seq<Json>)
    ensures CanonicalItems(items) == TextsOf(items)
  {
    if items != [] {
      ItemsAre(items[1..]);
      assert TextsOf(items) == [TextsOf(items)[0]] + TextsOf(items[1..]);
    }
  }

  /** An array: its items' texts in order, between brackets and commas, without a space. */
  lemma ArrayIsWritten(items: seq<Json>)
    ensures Canonical(JArray(items)) == ['[' as int] + Listed(TextsOf(items)) + [']' as int]
  {
    ItemsAre(items);
    JoinIsListed(CanonicalItems(items));
  }

  /** Each member with its value's text, in the given order. */
  function WithTexts(members: seq<Member<Json>>): seq<Member<Text>> {
    seq(|members|, i requires 0 <= i < |members| => Member(members[i].key, Canonical(members[i].value)))
  }

  lemma {:induction false} MembersAre(members: seq<Member<Json>>)
    ensures CanonicalMembers(members) == WithTexts(members)
  {
    if members != [] {
      MembersAre(members[1..]);
      assert WithTexts(members) == [WithTexts(members)[0]] + WithTexts(members[1..]);
    }
  }

  ghost predicate Before(a: Text, b: Text) {
    exists n :: FirstDiffers(a, b, n)
  }

  ghost predicate KeysAscend(members: seq<Member<Text>>) {
    forall i, j | 0 <= i < j < |members| :: Before(members[i].key, members[j].key)
  }

  function StringText(s: Text): Text {
    ['\"' as int] + EscapeAll(s) + ['\"' as int]
  }

  /** Each member: its key as a string, a colon, the text of its value. */
  function MemberTexts(members: seq<Member<Text>>): seq<Text> {
    seq(|members|, i requires 0 <= i < |members| => StringText(members[i].key) + [':' as int] + members[i].value)
  }

  ghost predicate IsSorted(members: seq<Member<Text>>, sorted: seq<Member<Text>>) {
    multiset(sorted) == multiset(members) && KeysAscend(sorted)
  }

  lemma SortedAre(members: seq<Member<Text>>)
    requires DistinctKeys(members)
    ensures IsSorted(members, SortMembers(members))
  {
    SortSorts(members);
    var sorted := SortMembers(members);
    forall i, j | 0 <= i < j < |sorted| ensures Before(sorted[i].key, sorted[j].key) {
      assert KeyBefore(sorted[i], sorted[j]);
      LessIsUnitOrder(sorted[i].key, sorted[j].key);
    }
  }

  lemma RenderedAre(members: seq<Member<Text>>)
    ensures RenderMembers(members) == MemberTexts(members)
  {
  }

  /** An object: all its members, keys ascending by code units, between braces and commas. */
  lemma ObjectIsWritten(members: seq<Member<Json>>) returns (sorted: seq<Member<Text>>)
    requires DistinctKeys(members)
    ensures IsSorted(WithTexts(members), sorted)
    ensures Canonical(JObject(members)) == ['{' as int] + Listed(MemberTexts(sorted)) + ['}' as int]
  {
    var texts := WithTexts(members);
    assert DistinctKeys(texts) by {
      assert forall i | 0 <= i < |texts| :: texts[i].key == members[i].key;
    }
    SortedAre(texts);
    sorted := SortMembers(texts);
    MembersAre(members);
    RenderedAre(sorted);
    JoinIsListed(MemberTexts(sorted));
  }

  function StringTexts(strings: seq<Text>): seq<Text> {
    seq(|strings|, i requires 0 <= i < |strings| => StringText(strings[i]))
  }

  lemma StatementsAre(statements: seq<Text>)
    ensures StatementList(statements).JArray? && TextsOf(StatementList(statements).items) == StringTexts(statements)
  {
  }

  /** The preimage: a version, the type, the command and the statements as an array of strings, with bars between. */
  lemma PreimageIsWritten(commandType: Text, command: Json, statements: seq<Text>)
    ensures Preimage(commandType, command, statements)
         == ['v' as int, '1' as int, '|' as int] + commandType + ['|' as int] + Canonical(command) + ['|' as int]
            + (['[' as int] + Listed(StringTexts(statements)) + [']' as int])
  {
    StatementsAre(statements);
    ArrayIsWritten(StatementList(statements).items);
  }
}
