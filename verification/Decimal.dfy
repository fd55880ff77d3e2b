/** Rendering numeric defaults in plain decimal notation. */
module Decimal {
  import opened Common

  // ---------- text ----------

  predicate Digit(c: char) {
    '0' <= c <= '9'
  }

  predicate AllDigits(s: string) {
    forall i | 0 <= i < |s| :: Digit(s[i])
  }

  /** Where a character first stands, or the length of the text. */
  function IndexOf(s: string, c: char): (i: nat)
    ensures i <= |s| && (i < |s| ==> s[i] == c) && forall k | 0 <= k < i :: s[k] != c
  {
    IndexFrom(s, c, 0)
  }

  function IndexFrom(s: string, c: char, i: nat): (j: nat)
    requires i <= |s|
    ensures i <= j <= |s| && (j < |s| ==> s[j] == c) && forall k | i <= k < j :: s[k] != c
    decreases |s| - i
  {
    if i == |s| || s[i] == c then i else IndexFrom(s, c, i + 1)
  }

  function Zeros(n: nat): (s: string)
    ensures |s| == n && forall i | 0 <= i < n :: s[i] == '0'
  {
    seq(n, i => '0')
  }

  /** The whole number some digits denote. */
  function Nat(s: string): nat
    requires AllDigits(s)
  {
    Leading(s, |s|)
  }

  function Leading(s: string, n: nat): nat
    requires AllDigits(s) && n <= |s|
  {
    if n == 0 then 0 else 10 * Leading(s, n - 1) + (s[n - 1] as int - '0' as int)
  }

  /** A signed run of digits, as `Number` reads it. */
  function ReadInt(s: string): int
    requires AllDigits(Unsigned(s))
  {
    if s != "" && s[0] == '-' then -(Nat(Unsigned(s)) as int) else Nat(Unsigned(s))
  }

  function Unsigned(s: string): string {
    if s != "" && (s[0] == '-' || s[0] == '+') then s[1..] else s
  }

  // ---------- the conversion ----------

  /** The text before a point and, if there is a point, the text behind it. */
  datatype Parts = Parts(whole: string, fraction: Option<string>)

  function Split(s: string): Parts {
    var dot := IndexOf(s, '.');
    if dot == |s| then Parts(s, None) else Parts(s[..dot], Some(s[dot + 1..]))
  }

  function Join(p: Parts): string {
    if p.fraction.None? then p.whole else p.whole + "." + p.fraction.value
  }

  function FractionOf(p: Parts): string {
    if p.fraction.None? then "" else p.fraction.value
  }

  function DigitsOf(p: Parts): string {
    p.whole + FractionOf(p)
  }

  function PlacePoint(digits: string, pointAt: int): Parts {
    if pointAt <= 0 then Parts("0", Some(Zeros(-pointAt) + digits))
    else if pointAt >= |digits| then Parts(digits + Zeros(pointAt - |digits|), None)
    else Parts(digits[..pointAt], Some(digits[pointAt..]))
  }

  function Signed(negative: bool, s: string): string {
    if negative then "-" + s else s
  }

  predicate Negative(s: string) {
    s != "" && s[0] == '-'
  }

  function Magnitude(s: string): string {
    if Negative(s) then s[1..] else s
  }

  function Expand(mantissa: string, exponent: int): string {
    var p := Split(Magnitude(mantissa));
    Signed(Negative(mantissa), Join(PlacePoint(DigitsOf(p), |p.whole| + exponent)))
  }

  function Mantissa(rendered: string): string {
    rendered[..IndexOf(rendered, 'e')]
  }

  function ExponentText(rendered: string): string {
    var at := IndexOf(rendered, 'e');
    if at == |rendered| then "0" else rendered[at + 1..]
  }

  /** The text behind the `e`, if any, is a signed run of digits. */
  predicate ReadableExponent(rendered: string) {
    AllDigits(Unsigned(ExponentText(rendered)))
  }

  function ExpandExponential(rendered: string): string
    requires ReadableExponent(rendered)
  {
    Expand(Mantissa(rendered), ReadInt(ExponentText(rendered)))
  }

  /** A rendering without an exponent is kept as it is. */
  function RenderNumericDefault(rendered: string): string
    requires ReadableExponent(rendered)
  {
    if 'e' in rendered || 'E' in rendered then ExpandExponential(rendered) else rendered
  }

  // ---------- what texts denote ----------

  /** A number times ten to an integer power. */
  function Scaled(x: real, e: int): real
    decreases if e >= 0 then e else -e
  {
    if e == 0 then x
    else if e > 0 then 10.0 * Scaled(x, e - 1)
    else Scaled(x, e + 1) / 10.0
  }

  /** Digits, or digits on both sides of a point. */
  predicate PlainParts(p: Parts) {
    && p.whole != "" && AllDigits(p.whole)
    && (p.fraction.Some? ==> p.fraction.value != "" && AllDigits(p.fraction.value))
  }

  function PartsValue(p: Parts): real
    requires PlainParts(p)
  {
    Scaled(Nat(DigitsOf(p)) as real, -|FractionOf(p)|)
  }

  /** Plain decimal notation: a possible minus sign, at most one point, no exponent. */
  predicate Plain(s: string) {
    PlainParts(Split(Magnitude(s)))
  }

  function Value(s: string): real
    requires Plain(s)
  {
    Negated(Negative(s), PartsValue(Split(Magnitude(s))))
  }

  function Negated(negative: bool, x: real): real {
    if negative then -x else x
  }

  /** A number as ECMAScript renders one: sign, digits, optional fraction, optional exponent. */
  datatype Rendering = Rendering(negative: bool, parts: Parts, exponent: Option<string>)

  predicate Valid(r: Rendering) {
    PlainParts(r.parts) && (r.exponent.Some? ==> AllDigits(Unsigned(r.exponent.value)))
  }

  function MantissaText(r: Rendering): string {
    Signed(r.negative, Join(r.parts))
  }

  function Text(r: Rendering): string {
    if r.exponent.Some? then MantissaText(r) + "e" + r.exponent.value else MantissaText(r)
  }

  function Exponent(r: Rendering): int
    requires Valid(r)
  {
    if r.exponent.Some? then ReadInt(r.exponent.value) else 0
  }

  // ---------- arithmetic ----------

  lemma {:induction false} ScaledUp(x: real, d: int)
    ensures 10.0 * Scaled(x, d) == Scaled(x, d + 1)
    decreases if d >= 0 then d else -d
  {
  }

  lemma {:induction false} ScaledTwice(x: real, d: int, e: int)
    ensures Scaled(Scaled(x, d), e) == Scaled(x, d + e)
    decreases if e >= 0 then e else -e
  {
    if e > 0 {
      ScaledTwice(x, d, e - 1);
      ScaledUp(x, d + e - 1);
    } else if e < 0 {
      ScaledTwice(x, d, e + 1);
      ScaledUp(x, d + e);
    }
  }

  lemma {:induction false} ScaledNegative(x: real, e: int)
    ensures Scaled(-x, e) == -Scaled(x, e)
    decreases if e >= 0 then e else -e
  {
    if e > 0 {
      ScaledNegative(x, e - 1);
    } else if e < 0 {
      ScaledNegative(x, e + 1);
    }
  }

  lemma {:induction false} LeadingSame(s: string, t: string, n: nat)
    requires AllDigits(s) && AllDigits(t) && n <= |s| && n <= |t|
    requires forall i | 0 <= i < n :: s[i] == t[i]
    ensures Leading(s, n) == Leading(t, n)
  {
    if n > 0 {
      LeadingSame(s, t, n - 1);
    }
  }

  /** Behind `n` zeros. */
  lemma {:induction false} LeadingAfterZeros(n: nat, s: string, t: string, k: nat)
    requires AllDigits(s) && AllDigits(t) && t == Zeros(n) + s && k <= |t|
    ensures Leading(t, k) == if k <= n then 0 else Leading(s, k - n)
  {
    if k > 0 {
      LeadingAfterZeros(n, s, t, k - 1);
    }
  }

  lemma NatLeadingZeros(n: nat, s: string)
    requires AllDigits(s)
    ensures AllDigits(Zeros(n) + s) && Nat(Zeros(n) + s) == Nat(s)
  {
    LeadingAfterZeros(n, s, Zeros(n) + s, n + |s|);
  }

  lemma {:induction false} LeadingThroughZeros(s: string, n: nat, t: string, k: nat)
    requires AllDigits(s) && AllDigits(t) && t == s + Zeros(n) && k <= n
    ensures Leading(t, |s| + k) as real == Scaled(Leading(s, |s|) as real, k)
  {
    if k == 0 {
      LeadingSame(s, t, |s|);
    } else {
      LeadingThroughZeros(s, n, t, k - 1);
    }
  }

  lemma NatTrailingZeros(s: string, n: nat)
    requires AllDigits(s)
    ensures AllDigits(s + Zeros(n)) && Nat(s + Zeros(n)) as real == Scaled(Nat(s) as real, n)
  {
    LeadingThroughZeros(s, n, s + Zeros(n), n);
  }

  // ---------- the theorem ----------

  lemma SplitJoin(p: Parts)
    requires PlainParts(p)
    ensures Split(Join(p)) == p && !Negative(Join(p))
  {
    var s := Join(p);
    assert forall i | 0 <= i < |p.whole| :: s[i] == p.whole[i];
    if p.fraction.Some? {
      assert s[|p.whole|] == '.';
      assert IndexOf(s, '.') == |p.whole|;
      assert s[..|p.whole|] == p.whole && s[|p.whole| + 1..] == p.fraction.value;
    }
  }

  /** Reading a signed plain text gives its sign and parts back. */
  lemma SignedJoin(negative: bool, p: Parts, s: string)
    requires PlainParts(p) && s == Signed(negative, Join(p))
    ensures Negative(s) == negative && Split(Magnitude(s)) == p
    ensures Plain(s) && Value(s) == Negated(negative, PartsValue(p))
  {
    SplitJoin(p);
    assert negative ==> s[1..] == Join(p);
  }

  /** Placing the point scales the digits by the power of ten it moves. */
  lemma PlacedValue(digits: string, pointAt: int)
    requires digits != "" && AllDigits(digits)
    ensures PlainParts(PlacePoint(digits, pointAt))
    ensures PartsValue(PlacePoint(digits, pointAt)) == Scaled(Nat(digits) as real, pointAt - |digits|)
  {
    var p := PlacePoint(digits, pointAt);
    if pointAt <= 0 {
      NatLeadingZeros(-pointAt, digits);
      NatLeadingZeros(1, Zeros(-pointAt) + digits);
      assert DigitsOf(p) == Zeros(1) + (Zeros(-pointAt) + digits);
    } else if pointAt >= |digits| {
      NatTrailingZeros(digits, pointAt - |digits|);
      assert DigitsOf(p) == digits + Zeros(pointAt - |digits|);
    } else {
      assert DigitsOf(p) == digits;
    }
  }

  lemma ScaledSigned(negative: bool, x: real, d: int, e: int)
    ensures Negated(negative, Scaled(x, d + e)) == Scaled(Negated(negative, Scaled(x, d)), e)
  {
    ScaledTwice(x, d, e);
    ScaledNegative(Scaled(x, d), e);
  }

  /** Moving the point by the exponent multiplies the digits by that power of ten. */
  lemma MovedValue(negative: bool, p: Parts, exponent: int)
    requires PlainParts(p)
    ensures var placed := PlacePoint(DigitsOf(p), |p.whole| + exponent);
            PlainParts(placed)
            && Negated(negative, PartsValue(placed)) == Scaled(Negated(negative, PartsValue(p)), exponent)
  {
    PlacedValue(DigitsOf(p), |p.whole| + exponent);
    ScaledSigned(negative, Nat(DigitsOf(p)) as real, -|FractionOf(p)|, exponent);
  }

  lemma ExpandIs(negative: bool, p: Parts, exponent: int, mantissa: string)
    requires PlainParts(p) && mantissa == Signed(negative, Join(p))
    ensures Expand(mantissa, exponent) == Signed(negative, Join(PlacePoint(DigitsOf(p), |p.whole| + exponent)))
  {
    SignedJoin(negative, p, mantissa);
  }

  lemma ExpandedValue(negative: bool, p: Parts, exponent: int, mantissa: string, out: string)
    requires PlainParts(p) && mantissa == Signed(negative, Join(p)) && out == Expand(mantissa, exponent)
    ensures Plain(mantissa) && Plain(out) && Value(out) == Scaled(Value(mantissa), exponent)
  {
    SignedJoin(negative, p, mantissa);
    MovedValue(negative, p, exponent);
    ExpandIs(negative, p, exponent, mantissa);
    SignedJoin(negative, PlacePoint(DigitsOf(p), |p.whole| + exponent), out);
  }

  lemma MantissaUnits(r: Rendering)
    requires Valid(r)
    ensures forall c <- MantissaText(r) :: Digit(c) || c == '.' || c == '-'
  {
  }

  lemma CutAt(m: string, tail: string)
    requires 'e' !in m
    ensures Mantissa(m) == m && ExponentText(m) == "0"
    ensures Mantissa(m + "e" + tail) == m && ExponentText(m + "e" + tail) == tail
  {
    var s := m + "e" + tail;
    assert s[|m|] == 'e' && forall k | 0 <= k < |m| :: s[k] == m[k];
    assert IndexOf(s, 'e') == |m| && s[..|m|] == m && s[|m| + 1..] == tail;
    assert IndexOf(m, 'e') == |m|;
  }

  /** What a rendering is turned into. */
  lemma DefaultIs(r: Rendering)
    requires Valid(r)
    ensures ReadableExponent(Text(r))
    ensures RenderNumericDefault(Text(r))
            == if r.exponent.None? then MantissaText(r) else Expand(MantissaText(r), Exponent(r))
  {
    MantissaUnits(r);
    CutAt(MantissaText(r), if r.exponent.Some? then r.exponent.value else "");
    if r.exponent.Some? {
      assert Text(r)[|MantissaText(r)|] == 'e';
    }
  }

  /**
   For every signed mantissa with an optional fraction and every integer exponent, the result
   is plain decimal notation for exactly the mantissa times that power of ten.
  */
  lemma ExpansionIsExact(r: Rendering)
    requires Valid(r)
    ensures Plain(MantissaText(r)) && ReadableExponent(Text(r)) && Plain(RenderNumericDefault(Text(r)))
    ensures Value(RenderNumericDefault(Text(r))) == Scaled(Value(MantissaText(r)), Exponent(r))
  {
    DefaultIs(r);
    DefaultValue(r, MantissaText(r), RenderNumericDefault(Text(r)));
  }

  lemma DefaultValue(r: Rendering, mantissa: string, out: string)
    requires Valid(r) && mantissa == MantissaText(r)
    requires out == if r.exponent.None? then mantissa else Expand(mantissa, Exponent(r))
    ensures Plain(mantissa) && Plain(out) && Value(out) == Scaled(Value(mantissa), Exponent(r))
  {
    if r.exponent.Some? {
      ExpandedValue(r.negative, r.parts, Exponent(r), mantissa, out);
    } else {
      SignedJoin(r.negative, r.parts, mantissa);
    }
  }
}
