/**
 What a type change does to the values stored in a column: every conversion of the matrix is a
 widening that keeps what each value means, as far as the target type reaches.

 The ranges are those PostgreSQL documents for its types; days and microseconds are counted
 from 2000-01-01.
*/
module ColumnValues {
  import opened Common
  import opened Ddl
  import opened Commands

  datatype Value =
    | Whole(n: int)
    | Decimal(digits: int, scale: nat)
    | Day(day: int)
    | Micros(micros: int)
    | NotANumber
    | MinusInfinity
    | Infinity
    | Opaque(text: string) // a value of a type the matrix does not convert

  const DAY_MICROS := 86400000000
  const FIRST_DAY := -2451545 // the first day of both types
  const DATE_END := 2145031949 // 5874898-01-01
  const TIMESTAMP_END_DAY := 106751983 // 294277-01-01

  const WHOLE_DIGITS: nat := 131072
  const FRACTION_DIGITS: nat := 16383

  function Power(n: nat): (p: int)
    ensures p >= 1
  {
    if n == 0 then 1 else 10 * Power(n - 1)
  }

  function Magnitude(n: int): nat {
    if n < 0 then -n else n
  }

  /** How many decimal digits a whole number is written with. */
  function DigitCount(n: nat): nat {
    if n < 10 then 1 else 1 + DigitCount(n / 10)
  }

  /** The values a column of a type can hold, besides null. */
  predicate ValueOf(typ: ColumnType, v: Value) {
    match typ
    case Integer => v.Whole? && -0x8000_0000 <= v.n < 0x8000_0000
    case Bigint => v.Whole? && -0x8000_0000_0000_0000 <= v.n < 0x8000_0000_0000_0000
    case Numeric =>
      || v.NotANumber? || v.MinusInfinity? || v.Infinity?
      || (v.Decimal? && v.scale <= FRACTION_DIGITS && DigitCount(Magnitude(v.digits)) <= WHOLE_DIGITS + v.scale)
    case Date => v.MinusInfinity? || v.Infinity? || (v.Day? && FIRST_DAY <= v.day < DATE_END)
    case Timestamp =>
      || v.MinusInfinity? || v.Infinity?
      || (v.Micros? && FIRST_DAY * DAY_MICROS <= v.micros < TIMESTAMP_END_DAY * DAY_MICROS)
    case _ => v.Opaque?
  }

  /** The server's conversion of one value; a date past the last timestamp is an error. */
  function Convert(from: ColumnType, to: ColumnType, v: Value): Option<Value>
    requires SafeConversion(from, to) && ValueOf(from, v)
  {
    match to
    case Bigint => Some(v)
    case Numeric => Some(Decimal(v.n, 0))
    case _ =>
      if !v.Day? then Some(v)
      else if v.day >= TIMESTAMP_END_DAY then None
      else Some(Micros(v.day * DAY_MICROS))
  }

  // ---------- what a value means ----------

  datatype Meaning = Number(q: real) | Instant(micros: int) | NoNumber | Least | Greatest | Written(text: string)

  /** Numbers by value, dates as their midnight. */
  function MeaningOf(v: Value): Meaning {
    match v
    case Whole(n) => Number(n as real)
    case Decimal(digits, scale) => Number(digits as real / Power(scale) as real)
    case Day(day) => Instant(day * DAY_MICROS)
    case Micros(micros) => Instant(micros)
    case NotANumber => NoNumber
    case MinusInfinity => Least
    case Infinity => Greatest
    case Opaque(text) => Written(text)
  }

  lemma {:induction false} FewDigits(n: nat, digits: nat)
    requires digits >= 1 && n < Power(digits)
    ensures DigitCount(n) <= digits
  {
    if n >= 10 {
      assert Power(1) == 10 && digits > 1;
      FewDigits(n / 10, digits - 1);
    }
  }

  /** Every bigint is a numeric of scale zero. */
  lemma WholeIsDecimal(n: int)
    requires -0x8000_0000_0000_0000 <= n < 0x8000_0000_0000_0000
    ensures ValueOf(Numeric, Decimal(n, 0)) && MeaningOf(Decimal(n, 0)) == MeaningOf(Whole(n))
  {
    assert Power(5) == 100000 && Power(10) == 10000000000 && Power(15) == 1000000000000000;
    assert Power(19) == 10000000000000000000;
    FewDigits(Magnitude(n), 19);
  }

  /** The source values the target reaches: all but dates from 294277-01-01 on. */
  predicate Reaches(v: Value) {
    v.Day? ==> v.day < TIMESTAMP_END_DAY
  }

  /** A conversion succeeds exactly where the target reaches, and then keeps the meaning. */
  lemma ConversionEmbeds(from: ColumnType, to: ColumnType, v: Value)
    requires SafeConversion(from, to) && ValueOf(from, v)
    ensures Convert(from, to, v).Some? <==> Reaches(v)
    ensures Reaches(v) ==>
              ValueOf(to, Convert(from, to, v).value) && MeaningOf(Convert(from, to, v).value) == MeaningOf(v)
  {
    if to == Numeric {
      WholeIsDecimal(v.n);
    }
  }

  /** No two values of one source type mean the same, so no two convert to the same. */
  lemma ConversionInjective(from: ColumnType, to: ColumnType, v: Value, w: Value)
    requires SafeConversion(from, to) && ValueOf(from, v) && ValueOf(from, w) && Reaches(v) && Reaches(w)
    ensures MeaningOf(v) == MeaningOf(w) ==> v == w
    ensures Convert(from, to, v) == Convert(from, to, w) ==> v == w
  {
    ConversionEmbeds(from, to, v);
    ConversionEmbeds(from, to, w);
  }

  /** A conversion loses no value of its source type exactly when the source is not a date. */
  lemma EmbedsEveryValueExactly(from: ColumnType, to: ColumnType)
    requires SafeConversion(from, to)
    ensures (forall v | ValueOf(from, v) :: Convert(from, to, v).Some?) <==> from != Date
  {
    forall v | ValueOf(from, v) ensures Convert(from, to, v).Some? <==> Reaches(v) {
      ConversionEmbeds(from, to, v);
    }
    if from == Date {
      LateDateFails();
      assert ValueOf(from, Day(TIMESTAMP_END_DAY));
    }
  }

  /** The first date that has no timestamp, and the last that has one. */
  lemma LateDateFails()
    ensures ValueOf(Date, Day(TIMESTAMP_END_DAY)) && Convert(Date, Timestamp, Day(TIMESTAMP_END_DAY)).None?
    ensures ValueOf(Date, Day(TIMESTAMP_END_DAY - 1)) && Convert(Date, Timestamp, Day(TIMESTAMP_END_DAY - 1)).Some?
  {
  }

  // ---------- a whole column ----------

  /** A column's stored values, row by row; nulls are `None`. */
  type Stored = seq<Option<Value>>

  predicate ColumnOf(typ: ColumnType, rows: Stored) {
    forall i | 0 <= i < |rows| :: rows[i].Some? ==> ValueOf(typ, rows[i].value)
  }

  /** ALTER COLUMN TYPE rewrites every row, or fails and changes none. */
  function ConvertColumn(from: ColumnType, to: ColumnType, rows: Stored): Option<Stored>
    requires SafeConversion(from, to) && ColumnOf(from, rows)
  {
    if rows == [] then Some([])
    else
      var n := |rows| - 1;
      var front := ConvertColumn(from, to, rows[..n]);
      if front.None? then None
      else if rows[n].None? then Some(front.value + [None])
      else
        var last := Convert(from, to, rows[n].value);
        if last.None? then None else Some(front.value + [last])
  }

  function Meanings(rows: Stored): seq<Option<Meaning>> {
    seq(|rows|, i requires 0 <= i < |rows| => if rows[i].None? then None else Some(MeaningOf(rows[i].value)))
  }

  /** The rows of one prefix more, on both sides. */
  lemma MeaningsStep(rows: Stored, converted: Stored, n: nat)
    requires |rows| == n + 1 && |converted| == n + 1
    requires Meanings(converted[..n]) == Meanings(rows[..n])
    requires rows[n].Some? == converted[n].Some?
    requires rows[n].Some? ==> MeaningOf(rows[n].value) == MeaningOf(converted[n].value)
    ensures Meanings(converted) == Meanings(rows)
  {
    forall i | 0 <= i <= n ensures Meanings(converted)[i] == Meanings(rows)[i] {
      if i < n {
        assert Meanings(converted[..n])[i] == Meanings(rows[..n])[i];
      }
    }
  }

  /** One row more: it converts exactly when the target reaches it. */
  lemma ColumnStep(from: ColumnType, to: ColumnType, rows: Stored, n: nat)
    requires SafeConversion(from, to) && ColumnOf(from, rows) && |rows| == n + 1
    requires var front := ConvertColumn(from, to, rows[..n]);
             front.Some? ==> ColumnOf(to, front.value) && Meanings(front.value) == Meanings(rows[..n])
    ensures ConvertColumn(from, to, rows).Some?
            <==> ConvertColumn(from, to, rows[..n]).Some? && (rows[n].Some? ==> Reaches(rows[n].value))
    ensures ConvertColumn(from, to, rows).Some? ==>
              var converted := ConvertColumn(from, to, rows).value;
              ColumnOf(to, converted) && Meanings(converted) == Meanings(rows)
  {
    if rows[n].Some? {
      ConversionEmbeds(from, to, rows[n].value);
    }
    if ConvertColumn(from, to, rows).Some? {
      var front, converted := ConvertColumn(from, to, rows[..n]).value, ConvertColumn(from, to, rows).value;
      assert |Meanings(front)| == n && converted[..n] == front;
      MeaningsStep(rows, converted, n);
    }
  }

  /** A type change goes through exactly when the target reaches every row, and keeps what every row means. */
  lemma {:induction false} ColumnKeepsMeaning(from: ColumnType, to: ColumnType, rows: Stored)
    requires SafeConversion(from, to) && ColumnOf(from, rows)
    ensures ConvertColumn(from, to, rows).Some?
            <==> forall i | 0 <= i < |rows| :: rows[i].Some? ==> Reaches(rows[i].value)
    ensures ConvertColumn(from, to, rows).Some? ==>
              var converted := ConvertColumn(from, to, rows).value;
              ColumnOf(to, converted) && Meanings(converted) == Meanings(rows)
  {
    if rows != [] {
      var n := |rows| - 1;
      ColumnKeepsMeaning(from, to, rows[..n]);
      ColumnStep(from, to, rows, n);
    }
  }
}
