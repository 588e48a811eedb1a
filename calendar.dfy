/** Calendar days and moments. A stored appointment date is a calendar day (a
    JavaScript Date at midnight UTC); a moment is a day and a minute of that day. */
module Calendar {
  import opened Wrappers
  import opened Digits

  datatype Weekday = Monday | Tuesday | Wednesday | Thursday | Friday | Saturday | Sunday

  /** The years a JavaScript Date can hold: 10^8 days either side of 1970-01-01,
      from -271821-04-20 to 275760-09-13. */
  const MinYear: int := -271821
  const MaxYear: int := 275760

  predicate IsLeapYear(y: int) {
    (y % 4 == 0 && y % 100 != 0) || y % 400 == 0
  }

  function DaysInMonth(y: int, m: int): nat
    requires 1 <= m <= 12
  {
    if m == 2 then (if IsLeapYear(y) then 29 else 28)
    else if m == 4 || m == 6 || m == 9 || m == 11 then 30
    else 31
  }

  datatype Ymd = Ymd(year: int, month: int, day: int) {
    predicate IsValid() {
      && MinYear <= year <= MaxYear && 1 <= month <= 12 && 1 <= day <= DaysInMonth(year, month)
      && (year == MinYear ==> month > 4 || (month == 4 && day >= 20))
      && (year == MaxYear ==> month < 9 || (month == 9 && day <= 13))
    }
  }

  /** A day of the proleptic Gregorian calendar within the range of JavaScript dates. */
  type Date = d: Ymd | d.IsValid() witness Ymd(1970, 1, 1)

  /** Chronological order of days. */
  predicate DateLess(a: Date, b: Date) {
    a.year < b.year
    || (a.year == b.year && (a.month < b.month || (a.month == b.month && a.day < b.day)))
  }

  lemma DateLessTransitive(a: Date, b: Date, c: Date)
    requires DateLess(a, b) && DateLess(b, c)
    ensures DateLess(a, c)
  {
  }

  lemma DateTotal(a: Date, b: Date)
    ensures a == b || DateLess(a, b) || DateLess(b, a)
  {
  }

  /** A moment: a day and the minutes since its midnight. */
  datatype DateTime = DateTime(date: Date, minute: nat)

  /** `isBefore`: strictly earlier. */
  predicate Before(a: DateTime, b: DateTime) {
    DateLess(a.date, b.date) || (a.date == b.date && a.minute < b.minute)
  }

  lemma Pow10Values()
    ensures Pow10(2) == 100 && Pow10(4) == 10000 && Pow10(6) == 1000000
  {
    assert Pow10(1) == 10;
    assert Pow10(3) == 1000;
    assert Pow10(5) == 100000;
  }

  /** The sign `toISOString` writes before a year outside 0 to 9999. */
  function YearSign(y: int): char {
    if y < 0 then '-' else '+'
  }

  /** The date part of `toISOString()`, the text before its `T`: the year (four digits
      for years 0 to 9999, otherwise a sign and six digits), month and day separated by
      `-`. */
  function IsoDatePart(d: Date): (r: string)
    ensures ReadIsoDatePart(r) == Some(d)
    ensures forall i :: 0 <= i < |r| ==> r[i] != ' ' && r[i] != 'T'
  {
    Pow10Values();
    var mo, da := Decimal(d.month, 2), Decimal(d.day, 2);
    DecimalValueOfDecimal(d.month, 2);
    DecimalValueOfDecimal(d.day, 2);
    if 0 <= d.year <= 9999 then
      ShortDateReads(d, mo, da);
      Decimal(d.year, 4) + "-" + mo + "-" + da
    else
      LongDateReads(d, mo, da);
      [YearSign(d.year)] + Decimal(if d.year < 0 then -d.year else d.year, 6) + "-" + mo + "-" + da
  }

  /** Reads the text `IsoDatePart` writes. */
  function ReadIsoDatePart(s: string): Option<Ymd> {
    if |s| == 10 && IsShortForm(s) then
      Some(Ymd(DecimalValue(s[..4]), DecimalValue(s[5..7]), DecimalValue(s[8..])))
    else if |s| == 13 && IsLongForm(s) then
      Some(Ymd(SignedYear(s[0], DecimalValue(s[1..7])), DecimalValue(s[8..10]), DecimalValue(s[11..])))
    else
      None
  }

  /** `YYYY-MM-DD`. */
  predicate IsShortForm(s: string)
    requires |s| == 10
  {
    AllDigits(s[..4]) && s[4] == '-' && AllDigits(s[5..7]) && s[7] == '-' && AllDigits(s[8..])
  }

  /** `±YYYYYY-MM-DD`. */
  predicate IsLongForm(s: string)
    requires |s| == 13
  {
    (s[0] == '+' || s[0] == '-') && AllDigits(s[1..7]) && s[7] == '-' && AllDigits(s[8..10])
    && s[10] == '-' && AllDigits(s[11..])
  }

  function SignedYear(sign: char, n: nat): int {
    if sign == '-' then -(n as int) else n
  }

  /** A year from 0 to 9999 is written with four digits. */
  lemma ShortDateReads(d: Date, mo: string, da: string)
    requires Pow10(4) == 10000 && 0 <= d.year <= 9999
    requires |mo| == 2 && |da| == 2 && AllDigits(mo) && AllDigits(da)
    requires DecimalValue(mo) == d.month && DecimalValue(da) == d.day
    ensures var r := Decimal(d.year, 4) + "-" + mo + "-" + da;
      ReadIsoDatePart(r) == Some(d) && forall i :: 0 <= i < |r| ==> r[i] != ' ' && r[i] != 'T'
  {
    var y := Decimal(d.year, 4);
    DecimalValueOfDecimal(d.year, 4);
    ReadShort(y, mo, da);
    NoSeparators(y, mo, da);
  }

  /** Any other year is written with a sign and six digits. */
  lemma LongDateReads(d: Date, mo: string, da: string)
    requires Pow10(6) == 1000000 && !(0 <= d.year <= 9999)
    requires |mo| == 2 && |da| == 2 && AllDigits(mo) && AllDigits(da)
    requires DecimalValue(mo) == d.month && DecimalValue(da) == d.day
    ensures var r := [YearSign(d.year)] + Decimal(if d.year < 0 then -d.year else d.year, 6) + "-" + mo + "-" + da;
      ReadIsoDatePart(r) == Some(d) && forall i :: 0 <= i < |r| ==> r[i] != ' ' && r[i] != 'T'
  {
    var n := if d.year < 0 then -d.year else d.year;
    var a := Decimal(n, 6);
    DecimalValueOfDecimal(n, 6);
    ReadLong(YearSign(d.year), a, mo, da);
    NoSeparators([YearSign(d.year)] + a, mo, da);
  }

  lemma ReadShort(y: string, mo: string, da: string)
    requires |y| == 4 && |mo| == 2 && |da| == 2 && AllDigits(y) && AllDigits(mo) && AllDigits(da)
    ensures ReadIsoDatePart(y + "-" + mo + "-" + da)
      == Some(Ymd(DecimalValue(y), DecimalValue(mo), DecimalValue(da)))
  {
    var r := y + "-" + mo + "-" + da;
    assert r[..4] == y && r[5..7] == mo && r[8..] == da;
  }

  lemma ReadLong(sign: char, a: string, mo: string, da: string)
    requires sign == '+' || sign == '-'
    requires |a| == 6 && |mo| == 2 && |da| == 2 && AllDigits(a) && AllDigits(mo) && AllDigits(da)
    ensures ReadIsoDatePart([sign] + a + "-" + mo + "-" + da)
      == Some(Ymd(SignedYear(sign, DecimalValue(a)), DecimalValue(mo), DecimalValue(da)))
  {
    var tail := "-" + mo + "-" + da;
    var r := [sign] + a + "-" + mo + "-" + da;
    assert r == [sign] + a + tail;
    assert |r| == 13 && r[0] == sign && r[7] == '-';
    assert r[1..7] == a;
    assert r[7..] == tail;
    assert tail[1..3] == mo && tail[3] == '-' && tail[4..] == da;
    assert r[8..10] == mo && r[10] == '-' && r[11..] == da;
    assert IsLongForm(r);
  }

  lemma NoSeparators(y: string, mo: string, da: string)
    requires forall i :: 0 <= i < |y| ==> y[i] == '+' || y[i] == '-' || IsDigit(y[i])
    requires AllDigits(mo) && AllDigits(da)
    ensures var r := y + "-" + mo + "-" + da; forall i :: 0 <= i < |r| ==> r[i] != ' ' && r[i] != 'T'
  {
  }
}
