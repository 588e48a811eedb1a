/** Times of day: the `HH:MM` pattern the schema and the request validator share, the
    reading of such a string as minutes since midnight, and the zero-padded `HH:mm`
    rendering the slot generator produces. */
module TimeOfDay {
  import opened Wrappers
  import opened Digits
  import opened Strings

  const MinutesPerDay: nat := 1440
  const MinutesPerHour: nat := 60

  /** `:` followed by minutes 00 to 59. */
  predicate MinutesSuffix(t: string) {
    |t| == 3 && t[0] == ':' && '0' <= t[1] <= '5' && IsDigit(t[2])
  }

  /** A two-character hour: 00 to 19 (a 0 or 1 before any digit) or 20 to 23. */
  predicate HourPair(a: char, b: char) {
    ((a == '0' || a == '1') && IsDigit(b)) || (a == '2' && '0' <= b <= '3')
  }

  /** The pattern ^([01]?[0-9]|2[0-3]):[0-5][0-9]$, written out: a one-digit hour,
      or a two-character hour, then the minutes. */
  predicate IsTimeString(s: string) {
    (|s| == 4 && IsDigit(s[0]) && MinutesSuffix(s[1..]))
    || (|s| == 5 && HourPair(s[0], s[1]) && MinutesSuffix(s[2..]))
  }

  /** The minutes since midnight a time string denotes; absent exactly when the
      string does not match the pattern. */
  function ParseTime(s: string): (r: Option<nat>)
    ensures r.Some? <==> IsTimeString(s)
    ensures r.Some? ==> r.value < MinutesPerDay
  {
    if |s| == 4 && IsDigit(s[0]) && MinutesSuffix(s[1..]) then
      TwoDigitValue(s[2..]);
      Some(DigitValue(s[0]) * MinutesPerHour + DecimalValue(s[2..]))
    else if |s| == 5 && HourPair(s[0], s[1]) && MinutesSuffix(s[2..]) then
      TwoDigitValue(s[..2]);
      TwoDigitValue(s[3..]);
      Some(DecimalValue(s[..2]) * MinutesPerHour + DecimalValue(s[3..]))
    else
      None
  }

  /** The zero-padded 24-hour rendering `HH:mm` of a minute of the day. It always
      matches the pattern; `ParseFormatTime` reads it back. */
  function FormatTime(m: nat): (r: string)
    requires m < MinutesPerDay
    ensures |r| == 5 && IsTimeString(r)
  {
    var h, mm := m / MinutesPerHour, m % MinutesPerHour;
    [DigitChar(h / 10), DigitChar(h % 10), ':', DigitChar(mm / 10), DigitChar(mm % 10)]
  }

  /** A five-character time reads as its hour digits times sixty plus its minute
      digits. */
  lemma ParseParts(h: string, mm: string)
    requires |h| == 2 && |mm| == 2 && IsTimeString(h + (":" + mm))
    ensures AllDigits(h) && AllDigits(mm)
    ensures ParseTime(h + (":" + mm)) == Some(DecimalValue(h) * MinutesPerHour + DecimalValue(mm))
  {
    var r := h + (":" + mm);
    assert |r| == 5 && r[..2] == h && r[3..] == mm;
    assert HourPair(r[0], r[1]) && MinutesSuffix(r[2..]);
    assert h[0] == r[0] && h[1] == r[1] && mm[0] == r[3] && mm[1] == r[4];
  }

  /** Reading a rendering gives back its minute. */
  lemma ParseFormatTime(m: nat)
    requires m < MinutesPerDay
    ensures ParseTime(FormatTime(m)) == Some(m)
  {
    var h, mm := Decimal(m / MinutesPerHour, 2), Decimal(m % MinutesPerHour, 2);
    FormatTimeParts(m);
    ParseParts(h, mm);
    DecimalValueOfDecimal(m / MinutesPerHour, 2);
    DecimalValueOfDecimal(m % MinutesPerHour, 2);
  }

  /** Different minutes render differently. */
  lemma FormatTimeInjective(a: nat, b: nat)
    requires a < MinutesPerDay && b < MinutesPerDay
    ensures FormatTime(a) == FormatTime(b) <==> a == b
  {
    ParseFormatTime(a);
    ParseFormatTime(b);
  }

  /** Reference description of the pattern: the strings it accepts are exactly the
      padded renderings of the minutes of a day, and, for hours 0 to 9, those
      renderings with the leading zero dropped. */
  lemma {:induction false} TimeStringIffRendering(s: string)
    ensures IsTimeString(s) <==>
      exists m: nat :: m < MinutesPerDay && (s == FormatTime(m) || (m < 10 * MinutesPerHour && s == FormatTime(m)[1..]))
  {
    if IsTimeString(s) {
      var m := ParseTime(s).value;
      if |s| == 5 {
        RenderParsed(s);
        assert s == FormatTime(m);
      } else {
        RenderParsed("0" + s);
        assert ("0" + s)[1..] == s;
      }
    }
  }

  /** A padded pattern match is the rendering of the minute it reads as. */
  lemma RenderParsed(s: string)
    requires |s| == 5 && IsTimeString(s)
    ensures FormatTime(ParseTime(s).value) == s
  {
    var h, mm := s[..2], s[3..];
    TwoDigitValue(h);
    TwoDigitValue(mm);
    var m := ParseTime(s).value;
    assert m / MinutesPerHour == DecimalValue(h) && m % MinutesPerHour == DecimalValue(mm);
    DecimalOfDecimalValue(h);
    DecimalOfDecimalValue(mm);
    assert s == h + ":" + mm;
  }

  /** The unpadded `H:MM` spelling denotes the same minute as the padded `0H:MM` one,
      yet the two strings differ: exact string comparison tells them apart. */
  lemma UnpaddedSameMinute(s: string)
    requires |s| == 4 && IsTimeString(s)
    ensures IsTimeString("0" + s) && ParseTime("0" + s) == ParseTime(s) && "0" + s != s
  {
    var p := "0" + s;
    assert p[1..] == s && p[2..] == s[1..] && p[3..] == s[2..];
    TwoDigitValue(p[..2]);
  }

  /** One-character strings compare as their characters. */
  lemma SingleCharLess(c: char, d: char)
    ensures LexLess([c], [d]) <==> c < d
  {
    assert [c][1..] == [] && [d][1..] == [];
  }

  /** Numbers compare by their leading digits, then by their last digit. */
  lemma LastDigitOrder(a: nat, b: nat)
    ensures a < b <==> a / 10 < b / 10 || (a / 10 == b / 10 && a % 10 < b % 10)
  {
  }

  lemma DropDigit(n: nat, w: nat)
    requires 0 < w && n < Pow10(w)
    ensures n / 10 < Pow10(w - 1)
  {
  }

  /** Fixed-width decimals compare as strings the way their numbers compare. */
  lemma {:induction false} DecimalOrder(a: nat, b: nat, w: nat)
    requires a < Pow10(w) && b < Pow10(w)
    ensures LexLess(Decimal(a, w), Decimal(b, w)) <==> a < b
    decreases w
  {
    if w > 0 {
      DropDigit(a, w);
      DropDigit(b, w);
      var x, y := Decimal(a / 10, w - 1), Decimal(b / 10, w - 1);
      var c, d := DigitChar(a % 10), DigitChar(b % 10);
      assert Decimal(a, w) == x + [c] && Decimal(b, w) == y + [d];
      LexLessAppend(x, [c], y, [d]);
      DecimalOrder(a / 10, b / 10, w - 1);
      assert x == y <==> a / 10 == b / 10 by {
        DecimalValueOfDecimal(a / 10, w - 1);
        DecimalValueOfDecimal(b / 10, w - 1);
      }
      SingleCharLess(c, d);
      LastDigitOrder(a, b);
    } else {
      LexLessIrreflexive("");
    }
  }

  lemma FormatTimeParts(m: nat)
    requires m < MinutesPerDay
    ensures FormatTime(m) == Decimal(m / MinutesPerHour, 2) + (":" + Decimal(m % MinutesPerHour, 2))
  {
    TwoDigits(m / MinutesPerHour);
    TwoDigits(m % MinutesPerHour);
  }

  lemma MinuteOrder(a: nat, b: nat)
    ensures a < b <==>
      a / MinutesPerHour < b / MinutesPerHour
      || (a / MinutesPerHour == b / MinutesPerHour && a % MinutesPerHour < b % MinutesPerHour)
  {
  }

  /** Padded renderings sort as strings in chronological order, so a list of them that
      is ascending in time is ascending as text. */
  lemma FormatTimeOrder(a: nat, b: nat)
    requires a < MinutesPerDay && b < MinutesPerDay
    ensures LexLess(FormatTime(a), FormatTime(b)) <==> a < b
  {
    var ha, ma := Decimal(a / MinutesPerHour, 2), Decimal(a % MinutesPerHour, 2);
    var hb, mb := Decimal(b / MinutesPerHour, 2), Decimal(b % MinutesPerHour, 2);
    FormatTimeParts(a);
    FormatTimeParts(b);
    LexLessAppend(ha, ":" + ma, hb, ":" + mb);
    DecimalOrder(a / MinutesPerHour, b / MinutesPerHour, 2);
    DecimalOrder(a % MinutesPerHour, b % MinutesPerHour, 2);
    assert LexLess(":" + ma, ":" + mb) == LexLess(ma, mb) by {
      assert (":" + ma)[1..] == ma && (":" + mb)[1..] == mb;
    }
    assert ha == hb <==> a / MinutesPerHour == b / MinutesPerHour by {
      DecimalValueOfDecimal(a / MinutesPerHour, 2);
      DecimalValueOfDecimal(b / MinutesPerHour, 2);
    }
    MinuteOrder(a, b);
  }

  /** Unpadded times do not sort chronologically as text: "10:00" comes before
      "9:00". */
  lemma UnpaddedSortsOutOfOrder()
    ensures ParseTime("9:00") == Some(540) && ParseTime("10:00") == Some(600)
    ensures LexLess("10:00", "9:00")
  {
    assert "9:00"[2..] == "00";
    TwoDigitValue("00");
    assert "10:00"[..2] == "10" && "10:00"[3..] == "00";
    TwoDigitValue("10");
  }
}
