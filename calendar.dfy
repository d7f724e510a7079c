/**
 * The parts of java.time the ledger uses: LocalDate and LocalTime as values,
 * the proleptic Gregorian month lengths, chronological order, and the
 * ISO_LOCAL_DATE / ISO_LOCAL_TIME text forms in both directions.
 */
module Calendar {
  import opened Wrappers
  import opened Decimal

  datatype Date = Date(year: int, month: int, day: int)

  /** A time of day; `nano` is the nano-of-second, which `withNano(0)` clears. */
  datatype Time = Time(hour: int, minute: int, second: int, nano: int)

  /**
   * IsoChronology.isLeapYear. Java tests `(y & 3) == 0`, `y % 100 != 0` and
   * `y % 400 == 0`; each is a test against zero, where truncating and
   * Euclidean remainders agree, so negative years need no special case.
   */
  predicate IsLeapYear(year: int) {
    year % 4 == 0 && (year % 100 != 0 || year % 400 == 0)
  }

  /** LocalDate.lengthOfMonth. */
  function LengthOfMonth(year: int, month: int): (n: int)
    requires 1 <= month <= 12
    ensures 28 <= n <= 31
  {
    if month == 2 then (if IsLeapYear(year) then 29 else 28)
    else if month == 4 || month == 6 || month == 9 || month == 11 then 30
    else 31
  }

  /** The dates a LocalDate can hold (its year range aside). */
  predicate ValidDate(d: Date) {
    1 <= d.month <= 12 && 1 <= d.day <= LengthOfMonth(d.year, d.month)
  }

  predicate ValidTime(t: Time) {
    0 <= t.hour < 24 && 0 <= t.minute < 60 && 0 <= t.second < 60 && 0 <= t.nano < 1_000_000_000
  }

  /** LocalDate.isBefore: order by year, then month, then day. */
  predicate Before(a: Date, b: Date) {
    a.year < b.year || (a.year == b.year && (a.month < b.month || (a.month == b.month && a.day < b.day)))
  }

  /** `isEqual(b) || isBefore(b)`. */
  predicate OnOrBefore(a: Date, b: Date) {
    !Before(b, a)
  }

  /**
   * The day after a date, defined on its own so that the end of the
   * previous-month window can be checked against the first of this month.
   */
  function NextDay(d: Date): (r: Date)
    requires ValidDate(d)
    ensures ValidDate(r) && Before(d, r)
  {
    if d.day < LengthOfMonth(d.year, d.month) then Date(d.year, d.month, d.day + 1)
    else if d.month < 12 then Date(d.year, d.month + 1, 1)
    else Date(d.year + 1, 1, 1)
  }

  /** No valid date lies strictly between a date and the next one. */
  lemma NextDayIsSuccessor(d: Date, e: Date)
    requires ValidDate(d) && ValidDate(e)
    ensures Before(d, e) <==> OnOrBefore(NextDay(d), e)
  {
  }

  // ----- ISO_LOCAL_DATE: uuuu-MM-dd -----

  /** The ISO form of a date whose year needs no sign: four, two and two digits. */
  function FormatDate(d: Date): string
    requires ValidDate(d) && 0 <= d.year <= 9999
  {
    FixedDigits(d.year, 4) + "-" + FixedDigits(d.month, 2) + "-" + FixedDigits(d.day, 2)
  }

  /** LocalDate.parse with ISO_LOCAL_DATE (strict): fixed-width digits and a real calendar date. */
  function ParseDate(s: string): (r: Option<Date>)
    ensures r.Some? ==> ValidDate(r.value) && 0 <= r.value.year <= 9999
  {
    if |s| == 10 && s[4] == '-' && s[7] == '-'
       && AllDigits(s[..4]) && AllDigits(s[5..7]) && AllDigits(s[8..]) then
      assert Pow10(4) == 10000;
      var d := Date(ParseDigits(s[..4]), ParseDigits(s[5..7]), ParseDigits(s[8..]));
      if ValidDate(d) then Some(d) else None
    else
      None
  }

  /** How ParseDate reads a text already cut into its three digit fields. */
  lemma {:induction false} ParseDateFields(y: string, m: string, dd: string)
    requires |y| == 4 && |m| == 2 && |dd| == 2
    requires AllDigits(y) && AllDigits(m) && AllDigits(dd)
    ensures var d := Date(ParseDigits(y), ParseDigits(m), ParseDigits(dd));
            ParseDate(y + "-" + m + "-" + dd) == if ValidDate(d) then Some(d) else None
  {
    var s := y + "-" + m + "-" + dd;
    assert s[..4] == y && s[5..7] == m && s[8..] == dd;
    assert s[4] == '-' && s[7] == '-';
  }

  lemma ParseFormatDate(d: Date)
    requires ValidDate(d) && 0 <= d.year <= 9999
    ensures ParseDate(FormatDate(d)) == Some(d)
  {
    assert Pow10(4) == 10000 && Pow10(2) == 100;
    ParseFixedDigits(d.year, 4);
    ParseFixedDigits(d.month, 2);
    ParseFixedDigits(d.day, 2);
    ParseDateFields(FixedDigits(d.year, 4), FixedDigits(d.month, 2), FixedDigits(d.day, 2));
  }

  /** The parser accepts nothing but the text the formatter writes. */
  lemma {:induction false} FormatParseDate(s: string)
    requires ParseDate(s).Some?
    ensures FormatDate(ParseDate(s).value) == s
  {
    FixedDigitsOfParse(s[..4]);
    FixedDigitsOfParse(s[5..7]);
    FixedDigitsOfParse(s[8..]);
    assert s == s[..4] + "-" + s[5..7] + "-" + s[8..];
  }

  // ----- ISO_LOCAL_TIME: HH:mm[:ss[.fraction]] -----

  /** Drops the trailing '0' digits. */
  function StripTrailingZeros(s: string): (r: string)
    ensures |r| <= |s| && r == s[..|r|]
    ensures r == [] || r[|r| - 1] != '0'
    ensures forall k :: |r| <= k < |s| ==> s[k] == '0'
  {
    if s != [] && s[|s| - 1] == '0' then StripTrailingZeros(s[..|s| - 1]) else s
  }

  /** The fraction digits DateTimeFormatter prints: nine places, trailing zeros removed. */
  function FractionDigits(nano: nat): string {
    StripTrailingZeros(FixedDigits(nano, 9))
  }

  /** ISO_LOCAL_TIME formatting: seconds always, a fraction only when the nano-of-second is not zero. */
  function FormatTime(t: Time): string
    requires ValidTime(t)
  {
    FixedDigits(t.hour, 2) + ":" + FixedDigits(t.minute, 2) + ":" + FixedDigits(t.second, 2)
    + (if t.nano == 0 then "" else "." + FractionDigits(t.nano))
  }

  /** The nano-of-second a fraction of up to nine digits stands for. */
  function FractionValue(digits: string): (nano: nat)
    requires |digits| <= 9 && AllDigits(digits)
    ensures nano < 1_000_000_000
  {
    var v, scale := ParseDigits(digits), Pow10(9 - |digits|);
    ShiftedBelow(v, |digits|, 9);
    assert Pow10(9) == 1_000_000_000;
    v * scale
  }

  /**
   * What may follow "HH:mm": nothing, or ":ss" optionally followed by '.' and
   * zero to nine digits. Gives the second and the nano-of-second.
   */
  function ParseSeconds(rest: string): Option<(int, int)> {
    if rest == [] then Some((0, 0))
    else if |rest| < 3 || rest[0] != ':' || !AllDigits(rest[1..3]) then None
    else
      var second := ParseDigits(rest[1..3]);
      var frac := rest[3..];
      if frac == [] then Some((second, 0))
      else if frac[0] != '.' || |frac| > 10 || !AllDigits(frac[1..]) then None
      else Some((second, FractionValue(frac[1..])))
  }

  /** LocalTime.parse with ISO_LOCAL_TIME (strict). */
  function ParseTime(s: string): (r: Option<Time>)
    ensures r.Some? ==> ValidTime(r.value)
  {
    if |s| < 5 || s[2] != ':' || !AllDigits(s[..2]) || !AllDigits(s[3..5]) then None
    else
      match ParseSeconds(s[5..])
      case None => None
      case Some(sn) =>
        var t := Time(ParseDigits(s[..2]), ParseDigits(s[3..5]), sn.0, sn.1);
        if ValidTime(t) then Some(t) else None
  }

  /** Stripping trailing zeros divides the value by the matching power of ten. */
  lemma {:induction false} StripTrailingZerosValue(s: string)
    requires AllDigits(s)
    ensures ParseDigits(StripTrailingZeros(s)) * Pow10(|s| - |StripTrailingZeros(s)|) == ParseDigits(s)
    decreases |s|
  {
    if s != [] && s[|s| - 1] == '0' {
      var init := s[..|s| - 1];
      StripTrailingZerosValue(init);
      var r := StripTrailingZeros(init);
      assert StripTrailingZeros(s) == r;
      assert ParseDigits(s) == ParseDigits(init) * 10;
      ScaleByTen(ParseDigits(r), |init| - |r|);
    }
  }

  lemma {:induction false} ScaleByTen(p: nat, e: nat)
    ensures (p * Pow10(e)) * 10 == p * Pow10(e + 1)
  {
    assert Pow10(e + 1) == 10 * Pow10(e);
  }

  /** The printed fraction of a non-zero nano-of-second reads back as that nano-of-second. */
  lemma {:induction false} FractionRoundTrip(nano: nat)
    requires 0 < nano < 1_000_000_000
    ensures 1 <= |FractionDigits(nano)| <= 9 && AllDigits(FractionDigits(nano))
    ensures FractionValue(FractionDigits(nano)) == nano
  {
    var full := FixedDigits(nano, 9);
    var f := FractionDigits(nano);
    assert Pow10(9) == 1_000_000_000;
    ParseFixedDigits(nano, 9);
    StripTrailingZerosValue(full);
    assert forall k :: 0 <= k < |f| ==> f[k] == full[k];
  }

  lemma ParseFormatTime(t: Time)
    requires ValidTime(t)
    ensures ParseTime(FormatTime(t)) == Some(t)
  {
    var s := FormatTime(t);
    FormattedTimeFields(t);
    SecondsRoundTrip(t);
    assert Pow10(2) == 100;
    ParseFixedDigits(t.hour, 2);
    ParseFixedDigits(t.minute, 2);
  }

  /** Where the hour, the minute and the rest sit in a formatted time. */
  lemma FormattedTimeFields(t: Time)
    requires ValidTime(t)
    ensures var s := FormatTime(t);
            |s| >= 5 && s[2] == ':' && s[..2] == FixedDigits(t.hour, 2) && s[3..5] == FixedDigits(t.minute, 2)
            && s[5..] == ":" + FixedDigits(t.second, 2) + (if t.nano == 0 then "" else "." + FractionDigits(t.nano))
  {
    var hh, mm, ss := FixedDigits(t.hour, 2), FixedDigits(t.minute, 2), FixedDigits(t.second, 2);
    var tail := if t.nano == 0 then "" else "." + FractionDigits(t.nano);
    var s := FormatTime(t);
    assert s == hh + ":" + mm + ":" + ss + tail;
    assert s[..2] == hh && s[3..5] == mm;
  }

  /** The seconds and the fraction as formatted read back as the second and the nano-of-second. */
  lemma SecondsRoundTrip(t: Time)
    requires ValidTime(t)
    ensures ParseSeconds(":" + FixedDigits(t.second, 2) + (if t.nano == 0 then "" else "." + FractionDigits(t.nano)))
         == Some((t.second, t.nano))
  {
    var ss := FixedDigits(t.second, 2);
    var tail := if t.nano == 0 then "" else "." + FractionDigits(t.nano);
    var rest := ":" + ss + tail;
    assert rest[1..3] == ss && rest[3..] == tail;
    assert Pow10(2) == 100;
    ParseFixedDigits(t.second, 2);
    if t.nano != 0 {
      FractionRoundTrip(t.nano);
      assert tail[1..] == FractionDigits(t.nano);
    }
  }
}
