/** Domain age: whole days elapsed since the WHOIS creation date, and the
    fixed 365-day-year / 30-day-month breakdown that is displayed. */
module DomainAge {
  import Text
  import opened Wrappers

  /** Milliseconds in a day: 1000 * 3600 * 24. */
  const DayMillis: int := 86400000

  /** `Math.floor((now - creation) / (1000 * 3600 * 24))` on millisecond
      timestamps. */
  function AgeInDays(nowMillis: int, creationMillis: int): (days: int)
    ensures days * DayMillis <= nowMillis - creationMillis < (days + 1) * DayMillis
  {
    (nowMillis - creationMillis) / DayMillis
  }

  /** JavaScript's `a % b` for a positive divisor: the remainder takes the
      sign of the dividend. */
  function JsRem(a: int, b: int): (r: int)
    requires b > 0
    ensures a >= 0 ==> 0 <= r < b && r == a % b
    ensures a < 0 ==> -b < r <= 0 && -r == (-a) % b
  {
    if a >= 0 then a % b else -((-a) % b)
  }

  datatype Age = Age(years: int, months: int, days: int)

  /** `formatDomainAge` before its result is turned into text:
      years = floor(a / 365), months = floor((a % 365) / 30) and
      days = a % 30, with JavaScript's `%`. The days are the remainder of
      the whole age modulo 30, not what is left after years and months.
      A negative age (a creation date after `now`) gives non-positive
      months and days. */
  function FormatDomainAge(ageInDays: int): (r: Age)
    ensures 365 * r.years <= ageInDays < 365 * r.years + 365
    ensures 30 * r.months <= JsRem(ageInDays, 365) < 30 * r.months + 30
    ensures (ageInDays - r.days) % 30 == 0
    ensures ageInDays >= 0 ==>
      && 0 <= r.months <= 12
      && 30 * r.months <= ageInDays - 365 * r.years < 30 * r.months + 30
      && 0 <= r.days < 30
    ensures ageInDays < 0 ==> -13 <= r.months <= 0 && -30 < r.days <= 0
  {
    var years := ageInDays / 365;
    var rest := JsRem(ageInDays, 365);
    var days := JsRem(ageInDays, 30);
    if ageInDays >= 0 then
      NonNegativeBreakdown(ageInDays);
      Age(years, rest / 30, days)
    else
      NegativeBreakdown(ageInDays);
      Age(years, rest / 30, days)
  }

  lemma NonNegativeBreakdown(a: int)
    requires a >= 0
    ensures a - 365 * (a / 365) == a % 365
    ensures 0 <= (a % 365) / 30 <= 12
    ensures 30 * ((a % 365) / 30) <= a % 365 < 30 * ((a % 365) / 30) + 30
    ensures (a - a % 30) % 30 == 0
  {
    var q := a / 30;
    assert a - a % 30 == 30 * q;
    assert (30 * q) % 30 == 0;
  }

  lemma NegativeBreakdown(a: int)
    requires a < 0
    ensures -13 <= JsRem(a, 365) / 30 <= 0
    ensures 30 * (JsRem(a, 365) / 30) <= JsRem(a, 365) < 30 * (JsRem(a, 365) / 30) + 30
    ensures (a - JsRem(a, 30)) % 30 == 0
  {
    var q := (-a) / 30;
    assert a - JsRem(a, 30) == 30 * (-q);
    assert (30 * (-q)) % 30 == 0;
  }

  /** A creation date one day in the future shows as -1 in every part. */
  lemma OneDayAhead()
    ensures FormatDomainAge(-1) == Age(-1, -1, -1)
  {
  }

  /** The template `${years} Years ${months} Months ${days} Days`. */
  function AgeText(a: Age): (t: string)
    ensures ParseAgeText(t) == Some(a)
  {
    var y, m, d := Text.IntToDecimal(a.years), Text.IntToDecimal(a.months), Text.IntToDecimal(a.days);
    var t := y + " Years " + m + " Months " + d + " Days";
    var afterYears := m + " Months " + d + " Days";
    var afterMonths := d + " Days";
    assert t == y + " Years " + afterYears;
    assert afterYears == m + " Months " + afterMonths;
    assert afterMonths == d + " Days" + "";
    Text.ReadTaggedRoundTrip(a.years, " Years ", afterYears);
    Text.ReadTaggedRoundTrip(a.months, " Months ", afterMonths);
    Text.ReadTaggedRoundTrip(a.days, " Days", "");
    t
  }

  /** Reads an age text back: three numerals tagged " Years ", " Months "
      and " Days", with nothing after the last tag. */
  function ParseAgeText(t: string): Option<Age> {
    match Text.ReadTagged(t, " Years ")
    case None => None
    case Some((years, afterYears)) =>
      match Text.ReadTagged(afterYears, " Months ")
      case None => None
      case Some((months, afterMonths)) =>
        match Text.ReadTagged(afterMonths, " Days")
        case None => None
        case Some((days, rest)) => if rest == "" then Some(Age(years, months, days)) else None
  }

  /** Only the text the template writes reads back: a zero-padded number
      does not. */
  lemma PaddedAgeTextRejected()
    ensures ParseAgeText("01 Years 0 Months 0 Days") == None
  {
    assert Text.NumeralRun("01 Years 0 Months 0 Days") == 2;
    assert "01 Years 0 Months 0 Days"[..2] == "01";
    assert !Text.IsCanonicalNumeral("01");
    assert Text.ReadTagged("01 Years 0 Months 0 Days", " Years ") == None;
  }

  /** What an unparsable creation date renders as: every part is `NaN`. */
  const NaNAgeText: string := "NaN Years NaN Months NaN Days"

  /** The `domain_age` string stored in the result record. `None` stands for
      a creation date that `new Date(...)` cannot parse. A parsed date's
      text reads back as the breakdown of the whole days since it. */
  function DomainAgeText(creationMillis: Option<int>, nowMillis: int): (t: string)
    ensures creationMillis.None? <==> t == NaNAgeText
    ensures creationMillis.None? ==> ParseAgeText(t) == None
    ensures creationMillis.Some? ==>
      ParseAgeText(t) == Some(FormatDomainAge(AgeInDays(nowMillis, creationMillis.value)))
  {
    match creationMillis
    case None =>
      assert Text.NumeralRun(NaNAgeText) == 0;
      NaNAgeText
    case Some(c) =>
      var t := AgeText(FormatDomainAge(AgeInDays(nowMillis, c)));
      assert t[0] != NaNAgeText[0] by {
        assert Text.ReadTagged(t, " Years ").Some?;
        assert Text.NumeralRun(t) > 0;
      }
      t
  }

  /** 400 days display as 1 year, 1 month and 10 days: the days are
      400 mod 30, not the 5 days left over after a year and a month. */
  lemma FourHundredDays()
    ensures FormatDomainAge(400) == Age(1, 1, 10)
    ensures FormatDomainAge(400).days != 400 - 365 - 30
  {
  }

  /** The displayed days equal the days left over after the years and
      months exactly when the year count is a multiple of 6: each 365-day
      year shifts `ageInDays % 30` by 5. */
  lemma DaysMatchLeftoverIff(ageInDays: int)
    requires ageInDays >= 0
    ensures var r := FormatDomainAge(ageInDays);
      r.days == ageInDays - 365 * r.years - 30 * r.months <==> r.years % 6 == 0
  {
    var r := FormatDomainAge(ageInDays);
    var y, m := r.years, r.months;
    var left := ageInDays - 365 * y - 30 * m;
    assert 0 <= left < 30;
    assert ageInDays == 30 * (12 * y + m) + (5 * y + left);
    ShiftMod30(ageInDays, 12 * y + m, 5 * y + left);
    assert r.days == (5 * y + left) % 30;
    var k := (5 * y) / 30;
    assert 5 * y == 30 * k + (5 * y) % 30;
    ShiftMod30(5 * y + left, k, (5 * y) % 30 + left);
    FiveYearsMod30(y);
  }

  /** 5·y modulo 30 depends only on y modulo 6. */
  lemma FiveYearsMod30(y: int)
    ensures (5 * y) % 30 == 5 * (y % 6)
  {
    assert y == 6 * (y / 6) + y % 6;
    assert 5 * y == 30 * (y / 6) + 5 * (y % 6);
    ShiftMod30(5 * y, y / 6, 5 * (y % 6));
  }

  /** Each further 365-day year moves the displayed day count on by 5
      modulo 30. */
  lemma YearShiftsDays(ageInDays: int)
    requires ageInDays >= 0
    ensures FormatDomainAge(ageInDays + 365).days == (FormatDomainAge(ageInDays).days + 5) % 30
  {
    var a := ageInDays;
    ShiftMod30(a + 365, 12, a + 5);
    ShiftMod30(a + 5, a / 30, a % 30 + 5);
  }

  lemma ShiftMod30(a: int, q: int, b: int)
    requires a == 30 * q + b
    ensures a % 30 == b % 30
  {
  }

  /** The month count reaches 12, at 360 days for instance. */
  lemma TwelveMonthsReachable()
    ensures FormatDomainAge(360) == Age(0, 12, 0)
  {
  }

  /** The displayed day count depends only on the age modulo 30. */
  lemma {:induction false} DaysPeriodic(ageInDays: int)
    requires ageInDays >= 0
    ensures FormatDomainAge(ageInDays + 30).days == FormatDomainAge(ageInDays).days
  {
    var a := ageInDays;
    assert (a + 30) % 30 == a % 30;
  }

  /** A domain created exactly `k` whole days before `now` (plus less than a
      day) is `k` days old. */
  lemma AgeOfWholeDays(nowMillis: int, k: int, extra: int)
    requires 0 <= extra < DayMillis
    ensures AgeInDays(nowMillis, nowMillis - k * DayMillis - extra) == k
  {
    var d := AgeInDays(nowMillis, nowMillis - k * DayMillis - extra);
    assert d * DayMillis <= k * DayMillis + extra < (d + 1) * DayMillis;
    assert k * DayMillis <= k * DayMillis + extra < (k + 1) * DayMillis;
  }
}
