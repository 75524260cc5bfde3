/** The ISO week shard key: naming a week database and reading its week back from the name. */
module Calendar {
  import opened Prelude
  import opened Weeks

  // ---------------------------------------------------------------- days since the epoch

  /** Day number of January 1 in the proleptic Gregorian calendar. */
  function YearStart(y: int): int { 365 * (y - 1) + (y - 1) / 4 - (y - 1) / 100 + (y - 1) / 400 - 719162 }

  lemma NextQuotients(n: int)
    ensures (n + 1) / 4 == n / 4 + if (n + 1) % 4 == 0 then 1 else 0
    ensures (n + 1) / 100 == n / 100 + if (n + 1) % 100 == 0 then 1 else 0
  {
  }

  lemma NextCentury(n: int)
    ensures (n + 1) / 400 == n / 400 + if (n + 1) % 400 == 0 then 1 else 0
  {
  }

  lemma LeapYearsNest(y: int)
    ensures y % 400 == 0 ==> y % 100 == 0
    ensures y % 100 == 0 ==> y % 4 == 0
  {
  }

  lemma YearLength(y: int)
    ensures 365 <= YearStart(y + 1) - YearStart(y) <= 366
  {
    NextQuotients(y - 1);
    NextCentury(y - 1);
    LeapYearsNest(y);
  }

  function YearFrom(d: int, y: int): (r: int)
    requires YearStart(y) <= d
    ensures y <= r && YearStart(r) <= d < YearStart(r + 1)
    decreases d - YearStart(y)
  {
    YearLength(y);
    if d < YearStart(y + 1) then y else YearFrom(d, y + 1)
  }

  const MIN_YEAR: int := -9999
  const MAX_YEAR: int := 9999

  predicate InCalendar(d: int) { YearStart(MIN_YEAR) <= d < YearStart(MAX_YEAR + 1) }

  function YearOf(d: int): (y: int)
    requires InCalendar(d)
    ensures YearStart(y) <= d < YearStart(y + 1)
  {
    YearFrom(d, MIN_YEAR)
  }

  lemma {:induction false} YearStartRises(a: int, b: int)
    requires a <= b
    ensures YearStart(a) + 365 * (b - a) <= YearStart(b)
    decreases b - a
  {
    if a < b {
      YearLength(a);
      YearStartRises(a + 1, b);
    }
  }

  lemma YearIsUnique(d: int, a: int, b: int)
    requires YearStart(a) <= d < YearStart(a + 1) && YearStart(b) <= d < YearStart(b + 1)
    ensures a == b
  {
    if a < b { YearStartRises(a + 1, b); }
    if b < a { YearStartRises(b + 1, a); }
  }

  function MondayOf(d: int): int { d - (d + 3) % 7 }

  /** The day that decides a week's year and number (section 2.2.10 of ISO 8601:2004). */
  function ThursdayOf(d: int): int { MondayOf(d) + 3 }

  /** `Date::iso_week`: the number of the week's Thursday within its own year. */
  function IsoWeek(d: int): int
    requires InCalendar(ThursdayOf(d))
  {
    (ThursdayOf(d) - YearStart(YearOf(ThursdayOf(d)))) / 7 + 1
  }

  /** The source's year correction, from the month of the date and its week number. */
  function NameYear(d: int): int
    requires InCalendar(d) && InCalendar(ThursdayOf(d))
  {
    CorrectedYear(d, YearOf(d), IsoWeek(d))
  }

  function CorrectedYear(d: int, y: int, week: int): int {
    if d >= YearStart(y + 1) - 31 && week == 1 then y + 1
    else if d < YearStart(y) + 31 && (week == 52 || week == 53) then y - 1
    else y
  }

  /** Monday of week 1: the week that holds January 4. */
  function FirstMonday(y: int): int { MondayOf(YearStart(y) + 3) }

  /** A year has 53 weeks exactly when it has 53 Thursdays. */
  function WeeksInYear(y: int): int { if FirstMonday(y) + 3 + 7 * 52 < YearStart(y + 1) then 53 else 52 }

  /** `Date::from_iso_week_date` for a Monday. */
  function MondayOfIsoWeek(y: int, w: int): Option<int> {
    if MIN_YEAR <= y <= MAX_YEAR && 1 <= w <= WeeksInYear(y) && InCalendar(FirstMonday(y) + 7 * (w - 1))
    then Some(FirstMonday(y) + 7 * (w - 1)) else None
  }

  /** Year -9999 starts on a Monday and year 9999 ends on a Friday: no supported week leaves the calendar. */
  lemma WeekStaysInCalendar(d: int)
    requires InCalendar(d)
    ensures InCalendar(MondayOf(d)) && InCalendar(ThursdayOf(d))
  {
    assert YearStart(MIN_YEAR) == -4371587 && YearStart(MAX_YEAR + 1) == 2932897;
  }

  lemma CorrectedIsThursdaysYear(d: int, y: int, t: int, ty: int)
    requires YearStart(y) <= d < YearStart(y + 1) && YearStart(ty) <= t < YearStart(ty + 1) && t - 3 <= d <= t + 3
    ensures CorrectedYear(d, y, (t - YearStart(ty)) / 7 + 1) == ty
  {
    YearLength(y - 1);
    YearLength(y);
    YearLength(y + 1);
    if t < YearStart(y) {
      YearIsUnique(t, ty, y - 1);
    } else if t < YearStart(y + 1) {
      YearIsUnique(t, ty, y);
    } else {
      YearIsUnique(t, ty, y + 1);
    }
  }

  /** The December and January corrections pick the year of the week's Thursday. */
  lemma NameYearIsThursdaysYear(d: int)
    requires InCalendar(d) && InCalendar(ThursdayOf(d))
    ensures NameYear(d) == YearOf(ThursdayOf(d))
  {
    var t := ThursdayOf(d);
    assert t - 3 <= d <= t + 3;
    CorrectedIsThursdaysYear(d, YearOf(d), t, YearOf(t));
  }

  /** Thursdays of a year counted from its first day or from the week of its fourth day agree. */
  lemma ThursdayCount(a: int, t: int)
    requires a <= t && t == ThursdayOf(t)
    ensures t == MondayOf(a + 3) + 3 + 7 * ((t - a) / 7)
  {
    var first := MondayOf(a + 3) + 3;
    assert a <= first <= a + 6;
    var q, p := (t + 3) / 7, (a + 6) / 7;
    assert t == 7 * q && first == 7 * p;
    assert t - a == 7 * (q - p) + (first - a);
  }

  lemma ThursdayIsItsOwn(d: int)
    ensures ThursdayOf(ThursdayOf(d)) == ThursdayOf(d) && MondayOf(d) == ThursdayOf(d) - 3
  {
    var q := (d + 3) / 7;
    assert ThursdayOf(d) == 7 * q;
  }

  lemma YearInRange(d: int)
    requires InCalendar(d)
    ensures MIN_YEAR <= YearOf(d) <= MAX_YEAR
  {
    var y := YearOf(d);
    if MAX_YEAR < y { YearStartRises(MAX_YEAR + 1, y); }
  }

  lemma WeekOfThursday(y: int, t: int)
    requires MIN_YEAR <= y <= MAX_YEAR && YearStart(y) <= t < YearStart(y + 1)
    requires t == ThursdayOf(t) && InCalendar(t - 3)
    ensures MondayOfIsoWeek(y, (t - YearStart(y)) / 7 + 1) == Some(t - 3)
  {
    ThursdayCount(YearStart(y), t);
    YearLength(y);
  }

  /** Counting weeks from January 4 inverts counting Thursdays (section 4.1.4 of ISO 8601:2004). */
  lemma IsoWeekRoundTrip(d: int)
    requires InCalendar(d)
    ensures InCalendar(ThursdayOf(d))
    ensures MondayOfIsoWeek(NameYear(d), IsoWeek(d)) == Some(MondayOf(d))
  {
    WeekStaysInCalendar(d);
    NameYearIsThursdaysYear(d);
    ThursdayIsItsOwn(d);
    YearInRange(ThursdayOf(d));
    WeekOfThursday(YearOf(ThursdayOf(d)), ThursdayOf(d));
  }

  // ---------------------------------------------------------------- file names

  predicate IsDigit(c: char) { '0' <= c <= '9' }

  function DigitChar(n: int): (c: char)
    requires 0 <= n < 10
    ensures IsDigit(c)
  {
    (('0' as int) + n) as char
  }

  function Digits(n: nat): (s: string)
    ensures s != [] && forall i :: 0 <= i < |s| ==> IsDigit(s[i])
  {
    if n < 10 then [DigitChar(n)] else Digits(n / 10) + [DigitChar(n % 10)]
  }

  function ParseDigits(s: string): Option<nat>
    decreases |s|
  {
    if s == [] || !IsDigit(s[|s| - 1]) then None
    else
      var last := (s[|s| - 1] as int) - ('0' as int);
      if |s| == 1 then Some(last)
      else
        match ParseDigits(s[..|s| - 1])
        case None => None
        case Some(n) => Some(n * 10 + last)
  }

  lemma {:induction false} ParseInvertsDigits(n: nat)
    ensures ParseDigits(Digits(n)) == Some(n)
  {
    if n >= 10 {
      ParseInvertsDigits(n / 10);
      assert Digits(n)[..|Digits(n)| - 1] == Digits(n / 10);
    }
  }

  /** A signed number as the formatter prints it. */
  function Decimal(n: int): string { if n < 0 then "-" + Digits(-n) else Digits(n) }

  /** `{:02}` for a week number. */
  function TwoDigits(n: nat): string { if n < 10 then "0" + Digits(n) else Digits(n) }

  /** An optional sign and at least one digit, within the width of the target type. */
  function ParseNumber(s: string, lo: int, hi: int): Option<int> {
    var negative := lo < 0 && s != [] && s[0] == '-';
    var body := if negative || (s != [] && s[0] == '+') then s[1..] else s;
    match ParseDigits(body)
    case None => None
    case Some(n) =>
      var v: int := if negative then 0 - n else n;
      if lo <= v <= hi then Some(v) else None
  }

  function ParseYear(s: string): Option<int> { ParseNumber(s, -0x8000_0000, 0x7fff_ffff) }

  function ParseWeek(s: string): Option<int> { ParseNumber(s, 0, 255) }

  /** `split_once("_w")`: the text on both sides of the first separator. */
  function SplitOnce(s: string): Option<(string, string)> {
    if |s| < 2 then None
    else if s[0] == '_' && s[1] == 'w' then Some(("", s[2..]))
    else
      match SplitOnce(s[1..])
      case None => None
      case Some(parts) => Some(([s[0]] + parts.0, parts.1))
  }

  lemma {:induction false} SplitAtSeparator(a: string, b: string)
    requires forall i :: 0 <= i < |a| ==> a[i] != '_'
    ensures SplitOnce(a + "_w" + b) == Some((a, b))
  {
    var s := a + "_w" + b;
    if a == "" {
      assert s[2..] == b;
    } else {
      assert s[1..] == a[1..] + "_w" + b;
      SplitAtSeparator(a[1..], b);
      assert [a[0]] + a[1..] == a;
    }
  }

  function StripSuffix(s: string): Option<string> {
    if |s| >= 3 && s[|s| - 3..] == ".db" then Some(s[..|s| - 3]) else None
  }

  function WeekFileName(year: int, week: nat): string { Decimal(year) + "_w" + TwoDigits(week) + ".db" }

  /** `week_database_name`: none for an instant outside the calendar. */
  function WeekDatabaseName(ts: int): Option<string> {
    var d := DayOf(ts);
    if !InCalendar(d) then None
    else
      WeekStaysInCalendar(d);
      IsoWeekIsNatural(d);
      Some(WeekFileName(NameYear(d), IsoWeek(d)))
  }

  /** `database_week_start_ms`. */
  function DatabaseWeekStartMs(name: string): Option<int> {
    match StripSuffix(name)
    case None => None
    case Some(stem) =>
      match SplitOnce(stem)
      case None => None
      case Some(parts) =>
        var year, week := ParseYear(parts.0), ParseWeek(parts.1);
        if year.None? || week.None? then None
        else
          match MondayOfIsoWeek(year.value, week.value)
          case None => None
          case Some(d) => Some(d * 86400 * 1000)
  }

  lemma IsoWeekIsNatural(d: int)
    requires InCalendar(ThursdayOf(d))
    ensures 1 <= IsoWeek(d) <= 53
  {
    YearLength(YearOf(ThursdayOf(d)));
  }

  lemma DecimalHasNoSeparator(y: int)
    ensures forall i :: 0 <= i < |Decimal(y)| ==> Decimal(y)[i] != '_'
  {
  }

  lemma ParsesYear(y: int)
    requires -10000 <= y <= 10000
    ensures ParseYear(Decimal(y)) == Some(y)
  {
    ParseInvertsDigits(if y < 0 then -y else y);
    if y < 0 {
      assert Decimal(y)[1..] == Digits(-y);
    } else {
      assert IsDigit(Decimal(y)[0]);
    }
  }

  lemma ParsesWeek(w: nat)
    requires w <= 53
    ensures ParseWeek(TwoDigits(w)) == Some(w)
  {
    ParseInvertsDigits(w);
    assert IsDigit(TwoDigits(w)[0]);
    if w < 10 {
      assert TwoDigits(w)[..1] == "0" && ParseDigits("0") == Some(0);
    }
  }

  lemma FileNameParses(year: int, week: nat)
    requires -10000 <= year <= 10000 && week <= 53
    ensures DatabaseWeekStartMs(WeekFileName(year, week)) ==
      match MondayOfIsoWeek(year, week) case None => None case Some(d) => Some(d * 86400 * 1000)
  {
    var stem := Decimal(year) + "_w" + TwoDigits(week);
    assert WeekFileName(year, week)[|stem|..] == ".db" && WeekFileName(year, week)[..|stem|] == stem;
    DecimalHasNoSeparator(year);
    ParsesYear(year);
    ParsesWeek(week);
    SplitAtSeparator(Decimal(year), TwoDigits(week));
  }

  /** The Thursday of a week counted from the first Monday lies in that year, as long as the year has such a week. */
  lemma CountedThursday(y: int, w: int)
    requires 1 <= w <= WeeksInYear(y)
    ensures YearStart(y) <= FirstMonday(y) + 7 * (w - 1) + 3 < YearStart(y + 1)
    ensures (FirstMonday(y) + 7 * (w - 1) + 3 - YearStart(y)) / 7 + 1 == w
  {
    YearLength(y);
    var first := FirstMonday(y) + 3;
    assert YearStart(y) <= first <= YearStart(y) + 6;
  }

  lemma MondayWeeksOn(d: int, k: int)
    ensures MondayOf(MondayOf(d) + 7 * k) == MondayOf(d) + 7 * k
  {
    var q := (d + 3) / 7;
    assert MondayOf(d) + 3 == 7 * q;
    assert MondayOf(d) + 7 * k + 3 == 7 * (q + k);
  }

  lemma FirstMondayIsMonday(y: int, k: int)
    ensures MondayOf(FirstMonday(y) + 7 * k) == FirstMonday(y) + 7 * k
  {
    MondayWeeksOn(YearStart(y) + 3, k);
  }

  lemma ParsedThursday(y: int, w: int, d: int)
    requires MondayOfIsoWeek(y, w) == Some(d)
    ensures InCalendar(d) && MondayOf(d) == d && ThursdayOf(d) == d + 3
    ensures YearStart(y) <= d + 3 < YearStart(y + 1) && (d + 3 - YearStart(y)) / 7 + 1 == w
  {
    FirstMondayIsMonday(y, w - 1);
    CountedThursday(y, w);
  }

  /** Only weeks that exist are parsed: naming the day that was read gives the year and week back. */
  lemma ParsedWeekExists(y: int, w: int, d: int)
    requires MondayOfIsoWeek(y, w) == Some(d)
    ensures InCalendar(d) && InCalendar(ThursdayOf(d)) && MondayOf(d) == d && NameYear(d) == y && IsoWeek(d) == w
  {
    ParsedThursday(y, w, d);
    WeekStaysInCalendar(d);
    YearIsUnique(d + 3, YearOf(d + 3), y);
    NameYearIsThursdaysYear(d);
  }

  predicate AllDigits(s: string) { forall i :: 0 <= i < |s| ==> IsDigit(s[i]) }

  /** The shortest decimal: no sign, and no zero in front. */
  predicate IsPlainNumber(s: string) { s != [] && AllDigits(s) && s[0] != '0' }

  lemma {:induction false} DigitsArePlain(n: nat)
    requires 0 < n
    ensures IsPlainNumber(Digits(n))
    ensures n < 10 ==> |Digits(n)| == 1
    ensures 10 <= n < 100 ==> |Digits(n)| == 2
  {
    if 10 <= n {
      DigitsArePlain(n / 10);
      assert Digits(n)[0] == Digits(n / 10)[0];
    }
  }

  /** A week's file name: the year in its shortest form, a minus in front when negative, then `_w`, the week in
      exactly two digits, and `.db`. */
  ghost predicate IsWeekName(name: string, year: int) {
    exists y, w ::
      && name == y + "_w" + w + ".db" && |w| == 2 && AllDigits(w)
      && if year < 0 then |y| > 1 && y[0] == '-' && IsPlainNumber(y[1..])
         else if year == 0 then y == "0" else IsPlainNumber(y)
  }

  lemma TwoDigitsAreTwo(w: nat)
    requires 1 <= w <= 53
    ensures |TwoDigits(w)| == 2 && AllDigits(TwoDigits(w))
  {
    DigitsArePlain(w);
  }

  lemma WeekNameShape(year: int, week: nat)
    requires 1 <= week <= 53
    ensures IsWeekName(WeekFileName(year, week), year)
  {
    var y, w := Decimal(year), TwoDigits(week);
    TwoDigitsAreTwo(week);
    if year < 0 {
      DigitsArePlain(-year);
      assert y[1..] == Digits(-year);
    } else if year > 0 {
      DigitsArePlain(year);
    }
    assert WeekFileName(year, week) == y + "_w" + w + ".db";
  }

  /** Every week the calendar can name has a name of that shape, with the year of its Thursday. */
  lemma WeekNameIsShaped(ts: int)
    requires Supported(ts)
    ensures InCalendar(ThursdayOf(DayOf(ts))) && WeekDatabaseName(ts).Some?
    ensures IsWeekName(WeekDatabaseName(ts).value, YearOf(ThursdayOf(DayOf(ts))))
  {
    var d := DayOf(ts);
    CalendarIsSupported(ts);
    WeekStaysInCalendar(d);
    NameYearIsThursdaysYear(d);
    IsoWeekIsNatural(d);
    WeekNameShape(NameYear(d), IsoWeek(d));
  }

  function DayOf(ts: int): int { (ts / 1000) / 86400 }

  lemma DayBounds(ts: int)
    ensures DayOf(ts) * DAY_MS <= ts < (DayOf(ts) + 1) * DAY_MS
  {
  }

  lemma CalendarIsSupported(ts: int)
    ensures InCalendar(DayOf(ts)) <==> Supported(ts)
  {
    DayBounds(ts);
    assert YearStart(MIN_YEAR) == -4371587 && YearStart(MAX_YEAR + 1) == 2932897;
  }

  lemma MondayStart(d: int)
    ensures IsMonday(MondayOf(d) * DAY_MS) && MondayOf(d) <= d < MondayOf(d) + 7
  {
    var q := (d + 3) / 7;
    assert MondayOf(d) == 7 * q - 3;
    assert MondayOf(d) * DAY_MS + 3 * DAY_MS == q * WEEK_MS;
  }

  lemma MondayOfInstant(ts: int)
    ensures MondayOf(DayOf(ts)) * 86400 * 1000 == MondayFloor(ts)
  {
    DayBounds(ts);
    MondayStart(DayOf(ts));
    MondayFloorIsOnlyMonday(ts, MondayOf(DayOf(ts)) * DAY_MS);
  }

  /** Reading the week back from its file name gives the Monday midnight the instant belongs to. */
  lemma WeekKeyRoundTrip(ts: int)
    ensures WeekDatabaseName(ts).Some? <==> Supported(ts)
    ensures Supported(ts) ==> DatabaseWeekStartMs(WeekDatabaseName(ts).value) == Some(MondayFloor(ts))
    ensures Supported(ts) ==> IsMonday(MondayFloor(ts)) && MondayFloor(ts) <= ts < MondayFloor(ts) + WEEK_MS
  {
    CalendarIsSupported(ts);
    MondayOfInstant(ts);
    MondayFloorIsOnlyMonday(ts, ts);
    if Supported(ts) {
      var d := DayOf(ts);
      IsoWeekRoundTrip(d);
      IsoWeekIsNatural(d);
      NameYearIsThursdaysYear(d);
      YearInRange(ThursdayOf(d));
      FileNameParses(NameYear(d), IsoWeek(d));
    }
  }

  /** One file per week: two instants share a name exactly when they share a Monday. */
  lemma WeekNamesAreInjective(a: int, b: int)
    requires Supported(a) && Supported(b)
    ensures WeekDatabaseName(a) == WeekDatabaseName(b) <==> MondayFloor(a) == MondayFloor(b)
  {
    WeekKeyRoundTrip(a);
    WeekKeyRoundTrip(b);
    if MondayFloor(a) == MondayFloor(b) {
      SameMondaySameName(a, b);
    }
  }

  lemma SameWeekSameKey(x: int, y: int)
    requires InCalendar(x) && InCalendar(y) && MondayOf(x) == MondayOf(y)
    ensures InCalendar(ThursdayOf(x)) && InCalendar(ThursdayOf(y))
    ensures NameYear(x) == NameYear(y) && IsoWeek(x) == IsoWeek(y)
  {
    WeekStaysInCalendar(x);
    NameYearIsThursdaysYear(x);
    NameYearIsThursdaysYear(y);
  }

  lemma SameMondaySameName(a: int, b: int)
    requires Supported(a) && Supported(b) && MondayFloor(a) == MondayFloor(b)
    ensures WeekDatabaseName(a) == WeekDatabaseName(b)
  {
    CalendarIsSupported(a);
    CalendarIsSupported(b);
    MondayOfInstant(a);
    MondayOfInstant(b);
    SameWeekSameKey(DayOf(a), DayOf(b));
  }
}
