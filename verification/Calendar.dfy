/** The date arithmetic of `utc_string`, against the Gregorian rules (RFC 3339, section 5.7 and Appendix C). */
module Calendar {

  datatype Date = Date(y: int, m: int, d: int)
  datatype Instant = Instant(date: Date, hour: int, minute: int, second: int)

  // ----- the program -----

  /** Years since the first of March that starts a 400-year era, from the day of the era. */
  function YearOfEra(doe: int): int {
    (doe - doe / 1460 + doe / 36524 - doe / 146096) / 365
  }

  /** Days of the era before its year `yoe`. */
  function DaysBefore(yoe: int): int {
    365 * yoe + yoe / 4 - yoe / 100
  }

  function CivilFromDays(days: int): Date {
    var z := days + 719468;
    var era := z / 146097;
    var doe := z - era * 146097;
    var yoe := YearOfEra(doe);
    var doy := doe - DaysBefore(yoe);
    var mp := (5 * doy + 2) / 153;
    var d := doy - (153 * mp + 2) / 5 + 1;
    var m := if mp < 10 then mp + 3 else mp - 9;
    var y := yoe + era * 400;
    Date(if m <= 2 then y + 1 else y, m, d)
  }

  /** `utc_string` up to the formatting; an instant before the epoch counts as the epoch. */
  function Utc(sinceEpoch: int): Instant {
    var secs := if sinceEpoch < 0 then 0 else sinceEpoch;
    var sod := secs % 86400;
    Instant(CivilFromDays(secs / 86400), sod / 3600, sod / 60 % 60, sod % 60)
  }

  // ----- the calendar -----

  predicate IsLeap(y: int) {
    y % 4 == 0 && (y % 100 != 0 || y % 400 == 0)
  }

  function DaysInMonth(y: int, m: int): int {
    if m == 2 then (if IsLeap(y) then 29 else 28)
    else if m == 4 || m == 6 || m == 9 || m == 11 then 30
    else 31
  }

  predicate Valid(t: Date) {
    1 <= t.m <= 12 && 1 <= t.d <= DaysInMonth(t.y, t.m)
  }

  function NextDay(t: Date): Date {
    if t.d < DaysInMonth(t.y, t.m) then Date(t.y, t.m, t.d + 1)
    else if t.m < 12 then Date(t.y, t.m + 1, 1)
    else Date(t.y + 1, 1, 1)
  }

  predicate Before(a: Date, b: Date) {
    a.y < b.y || (a.y == b.y && (a.m < b.m || (a.m == b.m && a.d < b.d)))
  }

  // ----- the year of the era -----

  /** The year that starts in March has a leap day, its last day, when the next year is a leap year. */
  function LastDay(yoe: int): int {
    if IsLeap(yoe + 1) then 365 else 364
  }

  /** Splitting a day of the era into centuries, groups of four years, years and days. */
  lemma Decompose(doe: int) returns (c: int, q: int, n: int, r: int)
    requires 0 <= doe < 146097
    ensures 0 <= c <= 3 && 0 <= q <= 24 && 0 <= n <= 3 && 0 <= r <= 365
    ensures doe == 36524 * c + 1461 * q + 365 * n + r
    ensures r == 365 ==> n == 3 && (q == 24 ==> c == 3)
  {
    c := if doe / 36524 == 4 then 3 else doe / 36524;
    var r1 := doe - 36524 * c;
    q := r1 / 1461;
    var r2 := r1 - 1461 * q;
    n := if r2 / 365 == 4 then 3 else r2 / 365;
    r := r2 - 365 * n;
  }

  lemma YearOfEraIs(doe: int, c: int, q: int, n: int, r: int)
    requires 0 <= doe < 146097
    requires 0 <= c <= 3 && 0 <= q <= 24 && 0 <= n <= 3 && 0 <= r <= 365
    requires doe == 36524 * c + 1461 * q + 365 * n + r
    requires r == 365 ==> n == 3 && (q == 24 ==> c == 3)
    ensures YearOfEra(doe) == 100 * c + 4 * q + n
    ensures DaysBefore(YearOfEra(doe)) + r == doe
  {
    Centuries(doe, c, 1461 * q + 365 * n + r);
    var e := (24 * c + q + 365 * n + r) / 1460;
    assert doe == 1460 * (25 * c + q) + (24 * c + q + 365 * n + r);
    By1460(25 * c + q, 24 * c + q + 365 * n + r);
    Leftover(24 * c + q, n, r);
    var y := 100 * c + 4 * q + n;
    ByYears(25 * c + q, n, c, 4 * q + n);
    By365(y, r - e);
  }

  lemma Centuries(doe: int, c: int, rest: int)
    requires 0 <= doe < 146097 && 0 <= c <= 3 && doe == 36524 * c + rest
             && 0 <= rest <= (if c == 3 then 36524 else 36523)
    ensures doe / 36524 - doe / 146096 == c
  {
  }

  lemma By1460(k: int, rest: int)
    ensures (1460 * k + rest) / 1460 == k + rest / 1460
  {
  }

  lemma By365(k: int, rest: int)
    requires 0 <= rest < 365
    ensures (365 * k + rest) / 365 == k
  {
  }

  lemma ByYears(k: int, n: int, c: int, m: int)
    requires 0 <= n < 4 && 0 <= m < 100
    ensures (4 * k + n) / 4 == k && (100 * c + m) / 100 == c
  {
  }

  lemma Leftover(s: int, n: int, r: int)
    requires 0 <= s <= 96 && 0 <= n <= 3 && 0 <= r <= 365 && (r == 365 ==> n == 3)
    ensures 0 <= r - (s + 365 * n + r) / 1460 <= 364
  {
  }

  /** The formula finds the year in which the day lies. */
  lemma YearOfEraCorrect(doe: int)
    requires 0 <= doe < 146097
    ensures var yoe := YearOfEra(doe); 0 <= yoe < 400 && 0 <= doe - DaysBefore(yoe) <= LastDay(yoe)
  {
    hide YearOfEra, DaysBefore;
    var c, q, n, r := Decompose(doe);
    YearOfEraIs(doe, c, q, n, r);
    if r == 365 { LeapAfter(c, q); }
  }

  lemma LeapAfter(c: int, q: int)
    requires 0 <= c <= 3 && 0 <= q <= 24 && (q == 24 ==> c == 3)
    ensures IsLeap(100 * c + 4 * q + 4)
  {
    var y := 100 * c + 4 * q + 4;
    assert y % 4 == 0;
    if q < 24 { assert y % 100 == 4 * q + 4; } else { assert y == 400; }
  }

  lemma DaysBeforeNext(yoe: int)
    requires 0 <= yoe < 399
    ensures DaysBefore(yoe + 1) == DaysBefore(yoe) + LastDay(yoe) + 1
  {
    NextQuotients(yoe);
  }

  lemma NextQuotients(y: int)
    ensures (y + 1) / 4 == y / 4 + if (y + 1) % 4 == 0 then 1 else 0
    ensures (y + 1) / 100 == y / 100 + if (y + 1) % 100 == 0 then 1 else 0
    ensures (y + 1) % 100 == 0 ==> (y + 1) % 4 == 0
    ensures 0 <= y < 399 ==> (y + 1) % 400 != 0
  {
  }

  lemma {:induction false} DaysBeforeGrows(a: int, b: int)
    requires 0 <= a < b < 400
    ensures DaysBefore(a) + LastDay(a) < DaysBefore(b)
    decreases b
  {
    DaysBeforeNext(b - 1);
    if a < b - 1 { DaysBeforeGrows(a, b - 1); }
  }

  lemma YearOfEraUnique(doe: int, yoe: int)
    requires 0 <= doe < 146097 && 0 <= yoe < 400 && 0 <= doe - DaysBefore(yoe) <= LastDay(yoe)
    ensures YearOfEra(doe) == yoe
  {
    YearOfEraCorrect(doe);
    var y := YearOfEra(doe);
    if y < yoe { DaysBeforeGrows(y, yoe); }
    if yoe < y { DaysBeforeGrows(yoe, y); }
  }

  // ----- days follow each other -----

  /** The date of day `doy` of the year that starts in March of year y. */
  function DateOf(y: int, doy: int): Date {
    var mp := (5 * doy + 2) / 153;
    var m := if mp < 10 then mp + 3 else mp - 9;
    Date(if m <= 2 then y + 1 else y, m, doy - (153 * mp + 2) / 5 + 1)
  }

  /** Day of the year, from March on, on which month `mp` starts. */
  function MonthStart(mp: int): int {
    (153 * mp + 2) / 5
  }

  lemma MonthStarts(mp: int)
    requires 0 <= mp <= 11
    ensures MonthStart(mp) == [0, 31, 61, 92, 122, 153, 184, 214, 245, 275, 306, 337][mp]
  {
  }

  lemma MonthOfDay(doy: int, mp: int)
    requires 0 <= mp <= 11 && MonthStart(mp) <= doy <= 366 && (mp < 11 ==> doy < MonthStart(mp + 1))
    ensures (5 * doy + 2) / 153 == mp
  {
  }

  lemma InSomeMonth(doy: int)
    requires 0 <= doy <= 365
    ensures var mp := (5 * doy + 2) / 153;
            0 <= mp <= 11 && MonthStart(mp) <= doy && (mp < 11 ==> doy < MonthStart(mp + 1))
  {
  }

  /** Days in month `mp`, of a year that starts in March and ends in year y + 1. */
  function MonthLength(y: int, mp: int): int {
    DaysInMonth(if mp < 10 then y else y + 1, if mp < 10 then mp + 3 else mp - 9)
  }

  lemma MonthLengths(y: int, mp: int)
    requires 0 <= mp <= 11
    ensures mp < 11 ==> MonthStart(mp + 1) == MonthStart(mp) + MonthLength(y, mp)
    ensures mp == 11 ==> MonthStart(mp) + MonthLength(y, mp) == if IsLeap(y + 1) then 366 else 365
  {
    hide MonthStart, IsLeap;
    MonthStarts(mp);
    if mp < 11 { MonthStarts(mp + 1); }
  }

  lemma DateIn(y: int, doy: int, mp: int)
    requires 0 <= mp <= 11 && (5 * doy + 2) / 153 == mp
    ensures DateOf(y, doy) ==
            Date(if mp < 10 then y else y + 1, if mp < 10 then mp + 3 else mp - 9, doy - MonthStart(mp) + 1)
  {
  }

  lemma DateOfSteps(y: int, doy: int)
    requires 0 <= doy <= (if IsLeap(y + 1) then 365 else 364)
    ensures Valid(DateOf(y, doy))
    ensures NextDay(DateOf(y, doy)) ==
            if doy == (if IsLeap(y + 1) then 365 else 364) then DateOf(y + 1, 0) else DateOf(y, doy + 1)
  {
    hide MonthStart, DateOf, IsLeap, DaysInMonth;
    var mp := (5 * doy + 2) / 153;
    InSomeMonth(doy);
    MonthLengths(y, mp);
    DateIn(y, doy, mp);
    MonthStarts(0);
    if doy + 1 < MonthStart(mp) + MonthLength(y, mp) {
      MonthOfDay(doy + 1, mp);
      DateIn(y, doy + 1, mp);
    } else if mp < 11 {
      MonthLengths(y, mp + 1);
      MonthPositive(y, mp + 1);
      MonthOfDay(doy + 1, mp + 1);
      DateIn(y, doy + 1, mp + 1);
    } else {
      DateIn(y + 1, 0, 0);
    }
  }

  lemma MonthPositive(y: int, mp: int)
    ensures MonthLength(y, mp) >= 28
  {
  }

  lemma LeapInEra(yoe: int, era: int)
    ensures IsLeap(yoe + 1) == IsLeap(yoe + era * 400 + 1)
  {
    var a := yoe + 1;
    ShiftBy4(a, era);
    ShiftBy100(a, era);
    ShiftBy400(a, era);
    assert yoe + era * 400 + 1 == a + 400 * era;
  }

  lemma ShiftBy4(a: int, era: int)
    ensures (a + 400 * era) % 4 == a % 4
  {
    assert (a + 400 * era) / 4 == a / 4 + 100 * era;
  }

  lemma ShiftBy100(a: int, era: int)
    ensures (a + 400 * era) % 100 == a % 100
  {
    assert (a + 400 * era) / 100 == a / 100 + 4 * era;
  }

  lemma ShiftBy400(a: int, era: int)
    ensures (a + 400 * era) % 400 == a % 400
  {
    assert (a + 400 * era) / 400 == a / 400 + era;
  }

  /** The date of day z, counted from the first of March of year 0, when it is day `doe` of era `era`. */
  lemma InEra(era: int, doe: int)
    requires 0 <= doe < 146097
    ensures CivilFromDays(146097 * era + doe - 719468) ==
            DateOf(YearOfEra(doe) + era * 400, doe - DaysBefore(YearOfEra(doe)))
  {
    hide YearOfEra, DaysBefore;
    var z := 146097 * era + doe;
    assert z / 146097 == era;
  }

  lemma Epoch()
    ensures CivilFromDays(0) == Date(1970, 1, 1)
  {
    assert YearOfEra(135080) == 369 && DaysBefore(369) == 134774;
    assert DateOf(1969, 306) == Date(1970, 1, 1);
    hide CivilFromDays, DateOf, YearOfEra, DaysBefore;
    InEra(4, 135080);
  }

  /** Every day is a valid date, followed by the next one of the calendar. */
  lemma DaysFollow(days: int)
    ensures Valid(CivilFromDays(days))
    ensures CivilFromDays(days + 1) == NextDay(CivilFromDays(days))
  {
    hide *;
    var era := (days + 719468) / 146097;
    var doe := days + 719468 - 146097 * era;
    EraFollows(era, doe);
  }

  lemma EraFollows(era: int, doe: int)
    requires 0 <= doe < 146097
    ensures var days := 146097 * era + doe - 719468;
            Valid(CivilFromDays(days)) && CivilFromDays(days + 1) == NextDay(CivilFromDays(days))
  {
    hide YearOfEra, DaysBefore, CivilFromDays, DateOf, NextDay, Valid, IsLeap;
    var yoe := YearOfEra(doe);
    var y, doy := yoe + era * 400, doe - DaysBefore(yoe);
    YearOfEraCorrect(doe);
    LeapInEra(yoe, era);
    DateOfSteps(y, doy);
    InEra(era, doe);
    var days := 146097 * era + doe - 719468;
    if doe + 1 == 146097 {
      LastOfEra();
      InEra(era + 1, 0);
      assert days + 1 == 146097 * (era + 1) + 0 - 719468;
    } else {
      InEra(era, doe + 1);
      assert days + 1 == 146097 * era + (doe + 1) - 719468;
      if doy < LastDay(yoe) {
        YearOfEraUnique(doe + 1, yoe);
      } else {
        FullYear(doe);
        DaysBeforeNext(yoe);
        YearOfEraUnique(doe + 1, yoe + 1);
        LastDayPositive(yoe + 1);
      }
    }
  }

  lemma LastDayPositive(yoe: int)
    ensures LastDay(yoe) >= 364
  {
  }

  lemma LastOfEra()
    ensures YearOfEra(146096) == 399 && DaysBefore(399) + 365 == 146096 && LastDay(399) == 365
    ensures YearOfEra(0) == 0 && DaysBefore(0) == 0
  {
  }

  /** Only the last day of the era ends its last year. */
  lemma FullYear(doe: int)
    requires 0 <= doe < 146096 && doe - DaysBefore(YearOfEra(doe)) == LastDay(YearOfEra(doe))
    ensures 0 <= YearOfEra(doe) < 399
  {
    YearOfEraCorrect(doe);
    hide YearOfEra;
    LastOfEra();
  }

  // ----- inverse and order -----

  /** Days from the epoch to the first of January of year y, one year at a time. */
  function DaysBeforeYear(y: int): int
    requires y >= 1970
    decreases y
  {
    if y == 1970 then 0 else DaysBeforeYear(y - 1) + if IsLeap(y - 1) then 366 else 365
  }

  /** Days from the first of January to the first of month m, one month at a time. */
  function DaysBeforeMonth(y: int, m: int): int
    requires m >= 1
    decreases m
  {
    if m == 1 then 0 else DaysBeforeMonth(y, m - 1) + DaysInMonth(y, m - 1)
  }

  /** Days from the epoch to a date, counted through the calendar. */
  function DaysFromCivil(t: Date): int
    requires t.y >= 1970 && t.m >= 1
  {
    DaysBeforeYear(t.y) + DaysBeforeMonth(t.y, t.m) + t.d - 1
  }

  lemma WholeYear(y: int)
    ensures DaysBeforeMonth(y, 12) + 31 == if IsLeap(y) then 366 else 365
  {
    assert DaysBeforeMonth(y, 4) == DaysBeforeMonth(y, 3) + 31;
    assert DaysBeforeMonth(y, 6) == DaysBeforeMonth(y, 5) + 31;
    assert DaysBeforeMonth(y, 8) == DaysBeforeMonth(y, 7) + 31;
    assert DaysBeforeMonth(y, 10) == DaysBeforeMonth(y, 9) + 30;
  }

  lemma NextDayCounts(t: Date)
    requires Valid(t) && t.y >= 1970
    ensures Valid(NextDay(t)) && NextDay(t).y >= 1970 && Before(t, NextDay(t))
    ensures DaysFromCivil(NextDay(t)) == DaysFromCivil(t) + 1
  {
    if t.m == 12 && t.d == 31 { WholeYear(t.y); }
  }

  /** The program's date counts back to the day it came from. */
  lemma {:induction false} CountsBack(days: nat)
    ensures var t := CivilFromDays(days);
            Valid(t) && t.y >= 1970 && DaysFromCivil(t) == days
    decreases days
  {
    hide CivilFromDays, DaysFromCivil, NextDay;
    if days == 0 {
      Epoch();
      EpochCounts();
    } else {
      CountsBack(days - 1);
      DaysFollow(days - 1);
      NextDayCounts(CivilFromDays(days - 1));
    }
  }

  lemma EpochCounts()
    ensures DaysFromCivil(Date(1970, 1, 1)) == 0
  {
  }

  /** Later days have later dates. */
  lemma {:induction false} StrictlyIncreasing(a: nat, b: nat)
    requires a < b
    ensures Before(CivilFromDays(a), CivilFromDays(b))
    decreases b
  {
    hide CivilFromDays, NextDay;
    CountsBack(b - 1);
    DaysFollow(b - 1);
    NextDayCounts(CivilFromDays(b - 1));
    if a < b - 1 { StrictlyIncreasing(a, b - 1); }
  }

  lemma {:induction false} YearsGrow(a: int, b: int)
    requires 1970 <= a < b
    ensures DaysBeforeYear(a) + (if IsLeap(a) then 366 else 365) <= DaysBeforeYear(b)
    decreases b
  {
    if a < b - 1 { YearsGrow(a, b - 1); }
  }

  lemma {:induction false} MonthsGrow(y: int, a: int, b: int)
    requires 1 <= a < b
    ensures DaysBeforeMonth(y, a) + DaysInMonth(y, a) <= DaysBeforeMonth(y, b)
    decreases b
  {
    if a < b - 1 { MonthsGrow(y, a, b - 1); }
  }

  lemma DayOfYear(t: Date)
    requires Valid(t)
    ensures 0 <= DaysBeforeMonth(t.y, t.m) + t.d - 1 < if IsLeap(t.y) then 366 else 365
  {
    WholeYear(t.y);
    if t.m < 12 { MonthsGrow(t.y, t.m, 12); }
    if t.m > 1 { MonthsGrow(t.y, 1, t.m); }
  }

  lemma CountOrdered(a: Date, b: Date)
    requires Valid(a) && Valid(b) && a.y >= 1970 && Before(a, b)
    ensures DaysFromCivil(a) < DaysFromCivil(b)
  {
    DayOfYear(a);
    DayOfYear(b);
    if a.y < b.y {
      YearsGrow(a.y, b.y);
    } else if a.m < b.m {
      MonthsGrow(a.y, a.m, b.m);
    }
  }

  /** And back: a valid date from 1970 on is what the program computes from its day number. */
  lemma RoundTrip(t: Date)
    requires Valid(t) && t.y >= 1970
    ensures DaysFromCivil(t) >= 0 && CivilFromDays(DaysFromCivil(t)) == t
  {
    hide CivilFromDays;
    DayOfYear(t);
    if t.y > 1970 { YearsGrow(1970, t.y); }
    var n := DaysFromCivil(t);
    CountsBack(n);
    var t' := CivilFromDays(n);
    if Before(t, t') { CountOrdered(t, t'); }
    if Before(t', t) { CountOrdered(t', t); }
  }

  /** The instant printed is within its ranges and determines the second it came from. */
  lemma UtcDeterminesSeconds(secs: nat)
    ensures var i := Utc(secs);
            && Valid(i.date) && i.date.y >= 1970 && 0 <= i.hour < 24 && 0 <= i.minute < 60 && 0 <= i.second < 60
            && 86400 * DaysFromCivil(i.date) + 3600 * i.hour + 60 * i.minute + i.second == secs
  {
    hide CivilFromDays, DaysFromCivil;
    CountsBack(secs / 86400);
  }
}
