/** Calendar dates from day numbers (app/src-tauri/src/insforge_emit.rs), against the
    proleptic Gregorian calendar of RFC 3339 section 5.7 and appendix C. */
module Civil {

  datatype Date = Date(year: int, month: int, day: int)

  // ---- the calendar -----------------------------------------------------------------

  predicate IsLeap(year: int) {
    year % 4 == 0 && (year % 100 != 0 || year % 400 == 0)
  }

  function MonthLength(year: int, month: int): (n: int)
    requires 1 <= month <= 12
    ensures 28 <= n <= 31
  {
    if month == 2 then (if IsLeap(year) then 29 else 28)
    else if month == 4 || month == 6 || month == 9 || month == 11 then 30
    else 31
  }

  function YearLength(year: int): int {
    if IsLeap(year) then 366 else 365
  }

  predicate Valid(d: Date) {
    1 <= d.month <= 12 && 1 <= d.day <= MonthLength(d.year, d.month)
  }

  function NextDay(d: Date): (e: Date)
    requires Valid(d)
    ensures Valid(e)
  {
    if d.day < MonthLength(d.year, d.month) then Date(d.year, d.month, d.day + 1)
    else if d.month < 12 then Date(d.year, d.month + 1, 1)
    else Date(d.year + 1, 1, 1)
  }

  const EPOCH := Date(1970, 1, 1)

  /** Days from 1 January 1970 to 1 January of `year`, counted year by year. */
  function DaysToYear(year: int): int
    decreases if year >= 1970 then year - 1970 else 1970 - year
  {
    if year == 1970 then 0
    else if year > 1970 then DaysToYear(year - 1) + YearLength(year - 1)
    else DaysToYear(year + 1) - YearLength(year)
  }

  /** Days of `year` before the first of `month`, counted month by month. */
  function DaysToMonth(year: int, month: int): int
    requires 1 <= month <= 12
    decreases month
  {
    if month == 1 then 0 else DaysToMonth(year, month - 1) + MonthLength(year, month - 1)
  }

  function DayNumber(d: Date): int
    requires Valid(d)
  {
    DaysToYear(d.year) + DaysToMonth(d.year, d.month) + (d.day - 1)
  }

  // ---- the algorithm ----------------------------------------------------------------

  /** Division as the source's machine integers do it: toward zero. */
  function TruncDiv(a: int, b: int): int
    requires b > 0
  {
    if a >= 0 then a / b else -((-a) / b)
  }

  function Era(z: int): int {
    TruncDiv(if z >= 0 then z else z - 146096, 146097)
  }

  function YearOfEra(doe: int): int {
    (doe - doe / 1460 + doe / 36524 - doe / 146096) / 365
  }

  function CivilFromDays(z0: int): Date {
    var z := z0 + 719468;
    var era := Era(z);
    var doe := z - era * 146097;
    var yoe := YearOfEra(doe);
    var y := yoe + era * 400;
    var doy := doe - (365 * yoe + yoe / 4 - yoe / 100);
    var mp := (5 * doy + 2) / 153;
    var d := doy - (153 * mp + 2) / 5 + 1;
    var m := if mp < 10 then mp + 3 else mp - 9;
    Date(if m <= 2 then y + 1 else y, m, d)
  }

  // ---- years counted from March -----------------------------------------------------

  lemma EraIsFloor(z: int)
    ensures Era(z) == z / 146097 && 0 <= z - Era(z) * 146097 < 146097
  {
  }

  /** Days of the era before its year `y`, years starting on 1 March. */
  function EraDays(y: int): int {
    365 * y + y / 4 - y / 100
  }

  /** One past the last day of the era's year `y`. */
  function EraYearEnd(y: int): int {
    if y == 399 then 146097 else EraDays(y + 1)
  }

  /** A day of the era taken apart: century, four-year cycle, day within the cycle. */
  lemma SplitEra(doe: int) returns (c: int, q: int, f: int)
    requires 0 <= doe < 146097
    ensures 0 <= c <= 3 && 0 <= q <= 24 && 0 <= f <= 1460
    ensures doe == 36524 * c + 1461 * q + f
    ensures f == 1460 ==> q < 24 || c == 3
  {
    c := if doe == 146096 then 3 else doe / 36524;
    var e := doe - 36524 * c;
    q := e / 1461;
    f := e % 1461;
  }

  lemma YearOfSplit(doe: int, c: int, q: int, f: int)
    requires 0 <= doe < 146097 && 0 <= c <= 3 && 0 <= q <= 24 && 0 <= f <= 1460
    requires doe == 36524 * c + 1461 * q + f
    requires f == 1460 ==> q < 24 || c == 3
    ensures YearOfEra(doe) == 100 * c + 4 * q + (if f == 1460 then 3 else f / 365)
  {
    var t := if 24 * c + q + f >= 1460 then 1 else 0;
    assert doe / 1460 == 25 * c + q + t by {
      assert doe == 1460 * (25 * c + q) + (24 * c + q + f);
    }
    assert doe / 36524 - doe / 146096 == c;
    var r := if f == 1460 then 3 else f / 365;
    assert (f - t) / 365 == r;
    assert doe - doe / 1460 + doe / 36524 - doe / 146096 == 365 * (100 * c + 4 * q) + (f - t);
  }

  /** The closed form picks the year of the era a day falls in. */
  lemma YearOfEraIsExact(doe: int)
    requires 0 <= doe < 146097
    ensures var y := YearOfEra(doe); 0 <= y < 400 && EraDays(y) <= doe < EraYearEnd(y)
  {
    var c, q, f := SplitEra(doe);
    YearOfSplit(doe, c, q, f);
    var r := if f == 1460 then 3 else f / 365;
    var y := 100 * c + 4 * q + r;
    assert y / 4 == 25 * c + q && y / 100 == c;
    if y < 399 {
      assert r < 3 ==> (y + 1) / 4 == 25 * c + q && (y + 1) / 100 == c;
      assert r == 3 && q < 24 ==> (y + 1) / 4 == 25 * c + q + 1 && (y + 1) / 100 == c;
      assert r == 3 && q == 24 ==> (y + 1) / 4 == 25 * c + 25 && (y + 1) / 100 == c + 1;
    }
  }

  lemma EraDaysGrow(y: int, z: int)
    requires 0 <= y <= z < 400
    ensures EraDays(y) <= EraDays(z) && (y < z ==> EraYearEnd(y) <= EraDays(z))
  {
  }

  /** The date of day `doy` of the year of the era `yoe` that starts on 1 March. */
  function FromParts(era: int, yoe: int, doy: int): Date {
    var mp := (5 * doy + 2) / 153;
    var m := if mp < 10 then mp + 3 else mp - 9;
    var y := yoe + era * 400;
    Date(if m <= 2 then y + 1 else y, m, doy - (153 * mp + 2) / 5 + 1)
  }

  /** `(era, yoe, doy)` is a day of the calendar. */
  predicate Parts(era: int, yoe: int, doy: int) {
    0 <= yoe < 400 && 0 <= doy < EraYearEnd(yoe) - EraDays(yoe)
  }

  function PartsDay(era: int, yoe: int, doy: int): int {
    146097 * era + EraDays(yoe) + doy - 719468
  }

  /** The closed form picks year `yoe` for all its days. */
  lemma YearFound(yoe: int, doy: int)
    requires 0 <= yoe < 400 && 0 <= doy < EraYearEnd(yoe) - EraDays(yoe)
    ensures 0 <= EraDays(yoe) + doy < 146097 && YearOfEra(EraDays(yoe) + doy) == yoe
  {
    hide YearOfEra;
    var doe := EraDays(yoe) + doy;
    EraDaysGrow(0, yoe);
    EraDaysGrow(yoe, 399);
    YearOfEraIsExact(doe);
    var y := YearOfEra(doe);
    if y < yoe {
      EraDaysGrow(y, yoe);
    } else if yoe < y {
      EraDaysGrow(yoe, y);
    }
  }

  /** The algorithm finds the parts of every day. */
  lemma CivilIsFromParts(era: int, yoe: int, doy: int)
    requires Parts(era, yoe, doy)
    ensures CivilFromDays(PartsDay(era, yoe, doy)) == FromParts(era, yoe, doy)
  {
    hide EraDays, EraYearEnd, CivilFromDays, FromParts, Era, YearOfEra, PartsDay;
    PartsDayIs(era, yoe, doy);
    CivilShape(PartsDay(era, yoe, doy));
    YearFound(yoe, doy);
    EraFound(era, EraDays(yoe) + doy);
  }

  lemma PartsDayIs(era: int, yoe: int, doy: int)
    ensures PartsDay(era, yoe, doy) == era * 146097 + (EraDays(yoe) + doy) - 719468
  {
    hide EraDays;
  }

  lemma CivilShape(z0: int)
    ensures var z := z0 + 719468;
            var doe := z - Era(z) * 146097;
            CivilFromDays(z0) == FromParts(Era(z), YearOfEra(doe), doe - EraDays(YearOfEra(doe)))
  {
    hide Era, YearOfEra;
  }

  lemma EraFound(era: int, doe: int)
    requires 0 <= doe < 146097
    ensures Era(era * 146097 + doe) == era
  {
    EraIsFloor(era * 146097 + doe);
    hide Era;
  }

  /** Every day has parts. */
  lemma PartsOfDay(z: int) returns (era: int, yoe: int, doy: int)
    ensures Parts(era, yoe, doy) && PartsDay(era, yoe, doy) == z
  {
    era := (z + 719468) / 146097;
    var doe := (z + 719468) % 146097;
    YearOfEraIsExact(doe);
    yoe := YearOfEra(doe);
    doy := doe - EraDays(yoe);
  }

  lemma LeapRepeats(n: int, era: int)
    ensures IsLeap(n + era * 400) == IsLeap(n)
  {
    Repeats4(n, 100 * era);
    Repeats100(n, 4 * era);
    Repeats400(n, era);
  }

  lemma Repeats4(n: int, k: int)
    ensures (n + 4 * k) % 4 == n % 4
  {
    assert n + 4 * k == 4 * (n / 4 + k) + n % 4;
  }

  lemma Repeats100(n: int, k: int)
    ensures (n + 100 * k) % 100 == n % 100
  {
    assert n + 100 * k == 100 * (n / 100 + k) + n % 100;
  }

  lemma Repeats400(n: int, k: int)
    ensures (n + 400 * k) % 400 == n % 400
  {
    assert n + 400 * k == 400 * (n / 400 + k) + n % 400;
  }

  lemma EraYearLength(yoe: int)
    requires 0 <= yoe < 400
    ensures EraYearEnd(yoe) - EraDays(yoe) == YearLength(yoe + 1)
  {
    var n := yoe + 1;
    assert n / 4 - yoe / 4 == if n % 4 == 0 then 1 else 0;
    assert n / 100 - yoe / 100 == if n % 100 == 0 then 1 else 0;
    assert n % 100 == 0 ==> n % 4 == 0;
  }

  /** A year that starts in March has the length of the calendar year its February is in. */
  lemma MarchYearLength(era: int, yoe: int)
    requires 0 <= yoe < 400
    ensures EraYearEnd(yoe) - EraDays(yoe) == YearLength(yoe + era * 400 + 1)
  {
    hide IsLeap, EraYearEnd, EraDays;
    LeapRepeats(yoe + 1, era);
    EraYearLength(yoe);
  }

  /** First day of month `mp`, counted from March, in a year that starts in March. */
  function MonthStart(mp: int): int {
    (153 * mp + 2) / 5
  }

  /** A day falls in month `mp` exactly when the closed form says so. */
  lemma MonthOfDay(doy: int, mp: int)
    requires 0 <= doy <= 365 && 0 <= mp <= 11
    ensures (5 * doy + 2) / 153 == mp <==> MonthStart(mp) <= doy < MonthStart(mp + 1)
    ensures 0 <= (5 * doy + 2) / 153 <= 11
  {
  }

  /** The months from March to January have the calendar's lengths. */
  lemma MonthStarts(year: int, mp: int)
    requires 0 <= mp <= 11
    ensures MonthStart(0) == 0 && MonthStart(11) == 337 && MonthStart(12) == 367
    ensures mp < 11 ==> MonthStart(mp + 1) - MonthStart(mp) ==
                        MonthLength(year, if mp < 10 then mp + 3 else mp - 9)
  {
    hide IsLeap;
  }

  /** Within such a year, months follow each other with the calendar's lengths. */
  lemma MonthsAreExact(era: int, yoe: int, doy: int)
    requires Parts(era, yoe, doy)
    ensures var d := FromParts(era, yoe, doy);
            && Valid(d)
            && (doy == 0 ==> d == Date(yoe + era * 400, 3, 1))
            && (Parts(era, yoe, doy + 1) ==> FromParts(era, yoe, doy + 1) == NextDay(d))
            && (!Parts(era, yoe, doy + 1) ==> NextDay(d) == Date(yoe + era * 400 + 1, 3, 1))
  {
    hide EraYearEnd, EraDays, IsLeap, MonthStart;
    MarchYearLength(era, yoe);
    var mp := (5 * doy + 2) / 153;
    var length := YearLength(yoe + era * 400 + 1);
    MonthOfDay(doy, 0);
    MonthOfDay(doy, mp);
    MonthStarts(FromParts(era, yoe, doy).year, mp);
    assert FromParts(era, yoe, doy).day == doy - MonthStart(mp) + 1 by {
      MonthStartIs(mp);
    }
    if doy + 1 < length {
      var next := if doy + 1 < MonthStart(mp + 1) then mp else mp + 1;
      if next <= 11 {
        MonthStarts(0, next);
        MonthOfDay(doy + 1, next);
        MonthStartIs(next);
      }
    }
  }

  lemma MonthStartIs(mp: int)
    ensures MonthStart(mp) == (153 * mp + 2) / 5
  {
  }

  /** Day `z` is always a valid date, and day `z + 1` is the next one. */
  lemma CivilSuccessor(z: int)
    ensures Valid(CivilFromDays(z)) && CivilFromDays(z + 1) == NextDay(CivilFromDays(z))
  {
    hide CivilFromDays, FromParts, NextDay, EraDays, EraYearEnd;
    var era, yoe, doy := PartsOfDay(z);
    CivilIsFromParts(era, yoe, doy);
    MonthsAreExact(era, yoe, doy);
    if Parts(era, yoe, doy + 1) {
      CivilIsFromParts(era, yoe, doy + 1);
    } else {
      var era', yoe' := if yoe == 399 then era + 1 else era, if yoe == 399 then 0 else yoe + 1;
      YearEnds(era, yoe, doy);
      CivilIsFromParts(era', yoe', 0);
      MonthsAreExact(era', yoe', 0);
    }
  }

  lemma YearEnds(era: int, yoe: int, doy: int)
    requires Parts(era, yoe, doy) && !Parts(era, yoe, doy + 1)
    ensures yoe < 399 ==> Parts(era, yoe + 1, 0) && PartsDay(era, yoe + 1, 0) == PartsDay(era, yoe, doy) + 1
    ensures yoe == 399 ==> Parts(era + 1, 0, 0) && PartsDay(era + 1, 0, 0) == PartsDay(era, yoe, doy) + 1
  {
    if yoe < 399 {
      EraDaysGrow(yoe + 1, 399);
    }
  }

  lemma CivilEpoch()
    ensures CivilFromDays(0) == EPOCH
  {
    CivilShape(0);
    hide CivilFromDays;
    assert Era(719468) == 4 && YearOfEra(135080) == 369 && EraDays(369) == 134774;
    assert FromParts(4, 369, 306) == EPOCH;
  }

  // ---- counting days ----------------------------------------------------------------

  lemma {:induction false} DaysOfWholeYear(year: int)
    ensures DaysToMonth(year, 12) + MonthLength(year, 12) == YearLength(year)
  {
    assert DaysToMonth(year, 3) == 31 + MonthLength(year, 2);
    assert DaysToMonth(year, 5) == DaysToMonth(year, 3) + 61;
    assert DaysToMonth(year, 7) == DaysToMonth(year, 5) + 61;
    assert DaysToMonth(year, 9) == DaysToMonth(year, 7) + 62;
    assert DaysToMonth(year, 11) == DaysToMonth(year, 9) + 61;
  }

  /** Counting days by years and months agrees with stepping through the calendar. */
  lemma DayNumberSteps(d: Date)
    requires Valid(d)
    ensures DayNumber(NextDay(d)) == DayNumber(d) + 1
  {
    YearFollows(d.year);
    DaysOfWholeYear(d.year);
    hide DaysToYear, MonthLength, YearLength;
  }

  lemma YearFollows(year: int)
    ensures DaysToYear(year + 1) == DaysToYear(year) + YearLength(year)
  {
    hide YearLength;
  }

  /** Counting the days from the epoch to the date of day `z` gives `z` back. */
  lemma {:induction false} DayNumberInverts(z: int)
    ensures Valid(CivilFromDays(z)) && DayNumber(CivilFromDays(z)) == z
    decreases if z >= 0 then z else -z
  {
    hide CivilFromDays, Valid, DayNumber, NextDay;
    if z == 0 {
      CivilEpoch();
      EpochIsZero();
    } else if z > 0 {
      DayNumberInverts(z - 1);
      CivilSuccessor(z - 1);
      DayNumberSteps(CivilFromDays(z - 1));
    } else {
      DayNumberInverts(z + 1);
      CivilSuccessor(z);
      DayNumberSteps(CivilFromDays(z));
    }
  }

  lemma EpochIsZero()
    ensures Valid(EPOCH) && DayNumber(EPOCH) == 0
  {
  }

  lemma {:induction false} DaysToMonthGrows(year: int, m: int, n: int)
    requires 1 <= m < n <= 12
    ensures DaysToMonth(year, m) + MonthLength(year, m) <= DaysToMonth(year, n)
    decreases n
  {
    if m < n - 1 {
      DaysToMonthGrows(year, m, n - 1);
    }
  }

  lemma {:induction false} DaysToYearGrows(y: int, z: int)
    requires y < z
    ensures DaysToYear(y) + YearLength(y) <= DaysToYear(z)
    decreases z - y
  {
    if y + 1 < z {
      DaysToYearGrows(y, z - 1);
    }
    assert DaysToYear(z) == DaysToYear(z - 1) + YearLength(z - 1);
  }

  lemma DayInYear(d: Date)
    requires Valid(d)
    ensures DaysToYear(d.year) <= DayNumber(d) < DaysToYear(d.year) + YearLength(d.year)
    ensures 0 <= DaysToMonth(d.year, d.month)
  {
    if d.month > 1 {
      DaysToMonthGrows(d.year, 1, d.month);
    }
    if d.month < 12 {
      DaysToMonthGrows(d.year, d.month, 12);
    }
    DaysOfWholeYear(d.year);
  }

  /** Different dates have different day numbers. */
  lemma DayNumberInjective(d: Date, e: Date)
    requires Valid(d) && Valid(e) && DayNumber(d) == DayNumber(e)
    ensures d == e
  {
    DayInYear(d);
    DayInYear(e);
    if d.year < e.year {
      DaysToYearGrows(d.year, e.year);
    } else if e.year < d.year {
      DaysToYearGrows(e.year, d.year);
    } else if d.month < e.month {
      DaysToMonthGrows(d.year, d.month, e.month);
    } else if e.month < d.month {
      DaysToMonthGrows(d.year, e.month, d.month);
    }
  }

  /** Every valid date is the date of the day its count names: day numbers and dates
      correspond one to one. */
  lemma CivilInverts(d: Date)
    requires Valid(d)
    ensures CivilFromDays(DayNumber(d)) == d
  {
    hide CivilFromDays, DayNumber, Valid;
    DayNumberInverts(DayNumber(d));
    DayNumberInjective(CivilFromDays(DayNumber(d)), d);
  }

  // ---- timestamps -------------------------------------------------------------------

  datatype Timestamp = Timestamp(date: Date, hour: nat, minute: nat, second: nat)

  /** The fields `iso_now` prints for a Unix time in seconds. */
  function IsoFields(secs: nat): Timestamp {
    var rem := secs % 86400;
    Timestamp(CivilFromDays(secs / 86400), rem / 3600, rem % 3600 / 60, rem % 60)
  }

  /** The fields are those of a valid UTC time and name exactly the second they came from. */
  lemma IsoFieldsNameTheSecond(secs: nat)
    ensures var t := IsoFields(secs);
            && Valid(t.date) && t.hour < 24 && t.minute < 60 && t.second < 60
            && secs == DayNumber(t.date) * 86400 + t.hour * 3600 + t.minute * 60 + t.second
  {
    hide CivilFromDays, DayNumber, Valid;
    DayNumberInverts(secs / 86400);
    var rem := secs % 86400;
    assert rem == rem / 3600 * 3600 + rem % 3600;
    assert rem % 60 == rem % 3600 % 60;
  }
}
