/** The proleptic Gregorian conversions of core/host/src/time.rs and their second copy in
    adapters/bitcoin/src/map.rs, against a calendar that is only ever told how long a month is. */
module Calendar {
  import opened Base

  datatype Date = Date(year: int, month: int, day: int)

  // ----- the reference calendar ----------------------------------------------------------

  predicate Leap(y: int) { y % 4 == 0 && (y % 100 != 0 || y % 400 == 0) }

  function DaysInMonth(y: int, m: int): int {
    if m == 2 then (if Leap(y) then 29 else 28)
    else if m == 4 || m == 6 || m == 9 || m == 11 then 30
    else 31
  }

  predicate Real(c: Date) {
    1 <= c.month <= 12 && 1 <= c.day <= DaysInMonth(c.year, c.month)
  }

  /** The day after `c`. */
  function Tomorrow(c: Date): Date {
    if c.day < DaysInMonth(c.year, c.month) then c.(day := c.day + 1)
    else if c.month < 12 then Date(c.year, c.month + 1, 1)
    else Date(c.year + 1, 1, 1)
  }

  // ----- the code ------------------------------------------------------------------------

  function YearOfEra(doe: int): int {
    (doe - doe / 1460 + doe / 36524 - doe / 146096) / 365
  }

  /** First day of year `yoe` within its 400-year era; eras and years start on March 1st. */
  function YearStart(yoe: int): int {
    365 * yoe + yoe / 4 - yoe / 100
  }

  function MonthStart(mp: int): int { (153 * mp + 2) / 5 }

  function CivilFromEra(era: int, doe: int): Date {
    var yoe := YearOfEra(doe);
    var y := yoe + era * 400;
    var doy := doe - YearStart(yoe);
    var mp := (5 * doy + 2) / 153;
    var d := doy - MonthStart(mp) + 1;
    var m := if mp < 10 then mp + 3 else mp - 9;
    Date(if m <= 2 then y + 1 else y, m, d)
  }

  /** core/host/src/time.rs: `div_euclid` splits off the era. */
  function CivilFromDays(days: int): Date {
    var z := days + 719468;
    var era := z / 146097;
    CivilFromEra(era, z - era * 146097)
  }

  /** adapters/bitcoin/src/map.rs: truncating division with a correction for negative days. */
  function CivilFromDaysAdapter(days: int): Date {
    var z := days + 719468;
    var era := TruncDiv(if z >= 0 then z else z - 146096, 146097);
    CivilFromEra(era, z - era * 146097)
  }

  function DaysFromCivil(c: Date): int {
    var y := c.year - (if c.month <= 2 then 1 else 0);
    var era := y / 400;
    var yoe := y - era * 400;
    var mp := if c.month > 2 then c.month - 3 else c.month + 9;
    var doy := MonthStart(mp) + c.day - 1;
    var doe := yoe * 365 + yoe / 4 - yoe / 100 + doy;
    era * 146097 + doe - 719468
  }

  // ----- years of an era -----------------------------------------------------------------

  predicate LongYear(yoe: int) { (yoe + 1) % 4 == 0 && ((yoe + 1) % 100 != 0 || yoe == 399) }

  function YearLength(yoe: int): int { if LongYear(yoe) then 366 else 365 }

  lemma {:induction false} YearStep(yoe: int)
    requires 0 <= yoe <= 399
    ensures YearStart(yoe) + YearLength(yoe) == if yoe == 399 then 146097 else YearStart(yoe + 1)
  {
  }

  lemma {:induction false} YearsAscend(a: int, b: int)
    requires 0 <= a < b <= 399
    ensures YearStart(a) + YearLength(a) <= YearStart(b)
    decreases b - a
  {
    YearStep(a);
    if a + 1 < b {
      YearsAscend(a + 1, b);
    }
  }

  lemma {:induction false} Div1460(q: int, u: int)
    requires 0 <= u < 2920
    ensures (1460 * q + u) / 1460 == q + (if u >= 1460 then 1 else 0)
  {
  }

  lemma {:induction false} Div365(q: int, u: int)
    requires 0 <= u < 365
    ensures (365 * q + u) / 365 == q
  {
  }

  /** The two corrections together count whole centuries, including on the last day of an era. */
  lemma {:induction false} Centuries(c: int, rest: int)
    requires 0 <= c <= 3 && 0 <= rest <= 36524 && (rest == 36524 ==> c == 3)
    ensures (36524 * c + rest) / 36524 - (36524 * c + rest) / 146096 == c
  {
    if rest == 36524 {} else { assert (36524 * c + rest) / 36524 == c; }
  }

  lemma {:induction false} YearParts(c: int, k: int, j: int)
    requires 0 <= c <= 3 && 0 <= k <= 24 && 0 <= j <= 3
    ensures YearStart(100 * c + 4 * k + j) == 36524 * c + 1461 * k + 365 * j
    ensures LongYear(100 * c + 4 * k + j) <==> j == 3 && (k < 24 || c == 3)
  {
    var y := 100 * c + 4 * k + j;
    assert y / 4 == 25 * c + k && y / 100 == c;
    assert (y + 1) % 4 == (j + 1) % 4 by { assert y + 1 == 4 * (25 * c + k) + (j + 1); }
    assert y + 1 == 100 * c + (4 * k + j + 1);
  }

  /** Year `100c + 4k + j` of the era, day `t` of that year. */
  lemma {:induction false} YearOfEraParts(c: int, k: int, j: int, t: int)
    requires 0 <= c <= 3 && 0 <= k <= 24 && 0 <= j <= 3
    requires 0 <= t < YearLength(100 * c + 4 * k + j)
    ensures YearStart(100 * c + 4 * k + j) == 36524 * c + 1461 * k + 365 * j
    ensures YearOfEra(36524 * c + 1461 * k + 365 * j + t) == 100 * c + 4 * k + j
  {
    YearParts(c, k, j);
    var doe := 36524 * c + 1461 * k + 365 * j + t;
    var u := 24 * c + k + 365 * j + t;
    var e := if u >= 1460 then 1 else 0;
    assert doe == 1460 * (25 * c + k) + u;
    Div1460(25 * c + k, u);
    Centuries(c, 1461 * k + 365 * j + t);
    Div365(100 * c + 4 * k + j, t - e);
  }

  lemma {:induction false} DayParts(doe: int) returns (c: int, k: int, j: int, t: int)
    requires 0 <= doe <= 146096
    ensures 0 <= c <= 3 && 0 <= k <= 24 && 0 <= j <= 3
    ensures 0 <= t <= (if j == 3 && (k < 24 || c == 3) then 365 else 364)
    ensures doe == 36524 * c + 1461 * k + 365 * j + t
  {
    c := if doe == 146096 then 3 else doe / 36524;
    var inCentury := doe - c * 36524;
    assert 0 <= c <= 3 && 0 <= inCentury <= 36524 && (c < 3 ==> inCentury <= 36523);
    k := inCentury / 1461;
    var r := inCentury - k * 1461;
    assert 0 <= k <= 24 && 0 <= r <= 1460;
    j := if r == 1460 then 3 else r / 365;
    t := r - 365 * j;
  }

  /** Dividing out the extra days leaves the year the day falls in. */
  lemma {:induction false} YearOfEraFinds(doe: int)
    requires 0 <= doe <= 146096
    ensures 0 <= YearOfEra(doe) <= 399
    ensures YearStart(YearOfEra(doe)) <= doe < YearStart(YearOfEra(doe)) + YearLength(YearOfEra(doe))
  {
    var c, k, j, t := DayParts(doe);
    var y := 100 * c + 4 * k + j;
    YearParts(c, k, j);
    assert 0 <= y <= 399 && 0 <= t < YearLength(y);
    YearOfEraParts(c, k, j, t);
    assert YearOfEra(doe) == y && YearStart(y) + t == doe;
  }

  lemma {:induction false} YearOfEraUnique(yoe: int, doe: int)
    requires 0 <= doe <= 146096 && 0 <= yoe <= 399
    requires YearStart(yoe) <= doe < YearStart(yoe) + YearLength(yoe)
    ensures YearOfEra(doe) == yoe
  {
    YearOfEraFinds(doe);
    var found := YearOfEra(doe);
    if found < yoe {
      YearsAscend(found, yoe);
    } else if yoe < found {
      YearsAscend(yoe, found);
    }
  }

  // ----- months of a year ----------------------------------------------------------------

  /** Length of the `mp`-th month counted from March in a March-based year. */
  function MonthLength(mp: int, yearLength: int): int {
    if mp == 11 then yearLength - 337
    else if mp == 1 || mp == 3 || mp == 6 || mp == 8 then 30
    else 31
  }

  lemma {:induction false} MonthFinds(doy: int, yearLength: int)
    requires 0 <= doy < yearLength && 365 <= yearLength <= 366
    ensures var mp := (5 * doy + 2) / 153;
            0 <= mp <= 11 && 0 <= doy - MonthStart(mp) < MonthLength(mp, yearLength)
  {
    var mp := (5 * doy + 2) / 153;
    assert 0 <= mp <= 11;
    if mp == 0 {} else if mp == 1 {} else if mp == 2 {} else if mp == 3 {} else if mp == 4 {}
    else if mp == 5 {} else if mp == 6 {} else if mp == 7 {} else if mp == 8 {} else if mp == 9 {}
    else if mp == 10 {} else { assert mp == 11; }
  }

  lemma {:induction false} MonthUnique(mp: int, d: int, yearLength: int)
    requires 0 <= mp <= 11 && 365 <= yearLength <= 366 && 0 <= d < MonthLength(mp, yearLength)
    ensures 0 <= MonthStart(mp) + d < yearLength
    ensures (5 * (MonthStart(mp) + d) + 2) / 153 == mp
  {
    if mp == 0 {} else if mp == 1 {} else if mp == 2 {} else if mp == 3 {} else if mp == 4 {}
    else if mp == 5 {} else if mp == 6 {} else if mp == 7 {} else if mp == 8 {} else if mp == 9 {}
    else if mp == 10 {} else { assert mp == 11; }
  }

  lemma {:induction false} ModFour(x: int, era: int)
    ensures (x + era * 400) % 4 == x % 4
  {
    assert x + era * 400 == 4 * (x / 4 + 100 * era) + x % 4;
  }

  lemma {:induction false} ModHundred(x: int, era: int)
    ensures (x + era * 400) % 100 == x % 100
  {
    assert x + era * 400 == 100 * (x / 100 + 4 * era) + x % 100;
  }

  lemma {:induction false} ModFourHundred(x: int, era: int)
    ensures (x + era * 400) % 400 == x % 400
  {
    assert x + era * 400 == 400 * (x / 400 + era) + x % 400;
  }

  /** The February that ends a March-based year is the reference calendar's. */
  lemma {:induction false} LeapIsLong(yoe: int, era: int)
    requires 0 <= yoe <= 399
    ensures Leap(yoe + 1 + era * 400) <==> LongYear(yoe)
  {
    ModFour(yoe + 1, era);
    ModHundred(yoe + 1, era);
    ModFourHundred(yoe + 1, era);
  }

  // ----- the conversions -----------------------------------------------------------------

  lemma {:induction false} EraSplit(z: int)
    ensures 0 <= z - (z / 146097) * 146097 <= 146096
  {
  }

  lemma {:induction false} EraUnique(era: int, doe: int)
    requires 0 <= doe <= 146096
    ensures (era * 146097 + doe) / 146097 == era
  {
  }

  lemma {:induction false} EraOfDay(days: int, era: int, doe: int)
    requires 0 <= doe <= 146096 && days + 719468 == era * 146097 + doe
    ensures (days + 719468) / 146097 == era && days + 719468 - era * 146097 == doe
  {
    EraUnique(era, doe);
  }

  lemma {:induction false} TruncatedEra(days: int, era: int, doe: int)
    requires 0 <= doe <= 146096 && days + 719468 == era * 146097 + doe
    ensures TruncDiv(if days + 719468 >= 0 then days + 719468 else days + 719468 - 146096, 146097) == era
  {
    EraUnique(era, doe);
    EraUnique(-era, 146096 - doe);
  }

  /** The algorithm splits a day number into its era and day of era... */
  lemma {:induction false} SplitsIntoEra(days: int, era: int, doe: int)
    requires 0 <= doe <= 146096 && days + 719468 == era * 146097 + doe
    ensures CivilFromDays(days) == CivilFromEra(era, doe)
  {
    EraOfDay(days, era, doe);
  }

  /** ... and so does its second copy. */
  lemma {:induction false} AdapterSplitsIntoEra(days: int, era: int, doe: int)
    requires 0 <= doe <= 146096 && days + 719468 == era * 146097 + doe
    ensures CivilFromDaysAdapter(days) == CivilFromEra(era, doe)
  {
    TruncatedEra(days, era, doe);
  }

  /** A date by era, March-based year of era, month from March, and days into that month. */
  function PartsDate(era: int, yoe: int, mp: int, d: int): Date {
    Date(yoe + era * 400 + (if mp >= 10 then 1 else 0), if mp < 10 then mp + 3 else mp - 9, d + 1)
  }

  lemma {:induction false} PartsReal(era: int, yoe: int, mp: int, d: int)
    requires 0 <= yoe <= 399 && 0 <= mp <= 11
    ensures Real(PartsDate(era, yoe, mp, d)) <==> 0 <= d < MonthLength(mp, YearLength(yoe))
  {
    LeapIsLong(yoe, era);
  }

  lemma {:induction false} PartsDays(era: int, yoe: int, mp: int, d: int)
    requires 0 <= yoe <= 399 && 0 <= mp <= 11
    ensures DaysFromCivil(PartsDate(era, yoe, mp, d)) == era * 146097 + (YearStart(yoe) + MonthStart(mp) + d) - 719468
  {
    assert (yoe + era * 400) / 400 == era;
  }

  lemma {:induction false} PartsCover(c: Date) returns (era: int, yoe: int, mp: int, d: int)
    requires 1 <= c.month <= 12
    ensures 0 <= yoe <= 399 && 0 <= mp <= 11 && c == PartsDate(era, yoe, mp, d)
  {
    var y := c.year - (if c.month <= 2 then 1 else 0);
    era := y / 400;
    yoe := y - era * 400;
    mp := if c.month > 2 then c.month - 3 else c.month + 9;
    d := c.day - 1;
  }

  lemma {:induction false} CivilFromEraReal(era: int, doe: int)
    requires 0 <= doe <= 146096
    ensures Real(CivilFromEra(era, doe))
    ensures DaysFromCivil(CivilFromEra(era, doe)) == era * 146097 + doe - 719468
  {
    YearOfEraFinds(doe);
    var yoe := YearOfEra(doe);
    var doy := doe - YearStart(yoe);
    MonthFinds(doy, YearLength(yoe));
    var mp := (5 * doy + 2) / 153;
    var d := doy - MonthStart(mp);
    PartsReal(era, yoe, mp, d);
    PartsDays(era, yoe, mp, d);
    assert CivilFromEra(era, doe) == PartsDate(era, yoe, mp, d);
  }

  /** Every day number is a real date, and `days_from_civil` takes it back. */
  lemma {:induction false} CivilOfDaysIsReal(days: int)
    ensures Real(CivilFromDays(days))
    ensures DaysFromCivil(CivilFromDays(days)) == days
  {
    var z := days + 719468;
    EraSplit(z);
    CivilFromEraReal(z / 146097, z - (z / 146097) * 146097);
  }

  lemma {:induction false} PartsOfEra(era: int, yoe: int, mp: int, d: int)
    requires 0 <= yoe <= 399 && 0 <= mp <= 11 && 0 <= d < MonthLength(mp, YearLength(yoe))
    ensures var doe := YearStart(yoe) + MonthStart(mp) + d;
            0 <= doe <= 146096 && CivilFromEra(era, doe) == PartsDate(era, yoe, mp, d)
  {
    MonthUnique(mp, d, YearLength(yoe));
    YearStep(yoe);
    if yoe < 399 { YearsAscendToEnd(yoe); }
    YearOfEraUnique(yoe, YearStart(yoe) + MonthStart(mp) + d);
  }

  lemma {:induction false} PartsRoundTrip(era: int, yoe: int, mp: int, d: int)
    requires 0 <= yoe <= 399 && 0 <= mp <= 11 && 0 <= d < MonthLength(mp, YearLength(yoe))
    ensures CivilFromDays(DaysFromCivil(PartsDate(era, yoe, mp, d))) == PartsDate(era, yoe, mp, d)
  {
    PartsDays(era, yoe, mp, d);
    PartsOfEra(era, yoe, mp, d);
    SplitsIntoEra(DaysFromCivil(PartsDate(era, yoe, mp, d)), era, YearStart(yoe) + MonthStart(mp) + d);
  }

  lemma {:induction false} RealDateRoundTrips(c: Date)
    requires Real(c)
    ensures CivilFromDays(DaysFromCivil(c)) == c
  {
    var era, yoe, mp, d := PartsCover(c);
    PartsReal(era, yoe, mp, d);
    PartsRoundTrip(era, yoe, mp, d);
  }

  lemma {:induction false} YearsAscendToEnd(yoe: int)
    requires 0 <= yoe < 399
    ensures YearStart(yoe) + YearLength(yoe) <= 146097
  {
    YearsAscend(yoe, 399);
    YearStep(399);
  }

  /** The check `instant` relies on: a triple survives the round trip exactly when its month has
      that day. */
  lemma {:induction false} RoundTripIffReal(c: Date)
    requires 1 <= c.month <= 12
    ensures CivilFromDays(DaysFromCivil(c)) == c <==> Real(c)
  {
    CivilOfDaysIsReal(DaysFromCivil(c));
    if Real(c) {
      RealDateRoundTrips(c);
    }
  }

  lemma {:induction false} MonthStep(mp: int)
    requires 0 <= mp < 11
    ensures MonthStart(mp) + MonthLength(mp, 365) == MonthStart(mp + 1)
  {
    if mp == 0 {} else if mp == 1 {} else if mp == 2 {} else if mp == 3 {} else if mp == 4 {}
    else if mp == 5 {} else if mp == 6 {} else if mp == 7 {} else if mp == 8 {} else if mp == 9 {}
    else { assert mp == 10; }
  }

  lemma {:induction false} TomorrowOfParts(era: int, yoe: int, mp: int, d: int)
    requires 0 <= yoe <= 399 && 0 <= mp <= 11 && 0 <= d < MonthLength(mp, YearLength(yoe))
    ensures Tomorrow(PartsDate(era, yoe, mp, d)) ==
            if d + 1 < MonthLength(mp, YearLength(yoe)) then PartsDate(era, yoe, mp, d + 1)
            else if mp < 11 then PartsDate(era, yoe, mp + 1, 0)
            else if yoe < 399 then PartsDate(era, yoe + 1, 0, 0)
            else PartsDate(era + 1, 0, 0, 0)
  {
    LeapIsLong(yoe, era);
  }

  lemma {:induction false} TomorrowIsNextDay(c: Date)
    requires Real(c)
    ensures Real(Tomorrow(c)) && DaysFromCivil(Tomorrow(c)) == DaysFromCivil(c) + 1
  {
    var era, yoe, mp, d := PartsCover(c);
    PartsReal(era, yoe, mp, d);
    PartsDays(era, yoe, mp, d);
    TomorrowOfParts(era, yoe, mp, d);
    if d + 1 < MonthLength(mp, YearLength(yoe)) {
      PartsReal(era, yoe, mp, d + 1);
      PartsDays(era, yoe, mp, d + 1);
    } else if mp < 11 {
      MonthStep(mp);
      PartsReal(era, yoe, mp + 1, 0);
      PartsDays(era, yoe, mp + 1, 0);
    } else {
      YearStep(yoe);
      var era', yoe' := if yoe < 399 then era else era + 1, if yoe < 399 then yoe + 1 else 0;
      PartsReal(era', yoe', 0, 0);
      PartsDays(era', yoe', 0, 0);
    }
  }

  lemma {:induction false} StepFrom(c: Date, days: int)
    requires Real(c) && DaysFromCivil(c) == days
    ensures CivilFromDays(days + 1) == Tomorrow(c)
  {
    TomorrowIsNextDay(c);
    RealDateRoundTrips(Tomorrow(c));
  }

  /** The whole calendar: each day number is the date after the one before it, without end in
      either direction. */
  lemma {:induction false} CivilIsTheCalendar(days: int)
    ensures CivilFromDays(days + 1) == Tomorrow(CivilFromDays(days))
  {
    CivilOfDaysIsReal(days);
    StepFrom(CivilFromDays(days), days);
  }

  /** ... and day 0 is 1970-01-01. */
  lemma {:induction false} EpochIsDayZero()
    ensures CivilFromDays(0) == Date(1970, 1, 1)
  {
    PartsOfEra(4, 369, 10, 0);
    SplitsIntoEra(0, 4, 135080);
  }

  /** The two copies of the algorithm agree on every day, before and after the epoch. */
  lemma {:induction false} CopiesAgree(days: int)
    ensures CivilFromDaysAdapter(days) == CivilFromDays(days)
  {
    var z := days + 719468;
    var era := z / 146097;
    var doe := z - era * 146097;
    EraSplit(z);
    SplitsIntoEra(days, era, doe);
    AdapterSplitsIntoEra(days, era, doe);
  }
}
