/** Day numbers to proleptic Gregorian dates, checked against the calendar's own rules. */
module CivilDate {

  datatype Date = Date(year: int, month: int, day: int)

  /** Division that truncates toward zero. */
  function TruncDiv(a: int, b: int): int
    requires b > 0
  {
    if a >= 0 then a / b else -((-a) / b)
  }

  /** The date of day `z`, where day 0 is 1970-01-01. */
  function CivilFromDays(z: int): Date {
    var z := z + 719468;
    var era := TruncDiv(if z >= 0 then z else z - 146096, 146097);
    CivilInEra(era, z - era * 146097)
  }

  function CivilInEra(era: int, doe: int): Date {
    var yoe := YearOfEra(doe);
    var doy := doe - (365 * yoe + TruncDiv(yoe, 4) - TruncDiv(yoe, 100));
    CivilInYear(yoe + era * 400, doy)
  }

  function YearOfEra(doe: int): int {
    TruncDiv(doe - TruncDiv(doe, 1460) + TruncDiv(doe, 36524) - TruncDiv(doe, 146096), 365)
  }

  function CivilInYear(y: int, doy: int): Date {
    var mp := TruncDiv(5 * doy + 2, 153);
    var d := doy - TruncDiv(153 * mp + 2, 5) + 1;
    var m := if mp < 10 then mp + 3 else mp - 9;
    Date(if m <= 2 then y + 1 else y, m, d)
  }

  // ---------- The calendar ----------

  predicate Leap(y: int) { y % 4 == 0 && (y % 100 != 0 || y % 400 == 0) }

  function DaysIn(y: int, m: int): int {
    if m == 2 then (if Leap(y) then 29 else 28)
    else if m == 4 || m == 6 || m == 9 || m == 11 then 30
    else 31
  }

  predicate IsDate(t: Date) { 1 <= t.month <= 12 && 1 <= t.day <= DaysIn(t.year, t.month) }

  function NextDay(t: Date): Date {
    if t.day < DaysIn(t.year, t.month) then Date(t.year, t.month, t.day + 1)
    else if t.month < 12 then Date(t.year, t.month + 1, 1)
    else Date(t.year + 1, 1, 1)
  }

  // ---------- Years that start in March ----------

  /** Day of the 400-year era on which year `y` of the era starts. */
  function YearStart(y: int): int
    requires 0 <= y
  {
    365 * y + y / 4 - y / 100
  }

  function YearEnd(y: int): int
    requires 0 <= y
  {
    if y == 399 then 146097 else YearStart(y + 1)
  }

  /** Day of the year on which month `mp` starts, counting from March. */
  function MonthStart(mp: int): int
    requires 0 <= mp
  {
    (153 * mp + 2) / 5
  }

  function FromMarch(year: int, mp: int, day: int): Date {
    var m := if mp < 10 then mp + 3 else mp - 9;
    Date(if m <= 2 then year + 1 else year, m, day)
  }

  /** A day of month `mp` of year `yoe` of an era. */
  function EraDate(era: int, yoe: int, mp: int, day: int): Date { FromMarch(yoe + era * 400, mp, day) }

  /** Day `doe` of an era is day `day` of month `mp` of year `yoe` of the era. */
  ghost predicate Located(doe: int, yoe: int, mp: int, day: int) {
    && 0 <= doe < 146097 && 0 <= yoe < 400 && YearStart(yoe) <= doe < YearEnd(yoe)
    && 0 <= mp < 12 && day >= 1
    && doe == YearStart(yoe) + MonthStart(mp) + day - 1
    && (mp < 11 ==> doe < YearStart(yoe) + MonthStart(mp + 1))
  }

  /** The day-of-era correction that makes every year 365 long. */
  function Flat(doe: int): int
    requires 0 <= doe
  {
    doe - doe / 1460 + doe / 36524 - doe / 146096
  }

  lemma FlatStep(doe: int)
    requires 0 <= doe < 146096
    ensures Flat(doe) <= Flat(doe + 1)
  {
    assert (doe + 1) / 1460 <= doe / 1460 + 1;
    assert doe / 36524 <= (doe + 1) / 36524;
    if doe + 1 < 146096 { assert (doe + 1) / 146096 == 0; }
  }

  lemma {:induction false} FlatGrows(a: int, b: int)
    requires 0 <= a <= b <= 146096
    ensures Flat(a) <= Flat(b)
    decreases b - a
  {
    if a < b {
      FlatStep(b - 1);
      FlatGrows(a, b - 1);
    }
  }

  /** How far into its four-year and its hundred-year cycle a year starts. */
  lemma CyclesAtStart(y: int)
    requires 0 <= y < 400
    ensures YearStart(y) == 1460 * (y / 4) + (365 * (y % 4) + y / 4 - y / 100)
    ensures YearStart(y) == 36524 * (y / 100) + (365 * (y % 100) + (y % 100) / 4)
    ensures 0 <= 365 * (y % 4) + y / 4 - y / 100 < 1460 && (y > 0 ==> 365 * (y % 4) + y / 4 - y / 100 > 0)
    ensures 0 <= 365 * (y % 100) + (y % 100) / 4 < 36524
  {
    assert y / 4 == 25 * (y / 100) + (y % 100) / 4;
  }

  lemma FlatAtStart(y: int)
    requires 0 <= y < 400
    ensures 0 <= YearStart(y) < 146096 && Flat(YearStart(y)) == 365 * y
  {
    CyclesAtStart(y);
    var s := YearStart(y);
    assert s / 1460 == y / 4;
    assert s / 36524 == y / 100;
  }

  lemma FlatBeforeEnd(y: int)
    requires 0 <= y < 400
    ensures YearStart(y) < YearEnd(y) <= 146097 && Flat(YearEnd(y) - 1) < 365 * (y + 1)
  {
    if y < 399 {
      FlatAtStart(y + 1);
      FlatAtStart(y);
      LastDayFlat(y + 1);
    }
  }

  lemma SameQuotient(q: int, r: int)
    requires 0 < r < 1460
    ensures (1460 * q + r - 1) / 1460 == q == (1460 * q + r) / 1460
  {
  }

  lemma FlatBefore(s: int)
    requires 0 < s < 146096 && (s - 1) / 1460 == s / 1460
    ensures Flat(s - 1) < Flat(s)
  {
    assert (s - 1) / 36524 <= s / 36524;
  }

  lemma LastDayFlat(y: int)
    requires 0 < y < 400
    ensures YearStart(y) > 0 && Flat(YearStart(y) - 1) < 365 * y
  {
    FlatAtStart(y);
    CyclesAtStart(y);
    SameQuotient(y / 4, 365 * (y % 4) + y / 4 - y / 100);
    FlatBefore(YearStart(y));
  }

  /** Some year of the era contains the day. */
  lemma {:induction false} YearOf(doe: int, y: int) returns (yoe: int)
    requires 0 <= y < 400 && YearStart(y) <= doe < 146097
    ensures y <= yoe < 400 && YearStart(yoe) <= doe < YearEnd(yoe)
    decreases 400 - y
  {
    if doe < YearEnd(y) { yoe := y; } else { yoe := YearOf(doe, y + 1); }
  }

  lemma YearByDivision(doe: int, yoe: int)
    requires 0 <= yoe < 400 && YearStart(yoe) <= doe < YearEnd(yoe)
    ensures 0 <= doe < 146097 && Flat(doe) / 365 == yoe
  {
    FlatAtStart(yoe);
    FlatBeforeEnd(yoe);
    FlatGrows(YearStart(yoe), doe);
    FlatGrows(doe, YearEnd(yoe) - 1);
    assert 365 * yoe <= Flat(doe) < 365 * (yoe + 1);
  }

  lemma MonthStarts()
    ensures MonthStart(0) == 0 && MonthStart(1) == 31 && MonthStart(2) == 61 && MonthStart(3) == 92
    ensures MonthStart(4) == 122 && MonthStart(5) == 153 && MonthStart(6) == 184 && MonthStart(7) == 214
    ensures MonthStart(8) == 245 && MonthStart(9) == 275 && MonthStart(10) == 306 && MonthStart(11) == 337
  {
  }

  lemma MonthByDivision(doy: int)
    requires 0 <= doy < 366
    ensures var mp := (5 * doy + 2) / 153;
      0 <= mp < 12 && MonthStart(mp) <= doy && (mp < 11 ==> doy < MonthStart(mp + 1))
  {
    var mp := (5 * doy + 2) / 153;
    assert 153 * mp <= 5 * doy + 2 < 153 * mp + 153;
  }

  lemma EraByDivision(z: int)
    ensures TruncDiv(if z >= 0 then z else z - 146096, 146097) == z / 146097
  {
    if z < 0 {
      var q, r := z / 146097, z % 146097;
      assert 146096 - z == 146097 * (-q) + (146096 - r);
    }
  }

  lemma QuotientSteps(n: int)
    requires n >= 1
    ensures n / 4 - (n - 1) / 4 == if n % 4 == 0 then 1 else 0
    ensures n / 100 - (n - 1) / 100 == if n % 100 == 0 then 1 else 0
  {
  }

  lemma LeapBelow400(n: int)
    requires 1 <= n < 400
    ensures Leap(n) <==> n % 4 == 0 && n % 100 != 0
    ensures n % 100 == 0 ==> n % 4 == 0
  {
  }

  lemma YearLength(y: int)
    requires 0 <= y < 400
    ensures YearEnd(y) - YearStart(y) == if Leap(y + 1) then 366 else 365
  {
    if y < 399 {
      QuotientSteps(y + 1);
      LeapBelow400(y + 1);
    }
  }

  lemma InYear(y: int, doy: int) returns (mp: int, day: int)
    requires 0 <= doy < 366
    ensures 0 <= mp < 12 && day >= 1 && doy == MonthStart(mp) + day - 1
    ensures mp < 11 ==> doy < MonthStart(mp + 1)
    ensures CivilInYear(y, doy) == FromMarch(y, mp, day)
  {
    MonthByDivision(doy);
    mp := (5 * doy + 2) / 153;
    day := doy - MonthStart(mp) + 1;
  }

  lemma YearOfEraIsFlat(doe: int)
    requires 0 <= doe < 146097
    ensures YearOfEra(doe) == Flat(doe) / 365
  {
    FlatGrows(0, doe);
  }

  lemma InEra(era: int, doe: int) returns (yoe: int, mp: int, day: int)
    requires 0 <= doe < 146097
    ensures Located(doe, yoe, mp, day)
    ensures CivilInEra(era, doe) == EraDate(era, yoe, mp, day)
  {
    yoe := YearOf(doe, 0);
    YearByDivision(doe, yoe);
    YearOfEraIsFlat(doe);
    YearLength(yoe);
    mp, day := InYear(yoe + era * 400, doe - YearStart(yoe));
  }

  function EraOf(z: int): int { (z + 719468) / 146097 }

  function DayOfEra(z: int): (doe: int)
    ensures 0 <= doe < 146097
  {
    (z + 719468) % 146097
  }

  lemma SplitDay(z: int)
    ensures CivilFromDays(z) == CivilInEra(EraOf(z), DayOfEra(z))
  {
    EraByDivision(z + 719468);
  }

  // ---------- Validity and successor ----------

  /** Months counted from March have the calendar's lengths; February takes what is left of the year. */
  lemma MonthLength(y: int, mp: int)
    requires 0 <= mp < 12
    ensures var t := FromMarch(y, mp, 1);
      1 <= t.month <= 12
      && DaysIn(t.year, t.month) ==
           if mp < 11 then MonthStart(mp + 1) - MonthStart(mp) else if Leap(y + 1) then 29 else 28
  {
    MonthStarts();
  }

  lemma Mod400(y: int, k: int)
    ensures (y + k * 400) % 400 == y % 400
  {
    assert y + k * 400 == 400 * (y / 400 + k) + y % 400;
  }

  lemma Mod100(y: int, k: int)
    ensures (y + k * 400) % 100 == y % 100
  {
    assert y + k * 400 == 100 * (y / 100 + 4 * k) + y % 100;
  }

  lemma Mod4(y: int, k: int)
    ensures (y + k * 400) % 4 == y % 4
  {
    assert y + k * 400 == 4 * (y / 4 + 100 * k) + y % 4;
  }

  lemma LeapInEra(y: int, era: int)
    ensures Leap(y + era * 400) == Leap(y)
  {
    Mod400(y, era);
    Mod100(y, era);
    Mod4(y, era);
  }

  lemma YearEndsInFebruary(yoe: int)
    requires 0 <= yoe < 400
    ensures YearEnd(yoe) == YearStart(yoe) + MonthStart(11) + if Leap(yoe + 1) then 29 else 28
  {
    MonthStarts();
    YearLength(yoe);
  }

  lemma LocatedIsDate(era: int, doe: int, yoe: int, mp: int, day: int)
    requires Located(doe, yoe, mp, day)
    ensures IsDate(EraDate(era, yoe, mp, day))
    ensures var t := EraDate(era, yoe, mp, day);
      t.day == DaysIn(t.year, t.month) <==>
      doe + 1 == if mp < 11 then YearStart(yoe) + MonthStart(mp + 1) else YearEnd(yoe)
  {
    MonthLength(yoe + era * 400, mp);
    LeapInEra(yoe + 1, era);
    YearEndsInFebruary(yoe);
  }

  /** A day of the era determines its place in it. */
  lemma LocatedOnce(doe: int, y1: int, m1: int, d1: int, y2: int, m2: int, d2: int)
    requires Located(doe, y1, m1, d1) && Located(doe, y2, m2, d2)
    ensures y1 == y2 && m1 == m2 && d1 == d2
  {
    YearByDivision(doe, y1);
    YearByDivision(doe, y2);
    MonthStarts();
  }

  /** The place of the next day, within the era. */
  lemma NextLocated(doe: int, yoe: int, mp: int, day: int) returns (y': int, m': int, d': int)
    requires Located(doe, yoe, mp, day) && doe + 1 < 146097
    ensures Located(doe + 1, y', m', d')
    ensures
      if doe + 1 == (if mp < 11 then YearStart(yoe) + MonthStart(mp + 1) else YearEnd(yoe)) then
        d' == 1 && if mp < 11 then y' == yoe && m' == mp + 1 else y' == yoe + 1 && m' == 0
      else y' == yoe && m' == mp && d' == day + 1
  {
    MonthStarts();
    YearEndsInFebruary(yoe);
    if mp < 11 && doe + 1 == YearStart(yoe) + MonthStart(mp + 1) {
      y', m', d' := yoe, mp + 1, 1;
    } else if mp == 11 && doe + 1 == YearEnd(yoe) {
      y', m', d' := yoe + 1, 0, 1;
      YearEndsInFebruary(y');
    } else {
      y', m', d' := yoe, mp, day + 1;
    }
  }

  lemma NextMonth(y: int, mp: int, day: int)
    requires 0 <= mp < 12
    requires var t := FromMarch(y, mp, day); t.day == DaysIn(t.year, t.month)
    ensures NextDay(FromMarch(y, mp, day)) == if mp < 11 then FromMarch(y, mp + 1, 1) else FromMarch(y + 1, 0, 1)
  {
  }

  /** Within an era the next place is the next calendar day. */
  lemma NextPlace(era: int, doe: int, yoe: int, mp: int, day: int) returns (y': int, m': int, d': int)
    requires Located(doe, yoe, mp, day) && doe + 1 < 146097
    ensures Located(doe + 1, y', m', d')
    ensures EraDate(era, y', m', d') == NextDay(EraDate(era, yoe, mp, day))
  {
    y', m', d' := NextLocated(doe, yoe, mp, day);
    LocatedIsDate(era, doe, yoe, mp, day);
    var t := EraDate(era, yoe, mp, day);
    if t.day == DaysIn(t.year, t.month) { NextMonth(yoe + era * 400, mp, day); }
  }

  lemma NextInEra(era: int, doe: int)
    requires 0 <= doe && doe + 1 < 146097
    ensures CivilInEra(era, doe + 1) == NextDay(CivilInEra(era, doe))
  {
    var yoe, mp, day := InEra(era, doe);
    var y2, m2, d2 := InEra(era, doe + 1);
    var y', m', d' := NextPlace(era, doe, yoe, mp, day);
    LocatedOnce(doe + 1, y2, m2, d2, y', m', d');
  }

  lemma LastOfEra(y: int, m: int, d: int)
    requires Located(146096, y, m, d)
    ensures y == 399 && m == 11 && d == 29
  {
    MonthStarts();
    LocatedOnce(146096, y, m, d, 399, 11, 29);
  }

  lemma FirstOfEra(y: int, m: int, d: int)
    requires Located(0, y, m, d)
    ensures y == 0 && m == 0 && d == 1
  {
    MonthStarts();
    LocatedOnce(0, y, m, d, 0, 0, 1);
  }

  lemma LeapDay(before: int, after: int)
    requires before + 1 == after && DaysIn(after, 2) == 29
    ensures FromMarch(after, 0, 1) == NextDay(FromMarch(before, 11, 29))
  {
  }

  lemma YearsMeet(era: int)
    ensures (399 + era * 400) + 1 == 0 + (era + 1) * 400 == 400 + era * 400
  {
  }

  /** The last day of an era is 29 February of a leap year, and the next is 1 March. */
  lemma CrossEra(era: int)
    ensures EraDate(era + 1, 0, 0, 1) == NextDay(EraDate(era, 399, 11, 29))
  {
    YearsMeet(era);
    LeapEra(era);
    LeapDay(399 + era * 400, 0 + (era + 1) * 400);
  }

  /** `date` puts day `doe` of era `era` where it belongs. */
  ghost predicate Places(date: (int, int) -> Date, era: int, doe: int) {
    exists yoe, mp, day :: Located(doe, yoe, mp, day) && date(era, doe) == EraDate(era, yoe, mp, day)
  }

  lemma CivilPlaces(era: int, doe: int)
    requires 0 <= doe < 146097
    ensures Places(CivilInEra, era, doe)
  {
    var yoe, mp, day := InEra(era, doe);
  }

  lemma LastDate(date: (int, int) -> Date, era: int, last: int)
    requires last == 146096 && Places(date, era, last)
    ensures date(era, last) == EraDate(era, 399, 11, 29)
  {
    var y, m, d :| Located(last, y, m, d) && date(era, last) == EraDate(era, y, m, d);
    LastOfEra(y, m, d);
  }

  lemma FirstDate(date: (int, int) -> Date, era: int, first: int)
    requires first == 0 && Places(date, era, first)
    ensures date(era, first) == EraDate(era, 0, 0, 1)
  {
    var y, m, d :| Located(first, y, m, d) && date(era, first) == EraDate(era, y, m, d);
    FirstOfEra(y, m, d);
  }

  lemma NextEraDay(date: (int, int) -> Date, era: int, last: int, first: int)
    requires last == 146096 && first == 0
    requires date(era, last) == EraDate(era, 399, 11, 29)
    requires date(era + 1, first) == EraDate(era + 1, 0, 0, 1)
    ensures date(era + 1, first) == NextDay(date(era, last))
  {
    CrossEra(era);
  }

  lemma BoundarySuccessor(date: (int, int) -> Date, era: int, last: int, first: int)
    requires last == 146096 && first == 0 && Places(date, era, last) && Places(date, era + 1, first)
    ensures date(era + 1, first) == NextDay(date(era, last))
  {
    LastDate(date, era, last);
    FirstDate(date, era + 1, first);
    NextEraDay(date, era, last, first);
  }

  lemma LeapEra(era: int)
    ensures DaysIn(400 + era * 400, 2) == 29
  {
    LeapInEra(400, era);
  }

  /** Every day number, negative ones included, gives a calendar date. */
  lemma CivilIsDate(z: int)
    ensures IsDate(CivilFromDays(z))
    ensures 1 <= CivilFromDays(z).month <= 12 && 1 <= CivilFromDays(z).day <= 31
  {
    SplitDay(z);
    var yoe, mp, day := InEra(EraOf(z), DayOfEra(z));
    LocatedIsDate(EraOf(z), DayOfEra(z), yoe, mp, day);
  }

  lemma NextSplit(z: int)
    ensures if DayOfEra(z) == 146096 then EraOf(z + 1) == EraOf(z) + 1 && DayOfEra(z + 1) == 0
            else EraOf(z + 1) == EraOf(z) && DayOfEra(z + 1) == DayOfEra(z) + 1
  {
  }

  lemma EraSuccessor(era: int, doe: int, era': int, doe': int)
    requires 0 <= doe < 146097
    requires if doe == 146096 then era' == era + 1 && doe' == 0 else era' == era && doe' == doe + 1
    ensures CivilInEra(era', doe') == NextDay(CivilInEra(era, doe))
  {
    if doe < 146096 {
      NextInEra(era, doe);
    } else {
      CivilPlaces(era, doe);
      CivilPlaces(era', doe');
      BoundarySuccessor(CivilInEra, era, doe, doe');
    }
  }

  /** Consecutive day numbers give consecutive calendar days. */
  lemma CivilSuccessor(z: int)
    ensures CivilFromDays(z + 1) == NextDay(CivilFromDays(z))
  {
    SplitDay(z);
    SplitDay(z + 1);
    NextSplit(z);
    EraSuccessor(EraOf(z), DayOfEra(z), EraOf(z + 1), DayOfEra(z + 1));
  }

  lemma EpochStart()
    ensures CivilFromDays(0) == Date(1970, 1, 1)
  {
  }

  // ---------- Counting days ----------

  /** The calendar walked forward day by day. */
  function DaysLater(t: Date, n: nat): Date {
    if n == 0 then t else NextDay(DaysLater(t, n - 1))
  }

  ghost predicate StepsAt(date: int -> Date, z: int) { IsDate(date(z)) && date(z + 1) == NextDay(date(z)) }

  lemma CivilSteps(z: int)
    ensures StepsAt(CivilFromDays, z)
  {
    CivilIsDate(z);
    CivilSuccessor(z);
  }

  lemma {:induction false} StepsCountDays(date: int -> Date, z: int, n: nat)
    requires forall k :: StepsAt(date, k)
    ensures date(z + n) == DaysLater(date(z), n)
  {
    if n > 0 {
      StepsCountDays(date, z, n - 1);
      assert StepsAt(date, z + n - 1);
    }
  }

  /** The date of day `z + n` is found by walking `n` calendar days from the date of day `z`. */
  lemma CivilCountsDays(z: int, n: nat)
    ensures CivilFromDays(z + n) == DaysLater(CivilFromDays(z), n)
  {
    forall k ensures StepsAt(CivilFromDays, k) { CivilSteps(k); }
    StepsCountDays(CivilFromDays, z, n);
  }

  ghost predicate StartsAtEpoch(date: int -> Date) {
    (forall k :: StepsAt(date, k)) && date(0) == Date(1970, 1, 1)
  }

  lemma CivilStartsAtEpoch()
    ensures StartsAtEpoch(CivilFromDays)
  {
    EpochStart();
    forall k ensures StepsAt(CivilFromDays, k) { CivilSteps(k); }
  }

  lemma EpochSteps(date: int -> Date, z: int, n: nat)
    requires StartsAtEpoch(date)
    ensures date(n) == DaysLater(Date(1970, 1, 1), n)
    ensures z + n == 0 ==> DaysLater(date(z), n) == Date(1970, 1, 1)
  {
    StepsCountDays(date, 0, n);
    StepsCountDays(date, z, n);
  }

  /** So day 0 and the calendar determine every later date. */
  lemma CivilFromEpoch(n: nat)
    ensures CivilFromDays(n) == DaysLater(Date(1970, 1, 1), n)
  {
    CivilStartsAtEpoch();
    EpochSteps(CivilFromDays, 0, n);
  }

  /** And every earlier one: walking forward from it reaches the epoch. */
  lemma CivilBeforeEpoch(z: int, n: nat)
    requires z + n == 0
    ensures DaysLater(CivilFromDays(z), n) == Date(1970, 1, 1)
  {
    CivilStartsAtEpoch();
    EpochSteps(CivilFromDays, z, n);
  }

  lemma LeapDayOf2000()
    ensures CivilFromDays(11016) == Date(2000, 2, 29)
  {
    assert YearOfEra(146096) == 399;
    assert CivilInEra(4, 146096) == CivilInYear(1999, 365);
    assert CivilInYear(1999, 365) == Date(2000, 2, 29);
  }

  lemma EndOfFebruary()
    ensures CivilFromDays(-25509) == Date(1900, 2, 28)
  {
    assert YearOfEra(109571) == 299;
    assert CivilInEra(4, 109571) == CivilInYear(1899, 364);
    assert CivilInYear(1899, 364) == Date(1900, 2, 28);
  }

  lemma StartOfMarch()
    ensures CivilFromDays(-25508) == Date(1900, 3, 1)
  {
    assert YearOfEra(109572) == 300;
    assert CivilInEra(4, 109572) == CivilInYear(1900, 0);
    assert CivilInYear(1900, 0) == Date(1900, 3, 1);
  }

  /** A leap day of a year divisible by 400, and the end of February in one divisible by 100 only. */
  lemma KnownDates()
    ensures CivilFromDays(11016) == Date(2000, 2, 29)
    ensures CivilFromDays(-25509) == Date(1900, 2, 28) && CivilFromDays(-25508) == Date(1900, 3, 1)
  {
    LeapDayOf2000();
    EndOfFebruary();
    StartOfMarch();
  }

  predicate Earlier(a: Date, b: Date) {
    a.year < b.year || (a.year == b.year && (a.month < b.month || (a.month == b.month && a.day < b.day)))
  }

  lemma {:induction false} StepsIncrease(date: int -> Date, a: int, b: int)
    requires a < b && forall k :: StepsAt(date, k)
    ensures Earlier(date(a), date(b))
    decreases b - a
  {
    assert StepsAt(date, b - 1);
    if a < b - 1 { StepsIncrease(date, a, b - 1); }
  }

  /** Later day numbers give later dates, so no two days share a date. */
  lemma CivilIncreases(a: int, b: int)
    requires a < b
    ensures Earlier(CivilFromDays(a), CivilFromDays(b)) && CivilFromDays(a) != CivilFromDays(b)
  {
    forall k ensures StepsAt(CivilFromDays, k) { CivilSteps(k); }
    StepsIncrease(CivilFromDays, a, b);
  }
}
