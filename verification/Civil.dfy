/** The calendar arithmetic of `engine/src/log.rs`: days since the Unix epoch to a civil date. */
module Civil {

  datatype Date = Date(year: int, month: int, day: int)

  // ----- the program -----

  /** Division as the program's signed integers do it, towards zero. */
  function Quotient(a: int, b: int): int
    requires b > 0
  {
    if a >= 0 then a / b else -(-a / b)
  }

  const EPOCH := 719_468
  const ERA := 146_097

  function EraOf(shifted: int): int {
    Quotient(if shifted >= 0 then shifted else shifted - 146_096, ERA)
  }

  function YearOfEra(dayOfEra: int): int {
    (dayOfEra - dayOfEra / 1460 + dayOfEra / 36_524 - dayOfEra / 146_096) / 365
  }

  function DayOfYear(dayOfEra: int, yearOfEra: int): int {
    dayOfEra - (365 * yearOfEra + yearOfEra / 4 - yearOfEra / 100)
  }

  /** From a year that begins in March and a day of that year. */
  function FromMarch(year: int, dayOfYear: int): Date {
    var position := (5 * dayOfYear + 2) / 153;
    var day := dayOfYear - (153 * position + 2) / 5 + 1;
    var month := if position < 10 then position + 3 else position - 9;
    Date(if month <= 2 then year + 1 else year, month, day)
  }

  function CivilFromDays(days: int): Date {
    var shifted := days + EPOCH;
    var era := EraOf(shifted);
    var dayOfEra := shifted - era * ERA;
    var yearOfEra := YearOfEra(dayOfEra);
    FromMarch(yearOfEra + era * 400, DayOfYear(dayOfEra, yearOfEra))
  }

  // ----- the calendar -----

  predicate Leap(year: int) {
    year % 4 == 0 && (year % 100 != 0 || year % 400 == 0)
  }

  function DaysIn(year: int, month: int): int {
    if month in {4, 6, 9, 11} then 30
    else if month == 2 then if Leap(year) then 29 else 28
    else 31
  }

  predicate Proper(d: Date) {
    1 <= d.month <= 12 && 1 <= d.day <= DaysIn(d.year, d.month)
  }

  function NextDay(d: Date): Date {
    if d.day < DaysIn(d.year, d.month) then d.(day := d.day + 1)
    else if d.month < 12 then Date(d.year, d.month + 1, 1)
    else Date(d.year + 1, 1, 1)
  }

  // ----- a day within its 400 years -----

  /** A March-based year within an era as century, four-year cycle and year of the cycle, and a day of
      that year, whose 366th exists when the February that ends it has a 29th. */
  datatype Place = Place(era: int, century: int, cycle: int, year: int, day: int)

  predicate EndsLeap(p: Place) {
    p.year == 3 && (p.cycle < 24 || p.century == 3)
  }

  predicate Placed(p: Place) {
    && 0 <= p.century <= 3 && 0 <= p.cycle <= 24 && 0 <= p.year <= 3
    && 0 <= p.day <= if EndsLeap(p) then 365 else 364
  }

  function InEra(p: Place): int {
    36_524 * p.century + 1461 * p.cycle + 365 * p.year + p.day
  }

  function EraYear(p: Place): int {
    100 * p.century + 4 * p.cycle + p.year
  }

  function PlaceOf(shifted: int): (p: Place)
    ensures Placed(p) && shifted == ERA * p.era + InEra(p)
  {
    var era := shifted / ERA;
    var e := shifted % ERA;
    var century := if e / 36_524 > 3 then 3 else e / 36_524;
    var c := e - 36_524 * century;
    var cycle := c / 1461;
    var f := c % 1461;
    var year := if f / 365 > 3 then 3 else f / 365;
    Place(era, century, cycle, year, f - 365 * year)
  }

  lemma EraIs(shifted: int, p: Place)
    requires Placed(p) && shifted == ERA * p.era + InEra(p)
    ensures EraOf(shifted) == p.era && 0 <= InEra(p) < ERA
  {
    assert 0 <= InEra(p) < ERA;
  }

  lemma CyclesBefore(p: Place)
    requires Placed(p)
    ensures var t := 24 * p.century + p.cycle + 365 * p.year + p.day;
            InEra(p) / 1460 == 25 * p.century + p.cycle + if t >= 1460 then 1 else 0
  {
    var t := 24 * p.century + p.cycle + 365 * p.year + p.day;
    assert InEra(p) == 1460 * (25 * p.century + p.cycle) + t;
  }

  lemma CenturiesBefore(p: Place)
    requires Placed(p)
    ensures InEra(p) / 36_524 - InEra(p) / 146_096 == p.century
  {
  }

  lemma YearIs(p: Place)
    requires Placed(p)
    ensures YearOfEra(InEra(p)) == EraYear(p) && DayOfYear(InEra(p), EraYear(p)) == p.day
  {
    var e := InEra(p);
    var t := 24 * p.century + p.cycle + 365 * p.year + p.day;
    CyclesBefore(p);
    CenturiesBefore(p);
    assert e - e / 1460 + e / 36_524 - e / 146_096 == 365 * EraYear(p) + p.day - if t >= 1460 then 1 else 0;
    assert EraYear(p) / 4 == 25 * p.century + p.cycle && EraYear(p) / 100 == p.century;
  }

  lemma CivilIs(days: int, p: Place)
    requires Placed(p) && days + EPOCH == ERA * p.era + InEra(p)
    ensures CivilFromDays(days) == FromMarch(400 * p.era + EraYear(p), p.day)
  {
    hide EraOf, YearOfEra, DayOfYear, FromMarch;
    EraIs(days + EPOCH, p);
    YearIs(p);
  }

  lemma FourthYears(p: Place)
    requires Placed(p)
    ensures (400 * p.era + EraYear(p) + 1) % 4 == 0 <==> p.year == 3
  {
    assert 400 * p.era + EraYear(p) + 1 == 4 * (100 * p.era + 25 * p.century + p.cycle) + p.year + 1;
  }

  lemma HundredthYears(p: Place)
    requires Placed(p)
    ensures (400 * p.era + EraYear(p) + 1) % 100 == 0 <==> p.year == 3 && p.cycle == 24
  {
    var n := 4 * p.era + p.century;
    assert 400 * p.era + EraYear(p) + 1 == 100 * n + 4 * p.cycle + p.year + 1;
  }

  lemma FourHundredthYears(p: Place)
    requires Placed(p)
    ensures (400 * p.era + EraYear(p) + 1) % 400 == 0 <==> p.year == 3 && p.cycle == 24 && p.century == 3
  {
    assert 1 <= EraYear(p) + 1 <= 400;
  }

  lemma EndsLeapIs(p: Place)
    requires Placed(p)
    ensures Leap(400 * p.era + EraYear(p) + 1) <==> EndsLeap(p)
  {
    FourthYears(p);
    HundredthYears(p);
    FourHundredthYears(p);
  }

  // ----- months of a March-based year -----

  const STARTS: seq<int> := [0, 31, 61, 92, 122, 153, 184, 214, 245, 275, 306, 337]

  lemma MonthStarts(position: int, r: int)
    requires 0 <= r <= 365 && position == (5 * r + 2) / 153
    ensures 0 <= position <= 11
    ensures (153 * position + 2) / 5 == STARTS[position] <= r && (position < 11 ==> r < STARTS[position + 1])
  {
  }

  lemma FromMarchProper(year: int, r: int)
    requires 0 <= r <= if Leap(year + 1) then 365 else 364
    ensures Proper(FromMarch(year, r))
  {
    hide Leap;
    MonthStarts((5 * r + 2) / 153, r);
  }

  lemma FromMarchNext(year: int, r: int)
    requires 0 <= r < if Leap(year + 1) then 365 else 364
    ensures NextDay(FromMarch(year, r)) == FromMarch(year, r + 1)
  {
    hide Leap;
    MonthStarts((5 * r + 2) / 153, r);
    MonthStarts((5 * (r + 1) + 2) / 153, r + 1);
  }

  lemma FromMarchLast(year: int)
    ensures NextDay(FromMarch(year, if Leap(year + 1) then 365 else 364)) == FromMarch(year + 1, 0)
  {
    hide Leap;
  }

  // ----- the successor -----

  function NextPlace(p: Place): (q: Place)
    requires Placed(p)
    ensures Placed(q) && ERA * q.era + InEra(q) == ERA * p.era + InEra(p) + 1
    ensures if p.day < (if EndsLeap(p) then 365 else 364)
            then q.day == p.day + 1 && q.era == p.era && EraYear(q) == EraYear(p)
            else q.day == 0 && 400 * q.era + EraYear(q) == 400 * p.era + EraYear(p) + 1
  {
    if p.day < (if EndsLeap(p) then 365 else 364) then p.(day := p.day + 1)
    else if p.year < 3 then p.(day := 0, year := p.year + 1)
    else if p.cycle < 24 then p.(day := 0, year := 0, cycle := p.cycle + 1)
    else if p.century < 3 then Place(p.era, p.century + 1, 0, 0, 0)
    else Place(p.era + 1, 0, 0, 0, 0)
  }

  /** Every day number gives a proper date. */
  lemma AlwaysProper(days: int)
    ensures Proper(CivilFromDays(days))
  {
    hide FromMarch, Leap, Proper, CivilFromDays;
    var p := PlaceOf(days + EPOCH);
    CivilIs(days, p);
    EndsLeapIs(p);
    FromMarchProper(400 * p.era + EraYear(p), p.day);
  }

  /** The day after a day number's date is the next day number's date. */
  lemma Successor(days: int)
    ensures CivilFromDays(days + 1) == NextDay(CivilFromDays(days))
  {
    hide FromMarch, Leap, NextDay, CivilFromDays, InEra;
    var p := PlaceOf(days + EPOCH);
    var q := NextPlace(p);
    CivilIs(days, p);
    CivilIs(days + 1, q);
    EndsLeapIs(p);
    var year := 400 * p.era + EraYear(p);
    if p.day < (if EndsLeap(p) then 365 else 364) {
      FromMarchNext(year, p.day);
    } else {
      FromMarchLast(year);
    }
  }

  /** 1970-01-01 is day 0. */
  lemma Origin()
    ensures CivilFromDays(0) == Date(1970, 1, 1)
  {
  }

  // ----- the day count -----

  /** Days from 0001-01-01 to the first day of the year. */
  function YearStart(year: int): int {
    365 * (year - 1) + (year - 1) / 4 - (year - 1) / 100 + (year - 1) / 400
  }

  function MonthStart(year: int, month: int): int
    decreases month
  {
    if month <= 1 then 0 else MonthStart(year, month - 1) + DaysIn(year, month - 1)
  }

  /** The proleptic Gregorian day count from 1970-01-01. */
  function DayNumber(d: Date): int {
    YearStart(d.year) - YearStart(1970) + MonthStart(d.year, d.month) + d.day - 1
  }

  lemma YearLength(year: int)
    ensures YearStart(year + 1) == YearStart(year) + if Leap(year) then 366 else 365
  {
    assert year / 4 == (year - 1) / 4 + if year % 4 == 0 then 1 else 0;
    assert year / 100 == (year - 1) / 100 + if year % 100 == 0 then 1 else 0;
    assert year / 400 == (year - 1) / 400 + if year % 400 == 0 then 1 else 0;
  }

  lemma MonthsInYear(year: int)
    ensures MonthStart(year, 12) + 31 == if Leap(year) then 366 else 365
  {
    hide Leap;
    assert MonthStart(year, 3) == 31 + DaysIn(year, 2);
    assert MonthStart(year, 6) == 31 + DaysIn(year, 2) + 92;
    assert MonthStart(year, 9) == 31 + DaysIn(year, 2) + 184;
  }

  lemma NextNumber(d: Date)
    requires Proper(d)
    ensures Proper(NextDay(d)) && DayNumber(NextDay(d)) == DayNumber(d) + 1
  {
    hide Leap, YearStart;
    if d.month == 12 && d.day == 31 {
      YearLength(d.year);
      MonthsInYear(d.year);
    }
  }

  /** Counting the days back from a date gives the number it was made from. */
  lemma {:induction false} NumberOfDate(days: int)
    ensures DayNumber(CivilFromDays(days)) == days
    decreases if days >= 0 then days else -days
  {
    hide CivilFromDays, DayNumber, NextDay, Proper;
    if days == 0 {
      Origin();
      OriginNumber();
    } else if days > 0 {
      NumberOfDate(days - 1);
      Successor(days - 1);
      AlwaysProper(days - 1);
      NextNumber(CivilFromDays(days - 1));
    } else {
      NumberOfDate(days + 1);
      Successor(days);
      AlwaysProper(days);
      NextNumber(CivilFromDays(days));
    }
  }

  lemma OriginNumber()
    ensures DayNumber(Date(1970, 1, 1)) == 0
  {
  }

  lemma {:induction false} MonthsRise(year: int, m: int, n: int)
    requires 1 <= m < n
    ensures MonthStart(year, m) + DaysIn(year, m) <= MonthStart(year, n)
    decreases n
  {
    hide DaysIn;
    if m < n - 1 {
      MonthsRise(year, m, n - 1);
      assert DaysIn(year, n - 1) >= 0 by { MonthNonempty(year, n - 1); }
    }
  }

  lemma MonthNonempty(year: int, month: int)
    ensures DaysIn(year, month) >= 28
  {
  }

  lemma {:induction false} YearsRise(y: int, z: int)
    requires y < z
    ensures YearStart(y) + (if Leap(y) then 366 else 365) <= YearStart(z)
    decreases z - y
  {
    hide YearStart, Leap;
    YearLength(y);
    if y + 1 < z {
      YearsRise(y + 1, z);
    }
  }

  lemma {:induction false} MonthStartNonnegative(year: int, month: int)
    ensures MonthStart(year, month) >= 0
    decreases month
  {
    hide DaysIn;
    if month > 1 {
      MonthStartNonnegative(year, month - 1);
      MonthNonempty(year, month - 1);
    }
  }

  lemma WithinYear(d: Date)
    requires Proper(d)
    ensures 0 <= MonthStart(d.year, d.month) + d.day - 1 < if Leap(d.year) then 366 else 365
  {
    hide Leap, MonthStart;
    MonthsInYear(d.year);
    MonthStartNonnegative(d.year, d.month);
    if d.month < 12 {
      MonthsRise(d.year, d.month, 12);
    }
  }

  lemma Earlier(a: Date, b: Date)
    requires Proper(a) && Proper(b)
    requires a.year < b.year || (a.year == b.year && (a.month < b.month || (a.month == b.month && a.day < b.day)))
    ensures DayNumber(a) < DayNumber(b)
  {
    hide YearStart, MonthStart, Leap;
    if a.year < b.year {
      WithinYear(a);
      WithinYear(b);
      YearsRise(a.year, b.year);
    } else if a.month < b.month {
      MonthsRise(a.year, a.month, b.month);
    }
  }

  /** And every proper date is the one its day count gives. */
  lemma DateOfNumber(d: Date)
    requires Proper(d)
    ensures CivilFromDays(DayNumber(d)) == d
  {
    hide CivilFromDays, DayNumber, Proper;
    var n := DayNumber(d);
    var c := CivilFromDays(n);
    NumberOfDate(n);
    AlwaysProper(n);
    if c.year < d.year || (c.year == d.year && (c.month < d.month || (c.month == d.month && c.day < d.day))) {
      Earlier(c, d);
    } else if c != d {
      Earlier(d, c);
    }
  }
}
