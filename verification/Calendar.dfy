/**
 * UTC aggregation windows: floorToWindowStart and advanceWindow.
 *
 * Time values are integer milliseconds since the epoch. The calendar functions
 * are those of section 21.4.1 of ECMA-262, on all integers.
 */
module Calendar {

  datatype Granularity = Hour | Day | Week | Month

  const MS_PER_HOUR := 3_600_000
  const MS_PER_DAY := 86_400_000

  // ---------- The proleptic Gregorian calendar ----------

  function DayOf(t: int): int {
    t / MS_PER_DAY
  }

  function HourOf(t: int): int {
    t % MS_PER_DAY / MS_PER_HOUR
  }

  function DayFromYear(y: int): int {
    365 * (y - 1970) + (y - 1969) / 4 - (y - 1901) / 100 + (y - 1601) / 400
  }

  predicate Leap(y: int) {
    y % 4 == 0 && (y % 100 != 0 || y % 400 == 0)
  }

  /** Days before month m of a year; m = 12 gives the length of the year. */
  function MonthStart(leap: bool, m: nat): int
    requires m <= 12
  {
    [0, 31, 59, 90, 120, 151, 181, 212, 243, 273, 304, 334, 365][m] + if leap && m >= 2 then 1 else 0
  }

  lemma YearLength(y: int)
    ensures DayFromYear(y + 1) == DayFromYear(y) + MonthStart(Leap(y), 12)
  {
    EveryFourth(y);
    EveryHundredth(y);
    EveryFourHundredth(y);
  }

  lemma EveryFourth(y: int)
    ensures (y - 1968) / 4 == (y - 1969) / 4 + if y % 4 == 0 then 1 else 0
  {
  }

  lemma EveryHundredth(y: int)
    ensures (y - 1900) / 100 == (y - 1901) / 100 + if y % 100 == 0 then 1 else 0
  {
  }

  lemma EveryFourHundredth(y: int)
    ensures (y - 1600) / 400 == (y - 1601) / 400 + if y % 400 == 0 then 1 else 0
    ensures y % 400 == 0 ==> y % 100 == 0
    ensures y % 100 == 0 ==> y % 4 == 0
  {
  }

  lemma {:induction false} YearsIncrease(y: int, z: int)
    requires y <= z
    ensures DayFromYear(y) + 365 * (z - y) <= DayFromYear(z)
    decreases z - y
  {
    if y < z {
      YearLength(y);
      YearsIncrease(y + 1, z);
    }
  }

  /** A year that has certainly begun by day d. */
  function EarlyYear(d: int): (y: int)
    ensures DayFromYear(y) <= d
  {
    if d >= 0 then 1970 + d / 366 else 1970 + d / 365
  }

  /** YearFromTime: the last year that has begun by day d. */
  function YearFrom(d: int, y: int): (r: int)
    requires DayFromYear(y) <= d
    ensures DayFromYear(r) <= d < DayFromYear(r + 1)
    decreases d - DayFromYear(y)
  {
    YearLength(y);
    if DayFromYear(y + 1) <= d then YearFrom(d, y + 1) else y
  }

  function YearOf(d: int): (r: int)
    ensures DayFromYear(r) <= d < DayFromYear(r + 1)
  {
    YearFrom(d, EarlyYear(d))
  }

  lemma YearUnique(d: int, y: int)
    requires DayFromYear(y) <= d < DayFromYear(y + 1)
    ensures YearOf(d) == y
  {
    var r := YearOf(d);
    if r < y {
      YearsIncrease(r + 1, y);
    } else if y < r {
      YearsIncrease(y + 1, r);
    }
  }

  /** MonthFromTime, from the day within the year. */
  function MonthIn(leap: bool, day: int): (m: nat)
    requires 0 <= day < MonthStart(leap, 12)
    ensures m < 12 && MonthStart(leap, m) <= day < MonthStart(leap, m + 1)
  {
    if day < MonthStart(leap, 1) then 0
    else if day < MonthStart(leap, 2) then 1
    else if day < MonthStart(leap, 3) then 2
    else if day < MonthStart(leap, 4) then 3
    else if day < MonthStart(leap, 5) then 4
    else if day < MonthStart(leap, 6) then 5
    else if day < MonthStart(leap, 7) then 6
    else if day < MonthStart(leap, 8) then 7
    else if day < MonthStart(leap, 9) then 8
    else if day < MonthStart(leap, 10) then 9
    else if day < MonthStart(leap, 11) then 10
    else 11
  }

  function MonthOf(d: int): (m: nat)
    ensures m < 12
  {
    var y := YearOf(d);
    YearLength(y);
    MonthIn(Leap(y), d - DayFromYear(y))
  }

  /** The first day of month m of year y; m = 12 is the first day of the next year. */
  function FirstDay(y: int, m: nat): int
    requires m <= 12
  {
    DayFromYear(y) + MonthStart(Leap(y), m)
  }

  function DateOf(d: int): int {
    d - FirstDay(YearOf(d), MonthOf(d)) + 1
  }

  /** MakeDay: months outside 0..11 carry into the year. */
  function MakeDay(y: int, m: int, date: int): int {
    FirstDay(y + m / 12, m % 12) + date - 1
  }

  lemma MonthBounds(d: int)
    ensures FirstDay(YearOf(d), MonthOf(d)) <= d < FirstDay(YearOf(d), MonthOf(d) + 1)
  {
    YearLength(YearOf(d));
  }

  lemma MonthStartsIncrease(leap: bool, m: nat, n: nat)
    requires m < n <= 12
    ensures MonthStart(leap, m) < MonthStart(leap, n)
  {
  }

  lemma MonthUnique(d: int, y: int, m: nat)
    requires m < 12 && FirstDay(y, m) <= d < FirstDay(y, m + 1)
    ensures YearOf(d) == y && MonthOf(d) == m
  {
    YearLength(y);
    if m > 0 { MonthStartsIncrease(Leap(y), 0, m); }
    if m < 11 { MonthStartsIncrease(Leap(y), m + 1, 12); }
    YearUnique(d, y);
    MonthBounds(d);
    var n := MonthOf(d);
    if n < m && n + 1 < m { MonthStartsIncrease(Leap(y), n + 1, m); }
    if m < n && m + 1 < n { MonthStartsIncrease(Leap(y), m + 1, n); }
  }

  lemma MakeDayInYear(y: int, m: nat, date: int)
    requires m < 12
    ensures MakeDay(y, m, date) == FirstDay(y, m) + date - 1
    ensures MakeDay(y, m + 1, date) == FirstDay(y, m + 1) + date - 1
  {
    assert m / 12 == 0 && m % 12 == m;
    if m == 11 {
      YearLength(y);
    } else {
      assert (m + 1) / 12 == 0 && (m + 1) % 12 == m + 1;
    }
  }

  // ---------- The code ----------

  /** Date.UTC reads years 0 to 99 as 1900 to 1999. */
  function FullYear(y: int): int {
    if 0 <= y <= 99 then 1900 + y else y
  }

  function Utc(y: int, m: int, date: int, hour: int): int {
    MakeDay(FullYear(y), m, date) * MS_PER_DAY + hour * MS_PER_HOUR
  }

  function DiffToMonday(d: int): int {
    var dayOfWeek := (d + 4) % 7;
    if dayOfWeek == 0 then -6 else 1 - dayOfWeek
  }

  function FloorToWindowStart(t: int, g: Granularity): int {
    var d := DayOf(t);
    var y, m, date := YearOf(d), MonthOf(d), DateOf(d);
    match g
    case Hour => Utc(y, m, date, HourOf(t))
    case Day => Utc(y, m, date, 0)
    case Week => Utc(y, m, date + DiffToMonday(d), 0)
    case Month => Utc(y, m, 1, 0)
  }

  function AdvanceWindow(t: int, g: Granularity): int {
    var d := DayOf(t);
    var y, m, date := YearOf(d), MonthOf(d), DateOf(d);
    match g
    case Hour => Utc(y, m, date, HourOf(t) + 1)
    case Day => Utc(y, m, date + 1, 0)
    case Week => Utc(y, m, date + 7, 0)
    case Month => Utc(y, m + 1, 1, 0)
  }

  // ---------- Windows of days ----------

  /** The first day of the day, Monday-to-Sunday week or civil month around d. */
  function StartDay(d: int, g: Granularity): int
    requires g != Hour
  {
    match g
    case Day => d
    case Week => d - (d + 3) % 7
    case Month => FirstDay(YearOf(d), MonthOf(d))
  }

  /** The first day behind it. */
  function EndDay(d: int, g: Granularity): int
    requires g != Hour
  {
    match g
    case Day => d + 1
    case Week => d - (d + 3) % 7 + 7
    case Month => FirstDay(YearOf(d), MonthOf(d) + 1)
  }

  lemma MonthAtMost31(leap: bool, m: nat)
    requires m < 12
    ensures MonthStart(leap, m + 1) <= MonthStart(leap, m) + 31
  {
  }

  lemma DaysHold(d: int, g: Granularity)
    requires g != Hour
    ensures d - 31 < StartDay(d, g) <= d < EndDay(d, g)
  {
    if g == Month {
      MonthBounds(d);
      MonthAtMost31(Leap(YearOf(d)), MonthOf(d));
    }
  }

  lemma WeekShared(d: int, e: int)
    requires d - (d + 3) % 7 <= e < d - (d + 3) % 7 + 7
    ensures e - (e + 3) % 7 == d - (d + 3) % 7
  {
  }

  lemma DaysShared(d: int, e: int, g: Granularity)
    requires g != Hour && StartDay(d, g) <= e < EndDay(d, g)
    ensures StartDay(e, g) == StartDay(d, g) && EndDay(e, g) == EndDay(d, g)
  {
    match g
    case Day =>
    case Week => WeekShared(d, e);
    case Month => MonthUnique(e, YearOf(d), MonthOf(d));
  }

  lemma MonthFollows(y: int, m: nat)
    requires m < 12
    ensures StartDay(FirstDay(y, m + 1), Month) == FirstDay(y, m + 1)
  {
    YearLength(y);
    if m < 11 {
      MonthStartsIncrease(Leap(y), m + 1, m + 2);
      MonthUnique(FirstDay(y, m + 1), y, m + 1);
    } else {
      MonthStartsIncrease(Leap(y + 1), 0, 1);
      MonthUnique(FirstDay(y, 12), y + 1, 0);
    }
  }

  lemma WeekFollows(d: int)
    ensures StartDay(d - (d + 3) % 7 + 7, Week) == d - (d + 3) % 7 + 7
  {
  }

  lemma DaysFollow(d: int, g: Granularity)
    requires g != Hour
    ensures StartDay(EndDay(d, g), g) == EndDay(d, g)
  {
    match g
    case Day =>
    case Week => WeekFollows(d);
    case Month =>
      var e := EndDay(d, g);
      assert e == FirstDay(YearOf(d), MonthOf(d) + 1);
      MonthFollows(YearOf(d), MonthOf(d));
  }

  // ---------- Windows of time ----------

  /** The window around t: a whole hour, day, week or month. */
  function Start(t: int, g: Granularity): int {
    if g == Hour then t - t % MS_PER_HOUR else StartDay(DayOf(t), g) * MS_PER_DAY
  }

  function End(t: int, g: Granularity): int {
    if g == Hour then t - t % MS_PER_HOUR + MS_PER_HOUR else EndDay(DayOf(t), g) * MS_PER_DAY
  }

  lemma DayRange(t: int, a: int, b: int)
    ensures a <= DayOf(t) < b <==> a * MS_PER_DAY <= t < b * MS_PER_DAY
  {
  }

  lemma DayOfStart(d: int)
    ensures DayOf(d * MS_PER_DAY) == d
  {
  }

  lemma WindowHolds(t: int, g: Granularity)
    ensures Start(t, g) <= t < End(t, g)
    ensures t - 31 * MS_PER_DAY < Start(t, g)
  {
    if g != Hour {
      DaysHold(DayOf(t), g);
      DayRange(t, StartDay(DayOf(t), g), EndDay(DayOf(t), g));
      DayRange(t, DayOf(t), DayOf(t) + 1);
    }
  }

  /** Every instant of a window has that window. */
  lemma WindowShared(t: int, s: int, g: Granularity)
    requires Start(t, g) <= s < End(t, g)
    ensures Start(s, g) == Start(t, g) && End(s, g) == End(t, g)
  {
    if g != Hour {
      DayRange(s, StartDay(DayOf(t), g), EndDay(DayOf(t), g));
      DaysShared(DayOf(t), DayOf(s), g);
    }
  }

  /** The end of a window is the start of the next one. */
  lemma WindowFollows(t: int, g: Granularity)
    ensures Start(End(t, g), g) == End(t, g)
  {
    if g != Hour {
      DayOfStart(EndDay(DayOf(t), g));
      DaysFollow(DayOf(t), g);
    }
  }

  // ---------- The code computes the windows ----------

  predicate TwoDigitYear(t: int) {
    0 <= YearOf(DayOf(t)) <= 99
  }

  lemma HourSplit(t: int)
    ensures DayOf(t) * MS_PER_DAY + HourOf(t) * MS_PER_HOUR == t - t % MS_PER_HOUR
  {
  }

  lemma WeekSplit(d: int)
    ensures DiffToMonday(d) == -((d + 3) % 7)
  {
  }

  lemma CenturyShift(y: int, m: nat, date: int)
    requires m < 12
    ensures MakeDay(1900 + y, m, date) > FirstDay(y, m) + date + 600_000
  {
    MakeDayInYear(1900 + y, m, date);
    YearsIncrease(y, 1900 + y);
  }

  /** The day number the code computes from the fields of day d, moved to another date. */
  function FieldsDay(d: int, date: int): int {
    MakeDay(FullYear(YearOf(d)), MonthOf(d), date)
  }

  lemma FieldsDayIs(d: int, date: int)
    ensures !(0 <= YearOf(d) <= 99) ==> FieldsDay(d, date) == d - DateOf(d) + date
    ensures 0 <= YearOf(d) <= 99 ==> FieldsDay(d, date) > d - DateOf(d) + date + 600_000
  {
    MakeDayInYear(YearOf(d), MonthOf(d), date);
    CenturyShift(YearOf(d), MonthOf(d), date);
  }

  /** The date of the month that day e has, counted in the month of day d. */
  function DateFrom(d: int, e: int): int {
    DateOf(d) + (e - d)
  }

  lemma FloorDay(t: int, g: Granularity)
    requires g != Hour
    ensures FloorToWindowStart(t, g) == FieldsDay(DayOf(t), DateFrom(DayOf(t), StartDay(DayOf(t), g))) * MS_PER_DAY
  {
    match g
    case Day =>
    case Week => FloorWeek(t);
    case Month =>
  }

  lemma FloorWeek(t: int)
    ensures FloorToWindowStart(t, Week) == FieldsDay(DayOf(t), DateFrom(DayOf(t), StartDay(DayOf(t), Week))) * MS_PER_DAY
  {
    WeekSplit(DayOf(t));
  }

  /**
   * floorToWindowStart is the start of the window exactly when the year is not a
   * two-digit one; in a two-digit year it lands some 1900 years later.
   */
  lemma FloorIsStart(t: int, g: Granularity)
    ensures !TwoDigitYear(t) ==> FloorToWindowStart(t, g) == Start(t, g)
    ensures TwoDigitYear(t) ==> FloorToWindowStart(t, g) > t
  {
    var d := DayOf(t);
    if g == Hour {
      FieldsDayIs(d, DateOf(d));
      HourSplit(t);
    } else {
      FieldsDayIs(d, DateFrom(d, StartDay(d, g)));
      FloorDay(t, g);
      DaysHold(d, g);
      DayRange(t, d, d + 1);
    }
  }

  lemma AdvanceIsEnd(t: int, g: Granularity)
    requires !TwoDigitYear(t) && t == Start(t, g)
    ensures AdvanceWindow(t, g) == End(t, g)
  {
    match g
    case Hour => AdvanceHour(t);
    case Day => FieldsDayIs(DayOf(t), DateOf(DayOf(t)) + 1);
    case Week => AdvanceWeek(t);
    case Month => AdvanceMonth(t);
  }

  lemma AdvanceMonth(t: int)
    requires !TwoDigitYear(t)
    ensures AdvanceWindow(t, Month) == End(t, Month)
  {
    MakeDayInYear(YearOf(DayOf(t)), MonthOf(DayOf(t)), 1);
  }

  lemma AdvanceHour(t: int)
    requires !TwoDigitYear(t)
    ensures AdvanceWindow(t, Hour) == End(t, Hour)
  {
    FieldsDayIs(DayOf(t), DateOf(DayOf(t)));
    HourSplit(t);
  }

  lemma AdvanceWeek(t: int)
    requires !TwoDigitYear(t) && t == Start(t, Week)
    ensures AdvanceWindow(t, Week) == End(t, Week)
  {
    DayOfStart(StartDay(DayOf(t), Week));
    FieldsDayIs(DayOf(t), DateOf(DayOf(t)) + 7);
  }

  /** From the year 101 on no two-digit year is near. */
  lemma YearAfter(s: int, t: int)
    requires YearOf(DayOf(t)) >= 101 && s > t - 31 * MS_PER_DAY
    ensures !TwoDigitYear(s)
  {
    YearsIncrease(101, YearOf(DayOf(t)));
    YearLength(100);
    var z := YearOf(DayOf(s));
    if z < 100 {
      YearsIncrease(z + 1, 100);
    }
  }

  /** An instant has t's floor exactly when it lies in t's window. */
  lemma SharedFloor(t: int, s: int, g: Granularity)
    requires !TwoDigitYear(s)
    ensures FloorToWindowStart(s, g) == Start(t, g) <==> Start(t, g) <= s < End(t, g)
  {
    FloorIsStart(s, g);
    WindowHolds(s, g);
    WindowHolds(t, g);
    if Start(t, g) <= s < End(t, g) {
      WindowShared(t, s, g);
    } else if Start(s, g) == Start(t, g) {
      WindowShared(s, Start(s, g), g);
      WindowShared(t, Start(s, g), g);
    }
  }

  /**
   * The windows tile time: the floor is at or below the instant and the next
   * window starts above it, the floor of a window start is that start, and the
   * next window starts where its own floor is.
   */
  lemma WindowsTile(t: int, g: Granularity)
    requires YearOf(DayOf(t)) >= 101
    ensures FloorToWindowStart(t, g) <= t < AdvanceWindow(FloorToWindowStart(t, g), g)
    ensures FloorToWindowStart(FloorToWindowStart(t, g), g) == FloorToWindowStart(t, g)
    ensures FloorToWindowStart(AdvanceWindow(FloorToWindowStart(t, g), g), g) == AdvanceWindow(FloorToWindowStart(t, g), g)
  {
    var start, next := WindowCode(t, g);
    WindowHolds(t, g);
    WindowShared(t, start, g);
    WindowFollows(t, g);
    FloorIsStart(start, g);
    FloorIsStart(next, g);
  }

  /** Two instants share a floor exactly when they lie in the same window. */
  lemma SameFloorSameWindow(t: int, s: int, g: Granularity)
    requires YearOf(DayOf(t)) >= 101 && YearOf(DayOf(s)) >= 101
    ensures FloorToWindowStart(s, g) == FloorToWindowStart(t, g) <==>
      FloorToWindowStart(t, g) <= s < AdvanceWindow(FloorToWindowStart(t, g), g)
  {
    var start, next := WindowCode(t, g);
    SharedFloor(t, s, g);
  }

  /** Near a year past 100 both functions compute the window, and its ends are past year 99 too. */
  lemma WindowCode(t: int, g: Granularity) returns (start: int, next: int)
    requires YearOf(DayOf(t)) >= 101
    ensures start == Start(t, g) == FloorToWindowStart(t, g) && !TwoDigitYear(start)
    ensures next == End(t, g) == AdvanceWindow(start, g) && !TwoDigitYear(next)
  {
    start, next := Start(t, g), End(t, g);
    WindowHolds(t, g);
    WindowShared(t, start, g);
    YearAfter(t, t);
    YearAfter(start, t);
    YearAfter(next, t);
    FloorIsStart(t, g);
    AdvanceIsEnd(start, g);
  }

  /** Every instant from the epoch on is in scope of WindowsTile. */
  lemma EpochIsModern(t: int)
    requires t >= 0
    ensures YearOf(DayOf(t)) >= 1970
  {
    var y := YearOf(DayOf(t));
    if y < 1970 {
      YearsIncrease(y + 1, 1970);
    }
  }

  /** Instants at or behind the window of an instant since the epoch are past the two-digit years. */
  lemma ModernFrom(from: int, t: int, g: Granularity)
    requires from >= 0 && t >= FloorToWindowStart(from, g)
    ensures YearOf(DayOf(t)) >= 101
  {
    EpochIsModern(from);
    var start, next := WindowCode(from, g);
    WindowHolds(from, g);
    var y := YearOf(DayOf(t));
    if y < 101 {
      YearsIncrease(y + 1, 101);
      YearsIncrease(101, 1969);
      YearLength(1969);
    }
  }

  /** No window reaches back in front of an earlier window's start. */
  lemma FloorMonotone(from: int, t: int, g: Granularity)
    requires from >= 0 && t >= FloorToWindowStart(from, g)
    ensures FloorToWindowStart(from, g) <= FloorToWindowStart(t, g)
  {
    var lo := FloorToWindowStart(from, g);
    EpochIsModern(from);
    ModernFrom(from, t, g);
    ModernFrom(from, lo, g);
    WindowsTile(from, g);
    WindowsTile(t, g);
    SameFloorSameWindow(t, lo, g);
  }

  lemma MonthLength(leap: bool, m: nat)
    requires m < 12
    ensures MonthStart(leap, m + 1) - MonthStart(leap, m) ==
      if m == 1 then (if leap then 29 else 28) else if m == 3 || m == 5 || m == 8 || m == 10 then 30 else 31
  {
  }

  lemma LeapYears(y: int)
    ensures Leap(y) <==> y % 400 == 0 || (y % 4 == 0 && y % 100 != 0)
  {
  }

  /** Months are as long as the civil calendar says, leap years come as it says, and day zero is 1 January 1970. */
  lemma CivilCalendar(y: int, m: nat)
    requires m < 12
    ensures FirstDay(y, m + 1) - FirstDay(y, m) ==
      if m == 1 then (if y % 400 == 0 || (y % 4 == 0 && y % 100 != 0) then 29 else 28)
      else if m == 3 || m == 5 || m == 8 || m == 10 then 30 else 31
    ensures FirstDay(y, 12) == FirstDay(y + 1, 0) && FirstDay(1970, 0) == 0
  {
    MonthLength(Leap(y), m);
    LeapYears(y);
    YearLength(y);
  }

  /** The window is the civil month of some year. */
  ghost predicate IsMonth(from: int, t: int, y: int, m: nat) {
    m < 12 && from == FirstDay(y, m) * 86_400_000 && from <= t < FirstDay(y, m + 1) * 86_400_000
  }

  lemma StartOfMonth(t: int)
    ensures IsMonth(Start(t, Month), t, YearOf(DayOf(t)), MonthOf(DayOf(t)))
  {
    var d := DayOf(t);
    MonthBounds(d);
    DayRange(t, FirstDay(YearOf(d), MonthOf(d)), FirstDay(YearOf(d), MonthOf(d) + 1));
  }

  lemma StartOfDays(t: int)
    ensures Start(t, Hour) == t - t % 3_600_000 && Start(t, Day) == t - t % 86_400_000
  {
  }

  lemma StartOfWeek(t: int)
    ensures var from := Start(t, Week);
      from % 86_400_000 == 0 && (from / 86_400_000 + 3) % 7 == 0 && from <= t < from + 7 * 86_400_000
  {
    var d := DayOf(t);
    DayRange(t, d, d + 1);
    DayOfStart(d - (d + 3) % 7);
  }

  /** Full hours, days from midnight, weeks from Monday, and civil months, all UTC. */
  ghost predicate IsWindowStart(from: int, t: int, g: Granularity) {
    match g
    case Hour => from == t - t % 3_600_000
    case Day => from == t - t % 86_400_000
    case Week => from % 86_400_000 == 0 && (from / 86_400_000 + 3) % 7 == 0 && from <= t < from + 7 * 86_400_000
    case Month => exists y, m :: IsMonth(from, t, y, m)
  }

  lemma StartsAre(t: int, g: Granularity)
    ensures IsWindowStart(Start(t, g), t, g)
  {
    match g
    case Hour => StartOfDays(t);
    case Day => StartOfDays(t);
    case Week => StartOfWeek(t);
    case Month => StartOfMonth(t);
  }

  /** What the windows are. */
  lemma WindowsAre(t: int, g: Granularity)
    requires !TwoDigitYear(t)
    ensures IsWindowStart(FloorToWindowStart(t, g), t, g)
  {
    FloorIsStart(t, g);
    StartsAre(t, g);
  }

  /** Day zero was a Thursday, so the days with this remainder are Mondays. */
  lemma MondaysAre(d: int)
    ensures DiffToMonday(d) == -((d + 3) % 7)
  {
  }
}
