/** `TripValidator` of script.js: whether a trip's service runs on a date
    (`YYYYMMDD`) at an optional time (`HH:MM`, "" for none). The checks run
    in a fixed order and each may end the evaluation: unknown service, date
    range, weekday flag, first matching calendar exception, time window. */
module Calendar {
  import opened Text
  import opened Tables
  import opened Gtfs

  /** `dayNames[date.getDay()]`, Sunday first. */
  const DayNames: seq<string> := ["sun", "mon", "tue", "wed", "thu", "fri", "sat"]

  /** The date picker's value with the dashes removed. */
  predicate IsDateString(date: string) {
    |date| == 8 && IsDigits(date)
  }

  /** `new Date(y, ...)` reads a year from 0 to 99 as 1900 + y. */
  function JsYear(y: int): int {
    if 0 <= y <= 99 then 1900 + y else y
  }

  predicate IsLeapYear(y: int) {
    y % 4 == 0 && (y % 100 != 0 || y % 400 == 0)
  }

  /** The length of month `m` (0 is January) of year `y`, as a wall
      calendar lists it. */
  function DaysInMonth(y: int, m: int): nat
    requires 0 <= m < 12
  {
    [31, 28, 31, 30, 31, 30, 31, 31, 30, 31, 30, 31][m] + (if m == 1 && IsLeapYear(y) then 1 else 0)
  }

  /** The days of year `y` before the first of month `m`. */
  function DaysBeforeMonth(y: int, m: int): nat
    requires 0 <= m < 12
  {
    [0, 31, 59, 90, 120, 151, 181, 212, 243, 273, 304, 334][m] + (if m >= 2 && IsLeapYear(y) then 1 else 0)
  }

  /** 1 January of year `y`, counted from 1 March of year 0: the 306 days
      to 1 January of year 1, then 365 days per year and one per leap year. */
  function YearStart(y: int): int {
    var a := y - 1;
    306 + 365 * a + a / 4 - a / 100 + a / 400
  }

  /** The March-based count of the first of month `m` (0 is January) of
      `year`: January and February count as the last months of the previous
      counting year, so that the leap day ends a counting year. */
  function MarchDays(year: int, m: int): int
    requires 0 <= m < 12
  {
    var shifted := if m < 2 then year - 1 else year;
    var fromMarch := if m < 2 then m + 10 else m - 2;
    365 * shifted + shifted / 4 - shifted / 100 + shifted / 400 + (153 * fromMarch + 2) / 5
  }

  /** One more year adds one leap day exactly in leap years. */
  lemma LeapDay(y: int)
    ensures y / 4 - (y - 1) / 4 - (y / 100 - (y - 1) / 100) + (y / 400 - (y - 1) / 400) == if IsLeapYear(y) then 1 else 0
  {
    var a := y - 1;
    assert y / 4 - a / 4 == if y % 4 == 0 then 1 else 0;
    assert y / 100 - a / 100 == if y % 100 == 0 then 1 else 0;
    assert y / 400 - a / 400 == if y % 400 == 0 then 1 else 0;
  }

  /** The March-based count agrees with the wall calendar. */
  lemma MarchDaysIsCalendar(year: int, m: int)
    requires 0 <= m < 12
    ensures MarchDays(year, m) == YearStart(year) + DaysBeforeMonth(year, m)
  {
    if m >= 2 {
      LeapDay(year);
    }
  }

  /** A year has 365 days, 366 in a leap year. */
  lemma YearLength(y: int)
    ensures YearStart(y + 1) - YearStart(y) == if IsLeapYear(y) then 366 else 365
  {
    LeapDay(y);
  }

  /** Days from 1 March of year 0 to `new Date(y, monthIndex, day)` in the
      proleptic Gregorian calendar. A month index outside 0..11 moves into a
      neighbouring year and a day outside the month into a neighbouring
      month, as `Date` does. */
  function DayNumber(y: int, monthIndex: int, day: int): (n: int)
    ensures n == YearStart(y + monthIndex / 12) + DaysBeforeMonth(y + monthIndex / 12, monthIndex % 12) + day - 1
  {
    MarchDaysIsCalendar(y + monthIndex / 12, monthIndex % 12);
    MarchDays(y + monthIndex / 12, monthIndex % 12) + day - 1
  }

  /** The two month tables agree: each month starts where the previous
      one ends, and December ends the year. */
  lemma MonthTables(y: int, m: int)
    requires 0 <= m < 12
    ensures m < 11 ==> DaysBeforeMonth(y, m + 1) == DaysBeforeMonth(y, m) + DaysInMonth(y, m)
    ensures m == 11 ==> DaysBeforeMonth(y, m) + DaysInMonth(y, m) == if IsLeapYear(y) then 366 else 365
  {
    if m == 0 {} else if m == 1 {} else if m == 2 {} else if m == 3 {} else if m == 4 {} else if m == 5 {}
    else if m == 6 {} else if m == 7 {} else if m == 8 {} else if m == 9 {} else if m == 10 {} else {}
  }

  /** Every month has its wall-calendar length; December runs into
      January of the next year. */
  lemma MonthLength(y: int, m: int)
    requires 0 <= m < 12
    ensures DayNumber(y, m + 1, 1) - DayNumber(y, m, 1) == DaysInMonth(y, m)
  {
    assert m / 12 == 0 && m % 12 == m;
    assert DayNumber(y, m, 1) == YearStart(y) + DaysBeforeMonth(y, m);
    MonthTables(y, m);
    if m == 11 {
      assert (m + 1) / 12 == 1 && (m + 1) % 12 == 0;
      assert DayNumber(y, m + 1, 1) == YearStart(y + 1) + DaysBeforeMonth(y + 1, 0);
      YearLength(y);
    } else {
      assert (m + 1) / 12 == 0 && (m + 1) % 12 == m + 1;
      assert DayNumber(y, m + 1, 1) == YearStart(y) + DaysBeforeMonth(y, m + 1);
    }
  }

  /** `getDay()`: 0 is Sunday; 1 March of year 0 was a Wednesday. */
  function DayOfWeek(y: int, monthIndex: int, day: int): (dow: nat)
    ensures dow < 7
  {
    (DayNumber(y, monthIndex, day) + 3) % 7
  }

  /** The day count follows the Gregorian leap-year rule: February has 29
      days exactly in leap years. */
  lemma FebruaryLength(y: int)
    ensures DayNumber(y, 2, 1) - DayNumber(y, 1, 1) == if IsLeapYear(y) then 29 else 28
  {
    var a := y - 1;
    assert DayNumber(y, 1, 1) == 365 * a + a / 4 - a / 100 + a / 400 + 337;
    assert DayNumber(y, 2, 1) == 365 * y + y / 4 - y / 100 + y / 400;
    assert y / 4 - a / 4 == if y % 4 == 0 then 1 else 0;
    assert y / 100 - a / 100 == if y % 100 == 0 then 1 else 0;
    assert y / 400 - a / 400 == if y % 400 == 0 then 1 else 0;
  }

  /** The weekday of the day after is the next weekday; in particular the
      first of the next month (January of the next year after December)
      follows the last day of the month. */
  lemma NextDayNextWeekday(y: int, monthIndex: int, day: int)
    ensures DayOfWeek(y, monthIndex, day + 1) == (DayOfWeek(y, monthIndex, day) + 1) % 7
    ensures 0 <= monthIndex < 12 ==>
      DayOfWeek(y, monthIndex + 1, 1) == (DayOfWeek(y, monthIndex, DaysInMonth(y, monthIndex)) + 1) % 7
  {
    var n := DayNumber(y, monthIndex, day);
    assert DayNumber(y, monthIndex, day + 1) == n + 1;
    NextWeekday(n);
    if 0 <= monthIndex < 12 {
      var last := DayNumber(y, monthIndex, DaysInMonth(y, monthIndex));
      MonthLength(y, monthIndex);
      assert DayNumber(y, monthIndex + 1, 1) == last + 1;
      NextWeekday(last);
    }
  }

  /** The day after day count `n` has the next weekday. */
  lemma NextWeekday(n: int)
    ensures (n + 1 + 3) % 7 == ((n + 3) % 7 + 1) % 7
  {
  }

  /** Every 400 years the calendar repeats: 146097 days, a whole number of weeks. */
  lemma FourHundredYearCycle(y: int, monthIndex: int, day: int)
    ensures DayNumber(y + 400, monthIndex, day) == DayNumber(y, monthIndex, day) + 146097
    ensures DayOfWeek(y + 400, monthIndex, day) == DayOfWeek(y, monthIndex, day)
  {
    var year, m := y + monthIndex / 12, monthIndex % 12;
    assert (y + 400) + monthIndex / 12 == year + 400;
    YearStartCycle(year);
    LeapCycle(year);
    assert DaysBeforeMonth(year + 400, m) == DaysBeforeMonth(year, m);
    var n := DayNumber(y, monthIndex, day);
    assert DayNumber(y + 400, monthIndex, day) == n + 146097;
    WholeWeeks(n);
  }

  /** 400 years hold 97 leap years. */
  lemma YearStartCycle(y: int)
    ensures YearStart(y + 400) == YearStart(y) + 146097
  {
    var a := y - 1;
    assert (a + 400) / 4 == a / 4 + 100;
    assert (a + 400) / 100 == a / 100 + 4;
    assert (a + 400) / 400 == a / 400 + 1;
  }

  /** The leap-year rule repeats every 400 years. */
  lemma LeapCycle(y: int)
    ensures IsLeapYear(y + 400) == IsLeapYear(y)
  {
    assert (y + 400) % 4 == y % 4;
    assert (y + 400) % 100 == y % 100;
    assert (y + 400) % 400 == y % 400;
  }

  /** 146097 days are 20871 whole weeks. */
  lemma WholeWeeks(n: int)
    ensures (n + 146097 + 3) % 7 == (n + 3) % 7
  {
    assert n + 146097 + 3 == (n + 3) + 7 * 20871;
  }

  /** The weekday `isValidWeekday` computes for a `YYYYMMDD` date. */
  function WeekdayOf(date: string): (dow: nat)
    requires IsDateString(date)
    ensures dow < 7
  {
    DayOfWeek(JsYear(DigitsValue(date[0..4])), DigitsValue(date[4..6]) - 1, DigitsValue(date[6..8]))
  }

  /** `service.days[dayNames[dayOfWeek]] === 1`; a missing day reads as not running. */
  predicate IsValidWeekday(service: Service, date: string)
    requires IsDateString(date)
    ensures IsValidWeekday(service, date) ==> DayNames[WeekdayOf(date)] in service.days
    ensures service.days == map[] ==> !IsValidWeekday(service, date)
  {
    var name := DayNames[WeekdayOf(date)];
    name in service.days && service.days[name] == 1
  }

  /** `date < service.start_date`. A null start date compares as the number 0,
      which no digit string is below. */
  predicate BeforeStart(date: string, startDate: Option<string>)
    requires IsDateString(date)
    ensures startDate.Some? && IsDateString(startDate.value) ==>
      (BeforeStart(date, startDate) <==> DigitsValue(date) < DigitsValue(startDate.value))
    ensures startDate.None? ==> !BeforeStart(date, startDate)
  {
    match startDate
    case Some(start) => DateOrder(date, start); LexLess(date, start)
    case None => false
  }

  /** `date > service.end_date`. A null end date compares as the number 0. */
  predicate AfterEnd(date: string, endDate: Option<string>)
    requires IsDateString(date)
    ensures endDate.Some? && IsDateString(endDate.value) ==>
      (AfterEnd(date, endDate) <==> DigitsValue(endDate.value) < DigitsValue(date))
    ensures endDate.None? ==> (AfterEnd(date, endDate) <==> DigitsValue(date) > 0)
  {
    match endDate
    case Some(end) => DateOrder(end, date); LexLess(end, date)
    case None => DigitsValue(date) > 0
  }

  /** For two `YYYYMMDD` strings the string order is the order of the dates. */
  lemma DateOrder(a: string, b: string)
    ensures IsDateString(a) && IsDateString(b) ==> (LexLess(a, b) <==> DigitsValue(a) < DigitsValue(b))
  {
    if IsDateString(a) && IsDateString(b) {
      LexLessIsNumericLess(a, b);
    }
  }

  /** `service.dates.find(ex => ex.date === date)`: the first exception for the date. */
  function FirstException(dates: seq<CalendarException>, date: string): (found: Option<CalendarException>)
    ensures found.None? <==> forall i :: 0 <= i < |dates| ==> dates[i].date != date
    ensures found.Some? ==> found.value in dates && found.value.date == date
  {
    if dates == [] then None
    else if dates[0].date == date then Some(dates[0])
    else FirstException(dates[1..], date)
  }

  /** The first exception for the date decides, whatever follows it. */
  lemma {:induction false} FirstExceptionWins(earlier: seq<CalendarException>, e: CalendarException, later: seq<CalendarException>, date: string)
    requires forall i :: 0 <= i < |earlier| ==> earlier[i].date != date
    requires e.date == date
    ensures FirstException(earlier + [e] + later, date) == Some(e)
  {
    if earlier != [] {
      FirstExceptionWins(earlier[1..], e, later, date);
      assert (earlier + [e] + later)[1..] == earlier[1..] + [e] + later;
    }
  }

  /** The exception `find` returns is the one at the first index holding the date. */
  lemma {:induction false} FirstExceptionAt(dates: seq<CalendarException>, date: string)
    ensures FirstException(dates, date).Some? ==>
      exists i :: 0 <= i < |dates| && dates[i] == FirstException(dates, date).value
        && forall j :: 0 <= j < i ==> dates[j].date != date
  {
    if dates != [] && dates[0].date != date {
      var rest := dates[1..];
      FirstExceptionAt(rest, date);
      if FirstException(rest, date).Some? {
        var i :| 0 <= i < |rest| && rest[i] == FirstException(rest, date).value
          && forall j :: 0 <= j < i ==> rest[j].date != date;
        assert dates[i + 1] == rest[i];
        forall j | 0 <= j < i + 1 ensures dates[j].date != date {
          if j > 0 {
            assert dates[j] == rest[j - 1];
          }
        }
      }
    }
  }

  /** `checkCalendarExceptions`: Some(true) for an added date, Some(false)
      for any other exception type, None when no exception names the date;
      only the first exception for the date counts. */
  function CheckCalendarExceptions(service: Service, date: string): (decided: Option<bool>)
    ensures decided.None? <==> forall i :: 0 <= i < |service.dates| ==> service.dates[i].date != date
    ensures decided.Some? ==>
      exists i :: 0 <= i < |service.dates| && service.dates[i].date == date
        && (forall j :: 0 <= j < i ==> service.dates[j].date != date)
        && (decided.value <==> service.dates[i].exceptionType == 1)
  {
    FirstExceptionAt(service.dates, date);
    match FirstException(service.dates, date)
    case Some(e) => Some(e.exceptionType == 1)
    case None => None
  }

  /** JavaScript truthiness of an optional string field. */
  predicate Truthy(field: Option<string>) {
    field.Some? && field.value != ""
  }

  /** `HH:MM` or `HH:MM:SS`: at least two colon-separated fields, the
      first two (and a third, when present) non-empty decimal digits. */
  predicate IsClock(t: string) {
    var f := Split(t);
    |f| >= 2 && f[0] != [] && IsDigits(f[0]) && f[1] != [] && IsDigits(f[1])
    && (|f| >= 3 ==> f[2] != [] && IsDigits(f[2]))
  }

  /** The time picker's value: empty, or a clock time. */
  predicate IsTimeInput(t: string) {
    t == "" || IsClock(t)
  }

  /** `parseTime` of a service bound: seconds default to 0. */
  function BoundSeconds(t: string): (seconds: nat)
    requires IsClock(t)
    ensures seconds >= InputSeconds(t)
    ensures |Split(t)| == 2 ==> seconds == InputSeconds(t)
  {
    var f := Split(t);
    DigitsValue(f[0]) * 3600 + DigitsValue(f[1]) * 60 + (if |f| >= 3 then DigitsValue(f[2]) else 0)
  }

  /** The selected time in seconds: only hours and minutes are read. */
  function InputSeconds(t: string): (seconds: nat)
    requires IsClock(t)
    ensures seconds % 60 == 0
  {
    var f := Split(t);
    var minutes := DigitsValue(f[0]) * 60 + DigitsValue(f[1]);
    assert DigitsValue(f[0]) * 3600 + DigitsValue(f[1]) * 60 == minutes * 60;
    DigitsValue(f[0]) * 3600 + DigitsValue(f[1]) * 60
  }

  lemma DigitsHaveNoColon(s: string)
    requires IsDigits(s)
    ensures ':' !in s
  {
  }

  lemma ClockFields(h: string, m: string, rest: string)
    requires ':' !in h && ':' !in m
    ensures Split(h + ":" + m + rest) == [h] + Split(m + rest)
  {
    assert h + ":" + m + rest == h + ":" + (m + rest);
    SplitField(h, m + rest);
  }

  /** `h:m` splits into its two fields. */
  lemma SplitTwoFields(h: string, m: string)
    requires ':' !in h && ':' !in m
    ensures Split(h + ":" + m) == [h, m]
  {
    ClockFields(h, m, "");
    assert h + ":" + m + "" == h + ":" + m;
    assert m + "" == m;
    SplitNoColon(m);
  }

  /** `h:m:s` splits into its three fields. */
  lemma SplitThreeFields(h: string, m: string, s: string)
    requires ':' !in h && ':' !in m && ':' !in s
    ensures Split(h + ":" + m + ":" + s) == [h, m, s]
  {
    ClockFields(h, m, ":" + s);
    assert h + ":" + m + ":" + s == h + ":" + m + (":" + s);
    SplitField(m, s);
    assert m + (":" + s) == m + ":" + s;
    SplitNoColon(s);
  }

  /** What the clock parsers give for `h:m` and `h:m:s`: a bound with no
      seconds counts them as 0, and the selected time never counts seconds. */
  lemma {:induction false} ClockSecondsOfFields(h: string, m: string, s: string)
    requires h != [] && IsDigits(h) && m != [] && IsDigits(m) && s != [] && IsDigits(s)
    ensures IsClock(h + ":" + m) && IsClock(h + ":" + m + ":" + s)
    ensures BoundSeconds(h + ":" + m) == DigitsValue(h) * 3600 + DigitsValue(m) * 60
    ensures BoundSeconds(h + ":" + m + ":" + s) == DigitsValue(h) * 3600 + DigitsValue(m) * 60 + DigitsValue(s)
    ensures InputSeconds(h + ":" + m + ":" + s) == InputSeconds(h + ":" + m) == DigitsValue(h) * 3600 + DigitsValue(m) * 60
  {
    DigitsHaveNoColon(h);
    DigitsHaveNoColon(m);
    DigitsHaveNoColon(s);
    SplitTwoFields(h, m);
    SplitThreeFields(h, m, s);
  }

  /** `isValidTimeRange`: the selected time lies in the service's window,
      both ends included, with no wrap past midnight. */
  predicate IsValidTimeRange(service: Service, time: string)
    requires IsClock(time)
    requires service.startTime.Some? && IsClock(service.startTime.value)
    requires service.endTime.Some? && IsClock(service.endTime.value)
    ensures IsValidTimeRange(service, time) ==> BoundSeconds(service.startTime.value) <= BoundSeconds(service.endTime.value)
    ensures service.startTime == service.endTime ==>
      (IsValidTimeRange(service, time) <==> InputSeconds(time) == BoundSeconds(service.startTime.value))
  {
    var now := InputSeconds(time);
    BoundSeconds(service.startTime.value) <= now <= BoundSeconds(service.endTime.value)
  }

  /** The window bounds of a service, when both are set, are clock times. */
  predicate HasWellFormedTimes(service: Service) {
    Truthy(service.startTime) && Truthy(service.endTime) ==>
      IsClock(service.startTime.value) && IsClock(service.endTime.value)
  }

  predicate ServicesWellFormed(services: map<string, Service>) {
    forall sid :: sid in services ==> HasWellFormedTimes(services[sid])
  }

  predicate TimeWindowApplies(service: Service, time: string) {
    time != "" && Truthy(service.startTime) && Truthy(service.endTime)
  }

  /** `TripValidator.isTripActive(serviceId, date, time)`. */
  predicate IsTripActive(services: map<string, Service>, serviceId: string, date: string, time: string)
    requires IsDateString(date) && IsTimeInput(time)
    requires serviceId in services ==> HasWellFormedTimes(services[serviceId])
    ensures IsTripActive(services, serviceId, date, time) ==>
      serviceId in services
      && !BeforeStart(date, services[serviceId].startDate) && !AfterEnd(date, services[serviceId].endDate)
      && IsValidWeekday(services[serviceId], date)
    ensures (serviceId in services && FirstException(services[serviceId].dates, date).Some?
      && FirstException(services[serviceId].dates, date).value.exceptionType != 1) ==>
      !IsTripActive(services, serviceId, date, time)
  {
    if serviceId !in services then false
    else
      var service := services[serviceId];
      if BeforeStart(date, service.startDate) || AfterEnd(date, service.endDate) then false
      else if !IsValidWeekday(service, date) then false
      else match CheckCalendarExceptions(service, date)
        case Some(decided) => decided
        case None => if TimeWindowApplies(service, time) then IsValidTimeRange(service, time) else true
  }

  /** Unknown services, dates outside the range and days whose flag is not
      1 are inactive, and no calendar exception can change that: an added
      date placed first in `dates` does not revive them. */
  lemma RejectedBeforeExceptions(services: map<string, Service>, serviceId: string, date: string, time: string, extra: seq<CalendarException>)
    requires IsDateString(date) && IsTimeInput(time) && ServicesWellFormed(services)
    requires serviceId !in services
      || BeforeStart(date, services[serviceId].startDate)
      || AfterEnd(date, services[serviceId].endDate)
      || !IsValidWeekday(services[serviceId], date)
    ensures !IsTripActive(services, serviceId, date, time)
    ensures serviceId in services ==>
      var s := services[serviceId];
      !IsTripActive(services[serviceId := s.(dates := extra + s.dates)], serviceId, date, time)
  {
  }

  /** Once range and weekday pass, the first exception for the date decides
      (type 1 runs, any other type does not) and the time is not consulted. */
  lemma ExceptionDecides(services: map<string, Service>, serviceId: string, date: string, time: string)
    requires IsDateString(date) && IsTimeInput(time) && ServicesWellFormed(services)
    requires serviceId in services
    requires !BeforeStart(date, services[serviceId].startDate) && !AfterEnd(date, services[serviceId].endDate)
    requires IsValidWeekday(services[serviceId], date)
    requires FirstException(services[serviceId].dates, date).Some?
    ensures IsTripActive(services, serviceId, date, time)
      <==> FirstException(services[serviceId].dates, date).value.exceptionType == 1
    ensures IsTripActive(services, serviceId, date, time) == IsTripActive(services, serviceId, date, "")
  {
  }

  /** With no exception for the date, the window decides when a time is
      given and both bounds are set, and the trip runs otherwise. */
  lemma TimeWindowDecides(services: map<string, Service>, serviceId: string, date: string, time: string)
    requires IsDateString(date) && IsTimeInput(time) && ServicesWellFormed(services)
    requires serviceId in services
    requires !BeforeStart(date, services[serviceId].startDate) && !AfterEnd(date, services[serviceId].endDate)
    requires IsValidWeekday(services[serviceId], date)
    requires forall i :: 0 <= i < |services[serviceId].dates| ==> services[serviceId].dates[i].date != date
    ensures IsTripActive(services, serviceId, date, time) <==>
      (TimeWindowApplies(services[serviceId], time) ==>
        BoundSeconds(services[serviceId].startTime.value) <= InputSeconds(time) <= BoundSeconds(services[serviceId].endTime.value))
  {
  }

  /** For `YYYYMMDD` bounds the string range check is the numeric one. */
  lemma RangeCheckIsNumeric(date: string, start: string, end: string)
    requires IsDateString(date) && IsDateString(start) && IsDateString(end)
    ensures !BeforeStart(date, Some(start)) && !AfterEnd(date, Some(end))
      <==> DigitsValue(start) <= DigitsValue(date) <= DigitsValue(end)
  {
    LexLessIsNumericLess(date, start);
    LexLessIsNumericLess(end, date);
  }

  /** The converters never give a service a time window, so for the
      services they write the selected time never matters. */
  lemma ConvertedServicesIgnoreTime(calendar: seq<CalendarRow>, calendarDates: seq<CalendarDateRow>, serviceId: string, date: string, time: string)
    requires IsDateString(date) && IsTimeInput(time)
    ensures ServicesWellFormed(MergedServices(calendar, calendarDates))
    ensures IsTripActive(MergedServices(calendar, calendarDates), serviceId, date, time)
      == IsTripActive(MergedServices(calendar, calendarDates), serviceId, date, "")
  {
    var services := MergedServices(calendar, calendarDates);
    forall sid | sid in services ensures services[sid].startTime == None {
      MergedServiceAt(calendar, calendarDates, sid);
      if sid in IndexBy(calendar, CalendarServiceId, ServiceFromCalendar) {
        IndexByFrom(calendar, CalendarServiceId, ServiceFromCalendar, sid);
      }
    }
  }

  /** A service that the converters create from calendar_dates.txt alone has
      a null end date, which every nonzero date is after: it never runs, not
      even on the dates its exceptions add. */
  lemma DatesOnlyServiceNeverActive(calendar: seq<CalendarRow>, calendarDates: seq<CalendarDateRow>, serviceId: string, date: string, time: string)
    requires IsDateString(date) && IsTimeInput(time) && DigitsValue(date) > 0
    requires serviceId !in KeySet(calendar, CalendarServiceId)
    ensures ServicesWellFormed(MergedServices(calendar, calendarDates))
    ensures !IsTripActive(MergedServices(calendar, calendarDates), serviceId, date, time)
  {
    ConvertedServicesIgnoreTime(calendar, calendarDates, serviceId, date, time);
    MergedServiceAt(calendar, calendarDates, serviceId);
  }

  /** A weekday-only service of 2024, no exceptions, no time window. */
  function WeekdayService2024(dates: seq<CalendarException>): Service {
    Service(map["mon" := 1, "tue" := 1, "wed" := 1, "thu" := 1, "fri" := 1, "sat" := 0, "sun" := 0],
            Some("20240101"), Some("20241231"), dates, None, None)
  }

  lemma Year2024()
    ensures DigitsValue("2024") == 2024
  {
    assert "2024"[1..] == "024" && "024"[1..] == "24" && "24"[1..] == "4" && "4"[1..] == "";
  }

  lemma DateFields20240103()
    ensures IsDateString("20240103")
    ensures DigitsValue("20240103"[0..4]) == 2024 && DigitsValue("20240103"[4..6]) == 1 && DigitsValue("20240103"[6..8]) == 3
  {
    Year2024();
    assert "01"[1..] == "1" && "1"[1..] == "";
    assert "03"[1..] == "3" && "3"[1..] == "";
    assert "20240103"[0..4] == "2024" && "20240103"[4..6] == "01" && "20240103"[6..8] == "03";
  }

  /** 3 January 2024 was a Wednesday. */
  lemma Wednesday20240103()
    ensures IsDateString("20240103") && WeekdayOf("20240103") == 3
  {
    DateFields20240103();
    assert 2023 / 4 == 505 && 2023 / 100 == 20 && 2023 / 400 == 5 && (153 * 10 + 2) / 5 == 306;
    assert DayNumber(2024, 0, 3) == 739193;
    assert (739193 + 3) % 7 == 3;
  }

  lemma DateFields20240106()
    ensures IsDateString("20240106")
    ensures DigitsValue("20240106"[0..4]) == 2024 && DigitsValue("20240106"[4..6]) == 1 && DigitsValue("20240106"[6..8]) == 6
  {
    Year2024();
    assert "01"[1..] == "1" && "1"[1..] == "";
    assert "06"[1..] == "6" && "6"[1..] == "";
    assert "20240106"[0..4] == "2024" && "20240106"[4..6] == "01" && "20240106"[6..8] == "06";
  }

  /** 6 January 2024 was a Saturday. */
  lemma Saturday20240106()
    ensures IsDateString("20240106") && WeekdayOf("20240106") == 6
  {
    DateFields20240106();
    assert 2023 / 4 == 505 && 2023 / 100 == 20 && 2023 / 400 == 5 && (153 * 10 + 2) / 5 == 306;
    assert DayNumber(2024, 0, 6) == 739196;
    assert (739196 + 3) % 7 == 6;
  }

  /** Both dates lie within the 2024 range. */
  lemma JanuaryDatesInRange()
    ensures !BeforeStart("20240103", Some("20240101")) && !AfterEnd("20240103", Some("20241231"))
    ensures !BeforeStart("20240106", Some("20240101")) && !AfterEnd("20240106", Some("20241231"))
  {
    assert !LexLess("20240103", "20240101") && !LexLess("20241231", "20240103");
    assert !LexLess("20240106", "20240101") && !LexLess("20241231", "20240106");
  }

  lemma WednesdayFlagSet(dates: seq<CalendarException>)
    ensures IsDateString("20240103") && IsValidWeekday(WeekdayService2024(dates), "20240103")
  {
    Wednesday20240103();
    assert DayNames[3] == "wed";
  }

  lemma SaturdayFlagClear(dates: seq<CalendarException>)
    ensures IsDateString("20240106") && !IsValidWeekday(WeekdayService2024(dates), "20240106")
  {
    Saturday20240106();
    assert DayNames[6] == "sat";
  }

  /** 3 January 2024, a Wednesday, runs. */
  lemma WeekdayServiceRunsOnWednesday()
    ensures IsDateString("20240103")
    ensures IsTripActive(map["S" := WeekdayService2024([])], "S", "20240103", "")
  {
    JanuaryDatesInRange();
    WednesdayFlagSet([]);
    assert CheckCalendarExceptions(WeekdayService2024([]), "20240103") == None;
  }

  /** 6 January 2024, a Saturday, does not run, and an added exception for
      that Saturday does not make it run: the weekday check comes first. */
  lemma WeekdayServiceSkipsSaturday()
    ensures IsDateString("20240106")
    ensures !IsTripActive(map["S" := WeekdayService2024([])], "S", "20240106", "")
    ensures !IsTripActive(map["S" := WeekdayService2024([CalendarException("20240106", 1)])], "S", "20240106", "")
  {
    JanuaryDatesInRange();
    SaturdayFlagClear([]);
    SaturdayFlagClear([CalendarException("20240106", 1)]);
  }
}
