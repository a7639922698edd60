/**
 * Python's `datetime` as the scheduler uses it: a proleptic Gregorian date with an hour and a
 * minute (the virtual clock is always truncated to the minute), the day ordinal that `datetime`
 * computes dates from, `weekday()`, and the step `t + timedelta(minutes=1)`.
 */
module Calendar {

  datatype Timestamp = Timestamp(year: int, month: int, day: int, hour: int, minute: int)

  predicate IsLeap(year: int) {
    year % 4 == 0 && (year % 100 != 0 || year % 400 == 0)
  }

  function DaysInYear(year: int): int {
    if IsLeap(year) then 366 else 365
  }

  function DaysInMonth(year: int, month: int): (n: int)
    requires 1 <= month <= 12
    ensures 28 <= n <= 31
  {
    if month == 2 then (if IsLeap(year) then 29 else 28)
    else if month == 4 || month == 6 || month == 9 || month == 11 then 30
    else 31
  }

  /** Python's `_days_before_year`: the days in the years 1 .. year-1. */
  function DaysBeforeYear(year: int): int
    requires year >= 1
  {
    var y := year - 1;
    y * 365 + y / 4 - y / 100 + y / 400
  }

  /** Python's `_days_before_month`: the days in the months before `month` of `year`. */
  function DaysBeforeMonth(year: int, month: int): int
    requires 1 <= month <= 12
  {
    var before :=
      if month == 1 then 0 else if month == 2 then 31 else if month == 3 then 59
      else if month == 4 then 90 else if month == 5 then 120 else if month == 6 then 151
      else if month == 7 then 181 else if month == 8 then 212 else if month == 9 then 243
      else if month == 10 then 273 else if month == 11 then 304 else 334;
    before + (if month > 2 && IsLeap(year) then 1 else 0)
  }

  /** A real calendar date and time of day, as every `datetime` is. */
  predicate Valid(t: Timestamp) {
    && t.year >= 1
    && 1 <= t.month <= 12
    && 1 <= t.day <= DaysInMonth(t.year, t.month)
    && 0 <= t.hour < 24
    && 0 <= t.minute < 60
  }

  /** `toordinal()`: 0001-01-01 is day 1. */
  function Ordinal(t: Timestamp): int
    requires t.year >= 1 && 1 <= t.month <= 12
  {
    DaysBeforeYear(t.year) + DaysBeforeMonth(t.year, t.month) + t.day
  }

  /** `weekday()`: 0 is Monday and 6 is Sunday (0001-01-01 was a Monday). */
  function Weekday(t: Timestamp): (w: int)
    requires t.year >= 1 && 1 <= t.month <= 12
    ensures 0 <= w < 7
  {
    (Ordinal(t) + 6) % 7
  }

  /** The minutes from 0001-01-01 00:00 to `t`: the instant `t` stands for. */
  function MinuteCount(t: Timestamp): int
    requires t.year >= 1 && 1 <= t.month <= 12
  {
    (Ordinal(t) - 1) * 1440 + t.hour * 60 + t.minute
  }

  /** `t + timedelta(minutes=1)`: carry minute into hour, hour into day, day into month and
      month into year. */
  function NextMinute(t: Timestamp): (n: Timestamp)
    requires Valid(t)
    ensures Valid(n)
  {
    if t.minute < 59 then t.(minute := t.minute + 1)
    else if t.hour < 23 then t.(hour := t.hour + 1, minute := 0)
    else if t.day < DaysInMonth(t.year, t.month) then t.(day := t.day + 1, hour := 0, minute := 0)
    else if t.month < 12 then t.(month := t.month + 1, day := 1, hour := 0, minute := 0)
    else Timestamp(t.year + 1, 1, 1, 0, 0)
  }

  /** The closed form of `_days_before_year` adds up the lengths of the years. */
  lemma DaysBeforeNextYear(year: int)
    requires year >= 1
    ensures DaysBeforeYear(year + 1) == DaysBeforeYear(year) + DaysInYear(year)
  {
    var y := year - 1;
    NextQuotient4(y);
    NextQuotient100(y);
    NextQuotient400(y);
  }

  lemma NextQuotient4(y: int)
    ensures (y + 1) / 4 == y / 4 + (if (y + 1) % 4 == 0 then 1 else 0)
  {
  }

  lemma NextQuotient100(y: int)
    ensures (y + 1) / 100 == y / 100 + (if (y + 1) % 100 == 0 then 1 else 0)
  {
  }

  lemma NextQuotient400(y: int)
    ensures (y + 1) / 400 == y / 400 + (if (y + 1) % 400 == 0 then 1 else 0)
  {
  }

  /** The month table adds up the lengths of the months. */
  lemma DaysBeforeNextMonth(year: int, month: int)
    requires 1 <= month < 12
    ensures DaysBeforeMonth(year, month + 1) == DaysBeforeMonth(year, month) + DaysInMonth(year, month)
  {
  }

  lemma DaysBeforeMonthYearEnd(year: int)
    ensures DaysBeforeMonth(year, 12) + DaysInMonth(year, 12) == DaysInYear(year)
  {
  }

  /** The day ordinal moves on by one exactly when the step rolls over midnight. */
  lemma NextMinuteOrdinal(t: Timestamp)
    requires Valid(t)
    ensures Valid(NextMinute(t))
    ensures Ordinal(NextMinute(t)) == if t.hour == 23 && t.minute == 59 then Ordinal(t) + 1 else Ordinal(t)
  {
    if t.minute == 59 && t.hour == 23 && t.day == DaysInMonth(t.year, t.month) {
      if t.month < 12 {
        DaysBeforeNextMonth(t.year, t.month);
      } else {
        DaysBeforeNextYear(t.year);
        DaysBeforeMonthYearEnd(t.year);
      }
    }
  }

  /** One step of the virtual clock is a real date exactly one minute later. */
  lemma NextMinuteIsOneMinuteLater(t: Timestamp)
    requires Valid(t)
    ensures Valid(NextMinute(t))
    ensures MinuteCount(NextMinute(t)) == MinuteCount(t) + 1
  {
    NextMinuteOrdinal(t);
    var n := NextMinute(t);
    var o := Ordinal(t);
    if t.hour == 23 && t.minute == 59 {
      assert n.hour == 0 && n.minute == 0 && Ordinal(n) == o + 1;
      assert MinuteCount(n) == o * 1440;
      assert MinuteCount(t) == (o - 1) * 1440 + 1439;
    } else if t.minute == 59 {
      assert n.hour == t.hour + 1 && n.minute == 0 && Ordinal(n) == o;
    } else {
      assert n.hour == t.hour && n.minute == t.minute + 1 && Ordinal(n) == o;
    }
  }

  /** The weekday moves on by one, Sunday wrapping to Monday, exactly when the day changes. */
  lemma NextMinuteWeekday(t: Timestamp)
    requires Valid(t)
    ensures Weekday(NextMinute(t)) == if t.hour == 23 && t.minute == 59 then (Weekday(t) + 1) % 7 else Weekday(t)
  {
    NextMinuteOrdinal(t);
    var o := Ordinal(t);
    if t.hour == 23 && t.minute == 59 {
      WeekdayOfNextDay(o);
    }
  }

  lemma WeekdayOfNextDay(o: int)
    ensures (o + 1 + 6) % 7 == ((o + 6) % 7 + 1) % 7
  {
  }

  /** Two valid timestamps for the same instant are the same timestamp, so the minute count
      identifies a virtual-clock value. */
  lemma MinuteCountOrdersTimeOfDay(s: Timestamp, t: Timestamp)
    requires Valid(s) && Valid(t) && Ordinal(s) == Ordinal(t)
    ensures MinuteCount(s) == MinuteCount(t) <==> s.hour == t.hour && s.minute == t.minute
  {
  }

  /** 2024-01-01 was a Monday and 2024-01-07 a Sunday. */
  lemma KnownWeekdays()
    ensures Weekday(Timestamp(2024, 1, 1, 9, 0)) == 0
    ensures Weekday(Timestamp(2024, 1, 7, 9, 0)) == 6
  {
  }

  /** Microseconds in a minute: the wall clock's finer resolution. */
  const MicrosPerMinute: int := 60_000_000

  /** A reading of `datetime.now()`: the minute it falls in and the microseconds past that minute. */
  datatype WallClock = WallClock(minuteOf: Timestamp, micros: int)

  predicate ValidReading(w: WallClock) {
    Valid(w.minuteOf) && 0 <= w.micros < MicrosPerMinute
  }

  /** The instant of a reading, in microseconds from 0001-01-01 00:00. */
  function Instant(w: WallClock): int
    requires ValidReading(w)
  {
    MinuteCount(w.minuteOf) * MicrosPerMinute + w.micros
  }

  /** The instant a minute-resolution timestamp stands for, on the wall clock's scale. */
  function InstantOf(t: Timestamp): int
    requires Valid(t)
  {
    MinuteCount(t) * MicrosPerMinute
  }

  /** `datetime(*now.timetuple()[:5])`: the reading with its seconds and microseconds dropped,
      the latest minute boundary not after it. */
  function TruncateToMinute(w: WallClock): (t: Timestamp)
    requires ValidReading(w)
    ensures Valid(t)
    ensures InstantOf(t) <= Instant(w) < InstantOf(t) + MicrosPerMinute
  {
    w.minuteOf
  }

  /** `now < t`, for a reading and a minute timestamp, compares whole minutes. */
  lemma ReadingBeforeIff(w: WallClock, t: Timestamp)
    requires ValidReading(w) && Valid(t)
    ensures Instant(w) < InstantOf(t) <==> MinuteCount(w.minuteOf) < MinuteCount(t)
  {
    if MinuteCount(w.minuteOf) < MinuteCount(t) {
      assert MinuteCount(w.minuteOf) * MicrosPerMinute + MicrosPerMinute <= MinuteCount(t) * MicrosPerMinute;
    } else {
      assert MinuteCount(t) * MicrosPerMinute <= MinuteCount(w.minuteOf) * MicrosPerMinute;
    }
  }
}
