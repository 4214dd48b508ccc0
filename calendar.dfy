/** The parts of `java.time` the core relies on, on the proleptic Gregorian
    calendar: month lengths, the day of the week of a date, and the validity and
    order of a local date-time. */
module Calendar {

  predicate IsLeapYear(year: int) {
    year % 4 == 0 && (year % 100 != 0 || year % 400 == 0)
  }

  predicate ValidMonth(month: int) {
    1 <= month <= 12
  }

  /** `YearMonth.lengthOfMonth()`. */
  function MonthLength(year: int, month: int): (n: int)
    requires ValidMonth(month)
    ensures 28 <= n <= 31
    ensures n == 28 <==> month == 2 && !IsLeapYear(year)
    ensures n == 29 <==> month == 2 && IsLeapYear(year)
  {
    if month == 2 then (if IsLeapYear(year) then 29 else 28)
    else if month == 4 || month == 6 || month == 9 || month == 11 then 30
    else 31
  }

  /** Days since 1970-01-01 of a date (`LocalDate.toEpochDay`), by the usual
      era-of-400-years reckoning with March as the first month. */
  function EpochDay(year: int, month: int, day: int): int
    requires ValidMonth(month)
  {
    var y := if month <= 2 then year - 1 else year;
    var era := y / 400;
    var yearOfEra := y - era * 400;
    var shiftedMonth := if month > 2 then month - 3 else month + 9;
    var dayOfYear := (153 * shiftedMonth + 2) / 5 + day - 1;
    var dayOfEra := yearOfEra * 365 + yearOfEra / 4 - yearOfEra / 100 + dayOfYear;
    era * 146097 + dayOfEra - 719468
  }

  /** `getDayOfWeek().ordinal()`: 0 is Monday, ..., 5 Saturday, 6 Sunday. */
  function DayOfWeek(year: int, month: int, day: int): (d: int)
    requires ValidMonth(month)
    ensures 0 <= d < 7
  {
    (EpochDay(year, month, day) + 3) % 7
  }

  const SATURDAY: int := 5
  const SUNDAY: int := 6

  /** Within a month, consecutive days are consecutive epoch days. */
  lemma EpochDayWithinMonth(year: int, month: int, day: int)
    requires ValidMonth(month)
    ensures EpochDay(year, month, day) == EpochDay(year, month, 1) + day - 1
  {
  }

  /** The reckoning is anchored where `java.time` anchors it: 1970-01-01 is epoch
      day 0, a Thursday; 2000-03-01 is epoch day 11017, a Wednesday. */
  lemma EpochAnchors()
    ensures EpochDay(1970, 1, 1) == 0 && DayOfWeek(1970, 1, 1) == 3
    ensures EpochDay(2000, 3, 1) == 11017 && DayOfWeek(2000, 3, 1) == 2
  {
  }

  /** A `LocalDateTime`, field by field. */
  datatype DateTime = DateTime(year: int, month: int, day: int, hour: int, minute: int, second: int, nano: int)

  /** The ranges `LocalDateTime.of` accepts. */
  predicate ValidDateTime(t: DateTime) {
    && -999_999_999 <= t.year <= 999_999_999
    && ValidMonth(t.month)
    && 1 <= t.day <= MonthLength(t.year, t.month)
    && 0 <= t.hour < 24 && 0 <= t.minute < 60 && 0 <= t.second < 60
    && 0 <= t.nano < 1_000_000_000
  }

  /** The time-line order of local date-times: field by field, most significant first. */
  predicate NotAfter(a: DateTime, b: DateTime) {
    if a.year != b.year then a.year < b.year
    else if a.month != b.month then a.month < b.month
    else if a.day != b.day then a.day < b.day
    else if a.hour != b.hour then a.hour < b.hour
    else if a.minute != b.minute then a.minute < b.minute
    else if a.second != b.second then a.second < b.second
    else a.nano <= b.nano
  }
}
