/** The proleptic Gregorian calendar that Python's `datetime` accepts. */
module Calendar {

  datatype Date = Date(day: int, month: int, year: int)

  predicate IsLeapYear(y: int) {
    y % 4 == 0 && (y % 100 != 0 || y % 400 == 0)
  }

  function DaysInMonth(month: int, year: int): int
    requires 1 <= month <= 12
  {
    if month == 2 then (if IsLeapYear(year) then 29 else 28)
    else if month == 4 || month == 6 || month == 9 || month == 11 then 30
    else 31
  }

  /** What `datetime(year, month, day)` accepts: MINYEAR 1, MAXYEAR 9999, a real day of the month. */
  predicate ValidDate(d: Date) {
    && 1 <= d.year <= 9999
    && 1 <= d.month <= 12
    && 1 <= d.day <= DaysInMonth(d.month, d.year)
  }
}
