/** The collaborators the analytics state is built on but does not define:
    calendar months and days with their mapping to absolute time, and
    Foundation's earliest representable instant. Instants are seconds since
    1970-01-01 00:00 UTC, taken as exact reals. */
module Calendar {

  /** A specific year and month. */
  type CalendarMonth(==)

  /** A specific year, month and day. */
  type CalendarDay(==)

  /** The calendar and clock operations the core consumes, as given values:
      - utcStart: the instant of a month's first midnight in UTC
        (`CalendarMonth.utcTimeIntervalSince1970`);
      - calendarDay: the day an instant falls on (`Date.calendarDay`);
      - utcCalendarMonth: the UTC month an instant falls in (`Date.utcCalendarMonth`);
      - distantPast: the instant `Date.distantPast`. */
  datatype CalendarOps = CalendarOps(
    utcStart: CalendarMonth -> real,
    calendarDay: real -> CalendarDay,
    utcCalendarMonth: real -> CalendarMonth,
    distantPast: real)
}
