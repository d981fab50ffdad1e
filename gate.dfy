/** The startup gate: the program opens only inside a window of hours of the day. */
module Gate {

  /** An hour of the wall clock, as `datetime.now().hour` gives it. */
  type Hour = h: int | 0 <= h < 24

  /** The window `main` passes: from 07:00 up to, but not including, 12:00. */
  const OpenHour := 7
  const CloseHour := 12

  /**
   * `is_within_time_range(start_hour, end_hour)`, with the current hour
   * passed in: start inclusive, end exclusive, so a window whose end is not
   * after its start lets no hour through.
   */
  predicate WithinTimeRange(startHour: int, endHour: int, hour: Hour) {
    startHour <= hour < endHour
  }

  /** With the window of `main`, exactly the hours 7 to 11 are let through. */
  lemma OpeningHours(hour: Hour)
    ensures WithinTimeRange(OpenHour, CloseHour, hour) <==> hour in {7, 8, 9, 10, 11}
  {
  }
}
