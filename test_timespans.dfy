/** The cases of salary_calculator/tests/test_timespans.py: spans read from
    `hh:mm-hh:mm`, the ones whose start is later than their end, and the
    class of the intersection of each pair (the first span is the window,
    the second the one compared with it). */
module TimeSpanExamples {
  import opened Results
  import opened Utils
  import opened Classes

  /** `create_timespan("hh:mm-hh:mm")` for an ordered pair of times. */
  function Span(startHour: int, startMinute: int, endHour: int, endMinute: int): (s: TimeSpan)
    requires 0 <= startHour < 24 && 0 <= startMinute < 60 && 0 <= endHour < 24 && 0 <= endMinute < 60
    requires Time(startHour, startMinute, 0) <= Normalize(Time(endHour, endMinute, 0)).1
    ensures s.Valid() && s.start == Time(startHour, startMinute, 0) && s.rawEnd == Time(endHour, endMinute, 0)
  {
    NewTimeSpan(Time(startHour, startMinute, 0), Time(endHour, endMinute, 0)).value
  }

  /** `start_greather_than_end_error_case` (test_timespans.py:19-25): each
      of these is rejected. */
  lemma StartGreaterThanEndErrorCase()
    ensures NewTimeSpan(Time(8, 39, 0), Time(5, 20, 0)).Err?
    ensures NewTimeSpan(Time(10, 29, 0), Time(9, 0, 0)).Err?
    ensures NewTimeSpan(Time(23, 0, 0), Time(12, 0, 0)).Err?
    ensures NewTimeSpan(Time(11, 11, 0), Time(10, 0, 0)).Err?
    ensures NewTimeSpan(Time(0, 5, 0), Time(0, 2, 0)).Err?
  {
  }

  /** `not_intersected_span_case` (test_timespans.py:26-32). */
  lemma NotIntersectedSpanCase()
    ensures Span(10, 0, 15, 30).GetIntersection(Span(9, 30, 9, 40)).0 == NoIntersection
    ensures Span(5, 30, 10, 0).GetIntersection(Span(23, 30, 23, 40)).0 == NoIntersection
    ensures Span(4, 20, 12, 0).GetIntersection(Span(14, 0, 16, 0)).0 == NoIntersection
    ensures Span(23, 50, 23, 55).GetIntersection(Span(12, 40, 12, 50)).0 == NoIntersection
    ensures Span(11, 0, 15, 0).GetIntersection(Span(18, 0, 22, 0)).0 == NoIntersection
  {
  }

  /** `fits_in_span_case` (test_timespans.py:33-39). */
  lemma FitsInSpanCase()
    ensures Span(10, 0, 20, 0).GetIntersection(Span(13, 30, 15, 27)).0 == FitsInCurrent
    ensures Span(0, 1, 20, 0).GetIntersection(Span(15, 0, 19, 0)).0 == FitsInCurrent
    ensures Span(15, 0, 16, 30).GetIntersection(Span(15, 30, 15, 35)).0 == FitsInCurrent
    ensures Span(5, 0, 10, 0).GetIntersection(Span(9, 0, 9, 1)).0 == FitsInCurrent
    ensures Span(23, 30, 23, 59).GetIntersection(Span(23, 32, 23, 35)).0 == FitsInCurrent
  {
  }

  /** `exceeds_length_span_case` (test_timespans.py:40-46). */
  lemma ExceedsLengthSpanCase()
    ensures Span(10, 0, 11, 0).GetIntersection(Span(9, 0, 12, 0)).0 == ExceedsCurrent
    ensures Span(12, 0, 13, 0).GetIntersection(Span(10, 0, 13, 3)).0 == ExceedsCurrent
    ensures Span(5, 30, 8, 20).GetIntersection(Span(5, 0, 10, 0)).0 == ExceedsCurrent
    ensures Span(14, 35, 18, 40).GetIntersection(Span(12, 0, 23, 11)).0 == ExceedsCurrent
    ensures Span(1, 30, 12, 0).GetIntersection(Span(0, 1, 13, 0)).0 == ExceedsCurrent
  {
  }

  /** `start_bounded_span_case` (test_timespans.py:47-53). */
  lemma StartBoundedSpanCase()
    ensures Span(10, 0, 13, 0).GetIntersection(Span(12, 0, 14, 0)).0 == StartBounded
    ensures Span(9, 45, 14, 0).GetIntersection(Span(10, 0, 14, 5)).0 == StartBounded
    ensures Span(22, 0, 23, 0).GetIntersection(Span(22, 50, 23, 30)).0 == StartBounded
    ensures Span(5, 30, 13, 0).GetIntersection(Span(10, 12, 14, 20)).0 == StartBounded
    ensures Span(11, 35, 13, 28).GetIntersection(Span(11, 40, 14, 0)).0 == StartBounded
  {
  }

  /** `end_bounded_span_case` (test_timespans.py:54-60). */
  lemma EndBoundedSpanCase()
    ensures Span(11, 45, 14, 0).GetIntersection(Span(10, 30, 11, 50)).0 == EndBounded
    ensures Span(14, 22, 16, 40).GetIntersection(Span(13, 0, 14, 30)).0 == EndBounded
    ensures Span(9, 30, 12, 55).GetIntersection(Span(8, 0, 10, 0)).0 == EndBounded
    ensures Span(17, 30, 19, 0).GetIntersection(Span(13, 0, 18, 0)).0 == EndBounded
    ensures Span(20, 30, 22, 30).GetIntersection(Span(19, 0, 22, 0)).0 == EndBounded
  {
  }
}
