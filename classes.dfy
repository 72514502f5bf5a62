/** Time spans, their intersection, the weekly rate table and the salary
    computation (salary_calculator/classes.py).

    Money is counted in whole cents and hours in hundredths: every rate in
    the table is a whole number of dollars, so `rate * hours` with hours
    rounded to two places is exact in cents. */
module Classes {
  import opened Results
  import opened Utils

  /** How a worked span (the query) meets a rate slot (the window). */
  datatype IntersectionType =
    | NoIntersection
    | FitsInCurrent    // the query lies inside the window
    | ExceedsCurrent   // the query covers the window
    | StartBounded     // only the query's start lies inside the window
    | EndBounded       // only the query's end lies inside the window

  /** StartGreaterThanEndError, raised by the TimeSpan constructor. */
  datatype SpanError = StartGreaterThanEnd(start: TimeOfDay, end: TimeOfDay)

  function Min(a: int, b: int): int { if a <= b then a else b }

  function Max(a: int, b: int): int { if a <= b then b else a }

  function Abs(x: int): int { if x < 0 then -x else x }

  /** `timedelta.total_seconds() // 60`: whole minutes, rounded down. */
  function WholeMinutes(seconds: int): (minutes: int)
    ensures 60 * minutes <= seconds < 60 * minutes + 60
  {
    seconds / 60
  }

  /** A time span within one day. `end` is the normalised end, used by every
      comparison and subtraction; `rawEnd` is the end as given. */
  datatype TimeSpan = TimeSpan(start: TimeOfDay, end: TimeOfDay, rawEnd: TimeOfDay)
  {
    /** The span does not run backwards. */
    predicate Ordered() {
      start <= end
    }

    /** What the constructor establishes. */
    predicate Valid() {
      end == Normalize(rawEnd).1 && Ordered()
    }

    /** `==` on (start, end): neither span is before the other. */
    predicate Eq(other: TimeSpan)
      ensures Eq(other) <==> !Lt(other) && !other.Lt(this)
    {
      (start, end) == (other.start, other.end)
    }

    /** `!=`: one span is before the other. */
    predicate Ne(other: TimeSpan)
      ensures Ne(other) <==> Lt(other) || other.Lt(this)
    {
      !Eq(other)
    }

    /** Python's tuple order on (start, end): the start decides, and the end
        only breaks a tie. */
    predicate Lt(other: TimeSpan)
      ensures start < other.start ==> Lt(other)
      ensures start > other.start ==> !Lt(other)
      ensures start == other.start ==> (Lt(other) <==> end < other.end)
    {
      start < other.start || (start == other.start && end < other.end)
    }

    predicate Le(other: TimeSpan)
      ensures Le(other) <==> !Gt(other)
    {
      Lt(other) || Eq(other)
    }

    predicate Gt(other: TimeSpan)
      ensures Gt(other) <==> other.Lt(this)
    {
      start > other.start || (start == other.start && end > other.end)
    }

    predicate Ge(other: TimeSpan)
      ensures Ge(other) <==> !Lt(other)
    {
      Gt(other) || Eq(other)
    }

    /** Classifies how `other` (the query) meets this span (the window) and
        measures their overlap in whole minutes. */
    function GetIntersection(other: TimeSpan): (r: (IntersectionType, int))
      ensures r.0 == NoIntersection ==> r.1 == 0
      ensures Ordered() && other.Ordered() ==> r.1 == WholeMinutes(OverlapSeconds(this, other))
    {
      var startIsBounded := start <= other.start <= end;
      var endIsBounded := start <= other.end <= end;
      var otherSpanExceedsCurrent :=
        other.start <= start <= other.end && other.start <= end <= other.end;
      var otherSpanFitsInCurrent := startIsBounded && endIsBounded;
      if otherSpanFitsInCurrent then
        (FitsInCurrent, WholeMinutes(SubtractTimeValues(other.end, other.start)))
      else if otherSpanExceedsCurrent then
        (ExceedsCurrent, WholeMinutes(SubtractTimeValues(end, start)))
      else if startIsBounded then
        (StartBounded, WholeMinutes(SubtractTimeValues(end, other.start)))
      else if endIsBounded then
        (EndBounded, WholeMinutes(SubtractTimeValues(other.end, start)))
      else
        (NoIntersection, 0)
    }
  }

  /** The number of seconds two spans share, from their end points alone. */
  function OverlapSeconds(a: TimeSpan, b: TimeSpan): int {
    Max(0, Min(a.end, b.end) - Max(a.start, b.start))
  }

  /** `TimeSpan(start, end)`: normalises the end by the midnight rule and
      rejects a start later than the normalised end. */
  function NewTimeSpan(start: TimeOfDay, end: TimeOfDay): (r: Result<TimeSpan, SpanError>)
    ensures r.Err? <==> start > Normalize(end).1
    ensures r.Err? ==> r.error == StartGreaterThanEnd(start, end)
    ensures r.Ok? ==> r.value.Valid() && r.value.start == start && r.value.rawEnd == end
  {
    var (_, normalizedEnd) := Normalize(end);
    if start > normalizedEnd then Err(StartGreaterThanEnd(start, end))
    else Ok(TimeSpan(start, normalizedEnd, end))
  }

  /** Every valid span is the one its start and raw end construct. */
  lemma ValidSpanIsConstructed(s: TimeSpan)
    requires s.Valid()
    ensures NewTimeSpan(s.start, s.rawEnd) == Ok(s)
  {
  }

  /** Ends of 00:00 and 00:00:30 are read as 23:59:59: all three spans are
      equal and meet every span in the same way, while each keeps its own
      raw end. */
  lemma MidnightEndsAgree(start: TimeOfDay, second: int, t: TimeSpan)
    requires 0 <= second < 60
    ensures NewTimeSpan(start, Time(0, 0, second)).Ok? && NewTimeSpan(start, END_OF_DAY).Ok?
    ensures var a := NewTimeSpan(start, Time(0, 0, second)).value;
            var b := NewTimeSpan(start, END_OF_DAY).value;
            && a.Eq(b) && a.rawEnd == Time(0, 0, second) && b.rawEnd == END_OF_DAY
            && a.GetIntersection(t) == b.GetIntersection(t)
            && t.GetIntersection(a) == t.GetIntersection(b)
  {
  }

  /** Equality and the four orders look at (start, end) only, never at the
      raw end. */
  lemma ComparisonsIgnoreRawEnd(a: TimeSpan, b: TimeSpan, c: TimeSpan)
    requires a.start == b.start && a.end == b.end
    ensures a.Eq(b)
    ensures a.Eq(c) == b.Eq(c) && a.Ne(c) == b.Ne(c)
    ensures a.Lt(c) == b.Lt(c) && a.Le(c) == b.Le(c)
    ensures a.Gt(c) == b.Gt(c) && a.Ge(c) == b.Ge(c)
  {
  }

  /** Lt is a strict total order whose equality is Eq. */
  lemma TimeSpanTotalOrder(a: TimeSpan, b: TimeSpan, c: TimeSpan)
    ensures a.Lt(b) || a.Eq(b) || a.Gt(b)
    ensures !(a.Lt(b) && a.Eq(b)) && !(a.Lt(b) && a.Gt(b)) && !(a.Eq(b) && a.Gt(b))
    ensures a.Lt(b) && b.Lt(c) ==> a.Lt(c)
    ensures a.Le(b) && b.Le(a) ==> a.Eq(b)
  {
  }

  /** The five cases in terms of the two spans' end points. On a span that
      matches the window exactly, FitsInCurrent wins over ExceedsCurrent, and
      a span that only touches the window is bounded, not disjoint. */
  lemma IntersectionCases(w: TimeSpan, q: TimeSpan)
    requires w.Ordered() && q.Ordered()
    ensures var kind := w.GetIntersection(q).0;
            && (kind == FitsInCurrent <==> w.start <= q.start && q.end <= w.end)
            && (kind == ExceedsCurrent <==>
                  q.start <= w.start && w.end <= q.end && !(w.start <= q.start && q.end <= w.end))
            && (kind == StartBounded <==> w.start < q.start <= w.end < q.end)
            && (kind == EndBounded <==> q.start < w.start <= q.end < w.end)
            && (kind == NoIntersection <==> q.end < w.start || w.end < q.start)
  {
  }

  /** The overlap never exceeds either span. */
  lemma IntersectionWithinBoth(w: TimeSpan, q: TimeSpan)
    requires w.Ordered() && q.Ordered()
    ensures 0 <= w.GetIntersection(q).1
    ensures w.GetIntersection(q).1 <= WholeMinutes(w.end - w.start)
    ensures w.GetIntersection(q).1 <= WholeMinutes(q.end - q.start)
  {
    var m := w.GetIntersection(q).1;
    var x := OverlapSeconds(w, q);
    assert 0 <= x <= w.end - w.start && x <= q.end - q.start;
    var mw, mq := WholeMinutes(w.end - w.start), WholeMinutes(q.end - q.start);
    assert 60 * m <= x < 60 * m + 60;
  }

  /** A worked interval on one weekday (calendar numbering, Monday = 0). */
  datatype WorkingDaySpan = WorkingDaySpan(weekday: int, span: TimeSpan)

  /** `WorkingDaySpan(weekday=..., start=..., end=...)`. */
  function NewWorkingDaySpan(weekday: int, start: TimeOfDay, end: TimeOfDay)
    : (r: Result<WorkingDaySpan, SpanError>)
    ensures r.Err? <==> start > Normalize(end).1
    ensures r.Err? ==> r.error == StartGreaterThanEnd(start, end)
    ensures r.Ok? ==> r.value.weekday == weekday && r.value.span.Valid()
    ensures r.Ok? ==> r.value.span.start == start && r.value.span.rawEnd == end
  {
    match NewTimeSpan(start, end)
    case Err(e) => Err(e)
    case Ok(span) => Ok(WorkingDaySpan(weekday, span))
  }

  /** One priced interval of a day; the hourly rate is in whole dollars. */
  datatype PaymentTimeSlot = PaymentTimeSlot(span: TimeSpan, hourAmount: int)

  /** `PaymentTimeSlot(start=..., end=..., hour_amount=...)`. */
  function NewPaymentTimeSlot(start: TimeOfDay, end: TimeOfDay, hourAmount: int)
    : (r: Result<PaymentTimeSlot, SpanError>)
    ensures r.Err? <==> start > Normalize(end).1
    ensures r.Err? ==> r.error == StartGreaterThanEnd(start, end)
    ensures r.Ok? ==> r.value.hourAmount == hourAmount && r.value.span.Valid()
    ensures r.Ok? ==> r.value.span.start == start && r.value.span.rawEnd == end
  {
    match NewTimeSpan(start, end)
    case Err(e) => Err(e)
    case Ok(span) => Ok(PaymentTimeSlot(span, hourAmount))
  }

  /** The three slots every day has, 00:01-09:00, 09:01-18:00 and
      18:01-00:00, at the given rates. */
  function DaySlots(nightRate: int, dayRate: int, eveningRate: int): seq<PaymentTimeSlot> {
    [
      NewPaymentTimeSlot(Time(0, 1, 0), Time(9, 0, 0), nightRate).value,
      NewPaymentTimeSlot(Time(9, 1, 0), Time(18, 0, 0), dayRate).value,
      NewPaymentTimeSlot(Time(18, 1, 0), Time(0, 0, 0), eveningRate).value
    ]
  }

  /** The fixed rate table, keyed by calendar day. */
  const WEEKDAY_TIME_PAYMENTS: map<int, seq<PaymentTimeSlot>> := map[
    SUNDAY := DaySlots(30, 20, 25),
    MONDAY := DaySlots(25, 15, 20),
    TUESDAY := DaySlots(25, 15, 20),
    WEDNESDAY := DaySlots(25, 15, 20),
    THURSDAY := DaySlots(25, 15, 20),
    FRIDAY := DaySlots(25, 15, 20),
    SATURDAY := DaySlots(30, 20, 25)
  ]

  /** Every calendar day, and nothing else, has three slots, 00:01-09:00,
      09:01-18:00 and 18:01-23:59:59 (given as 00:00), paid 25/15/20 on
      weekdays and 30/20/25 on Saturday and Sunday. */
  lemma RateTableShape(day: int)
    ensures day in WEEKDAY_TIME_PAYMENTS <==> MONDAY <= day <= SUNDAY
    ensures day in WEEKDAY_TIME_PAYMENTS ==>
              var slots := WEEKDAY_TIME_PAYMENTS[day];
              var weekend := day == SATURDAY || day == SUNDAY;
              && |slots| == 3
              && slots[0].span == TimeSpan(Time(0, 1, 0), Time(9, 0, 0), Time(9, 0, 0))
              && slots[1].span == TimeSpan(Time(9, 1, 0), Time(18, 0, 0), Time(18, 0, 0))
              && slots[2].span == TimeSpan(Time(18, 1, 0), END_OF_DAY, Time(0, 0, 0))
              && slots[0].hourAmount == (if weekend then 30 else 25)
              && slots[1].hourAmount == (if weekend then 20 else 15)
              && slots[2].hourAmount == (if weekend then 25 else 20)
  {
  }

  /** `Decimal(mins / 60).quantize(Decimal("0.01"))`, in hundredths of an
      hour: the value is within a third of a hundredth of mins/60 hours. */
  function RoundToHundredths(minutes: int): (hundredths: int)
    ensures -2 <= 10 * minutes - 6 * hundredths <= 2
    ensures minutes >= 0 ==> hundredths >= 0
  {
    var hundredths := (10 * minutes + 3) / 6;
    var remainder := (10 * minutes + 3) % 6;
    assert 10 * minutes + 3 == 6 * hundredths + remainder && 0 <= remainder < 6;
    hundredths
  }

  /** The rounded value is strictly the nearest hundredth: no ties arise, so
      the rounding mode does not matter. */
  lemma RoundingIsNearest(minutes: int, k: int)
    requires k != RoundToHundredths(minutes)
    ensures Abs(10 * minutes - 6 * k) > Abs(10 * minutes - 6 * RoundToHundredths(minutes))
  {
    var h := RoundToHundredths(minutes);
    assert 10 * minutes - 6 * k == (10 * minutes - 6 * h) + 6 * (h - k);
  }

  /** A day's three slots, one after the other. */
  lemma SlotsPayOfThree(slots: seq<PaymentTimeSlot>, worked: TimeSpan)
    requires |slots| == 3
    ensures SlotsPay(slots, worked) == SlotPay(slots[0], worked) + SlotPay(slots[1], worked) + SlotPay(slots[2], worked)
  {
    assert slots[..2][..1] == slots[..1];
    assert slots[..1][..0] == [];
    assert SlotsPay(slots, worked) == SlotsPay(slots[..2], worked) + SlotPay(slots[2], worked);
    assert SlotsPay(slots[..2], worked) == SlotsPay(slots[..1], worked) + SlotPay(slots[1], worked);
    assert SlotsPay(slots[..1], worked) == SlotPay(slots[0], worked);
  }

  /** What one rate slot pays, in cents, for one worked span. */
  function SlotPay(slot: PaymentTimeSlot, worked: TimeSpan): (cents: int)
    ensures slot.span.Ordered() && worked.Ordered() ==>
              cents == slot.hourAmount * RoundToHundredths(WholeMinutes(OverlapSeconds(slot.span, worked)))
  {
    var (intersectionResult, intersectionMins) := slot.span.GetIntersection(worked);
    if intersectionResult != NoIntersection then
      slot.hourAmount * RoundToHundredths(intersectionMins)
    else
      0
  }

  /** What a sequence of slots pays for one worked span. */
  function SlotsPay(slots: seq<PaymentTimeSlot>, worked: TimeSpan): int {
    if slots == [] then 0
    else SlotsPay(slots[..|slots| - 1], worked) + SlotPay(slots[|slots| - 1], worked)
  }

  /** Every span's weekday is a key of the rate table. */
  predicate KnownWeekdays(spans: seq<WorkingDaySpan>) {
    forall i :: 0 <= i < |spans| ==> spans[i].weekday in WEEKDAY_TIME_PAYMENTS
  }

  /** What the slots of its weekday pay for one worked span. */
  function SpanPay(ws: WorkingDaySpan): int
    requires ws.weekday in WEEKDAY_TIME_PAYMENTS
  {
    SlotsPay(WEEKDAY_TIME_PAYMENTS[ws.weekday], ws.span)
  }

  /** The salary, in cents, of a list of worked spans: the sum over the spans
      and over the slots of each span's weekday. */
  function Salary(spans: seq<WorkingDaySpan>): int
    requires KnownWeekdays(spans)
  {
    if spans == [] then 0
    else Salary(spans[..|spans| - 1]) + SpanPay(spans[|spans| - 1])
  }

  /** KeyError: a span whose weekday the rate table does not have. */
  datatype SalaryError = MissingWeekday(weekday: int)

  /** An employee's name and worked spans. */
  datatype EmployeeSchedule = EmployeeSchedule(username: Option<string>, workingDaysSpans: seq<WorkingDaySpan>)
  {
    /** `calculate_salary`: adds, over every worked span and every slot of its
        weekday, the slot's rate times the overlap in hours rounded to two
        places. The first span with a weekday outside the table is an error. */
    method CalculateSalary() returns (r: Result<int, SalaryError>)
      ensures r.Ok? <==> KnownWeekdays(workingDaysSpans)
      ensures r.Ok? ==> r.value == Salary(workingDaysSpans)
      ensures r.Err? ==>
                exists k :: 0 <= k < |workingDaysSpans| && KnownWeekdays(workingDaysSpans[..k])
                            && workingDaysSpans[k].weekday !in WEEKDAY_TIME_PAYMENTS
                            && r.error == MissingWeekday(workingDaysSpans[k].weekday)
      ensures workingDaysSpans == [] ==> r == Ok(0)
    {
      var salary := 0;
      var i := 0;
      while i < |workingDaysSpans|
        invariant 0 <= i <= |workingDaysSpans|
        invariant KnownWeekdays(workingDaysSpans[..i])
        invariant salary == Salary(workingDaysSpans[..i])
      {
        var employeeSlot := workingDaysSpans[i];
        if employeeSlot.weekday !in WEEKDAY_TIME_PAYMENTS {
          return Err(MissingWeekday(employeeSlot.weekday));
        }
        var paymentSlots := WEEKDAY_TIME_PAYMENTS[employeeSlot.weekday];
        var j := 0;
        while j < |paymentSlots|
          invariant 0 <= j <= |paymentSlots|
          invariant salary == Salary(workingDaysSpans[..i]) + SlotsPay(paymentSlots[..j], employeeSlot.span)
        {
          var paymentSlot := paymentSlots[j];
          var (intersectionResult, intersectionMins) := paymentSlot.span.GetIntersection(employeeSlot.span);
          if intersectionResult != NoIntersection {
            var intersectionHours := RoundToHundredths(intersectionMins);
            salary := salary + paymentSlot.hourAmount * intersectionHours;
          }
          SlotsPayStep(paymentSlots, j, employeeSlot.span);
          j := j + 1;
        }
        assert paymentSlots[..j] == paymentSlots;
        SalaryStep(workingDaysSpans, i);
        i := i + 1;
      }
      assert workingDaysSpans[..i] == workingDaysSpans;
      return Ok(salary);
    }
  }

  /** One more slot adds its pay. */
  lemma SlotsPayStep(slots: seq<PaymentTimeSlot>, j: int, worked: TimeSpan)
    requires 0 <= j < |slots|
    ensures SlotsPay(slots[..j + 1], worked) == SlotsPay(slots[..j], worked) + SlotPay(slots[j], worked)
  {
    assert slots[..j + 1][..j] == slots[..j];
  }

  /** One more worked span adds its pay. */
  lemma SalaryStep(spans: seq<WorkingDaySpan>, i: int)
    requires 0 <= i < |spans| && KnownWeekdays(spans[..i]) && spans[i].weekday in WEEKDAY_TIME_PAYMENTS
    ensures KnownWeekdays(spans[..i + 1])
    ensures Salary(spans[..i + 1]) == Salary(spans[..i]) + SpanPay(spans[i])
  {
    assert spans[..i + 1][..i] == spans[..i];
    assert forall k :: 0 <= k < i + 1 ==> spans[..i + 1][k] == spans[k];
  }

  /** Every span of the list is a constructed one. */
  predicate AllValid(spans: seq<WorkingDaySpan>) {
    forall i :: 0 <= i < |spans| ==> spans[i].span.Valid()
  }

  /** The salary of two lists one after the other is the sum of their
      salaries. */
  lemma {:induction false} SalaryAppend(a: seq<WorkingDaySpan>, b: seq<WorkingDaySpan>)
    requires KnownWeekdays(a) && KnownWeekdays(b)
    ensures KnownWeekdays(a + b)
    ensures Salary(a + b) == Salary(a) + Salary(b)
    decreases |b|
  {
    if b == [] {
      assert a + b == a;
    } else {
      var b', x := b[..|b| - 1], b[|b| - 1];
      assert KnownWeekdays(b') by {
        assert forall i :: 0 <= i < |b'| ==> b'[i] == b[i];
      }
      SalaryAppend(a, b');
      assert a + b == (a + b') + [x];
      assert KnownWeekdays(a + b) by {
        assert forall i :: 0 <= i < |a + b| ==> (a + b)[i] == if i < |a + b'| then (a + b')[i] else x;
      }
      assert (a + b)[..|a + b| - 1] == a + b';
    }
  }

  /** Reordering keeps every weekday a key of the table. */
  lemma KnownWeekdaysPermutation(a: seq<WorkingDaySpan>, b: seq<WorkingDaySpan>)
    requires multiset(a) == multiset(b)
    requires KnownWeekdays(a)
    ensures KnownWeekdays(b)
  {
    forall i | 0 <= i < |b| ensures b[i].weekday in WEEKDAY_TIME_PAYMENTS {
      assert b[i] in multiset(b);
      assert b[i] in a;
    }
  }

  /** Taking one span out of the list takes its pay out of the salary. */
  lemma {:induction false} SalaryWithout(b: seq<WorkingDaySpan>, k: int)
    requires KnownWeekdays(b) && 0 <= k < |b|
    ensures KnownWeekdays(b[..k] + b[k + 1..])
    ensures Salary(b) == Salary(b[..k] + b[k + 1..]) + SpanPay(b[k])
  {
    var left, right := b[..k], b[k + 1..];
    assert b == left + [b[k]] + right;
    assert KnownWeekdays(left) && KnownWeekdays(right);
    SalaryAppend(left, right);
    SalaryAppend(left, [b[k]]);
    SalaryAppend(left + [b[k]], right);
    assert [b[k]][..0] == [];
  }

  /** Reordering the worked spans does not change the salary. */
  lemma {:induction false} SalaryPermutation(a: seq<WorkingDaySpan>, b: seq<WorkingDaySpan>)
    requires multiset(a) == multiset(b)
    requires KnownWeekdays(a)
    ensures KnownWeekdays(b)
    ensures Salary(a) == Salary(b)
    decreases |a|
  {
    KnownWeekdaysPermutation(a, b);
    if a != [] {
      var x := a[|a| - 1];
      var a' := a[..|a| - 1];
      assert x in multiset(b) by {
        assert x in multiset(a);
      }
      var k :| 0 <= k < |b| && b[k] == x;
      var b' := b[..k] + b[k + 1..];
      RemoveMatching(a, b, k);
      assert KnownWeekdays(a') by {
        assert forall i :: 0 <= i < |a'| ==> a'[i] == a[i];
      }
      SalaryWithout(b, k);
      SalaryPermutation(a', b');
    }
  }

  /** Taking the last element off one list and an equal element off another
      keeps the two lists permutations of each other. */
  lemma RemoveMatching<T>(a: seq<T>, b: seq<T>, k: int)
    requires multiset(a) == multiset(b) && a != [] && 0 <= k < |b| && b[k] == a[|a| - 1]
    ensures multiset(a[..|a| - 1]) == multiset(b[..k] + b[k + 1..])
  {
    var x, a' := a[|a| - 1], a[..|a| - 1];
    var left, right := b[..k], b[k + 1..];
    assert a == a' + [x];
    assert b == left + [x] + right;
    assert multiset(a') == multiset(a) - multiset{x};
    assert multiset(left + right) == multiset(b) - multiset{x};
  }

  /** A worked span listed twice is paid twice: spans are never merged. */
  lemma DuplicateSpanPaidTwice(ws: WorkingDaySpan)
    requires ws.weekday in WEEKDAY_TIME_PAYMENTS
    ensures Salary([ws, ws]) == 2 * SpanPay(ws)
  {
    SalaryAppend([ws], [ws]);
    assert [ws] + [ws] == [ws, ws];
    assert [ws][..0] == [];
  }

  /** A slot with a non-negative rate never pays a negative amount. */
  lemma SlotPayNonNegative(slot: PaymentTimeSlot, worked: TimeSpan)
    requires slot.span.Ordered() && worked.Ordered() && slot.hourAmount >= 0
    ensures SlotPay(slot, worked) >= 0
  {
    var minutes := WholeMinutes(OverlapSeconds(slot.span, worked));
    assert minutes >= 0;
    var hours := RoundToHundredths(minutes);
    assert hours >= 0;
    ProductNonNegative(slot.hourAmount, hours);
    assert SlotPay(slot, worked) == slot.hourAmount * hours;
  }

  lemma ProductNonNegative(a: int, b: int)
    requires a >= 0 && b >= 0
    ensures a * b >= 0
  {
  }

  /** Slots with non-negative rates never pay a negative amount. */
  lemma {:induction false} SlotsPayNonNegative(slots: seq<PaymentTimeSlot>, worked: TimeSpan)
    requires worked.Ordered()
    requires forall i :: 0 <= i < |slots| ==> slots[i].span.Ordered() && slots[i].hourAmount >= 0
    ensures SlotsPay(slots, worked) >= 0
    decreases |slots|
  {
    if slots != [] {
      var last, rest := slots[|slots| - 1], slots[..|slots| - 1];
      SlotPayNonNegative(last, worked);
      assert forall i :: 0 <= i < |rest| ==> rest[i] == slots[i];
      SlotsPayNonNegative(rest, worked);
    }
  }

  /** Every slot of the table is ordered and has a non-negative rate. */
  lemma RateTableNonNegative(day: int)
    requires day in WEEKDAY_TIME_PAYMENTS
    ensures forall i :: 0 <= i < |WEEKDAY_TIME_PAYMENTS[day]| ==>
              WEEKDAY_TIME_PAYMENTS[day][i].span.Ordered() && WEEKDAY_TIME_PAYMENTS[day][i].hourAmount >= 0
  {
    RateTableShape(day);
  }

  /** A salary is never negative. */
  lemma {:induction false} SalaryNonNegative(spans: seq<WorkingDaySpan>)
    requires KnownWeekdays(spans) && AllValid(spans)
    ensures Salary(spans) >= 0
    decreases |spans|
  {
    if spans != [] {
      var ws, init := spans[|spans| - 1], spans[..|spans| - 1];
      RateTableNonNegative(ws.weekday);
      SlotsPayNonNegative(WEEKDAY_TIME_PAYMENTS[ws.weekday], ws.span);
      assert forall i :: 0 <= i < |init| ==> init[i] == spans[i];
      SalaryNonNegative(init);
    }
  }

  /** 00:01-00:00 on one day is paid 8.98 h, 8.98 h and 5.97 h in its three
      slots: the minutes 00:00-00:01, 09:00-09:01, 18:00-18:01 and the last
      59 seconds of the day are left unpaid. */
  lemma WholeDayPay(day: int)
    requires MONDAY <= day <= SUNDAY
    ensures var ws := NewWorkingDaySpan(day, Time(0, 1, 0), Time(0, 0, 0)).value;
            SpanPay(ws) == (if day == SATURDAY || day == SUNDAY then 30 * 898 + 20 * 898 + 25 * 597
                            else 25 * 898 + 15 * 898 + 20 * 597)
  {
    RateTableShape(day);
    var ws := NewWorkingDaySpan(day, Time(0, 1, 0), Time(0, 0, 0)).value;
    SlotsPayOfThree(WEEKDAY_TIME_PAYMENTS[day], ws.span);
  }

  /** The table leaves a one-minute gap between its slots: two hours from
      08:00 to 10:00 on a Monday are paid as 1.00 h at 25 plus 0.98 h at 15. */
  lemma UnpaidMinuteBetweenSlots()
    ensures var ws := NewWorkingDaySpan(MONDAY, Time(8, 0, 0), Time(10, 0, 0)).value;
            SpanPay(ws) == 25 * 100 + 15 * 98
  {
    RateTableShape(MONDAY);
    var ws := NewWorkingDaySpan(MONDAY, Time(8, 0, 0), Time(10, 0, 0)).value;
    SlotsPayOfThree(WEEKDAY_TIME_PAYMENTS[MONDAY], ws.span);
  }
}
