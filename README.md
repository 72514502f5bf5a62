# salary_calculator in Dafny

A model of the core of `salary_calculator`, a weekly-schedule payroll
calculator. An employee's line `NAME=DDhh:mm-hh:mm,...` is parsed into an
`EmployeeSchedule`, a list of worked spans, each a weekday plus a time span.
Each span is then priced against a fixed table of three hourly-rate slots per
weekday. A slot pays its rate times the overlap in hours, rounded to two
places.

Modules and files:

- `results.dfy` (`Results`): the `Option` and `Result` types. Exceptions of
  the source become `Err` values.
- `utils.dfy` (`Utils`): times of day, the midnight rule (`normalize`), the
  same-day subtraction and the two weekday-abbreviation lookups
  (salary_calculator/utils.py).
- `classes.dfy` (`Classes`): these model salary_calculator/classes.py.
  - `TimeSpan` with its constructor, comparisons and `get_intersection`;
  - `WorkingDaySpan`, `PaymentTimeSlot` and the rate table;
  - `EmployeeSchedule.calculate_salary`, an imperative method with nested
    loops, proved against the recursive specification `Salary`.
- `serializers.dfy` (`Serializers`): `EmployeeScheduleSerializer.serialize`
  as the method `Serialize`, proved against the specification function
  `ParseLine`. The source's loop over the tokens is the imperative method
  `ParseSpanTokens`, proved against `ParseTokens`. Also a writer for lines and the
  round trip between the two.
- `test_timespans.dfy` (`TimeSpanExamples`) and `test_schedules.dfy`
  (`ScheduleExamples`): the expected values in the repository's tests, as
  lemmas.

Encoding:

- **Times** are whole seconds since midnight, 0..86399.
- **The midnight rule:** an end before 00:01 is read as 23:59:59. The span
  keeps the end as given (`rawEnd`) beside the normalised `end`.
- **Minutes** are `total_seconds() // 60`, a floor.
- **Hours** are counted in hundredths. `Decimal(mins / 60).quantize(0.01)` is
  `(10 * mins + 3) / 6` hundredths. A tie would need `10 * mins == 6 * k + 3`,
  where the left side is even and the right side odd. So the float step and the
  rounding mode cannot change the result (`RoundingIsNearest`).
- **Money** is counted in cents. Every rate is a whole number of dollars, so
  rate × hundredths is exact, and the final `quantize` changes nothing.
- **Weekdays** are `calendar` numbers, Monday = 0 … Sunday = 6. A span whose
  weekday the table lacks gets `Err(MissingWeekday)` where Python raises
  `KeyError`.
- **The argument order of `get_intersection`:** the rate slot is the window
  (`self`) and the worked span is the query (`other`), as in
  `calculate_salary`.
- **Parser errors** are the values of `SerializeError`. Each token is checked
  in this order, and the first token that fails decides the error:
  1. `span_token[2:].split("-")` must give exactly two parts;
  2. the weekday prefix must be an abbreviation;
  3. the start, then the end, must be a `%H:%M` time;
  4. the start must not be later than the normalised end.

  A line without '=' fails before any token is looked at.
- **`strptime(text, "%H:%M")`** is modelled as an hour of one or two ASCII
  digits up to 23, a ':', and a minute of one or two ASCII digits up to 59.

Two consequences of the code as written:

- **The rate table has gaps.** The slots 00:01-09:00, 09:01-18:00 and
  18:01-00:00 (salary_calculator/classes.py:145-223) leave the minutes
  00:00-00:01, 09:00-09:01 and 18:00-18:01 unpaid. They do not partition the
  day. `WholeDayPay` and
  `UnpaidMinuteBetweenSlots` state the consequences.
- **`NAME=` with nothing after the '=' is an error.** It is not an empty
  schedule, because the single empty token does not split into a start and an
  end (salary_calculator/serializers.py:17-19, `EmptyScheduleRejected`).

## Model

| member | source | states |
|---|---|---|
| Utils.Time | salary_calculator/utils.py:37-38 | `time(h, m, s)` as seconds since midnight, from which the hour, minute and second are recovered |
| Utils.Normalize | salary_calculator/utils.py:30-39 | the flag is set exactly for values in [00:00, 00:01); a flagged value becomes 23:59:59, any other is unchanged; the result is never before 00:01 |
| Utils.NormalizeIdempotent | salary_calculator/utils.py:37-38 | normalising a normalised value sets no flag and leaves it unchanged |
| Utils.SubtractTimeValues | salary_calculator/utils.py:42-45 | the signed difference: adding it to the second value gives the first, it stays inside one day, and it is negative exactly when the first time is earlier |
| Utils.IndexOf | salary_calculator/utils.py:25-27 | `list.index`: absent exactly when the element is missing; otherwise the position of its first occurrence |
| Utils.Keys | salary_calculator/utils.py:25 | `keys()` of the ordered table: one key per entry, in order |
| Utils.Values | salary_calculator/utils.py:26 | `values()` of the ordered table: one value per entry, in order |
| Utils.TableColumns | salary_calculator/utils.py:5-13 | the keys are SU, MO, TU, WE, TH, FR, SA and the values are the calendar numbers 6, 0, 1, 2, 3, 4, 5 |
| Utils.CalendarDayByAbbrev | salary_calculator/utils.py:16-21 | succeeds exactly on the seven abbreviations, with the day the table stores for that abbreviation (a day in 0..6); any other string gets the invalid-prefix error naming it |
| Utils.AbbrevByCalendarDay | salary_calculator/utils.py:24-27 | succeeds exactly on the days 0..6, with the abbreviation the table stores for that day; any other day is the `list.index` error |
| Utils.IndexOfDistinct | salary_calculator/utils.py:25-27 | in a list without repeats, `index` of the element at position i is i |
| Utils.AbbreviationsDistinct | salary_calculator/utils.py:5-13 | the seven abbreviations are pairwise different |
| Utils.TableColumnsDistinct | salary_calculator/utils.py:5-13 | neither column of the table repeats an element |
| Utils.AbbrevOfDayOfAbbrev | salary_calculator/utils.py:16-27 | abbrev(day(a)) = a for each of the seven abbreviations |
| Utils.DayOfAbbrevOfDay | salary_calculator/utils.py:16-27 | day(abbrev(d)) = d for each day 0..6 |
| Utils.CalendarDaysDistinct | salary_calculator/utils.py:5-21 | different abbreviations name different days |
| Classes.WholeMinutes | salary_calculator/classes.py:84-101 | `total_seconds() // 60` is the floor of seconds / 60 |
| Classes.TimeSpan.Eq | salary_calculator/classes.py:36-37 | `==` on (start, end) holds exactly when neither span is `<` the other |
| Classes.TimeSpan.Ne | salary_calculator/classes.py:39-40 | `!=` holds exactly when one span is `<` the other |
| Classes.TimeSpan.Lt | salary_calculator/classes.py:42-43 | the tuple order: an earlier start comes first, a later start never does, and equal starts are ordered by the end |
| Classes.TimeSpan.Le | salary_calculator/classes.py:45-46 | `<=` is the negation of `>` |
| Classes.TimeSpan.Gt | salary_calculator/classes.py:48-49 | `a > b` is `b < a` |
| Classes.TimeSpan.Ge | salary_calculator/classes.py:51-52 | `>=` is the negation of `<` |
| Classes.TimeSpan.GetIntersection | salary_calculator/classes.py:71-103 | NO_INTERSECTION carries 0 minutes; on ordered spans the minutes are the whole minutes the two spans share |
| Classes.NewTimeSpan | salary_calculator/classes.py:27-34 | fails with StartGreaterThanEnd(start, end) exactly when start > normalize(end); otherwise the span keeps the start, the raw end, and the normalised end, which is not before the start |
| Classes.ValidSpanIsConstructed | salary_calculator/classes.py:27-34 | every span satisfying the constructor's invariant is the one the constructor builds from its start and raw end |
| Classes.MidnightEndsAgree | salary_calculator/classes.py:27-37 | ends in [00:00, 00:01) and 23:59:59 give equal spans that meet every span the same way, while each keeps its own raw end |
| Classes.ComparisonsIgnoreRawEnd | salary_calculator/classes.py:36-52 | `==`, `!=`, `<`, `<=`, `>`, `>=` depend on (start, end) only, never on the raw end |
| Classes.TimeSpanTotalOrder | salary_calculator/classes.py:36-52 | exactly one of `<`, `==`, `>` holds; `<` is transitive; `<=` both ways is equality |
| Classes.IntersectionCases | salary_calculator/classes.py:71-103 | each of the five tags holds exactly when its condition on the end points holds; FITS_IN_CURRENT wins over EXCEEDS_CURRENT, and NO_INTERSECTION is exactly the disjoint case |
| Classes.IntersectionWithinBoth | salary_calculator/classes.py:83-102 | the overlap minutes are at least 0 and at most the whole-minute length of the window and of the query |
| Classes.NewWorkingDaySpan | salary_calculator/classes.py:111-113 | the span constructor's outcome, with the weekday attached |
| Classes.NewPaymentTimeSlot | salary_calculator/classes.py:126-128 | the span constructor's outcome, with the hourly rate attached; fails with StartGreaterThanEnd(start, end) exactly when start > normalize(end) |
| Classes.RateTableShape | salary_calculator/classes.py:145-223 | the table has exactly the days 0..6; each has three slots, 00:01-09:00, 09:01-18:00 and 18:01-00:00 (ending 23:59:59); the rates are 25/15/20 Monday to Friday and 30/20/25 on Saturday and Sunday |
| Classes.RoundToHundredths | salary_calculator/classes.py:259-261 | the hundredths of an hour are within a third of a hundredth of mins/60, and never negative for non-negative minutes |
| Classes.RoundingIsNearest | salary_calculator/classes.py:259-261 | every other hundredth is strictly farther from mins/60, so there is no tie and the rounding mode does not matter |
| Classes.SlotsPay | salary_calculator/classes.py:253-263 | the specification of calculate_salary's inner loop: the pay of the slots in order, added up; its properties are stated by SlotsPayOfThree, SlotsPayStep and SlotsPayNonNegative |
| Classes.SpanPay | salary_calculator/classes.py:253-263 | the specification of one span's pay: the slots of its weekday in the table; for each day, RateTableShape and SlotsPayOfThree give its three terms |
| Classes.Salary | salary_calculator/classes.py:252-263 | the specification of calculate_salary's outer loop: the span pays added up; CalculateSalary is proved equal to it, and SalaryAppend, SalaryPermutation and SalaryNonNegative state its properties |
| Classes.SlotsPayOfThree | salary_calculator/classes.py:253-263 | a day's pay is the pay of its three slots added up |
| Classes.SlotPay | salary_calculator/classes.py:255-263 | on ordered spans a slot pays its rate times the rounded hours of the overlap |
| Classes.EmployeeSchedule.CalculateSalary | salary_calculator/classes.py:249-264 | succeeds exactly when every weekday is in the table, with the sum over spans and slots of rate × rounded hours; otherwise fails on the first span whose weekday is missing; an empty schedule earns 0 |
| Classes.SlotsPayStep | salary_calculator/classes.py:253-263 | one more slot adds exactly its pay to the day's pay |
| Classes.SalaryStep | salary_calculator/classes.py:252-263 | one more span with a weekday in the table adds exactly its pay to the salary |
| Classes.SalaryAppend | salary_calculator/classes.py:252-263 | the salary of two span lists one after the other is the sum of their salaries |
| Classes.KnownWeekdaysPermutation | salary_calculator/classes.py:252-253 | reordering the spans keeps every weekday in the table |
| Classes.SalaryWithout | salary_calculator/classes.py:252-263 | removing one span removes exactly its pay |
| Classes.RemoveMatching | salary_calculator/classes.py:252-263 | removing the same element from two lists with equal contents leaves equal contents |
| Classes.SalaryPermutation | salary_calculator/classes.py:252-263 | reordering the spans does not change the salary |
| Classes.DuplicateSpanPaidTwice | salary_calculator/classes.py:252-263 | a span listed twice is paid twice |
| Classes.SlotPayNonNegative | salary_calculator/classes.py:255-263 | a slot with a non-negative rate never pays a negative amount |
| Classes.SlotsPayNonNegative | salary_calculator/classes.py:253-263 | slots with non-negative rates never pay a negative amount |
| Classes.RateTableNonNegative | salary_calculator/classes.py:145-223 | every slot of the table is ordered and pays a non-negative rate |
| Classes.SalaryNonNegative | salary_calculator/classes.py:249-264 | the salary of constructed spans is never negative |
| Classes.WholeDayPay | salary_calculator/classes.py:145-263 | 00:01-00:00 is paid 8.98 h, 8.98 h and 5.97 h at the day's three rates |
| Classes.UnpaidMinuteBetweenSlots | salary_calculator/classes.py:157-167 | 08:00-10:00 on a Monday is paid 1.00 h at 25 plus 0.98 h at 15 |
| Serializers.Split | salary_calculator/serializers.py:17-19 | `str.split(sep)`: at least one piece, none holding the separator, and joining them gives the string back |
| Serializers.SplitWithoutSeparator | salary_calculator/serializers.py:17-19 | a string without the separator splits into itself alone |
| Serializers.SplitAtFirstSeparator | salary_calculator/serializers.py:17-19 | the first piece ends at the first separator |
| Serializers.SplitJoin | salary_calculator/serializers.py:17-19 | splitting undoes joining pieces that hold no separator |
| Serializers.ParseField | salary_calculator/serializers.py:21-22 | a field is read exactly when it is one or two ASCII digits whose decimal value is at most the field's maximum, and it reads as that decimal value |
| Serializers.ParseClock | salary_calculator/serializers.py:21-22 | accepted exactly when the text splits at ':' into two fields that read as an hour up to 23 and a minute up to 59, giving the time of those fields; a rejected time names its own text; an accepted one has 3 to 5 characters, among them a ':' |
| Serializers.ClockOfFields | salary_calculator/serializers.py:21-22 | `hour:minute` with fields of any width reads as Time(value of hour, value of minute), or is rejected naming its text when a field does not read |
| Serializers.OneDigitMinuteAccepted | salary_calculator/serializers.py:21-22 | a one-digit minute after a two-digit hour, such as `10:5`, reads as that time |
| Serializers.OneDigitFieldsAccepted | salary_calculator/serializers.py:21-22 | one digit for each field, such as `9:5`, reads as that time |
| Serializers.ParseToken | salary_calculator/serializers.py:18-24 | a span is produced only for a token whose first two characters are an abbreviation, on that abbreviation's day, as a constructed span; the unknown-weekday error is given only when the rest split into exactly two parts |
| Serializers.ParseTokenErrorOrder | salary_calculator/serializers.py:18-23 | the exact outcome for each way a token can fail, in the source's order of checks (split, weekday, start, end, span), and the span built when none fails |
| Serializers.ParseEach | salary_calculator/serializers.py:17-24 | the tokens parsed in order, stopping at the first failure; on success one value per token |
| Serializers.ParseEachMeaning | salary_calculator/serializers.py:17-24 | the parse succeeds exactly when every token parses, with the value of token i at position i; otherwise its error is that of a token before which every token parses |
| Serializers.ParseEachAllOk | salary_calculator/serializers.py:17-24 | tokens that each parse to their expected value parse to the list of those values |
| Serializers.ParseEachFails | salary_calculator/serializers.py:17-24 | one failing token makes the whole parse fail, with the error of one of the tokens |
| Serializers.ParseTokens | salary_calculator/serializers.py:17-24 | the same for the span tokens: on success one span per token |
| Serializers.ParseTokensErrors | salary_calculator/serializers.py:17-24 | a failed token parse never gives the missing-'=' error |
| Serializers.ParseLine | salary_calculator/serializers.py:11-25 | the missing-'=' error exactly when there is no '='; on success the username is the text before the first '=', and the spans are the parse of the comma-split rest |
| Serializers.Serialize | salary_calculator/serializers.py:11-25 | computes ParseLine: the missing-'=' error, or the name before the '=' with the loop's outcome on the rest |
| Serializers.ParseSpanTokens | salary_calculator/serializers.py:17-24 | the loop appends the span of each token in turn and stops at the first failing token with its error, computing ParseTokens |
| Serializers.ParseLineAfterEquals | salary_calculator/serializers.py:13-25 | once the first '=' is found, the line's outcome is the name before it with the spans of the comma-split rest, or the first token error |
| Serializers.ParseTokensStep | salary_calculator/serializers.py:17-24 | one more token either appends its span or ends the parse with its error |
| Serializers.ParseTokensStopsAtError | salary_calculator/serializers.py:17-24 | once a prefix of the tokens fails, the whole list fails with the same error |
| Serializers.TwoDigitsField | salary_calculator/serializers.py:21-22 | a two-digit field reads back its value |
| Serializers.ClockRoundTrip | salary_calculator/serializers.py:21-22 | `hh:mm` reads back as the time hh:mm |
| Serializers.OneDigitHourAccepted | salary_calculator/tests/test_schedules.py:48 | a one-digit hour such as `9:50` is accepted |
| Serializers.FormatClockHasNoDash | salary_calculator/serializers.py:17-19 | a written time holds neither '-' nor ',', so the splits cannot cut into it |
| Serializers.TokenRoundTrip | salary_calculator/serializers.py:18-23 | a written shift parses to the span its times construct, or to the construction error |
| Serializers.ShiftParses | salary_calculator/serializers.py:18-23 | a written shift parses to its span when its start is not after its normalised end, and to an invalid-span error otherwise |
| Serializers.FormatShifts | salary_calculator/serializers.py:17 | one written token per shift, in order |
| Serializers.ParseAfterName | salary_calculator/serializers.py:13-15 | for a name without '=', the line `name=rest` parses to that name and the parse of the rest split at the commas |
| Serializers.EmptyScheduleRejected | salary_calculator/serializers.py:17-19 | `NAME=` is rejected, because its one empty token does not split into a start and an end |
| Serializers.SplitFormattedShifts | salary_calculator/serializers.py:17 | splitting the comma-joined written shifts gives the tokens back |
| Serializers.ShiftSpans | salary_calculator/serializers.py:17-24 | one span per shift, the span of shift i at position i |
| Serializers.OrderedShiftsParse | salary_calculator/serializers.py:17-24 | written shifts that are all ordered parse to their spans in order |
| Serializers.UnorderedShiftsFail | salary_calculator/serializers.py:17-24 | written shifts of which one is out of order fail with an invalid-span error |
| Serializers.ShiftsRoundTrip | salary_calculator/serializers.py:17-24 | written shifts parse exactly when each one is ordered, to their spans in order; otherwise the error is an invalid span |
| Serializers.LineRoundTrip | salary_calculator/serializers.py:11-25 | a written line parses exactly when every shift is ordered, to its name and one span per shift in order; otherwise the error is an invalid span |
| TimeSpanExamples.Span | salary_calculator/tests/test_timespans.py:9-13 | `create_timespan` of an ordered pair: a constructed span with the given start and raw end |
| TimeSpanExamples.StartGreaterThanEndErrorCase | salary_calculator/tests/test_timespans.py:19-25 | the five backwards spans are rejected |
| TimeSpanExamples.NotIntersectedSpanCase | salary_calculator/tests/test_timespans.py:26-32 | the five pairs are NO_INTERSECTION |
| TimeSpanExamples.FitsInSpanCase | salary_calculator/tests/test_timespans.py:33-39 | the five pairs are FITS_IN_CURRENT |
| TimeSpanExamples.ExceedsLengthSpanCase | salary_calculator/tests/test_timespans.py:40-46 | the five pairs are EXCEEDS_CURRENT |
| TimeSpanExamples.StartBoundedSpanCase | salary_calculator/tests/test_timespans.py:47-53 | the five pairs are START_BOUNDED |
| TimeSpanExamples.EndBoundedSpanCase | salary_calculator/tests/test_timespans.py:54-60 | the five pairs are END_BOUNDED |
| ScheduleExamples.FirstBaseCase | salary_calculator/tests/test_schedules.py:11-14 | the spans of RENE's line earn 215.00 |
| ScheduleExamples.SecondBaseCase | salary_calculator/tests/test_schedules.py:15-18 | the spans of ASTRID's line earn 85.00 |
| ScheduleExamples.IntersectedCase1 | salary_calculator/tests/test_schedules.py:19-22 | the spans of C1's line earn 339.00 |
| ScheduleExamples.IntersectedCase2 | salary_calculator/tests/test_schedules.py:23-26 | the spans of C2's line earn 587.85 |
| ScheduleExamples.ExceedingLengthCase1 | salary_calculator/tests/test_schedules.py:27-30 | the spans of EL1's line earn 581.70 |
| ScheduleExamples.ExceedingLengthCase2 | salary_calculator/tests/test_schedules.py:31-34 | the spans of EL2's line earn 658.00 |
| ScheduleExamples.PreciselyFittingCase1 | salary_calculator/tests/test_schedules.py:35-38 | the spans of PF1's line earn 627.85 |
| ScheduleExamples.PreciselyFittingCase2 | salary_calculator/tests/test_schedules.py:39-42 | the spans of PF2's line earn 777.10 |
| ScheduleExamples.MixedCase1 | salary_calculator/tests/test_schedules.py:43-46 | the spans of MX1's line earn 620.15 |
| ScheduleExamples.MixedCase2 | salary_calculator/tests/test_schedules.py:47-50 | the spans of MX2's line, one of them with the one-digit hour `9:50`, earn 493.75 |
| ScheduleExamples.SpecialCaseIncludesMidnight | salary_calculator/tests/test_schedules.py:51-54 | the spans of SC1's line, with ends of 00:00, earn 377.10 |
| ScheduleExamples.SpecialCaseEntireDay | salary_calculator/tests/test_schedules.py:55-58 | the spans of SC2's line earn 627.85 |

## Left out

- `main.py`: opening the file, looping over its lines and printing are
  input/output.
- Display formatting: `TimeSpan.__str__`, `__repr__` and `get_simple_format`,
  `WorkingDaySpan.__str__`, and the grouping and sorting inside
  `EmployeeSchedule.__str__`. They only build text for printing.
- `float` and `Decimal`. The exact integer encoding in cents and hundredths
  replaces them. It agrees with the source because no rounding tie can arise,
  as described above.
- The clock read by `date.today()` in `substract_time_values`. The source
  calls it twice, once per time; the model assumes both calls return the same
  date, so the difference is plain seconds within one day. A call that
  straddles midnight would put the two datetimes a day apart in the source,
  off by 86400 seconds (1440 minutes in `get_intersection`); the model does
  not capture that.
- Utils.SubtractTimeValues: its bound of less than one day holds only under
  that same-date assumption.
- Microseconds. Times are whole seconds. The parser only produces whole
  minutes, and the table only uses whole minutes.
- The general `datetime.strptime`. Only `%H:%M` is modelled, on ASCII
  digits. Unicode digits, which Python's `\d` also accepts, are not modelled.
- The `exceptions` module is not part of this model. `StartGreaterThanEndError`,
  the `ValueError`s and the `KeyError` become error values.
- The `EmployeeScheduleSerializer` object only stores the line. It is modelled
  as the method `Serialize(rawData)`, not as a class.
- `EmployeeSchedule()` with no arguments has the username `None`; a parsed
  schedule always has `Some(name)`. Both are values of `EmployeeSchedule`.
- ScheduleExamples: each reference line is written as the spans its tokens
  stand for, not parsed from the literal text. Evaluating the parser on long
  literal strings is beyond the verifier's budget. For the lines whose fields
  all have two digits, `Serializers.LineRoundTrip` links the text to the
  spans. MX2's line (salary_calculator/tests/test_schedules.py:48) has the
  token `WE08:40-9:50`, and `LineRoundTrip` only writes two-digit fields; for
  that line only the one field `9:50` is linked
  (`Serializers.OneDigitHourAccepted`), not the token or the whole line.
