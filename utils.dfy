/** Time-of-day helpers and the weekday-abbreviation table
    (salary_calculator/utils.py). */
module Utils {
  import opened Results

  /** A wall-clock time of day, in whole seconds since midnight. */
  type TimeOfDay = t: int | 0 <= t < 86400

  const SECONDS_PER_DAY := 86400

  /** `datetime.time(hour, minute, second)`: the hour, minute and second
      are recovered from the time. */
  function Time(hour: int, minute: int, second: int): (t: TimeOfDay)
    requires 0 <= hour < 24 && 0 <= minute < 60 && 0 <= second < 60
    ensures t / 3600 == hour && t % 3600 / 60 == minute && t % 60 == second
  {
    (hour * 60 + minute) * 60 + second
  }

  /** time(0, 0): midnight. */
  const MIDNIGHT: TimeOfDay := 0
  /** time(0, 1): the first time that is not normalised. */
  const ONE_PAST_MIDNIGHT: TimeOfDay := 60
  /** time(23, 59, 59): where every end in [00:00:00, 00:01:00) is moved. */
  const END_OF_DAY: TimeOfDay := 86399

  /** The midnight rule: a time before 00:01 means "the end of the day".
      The flag says whether the value was moved. */
  function Normalize(value: TimeOfDay): (r: (bool, TimeOfDay))
    ensures r.0 <==> value < ONE_PAST_MIDNIGHT
    ensures r.0 ==> r.1 == END_OF_DAY
    ensures !r.0 ==> r.1 == value
    ensures r.1 >= ONE_PAST_MIDNIGHT
  {
    var requiresNormalization := MIDNIGHT <= value < ONE_PAST_MIDNIGHT;
    var returnedValue := if !requiresNormalization then value else END_OF_DAY;
    (requiresNormalization, returnedValue)
  }

  /** A normalised value is left alone by a second normalisation. */
  lemma NormalizeIdempotent(value: TimeOfDay)
    ensures Normalize(Normalize(value).1) == (false, Normalize(value).1)
  {
  }

  /** Both times taken on the same day; the difference, in seconds, is
      signed and never wraps around midnight. */
  function SubtractTimeValues(value: TimeOfDay, otherValue: TimeOfDay): (delta: int)
    ensures otherValue + delta == value
    ensures -SECONDS_PER_DAY < delta < SECONDS_PER_DAY
    ensures delta < 0 <==> value < otherValue
  {
    value - otherValue
  }

  /** Index of the first occurrence of `x` in `s` (`str.index`, `list.index`
      and a dictionary's key lookup by position), or None when absent. */
  function IndexOf<T(==)>(s: seq<T>, x: T): (r: Option<nat>)
    ensures r.None? <==> x !in s
    ensures r.Some? ==> r.value < |s| && s[r.value] == x && x !in s[..r.value]
  {
    if |s| == 0 then None
    else if s[0] == x then Some(0)
    else match IndexOf(s[1..], x)
      case None => None
      case Some(i) => assert s[1..][..i] == s[1..i + 1]; Some(i + 1)
  }

  // The day numbers of Python's `calendar` module.
  const MONDAY := 0
  const TUESDAY := 1
  const WEDNESDAY := 2
  const THURSDAY := 3
  const FRIDAY := 4
  const SATURDAY := 5
  const SUNDAY := 6

  /** The ordered dictionary from weekday abbreviation to calendar day. */
  const WEEKDAYS_MAPPINGS: seq<(string, int)> := [
    ("SU", SUNDAY),
    ("MO", MONDAY),
    ("TU", TUESDAY),
    ("WE", WEDNESDAY),
    ("TH", THURSDAY),
    ("FR", FRIDAY),
    ("SA", SATURDAY)
  ]

  /** `list(mapping.keys())`. */
  function Keys<K, V>(entries: seq<(K, V)>): (keys: seq<K>)
    ensures |keys| == |entries|
    ensures forall i :: 0 <= i < |entries| ==> keys[i] == entries[i].0
  {
    seq(|entries|, i requires 0 <= i < |entries| => entries[i].0)
  }

  /** `list(mapping.values())`. */
  function Values<K, V>(entries: seq<(K, V)>): (values: seq<V>)
    ensures |values| == |entries|
    ensures forall i :: 0 <= i < |entries| ==> values[i] == entries[i].1
  {
    seq(|entries|, i requires 0 <= i < |entries| => entries[i].1)
  }

  /** The seven abbreviations, in table order. */
  const ABBREVIATIONS: seq<string> := ["SU", "MO", "TU", "WE", "TH", "FR", "SA"]

  lemma TableColumns()
    ensures Keys(WEEKDAYS_MAPPINGS) == ABBREVIATIONS
    ensures Values(WEEKDAYS_MAPPINGS) == [6, 0, 1, 2, 3, 4, 5]
  {
  }

  datatype LookupError =
    | InvalidWeekdayPrefix(abbrev: string)   // ValueError of get_calendar_day_by_abbrev
    | UnknownCalendarDay(day: int)           // ValueError of list.index

  /** The calendar day of a two-letter abbreviation; any other string is
      rejected. */
  function CalendarDayByAbbrev(abbrev: string): (r: Result<int, LookupError>)
    ensures r.Ok? <==> abbrev in ABBREVIATIONS
    ensures r.Ok? ==> MONDAY <= r.value <= SUNDAY && (abbrev, r.value) in WEEKDAYS_MAPPINGS
    ensures r.Err? ==> r.error == InvalidWeekdayPrefix(abbrev)
  {
    TableColumns();
    var days := Values(WEEKDAYS_MAPPINGS);
    assert forall i :: 0 <= i < |days| ==> MONDAY <= days[i] <= SUNDAY;
    match IndexOf(Keys(WEEKDAYS_MAPPINGS), abbrev)
    case None => Err(InvalidWeekdayPrefix(abbrev))
    case Some(i) => Ok(days[i])
  }

  /** The abbreviation of a calendar day: the key stored for it. */
  function AbbrevByCalendarDay(day: int): (r: Result<string, LookupError>)
    ensures r.Ok? <==> MONDAY <= day <= SUNDAY
    ensures r.Ok? ==> r.value in ABBREVIATIONS && (r.value, day) in WEEKDAYS_MAPPINGS
    ensures r.Err? ==> r.error == UnknownCalendarDay(day)
  {
    TableColumns();
    match IndexOf(Values(WEEKDAYS_MAPPINGS), day)
    case None => Err(UnknownCalendarDay(day))
    case Some(i) => Ok(Keys(WEEKDAYS_MAPPINGS)[i])
  }

  /** No element occurs twice. */
  predicate Distinct<T(==)>(s: seq<T>) {
    forall i, j :: 0 <= i < j < |s| ==> s[i] != s[j]
  }

  /** Without repeats, the first index of an element is its position. */
  lemma IndexOfDistinct<T>(s: seq<T>, i: int)
    requires Distinct(s) && 0 <= i < |s|
    ensures IndexOf(s, s[i]) == Some(i)
  {
  }

  /** Both columns of the table are free of repeats. */
  lemma TableColumnsDistinct()
    ensures Distinct(Keys(WEEKDAYS_MAPPINGS)) && Distinct(Values(WEEKDAYS_MAPPINGS))
  {
    TableColumns();
    AbbreviationsDistinct();
  }

  /** The abbreviations differ pairwise in their first or second letter. */
  lemma AbbreviationsDistinct()
    ensures Distinct(ABBREVIATIONS)
  {
    var first, second := "SMTWTFS", "UOUEHRA";
    assert forall i :: 0 <= i < 7 ==> ABBREVIATIONS[i] == [first[i], second[i]];
    assert forall i, j :: 0 <= i < j < 7 ==> first[i] != first[j] || second[i] != second[j];
  }

  /** Looking up a day's abbreviation undoes the day lookup. */
  lemma AbbrevOfDayOfAbbrev(abbrev: string)
    requires abbrev in ABBREVIATIONS
    ensures AbbrevByCalendarDay(CalendarDayByAbbrev(abbrev).value) == Ok(abbrev)
  {
    TableColumns();
    TableColumnsDistinct();
    var i :| 0 <= i < 7 && ABBREVIATIONS[i] == abbrev;
    IndexOfDistinct(Keys(WEEKDAYS_MAPPINGS), i);
    IndexOfDistinct(Values(WEEKDAYS_MAPPINGS), i);
  }

  /** Looking up an abbreviation's day undoes the abbreviation lookup. */
  lemma DayOfAbbrevOfDay(day: int)
    requires MONDAY <= day <= SUNDAY
    ensures CalendarDayByAbbrev(AbbrevByCalendarDay(day).value) == Ok(day)
  {
    TableColumns();
    TableColumnsDistinct();
    var i := if day == SUNDAY then 0 else day + 1;
    assert Values(WEEKDAYS_MAPPINGS)[i] == day;
    IndexOfDistinct(Values(WEEKDAYS_MAPPINGS), i);
    assert AbbrevByCalendarDay(day) == Ok(ABBREVIATIONS[i]);
    IndexOfDistinct(Keys(WEEKDAYS_MAPPINGS), i);
  }

  /** The seven abbreviations name seven different days. */
  lemma CalendarDaysDistinct(a: string, b: string)
    requires a in ABBREVIATIONS && b in ABBREVIATIONS && a != b
    ensures CalendarDayByAbbrev(a).value != CalendarDayByAbbrev(b).value
  {
    AbbrevOfDayOfAbbrev(a);
    AbbrevOfDayOfAbbrev(b);
  }
}
