/** The schedule-line parser (salary_calculator/serializers.py): a line
    `NAME=DDhh:mm-hh:mm,DDhh:mm-hh:mm,...` becomes an EmployeeSchedule. */
module Serializers {
  import opened Results
  import opened Utils
  import opened Classes

  /** The ways a line is rejected. */
  datatype SerializeError =
    | MissingEquals                            // `str.index("=")` finds no '='
    | MalformedSpan(token: string)             // the text after the weekday is not `start-end`
    | UnknownWeekday(lookupError: LookupError) // the first two characters are no abbreviation
    | MalformedTime(text: string)              // `strptime(text, "%H:%M")` rejects the text
    | InvalidSpan(spanError: SpanError)        // the start is later than the normalised end

  /** `sep.join(parts)`. */
  function Join(parts: seq<string>, sep: char): string {
    if |parts| == 0 then ""
    else if |parts| == 1 then parts[0]
    else parts[0] + [sep] + Join(parts[1..], sep)
  }

  /** `s.split(sep)`: the pieces between the separators, in order. */
  function Split(s: string, sep: char): (parts: seq<string>)
    ensures |parts| >= 1
    ensures forall i :: 0 <= i < |parts| ==> sep !in parts[i]
    ensures Join(parts, sep) == s
  {
    if s == [] then [""]
    else
      var rest := Split(s[1..], sep);
      if s[0] == sep then
        assert ([""] + rest)[1..] == rest;
        [""] + rest
      else
        var parts := [[s[0]] + rest[0]] + rest[1..];
        assert parts[1..] == rest[1..];
        assert |rest| >= 2 ==> rest[1..] == rest[1..][..] && Join(rest, sep) == rest[0] + [sep] + Join(rest[1..], sep);
        assert s == [s[0]] + s[1..];
        parts
  }

  /** A string without the separator is one piece. */
  lemma {:induction false} SplitWithoutSeparator(p: string, sep: char)
    requires sep !in p
    ensures Split(p, sep) == [p]
  {
    if p != [] {
      SplitWithoutSeparator(p[1..], sep);
      assert [p[0]] + p[1..] == p;
    }
  }

  /** The first piece ends at the first separator. */
  lemma {:induction false} SplitAtFirstSeparator(p: string, sep: char, t: string)
    requires sep !in p
    ensures Split(p + [sep] + t, sep) == [p] + Split(t, sep)
  {
    var s := p + [sep] + t;
    if p == [] {
      assert s[1..] == t;
    } else {
      assert s[1..] == p[1..] + [sep] + t;
      SplitAtFirstSeparator(p[1..], sep, t);
      assert [p[0]] + p[1..] == p;
    }
  }

  /** Splitting undoes joining pieces that hold no separator. */
  lemma {:induction false} SplitJoin(parts: seq<string>, sep: char)
    requires |parts| >= 1
    requires forall i :: 0 <= i < |parts| ==> sep !in parts[i]
    ensures Split(Join(parts, sep), sep) == parts
    decreases |parts|
  {
    if |parts| == 1 {
      SplitWithoutSeparator(parts[0], sep);
    } else {
      SplitAtFirstSeparator(parts[0], sep, Join(parts[1..], sep));
      SplitJoin(parts[1..], sep);
      assert [parts[0]] + parts[1..] == parts;
    }
  }

  predicate IsDigit(c: char) {
    '0' <= c <= '9'
  }

  function DigitValue(c: char): int
    requires IsDigit(c)
  {
    c as int - '0' as int
  }

  /** The number a string of ASCII digits writes in decimal. */
  function DecimalValue(digits: string): nat
    requires forall i :: 0 <= i < |digits| ==> IsDigit(digits[i])
  {
    if digits == [] then 0
    else
      var init := digits[..|digits| - 1];
      assert forall i :: 0 <= i < |init| ==> init[i] == digits[i];
      10 * DecimalValue(init) + DigitValue(digits[|digits| - 1])
  }

  /** The value of one or two digits. */
  lemma ShortDecimalValue(digits: string)
    requires 1 <= |digits| <= 2 && forall i :: 0 <= i < |digits| ==> IsDigit(digits[i])
    ensures |digits| == 1 ==> DecimalValue(digits) == DigitValue(digits[0])
    ensures |digits| == 2 ==> DecimalValue(digits) == 10 * DigitValue(digits[0]) + DigitValue(digits[1])
  {
    var init := digits[..|digits| - 1];
    assert init[..|init|] == init;
    if |digits| == 2 {
      assert init == [digits[0]] && init[..0] == [];
      assert DecimalValue(init) == DigitValue(digits[0]);
    } else {
      assert init == [];
    }
  }

  /** A numeric field of `strptime`: one or two ASCII digits, worth at most
      `max`. Exactly such fields are read, as their decimal value. */
  function ParseField(text: string, max: int): (r: Option<int>)
    ensures r.Some? <==>
              && 1 <= |text| <= 2
              && (forall i :: 0 <= i < |text| ==> IsDigit(text[i]))
              && DecimalValue(text) <= max
    ensures r.Some? ==> 0 <= r.value <= max && r.value == DecimalValue(text)
  {

    if 1 <= |text| <= 2 && forall i :: 0 <= i < |text| ==> IsDigit(text[i]) then
      ShortDecimalValue(text);
      var value := if |text| == 1 then DigitValue(text[0])
                   else 10 * DigitValue(text[0]) + DigitValue(text[1]);
      if 0 <= value <= max then Some(value) else None
    else
      None
  }

  /** `datetime.strptime(text, "%H:%M").time()`: an hour of one or two digits
      up to 23, a colon, and a minute of one or two digits up to 59. */
  function ParseClock(text: string): (r: Result<TimeOfDay, SerializeError>)
    ensures r.Err? ==> r.error == MalformedTime(text)
    ensures r.Ok? ==> 3 <= |text| <= 5 && ':' in text
    ensures r.Ok? <==>
              var fields := Split(text, ':');
              |fields| == 2 && ParseField(fields[0], 23).Some? && ParseField(fields[1], 59).Some?
    ensures r.Ok? ==>
              var fields := Split(text, ':');
              r.value == Time(ParseField(fields[0], 23).value, ParseField(fields[1], 59).value, 0)
  {
    var fields := Split(text, ':');
    if |fields| != 2 then Err(MalformedTime(text))
    else
      match (ParseField(fields[0], 23), ParseField(fields[1], 59))
      case (Some(hour), Some(minute)) =>
        assert Join(fields, ':') == fields[0] + [':'] + fields[1..][0];
        Ok(Time(hour, minute, 0))
      case _ => Err(MalformedTime(text))
  }

  /** One `DDhh:mm-hh:mm` token: the weekday from the first two characters,
      then the two times, then the span. */
  function ParseToken(spanToken: string): (r: Result<WorkingDaySpan, SerializeError>)
    ensures r.Ok? ==> |spanToken| >= 2 && spanToken[..2] in ABBREVIATIONS
    ensures r.Err? ==> r.error != MissingEquals
    ensures r.Ok? ==> r.value.weekday == CalendarDayByAbbrev(spanToken[..2]).value && r.value.span.Valid()
    ensures r.Err? && r.error.UnknownWeekday? ==>
              var cut := if |spanToken| < 2 then |spanToken| else 2;
              |Split(spanToken[cut..], '-')| == 2 && spanToken[..cut] !in ABBREVIATIONS
  {
    var cut := if |spanToken| < 2 then |spanToken| else 2;
    var weekdayToken := spanToken[..cut];
    var times := Split(spanToken[cut..], '-');
    if |times| != 2 then Err(MalformedSpan(spanToken))
    else
      match CalendarDayByAbbrev(weekdayToken)
      case Err(e) => Err(UnknownWeekday(e))
      case Ok(weekday) =>
        match ParseClock(times[0])
        case Err(e) => Err(e)
        case Ok(start) =>
          match ParseClock(times[1])
          case Err(e) => Err(e)
          case Ok(end) =>
            match NewWorkingDaySpan(weekday, start, end)
            case Err(e) => Err(InvalidSpan(e))
            case Ok(span) => Ok(span)
  }

  /** The checks of a token come in the order of the source: the shape
      `start-end`, then the weekday, then the start time, then the end time,
      then the span. The first that fails gives the error. */
  lemma ParseTokenErrorOrder(spanToken: string)
    ensures var cut := if |spanToken| < 2 then |spanToken| else 2;
            var times := Split(spanToken[cut..], '-');
            && (|times| != 2 ==> ParseToken(spanToken) == Err(MalformedSpan(spanToken)))
            && (|times| == 2 && spanToken[..cut] !in ABBREVIATIONS ==>
                  ParseToken(spanToken) == Err(UnknownWeekday(InvalidWeekdayPrefix(spanToken[..cut]))))
            && (|times| == 2 && spanToken[..cut] in ABBREVIATIONS && ParseClock(times[0]).Err? ==>
                  ParseToken(spanToken) == Err(MalformedTime(times[0])))
            && (|times| == 2 && spanToken[..cut] in ABBREVIATIONS && ParseClock(times[0]).Ok?
                && ParseClock(times[1]).Err? ==>
                  ParseToken(spanToken) == Err(MalformedTime(times[1])))
            && (|times| == 2 && spanToken[..cut] in ABBREVIATIONS && ParseClock(times[0]).Ok?
                && ParseClock(times[1]).Ok? ==>
                  var start, end := ParseClock(times[0]).value, ParseClock(times[1]).value;
                  ParseToken(spanToken)
                    == if start > Normalize(end).1 then Err(InvalidSpan(StartGreaterThanEnd(start, end)))
                       else Ok(WorkingDaySpan(CalendarDayByAbbrev(spanToken[..cut]).value, TimeSpan(start, Normalize(end).1, end))))
  {
  }

  /** `parse` applied to each token in order, stopping at the first token
      that fails. */
  function ParseEach<T>(parse: string -> Result<T, SerializeError>, tokens: seq<string>): (r: Result<seq<T>, SerializeError>)
    ensures r.Ok? ==> |r.value| == |tokens|
  {
    if tokens == [] then Ok([])
    else
      var last := |tokens| - 1;
      match ParseEach(parse, tokens[..last])
      case Err(e) => Err(e)
      case Ok(values) =>
        match parse(tokens[last])
        case Err(e) => Err(e)
        case Ok(value) => Ok(values + [value])
  }

  /** The parse succeeds exactly when every token parses, with one value per
      token in order; otherwise its error is that of the first token that
      fails. */
  lemma {:induction false} ParseEachMeaning<T>(parse: string -> Result<T, SerializeError>, tokens: seq<string>)
    ensures ParseEach(parse, tokens).Ok? <==> forall i :: 0 <= i < |tokens| ==> parse(tokens[i]).Ok?
    ensures ParseEach(parse, tokens).Ok? ==>
              forall i :: 0 <= i < |tokens| ==> parse(tokens[i]) == Ok(ParseEach(parse, tokens).value[i])
    ensures ParseEach(parse, tokens).Err? ==>
              exists k :: 0 <= k < |tokens| && parse(tokens[k]) == Err(ParseEach(parse, tokens).error)
                          && forall j :: 0 <= j < k ==> parse(tokens[j]).Ok?
  {
    if tokens != [] {
      var last := |tokens| - 1;
      var init := tokens[..last];
      ParseEachMeaning(parse, init);
      assert forall i :: 0 <= i < last ==> init[i] == tokens[i];
      match ParseEach(parse, init)
      case Err(e) =>
        var k :| 0 <= k < last && parse(init[k]) == Err(e) && forall j :: 0 <= j < k ==> parse(init[j]).Ok?;
        assert parse(tokens[k]) == Err(e);
      case Ok(values) =>
        match parse(tokens[last])
        case Err(e) =>
          assert parse(tokens[last]) == Err(ParseEach(parse, tokens).error);
        case Ok(value) =>
          assert ParseEach(parse, tokens).value == values + [value];
    }
  }

  /** Tokens that each parse to the expected value parse to all of them. */
  lemma {:induction false} ParseEachAllOk<T>(parse: string -> Result<T, SerializeError>, tokens: seq<string>, expected: seq<T>)
    requires |expected| == |tokens|
    requires forall i :: 0 <= i < |tokens| ==> parse(tokens[i]) == Ok(expected[i])
    ensures ParseEach(parse, tokens) == Ok(expected)
  {
    ParseEachMeaning(parse, tokens);
    assert forall i :: 0 <= i < |tokens| ==> ParseEach(parse, tokens).value[i] == expected[i];
    assert ParseEach(parse, tokens).value == expected;
  }

  /** When one token fails, the parse fails with the error of some token. */
  lemma ParseEachFails<T>(parse: string -> Result<T, SerializeError>, tokens: seq<string>, i: int)
    requires 0 <= i < |tokens| && parse(tokens[i]).Err?
    ensures ParseEach(parse, tokens).Err?
    ensures exists k :: 0 <= k < |tokens| && parse(tokens[k]) == Err(ParseEach(parse, tokens).error)
  {
    ParseEachMeaning(parse, tokens);
  }

  /** The `for` loop of `serialize`: every token parsed by ParseToken. */
  function ParseTokens(tokens: seq<string>): (r: Result<seq<WorkingDaySpan>, SerializeError>)
    ensures r.Ok? ==> |r.value| == |tokens|
  {
    ParseEach(ParseToken, tokens)
  }

  /** No token error is the missing-'=' error. */
  lemma ParseTokensErrors(tokens: seq<string>)
    ensures ParseTokens(tokens).Err? ==> ParseTokens(tokens).error != MissingEquals
  {
    ParseEachMeaning(ParseToken, tokens);
    if ParseTokens(tokens).Err? {
      var k :| 0 <= k < |tokens| && ParseToken(tokens[k]) == Err(ParseTokens(tokens).error);
    }
  }

  /** What `serialize` computes for a line. */
  function ParseLine(rawData: string): (r: Result<EmployeeSchedule, SerializeError>)
    ensures r == Err(MissingEquals) <==> '=' !in rawData
    ensures r.Ok? ==>
              && r.value.username.Some?
              && var name := r.value.username.value;
                 && |name| < |rawData| && rawData[..|name|] == name && rawData[|name|] == '='
                 && '=' !in name
                 && ParseTokens(Split(rawData[|name| + 1..], ',')) == Ok(r.value.workingDaysSpans)
  {
    match IndexOf(rawData, '=')
    case None => Err(MissingEquals)
    case Some(equalsIndex) =>
      var username := rawData[..equalsIndex];
      var spansSubstr := rawData[equalsIndex + 1..];
      ParseTokensErrors(Split(spansSubstr, ','));
      match ParseTokens(Split(spansSubstr, ','))
      case Err(e) => Err(e)
      case Ok(spans) => Ok(EmployeeSchedule(Some(username), spans))
  }

  /** `EmployeeScheduleSerializer(rawData).serialize()`. */
  method Serialize(rawData: string) returns (r: Result<EmployeeSchedule, SerializeError>)
    ensures r == ParseLine(rawData)
  {
    var equalsIndex := IndexOf(rawData, '=');
    if equalsIndex.None? {
      return Err(MissingEquals);
    }
    var username := rawData[..equalsIndex.value];
    var spansSubstr := rawData[equalsIndex.value + 1..];
    var spanTokens := Split(spansSubstr, ',');
    ParseLineAfterEquals(rawData, equalsIndex.value);
    var parsed := ParseSpanTokens(spanTokens);
    match parsed
    case Err(e) => return Err(e);
    case Ok(spans) => return Ok(EmployeeSchedule(Some(username), spans));
  }

  /** The `for` loop of `serialize`: the spans of the tokens are collected
      in order, and the first token that fails ends the loop with its
      error. */
  method ParseSpanTokens(spanTokens: seq<string>) returns (r: Result<seq<WorkingDaySpan>, SerializeError>)
    ensures r == ParseTokens(spanTokens)
  {
    var spans: seq<WorkingDaySpan> := [];
    var i := 0;
    while i < |spanTokens|
      invariant 0 <= i <= |spanTokens|
      invariant ParseTokens(spanTokens[..i]) == Ok(spans)
    {
      var spanToken := spanTokens[i];
      ParseTokensStep(spanTokens, i);
      match ParseToken(spanToken)
      case Err(e) =>
        ParseTokensStopsAtError(spanTokens, i + 1);
        return Err(e);
      case Ok(span) =>
        spans := spans + [span];
      i := i + 1;
    }
    assert spanTokens[..i] == spanTokens;
    return Ok(spans);
  }


  /** ParseLine once the '=' is found: the name before it, the tokens after. */
  lemma ParseLineAfterEquals(rawData: string, equalsIndex: nat)
    requires IndexOf(rawData, '=') == Some(equalsIndex)
    ensures ParseTokens(Split(rawData[equalsIndex + 1..], ',')).Err? ==>
              ParseLine(rawData) == Err(ParseTokens(Split(rawData[equalsIndex + 1..], ',')).error)
    ensures ParseTokens(Split(rawData[equalsIndex + 1..], ',')).Ok? ==>
              ParseLine(rawData) == Ok(EmployeeSchedule(Some(rawData[..equalsIndex]), ParseTokens(Split(rawData[equalsIndex + 1..], ',')).value))
  {
  }


  /** One more token: the span it parses to is appended, or its error ends
      the parse. */
  lemma ParseTokensStep(tokens: seq<string>, i: int)
    requires 0 <= i < |tokens|
    ensures ParseTokens(tokens[..i]).Err? ==> ParseTokens(tokens[..i + 1]) == ParseTokens(tokens[..i])
    ensures ParseTokens(tokens[..i]).Ok? && ParseToken(tokens[i]).Err? ==>
              ParseTokens(tokens[..i + 1]) == Err(ParseToken(tokens[i]).error)
    ensures ParseTokens(tokens[..i]).Ok? && ParseToken(tokens[i]).Ok? ==>
              ParseTokens(tokens[..i + 1]) == Ok(ParseTokens(tokens[..i]).value + [ParseToken(tokens[i]).value])
  {
    assert tokens[..i + 1][..i] == tokens[..i];
    assert tokens[..i + 1][i] == tokens[i];
  }

  /** Once a prefix of the tokens fails, every longer prefix fails the same
      way. */
  lemma {:induction false} ParseTokensStopsAtError(tokens: seq<string>, n: int)
    requires 0 <= n <= |tokens|
    requires ParseTokens(tokens[..n]).Err?
    ensures ParseTokens(tokens) == ParseTokens(tokens[..n])
    decreases |tokens|
  {
    if n < |tokens| {
      var last := |tokens| - 1;
      assert tokens[..last][..n] == tokens[..n];
      ParseTokensStopsAtError(tokens[..last], n);
      ParseTokensStep(tokens, last);
      assert tokens[..last + 1] == tokens;
    } else {
      assert tokens[..n] == tokens;
    }
  }

  /** `%H:%M` as two-digit fields. */
  function TwoDigits(n: int): string
    requires 0 <= n < 100
  {
    [('0' as int + n / 10) as char, ('0' as int + n % 10) as char]
  }

  function FormatClock(hour: int, minute: int): string
    requires 0 <= hour < 24 && 0 <= minute < 60
  {
    TwoDigits(hour) + [':'] + TwoDigits(minute)
  }

  lemma TwoDigitsField(n: int, max: int)
    requires 0 <= n <= max && n < 100
    ensures ParseField(TwoDigits(n), max) == Some(n)
  {
  }

  /** The parser reads back a time written as `hh:mm`. */
  lemma ClockRoundTrip(hour: int, minute: int)
    requires 0 <= hour < 24 && 0 <= minute < 60
    ensures ParseClock(FormatClock(hour, minute)) == Ok(Time(hour, minute, 0))
  {
    SplitAtFirstSeparator(TwoDigits(hour), ':', TwoDigits(minute));
    SplitWithoutSeparator(TwoDigits(minute), ':');
    TwoDigitsField(hour, 23);
    TwoDigitsField(minute, 59);
  }

  /** A one-digit hour such as `9:50` is accepted too. */
  lemma OneDigitHourAccepted(hour: int, minute: int)
    requires 0 <= hour <= 9 && 0 <= minute < 60
    ensures ParseClock([('0' as int + hour) as char, ':'] + TwoDigits(minute)) == Ok(Time(hour, minute, 0))
  {
    var h := [('0' as int + hour) as char];
    assert [('0' as int + hour) as char, ':'] + TwoDigits(minute) == h + [':'] + TwoDigits(minute);
    SplitAtFirstSeparator(h, ':', TwoDigits(minute));
    SplitWithoutSeparator(TwoDigits(minute), ':');
    TwoDigitsField(minute, 59);
  }

  /** A time is read from its two fields, whatever their widths: `hh:mm`,
      `h:mm`, `hh:m` and `h:m` alike. */
  lemma ClockOfFields(hour: string, minute: string)
    requires ':' !in hour && ':' !in minute
    ensures ParseField(hour, 23).Some? && ParseField(minute, 59).Some? ==>
              ParseClock(hour + [':'] + minute) == Ok(Time(DecimalValue(hour), DecimalValue(minute), 0))
    ensures ParseField(hour, 23).None? || ParseField(minute, 59).None? ==>
              ParseClock(hour + [':'] + minute) == Err(MalformedTime(hour + [':'] + minute))
  {
    SplitAtFirstSeparator(hour, ':', minute);
    SplitWithoutSeparator(minute, ':');
  }

  /** A one-digit minute such as `10:5` is accepted after a two-digit hour. */
  lemma OneDigitMinuteAccepted(hour: int, minute: int)
    requires 0 <= hour < 24 && 0 <= minute <= 9
    ensures ParseClock(TwoDigits(hour) + [':', ('0' as int + minute) as char]) == Ok(Time(hour, minute, 0))
  {
    var h, m := TwoDigits(hour), [('0' as int + minute) as char];
    ShortDecimalValue(m);
    ShortDecimalValue(h);
    assert DecimalValue(h) == hour && DecimalValue(m) == minute;
    ClockOfFields(h, m);
    assert h + [':', ('0' as int + minute) as char] == h + [':'] + m;
  }

  /** One digit each, such as `9:5`, is accepted too. */
  lemma OneDigitFieldsAccepted(hour: int, minute: int)
    requires 0 <= hour <= 9 && 0 <= minute <= 9
    ensures ParseClock([('0' as int + hour) as char, ':', ('0' as int + minute) as char]) == Ok(Time(hour, minute, 0))
  {
    var h, m := [('0' as int + hour) as char], [('0' as int + minute) as char];
    ShortDecimalValue(m);
    ShortDecimalValue(h);
    assert DecimalValue(h) == hour && DecimalValue(m) == minute;
    ClockOfFields(h, m);
    assert [('0' as int + hour) as char, ':', ('0' as int + minute) as char] == h + [':'] + m;
  }

  /** One shift as the line writes it, `DDhh:mm-hh:mm`. */
  datatype Shift = Shift(abbrev: string, startHour: int, startMinute: int, endHour: int, endMinute: int)
  {
    predicate WellFormed() {
      && abbrev in ABBREVIATIONS
      && 0 <= startHour < 24 && 0 <= startMinute < 60
      && 0 <= endHour < 24 && 0 <= endMinute < 60
    }

    function Start(): TimeOfDay
      requires WellFormed()
    {
      Time(startHour, startMinute, 0)
    }

    function End(): TimeOfDay
      requires WellFormed()
    {
      Time(endHour, endMinute, 0)
    }

    function Format(): string
      requires WellFormed()
    {
      abbrev + FormatClock(startHour, startMinute) + ['-'] + FormatClock(endHour, endMinute)
    }
  }

  lemma FormatClockHasNoDash(hour: int, minute: int)
    requires 0 <= hour < 24 && 0 <= minute < 60
    ensures '-' !in FormatClock(hour, minute) && ',' !in FormatClock(hour, minute)
  {
    var t := FormatClock(hour, minute);
    assert forall i :: 0 <= i < |t| ==> IsDigit(t[i]) || t[i] == ':';
  }

  /** A written shift parses to the span its two times construct, or to the
      construction error. */
  lemma TokenRoundTrip(shift: Shift)
    requires shift.WellFormed()
    ensures NewWorkingDaySpan(CalendarDayByAbbrev(shift.abbrev).value, shift.Start(), shift.End()).Ok? ==>
              ParseToken(shift.Format()) == Ok(NewWorkingDaySpan(CalendarDayByAbbrev(shift.abbrev).value, shift.Start(), shift.End()).value)
    ensures NewWorkingDaySpan(CalendarDayByAbbrev(shift.abbrev).value, shift.Start(), shift.End()).Err? ==>
              ParseToken(shift.Format()) == Err(InvalidSpan(StartGreaterThanEnd(shift.Start(), shift.End())))
  {
    var start := FormatClock(shift.startHour, shift.startMinute);
    var end := FormatClock(shift.endHour, shift.endMinute);
    var token := shift.Format();
    assert |shift.abbrev| == 2;
    assert token[..2] == shift.abbrev;
    assert token[2..] == start + ['-'] + end;
    FormatClockHasNoDash(shift.startHour, shift.startMinute);
    FormatClockHasNoDash(shift.endHour, shift.endMinute);
    SplitAtFirstSeparator(start, '-', end);
    SplitWithoutSeparator(end, '-');
    ClockRoundTrip(shift.startHour, shift.startMinute);
    ClockRoundTrip(shift.endHour, shift.endMinute);
  }

  /** A whole line, `NAME=` and the shifts joined by commas. */
  function FormatLine(name: string, shifts: seq<Shift>): string
    requires forall i :: 0 <= i < |shifts| ==> shifts[i].WellFormed()
  {
    name + ['='] + Join(FormatShifts(shifts), ',')
  }

  function FormatShifts(shifts: seq<Shift>): (tokens: seq<string>)
    requires forall i :: 0 <= i < |shifts| ==> shifts[i].WellFormed()
    ensures |tokens| == |shifts|
    ensures forall i :: 0 <= i < |shifts| ==> tokens[i] == shifts[i].Format()
  {
    seq(|shifts|, i requires 0 <= i < |shifts| => shifts[i].Format())
  }

  /** The span a well-formed, ordered shift stands for. */
  function ShiftSpan(shift: Shift): WorkingDaySpan
    requires shift.WellFormed()
  {
    WorkingDaySpan(CalendarDayByAbbrev(shift.abbrev).value,
                   TimeSpan(shift.Start(), Normalize(shift.End()).1, shift.End()))
  }

  /** The name ends at the first '='; what follows is split at the commas. */
  lemma ParseAfterName(name: string, rest: string)
    requires '=' !in name
    ensures ParseTokens(Split(rest, ',')).Err? ==>
              ParseLine(name + ['='] + rest) == Err(ParseTokens(Split(rest, ',')).error)
    ensures ParseTokens(Split(rest, ',')).Ok? ==>
              ParseLine(name + ['='] + rest) == Ok(EmployeeSchedule(Some(name), ParseTokens(Split(rest, ',')).value))
  {
    var line := name + ['='] + rest;
    assert line[..|name|] == name && line[|name|] == '=';
    assert line[|name| + 1..] == rest;
    var found := IndexOf(line, '=');
    assert found.Some? && found.value <= |name| by {
      assert '=' in line;
      assert '=' !in line[..found.value];
    }
    assert found.value >= |name| by {
      assert line[found.value] == '=';
      assert forall i :: 0 <= i < |name| ==> line[i] == name[i];
    }
  }

  /** `NAME=` with nothing after the '=' is rejected: the one empty token
      does not split into a start and an end. */
  lemma EmptyScheduleRejected(name: string)
    requires '=' !in name
    ensures ParseLine(name + ['=']) == Err(MalformedSpan(""))
  {
    ParseAfterName(name, "");
    assert name + ['='] + "" == name + ['='];
    assert [""][..0] == [];
  }

  /** Written shifts hold no comma, so splitting their join at the commas
      gives them back. */
  lemma SplitFormattedShifts(shifts: seq<Shift>)
    requires |shifts| >= 1
    requires forall i :: 0 <= i < |shifts| ==> shifts[i].WellFormed()
    ensures Split(Join(FormatShifts(shifts), ','), ',') == FormatShifts(shifts)
  {
    var tokens := FormatShifts(shifts);
    forall i | 0 <= i < |tokens|
      ensures ',' !in tokens[i]
    {
      FormatClockHasNoDash(shifts[i].startHour, shifts[i].startMinute);
      FormatClockHasNoDash(shifts[i].endHour, shifts[i].endMinute);
      assert |shifts[i].abbrev| == 2 && ',' !in shifts[i].abbrev;
    }
    SplitJoin(tokens, ',');
  }

  /** The spans of well-formed, ordered shifts, in order. */
  function ShiftSpans(shifts: seq<Shift>): (spans: seq<WorkingDaySpan>)
    requires forall i :: 0 <= i < |shifts| ==> shifts[i].WellFormed()
    ensures |spans| == |shifts|
    ensures forall i :: 0 <= i < |shifts| ==> spans[i] == ShiftSpan(shifts[i])
  {
    seq(|shifts|, i requires 0 <= i < |shifts| => ShiftSpan(shifts[i]))
  }

  /** Every shift starts no later than its (normalised) end. */
  predicate AllOrdered(shifts: seq<Shift>)
    requires forall i :: 0 <= i < |shifts| ==> shifts[i].WellFormed()
  {
    forall i :: 0 <= i < |shifts| ==> shifts[i].Start() <= Normalize(shifts[i].End()).1
  }

  /** A written shift parses to its span when it is ordered, and to an
      invalid-span error when it is not. */
  lemma ShiftParses(shift: Shift)
    requires shift.WellFormed()
    ensures shift.Start() <= Normalize(shift.End()).1 ==> ParseToken(shift.Format()) == Ok(ShiftSpan(shift))
    ensures shift.Start() > Normalize(shift.End()).1 ==>
              ParseToken(shift.Format()).Err? && ParseToken(shift.Format()).error.InvalidSpan?
  {
    TokenRoundTrip(shift);
  }

  /** Ordered written shifts parse to their spans, in order. */
  lemma OrderedShiftsParse(shifts: seq<Shift>)
    requires forall i :: 0 <= i < |shifts| ==> shifts[i].WellFormed()
    requires AllOrdered(shifts)
    ensures ParseTokens(FormatShifts(shifts)) == Ok(ShiftSpans(shifts))
  {
    var tokens := FormatShifts(shifts);
    var spans := ShiftSpans(shifts);
    forall i | 0 <= i < |tokens|
      ensures ParseToken(tokens[i]) == Ok(spans[i])
    {
      ShiftParses(shifts[i]);
    }
    ParseEachAllOk(ParseToken, tokens, spans);
  }

  /** Written shifts of which one is out of order fail with an
      invalid-span error. */
  lemma UnorderedShiftsFail(shifts: seq<Shift>, i: int)
    requires forall i :: 0 <= i < |shifts| ==> shifts[i].WellFormed()
    requires 0 <= i < |shifts| && shifts[i].Start() > Normalize(shifts[i].End()).1
    ensures ParseTokens(FormatShifts(shifts)).Err? && ParseTokens(FormatShifts(shifts)).error.InvalidSpan?
  {
    var tokens := FormatShifts(shifts);
    forall j | 0 <= j < |tokens|
      ensures ParseToken(tokens[j]).Err? ==> ParseToken(tokens[j]).error.InvalidSpan?
    {
      ShiftParses(shifts[j]);
    }
    ShiftParses(shifts[i]);
    ParseEachFails(ParseToken, tokens, i);
  }

  /** Written shifts parse one by one to their spans. */
  lemma ShiftsRoundTrip(shifts: seq<Shift>)
    requires forall i :: 0 <= i < |shifts| ==> shifts[i].WellFormed()
    ensures ParseTokens(FormatShifts(shifts)).Ok? <==> AllOrdered(shifts)
    ensures ParseTokens(FormatShifts(shifts)).Err? ==> ParseTokens(FormatShifts(shifts)).error.InvalidSpan?
    ensures ParseTokens(FormatShifts(shifts)).Ok? ==> ParseTokens(FormatShifts(shifts)).value == ShiftSpans(shifts)
  {
    if AllOrdered(shifts) {
      OrderedShiftsParse(shifts);
    } else {
      var i :| 0 <= i < |shifts| && shifts[i].Start() > Normalize(shifts[i].End()).1;
      UnorderedShiftsFail(shifts, i);
    }
  }

  /** Parsing a written line gives back its name and, when every shift is
      ordered, one span per shift in order; otherwise it fails with an
      InvalidSpan error. */
  lemma LineRoundTrip(name: string, shifts: seq<Shift>)
    requires '=' !in name && |shifts| >= 1
    requires forall i :: 0 <= i < |shifts| ==> shifts[i].WellFormed()
    ensures ParseLine(FormatLine(name, shifts)).Ok? <==> AllOrdered(shifts)
    ensures ParseLine(FormatLine(name, shifts)).Err? ==> ParseLine(FormatLine(name, shifts)).error.InvalidSpan?
    ensures ParseLine(FormatLine(name, shifts)).Ok? ==>
              ParseLine(FormatLine(name, shifts))
                == Ok(EmployeeSchedule(Some(name), ShiftSpans(shifts)))
  {
    ParseAfterName(name, Join(FormatShifts(shifts), ','));
    SplitFormattedShifts(shifts);
    ShiftsRoundTrip(shifts);
  }
}
