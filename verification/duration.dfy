/** The duration resolver behind date and datetime filters: it turns an
    operator and a raw value into a pair of dates, the bounds handed to the
    backend's range filter. An endpoint is a date or Ruby's `false`, which
    the range filter reads as "no bound". */
module FilteringDuration {
  import opened Wrappers
  import opened FilterInput
  import opened Calendar
  import opened Text

  /** One end of a duration: a date, or `false`. */
  datatype Endpoint = NoDate | On(date: Date)

  datatype Duration = Duration(startDate: Endpoint, endDate: Endpoint)

  /** The error `Date.strptime` raises on text that does not match the
      filter date format. */
  datatype DateError = InvalidDate(text: string)

  /** What the resolver takes from its surroundings: today's date, and
      `Date.strptime` with the localized filter date format, which yields a
      date or nothing. */
  datatype Clock = Clock(today: Date, strptime: string -> Option<Date>)

  /** `convert_to_date`: a blank or absent text is `false`; a present one is
      parsed, and a text that does not parse raises. */
  function ConvertToDate(clock: Clock, v: Option<string>): (r: Result<Endpoint, DateError>)
    ensures r == Success(NoDate) <==> !IsPresent(v)
    ensures r.Failure? <==> IsPresent(v) && clock.strptime(v.value).None?
    ensures r.Success? && r.value.On? ==> IsPresent(v) && clock.strptime(v.value) == Some(r.value.date)
  {
    if !IsPresent(v) then Success(NoDate)
    else
      match clock.strptime(v.value)
      case Some(d) => Success(On(d))
      case None => Failure(InvalidDate(v.value))
  }

  /** The `between` branch: `value[1]` and `value[2]` converted in order;
      nothing rescues a parse failure. */
  function Between(clock: Clock, value: FilterValue): Result<Duration, DateError> {
    match ConvertToDate(clock, At(value, 1))
    case Failure(e) => Failure(e)
    case Success(s) =>
      match ConvertToDate(clock, At(value, 2))
      case Failure(e) => Failure(e)
      case Success(t) => Success(Duration(s, t))
  }

  /** `default_date`: the first element of the value converted, with a parse
      failure rescued to `false`. */
  function DefaultDate(clock: Clock, value: FilterValue): Endpoint {
    match ConvertToDate(clock, First(value))
    case Success(e) => e
    case Failure(_) => NoDate
  }

  /** `get_duration`: dispatch on the operator. */
  function GetDuration(clock: Clock, operator: string, value: FilterValue): (r: Result<Duration, DateError>)
    ensures operator != "between" ==> r.Success?
    ensures r.Success? && operator !in {"between", "this_week", "last_week"} ==>
              r.value.startDate == r.value.endDate
  {
    if operator == "between" then Between(clock, value)
    else if operator == "today" then Success(Duration(On(clock.today), On(clock.today)))
    else if operator == "yesterday" then Success(Duration(On(clock.today - 1), On(clock.today - 1)))
    else if operator == "this_week" then
      Success(Duration(On(BeginningOfWeek(clock.today)), On(EndOfWeek(clock.today))))
    else if operator == "last_week" then
      Success(Duration(On(BeginningOfWeek(clock.today - 7)), On(EndOfWeek(clock.today - 7))))
    else
      var d := DefaultDate(clock, value);
      Success(Duration(d, d))
  }

  /** `today` and `yesterday` are single days, ending at today and the day
      before, whatever the value. */
  lemma TodayAndYesterday(clock: Clock, value: FilterValue)
    ensures GetDuration(clock, "today", value) == Success(Duration(On(clock.today), On(clock.today)))
    ensures GetDuration(clock, "yesterday", value) == Success(Duration(On(clock.today - 1), On(clock.today - 1)))
  {
  }

  /** `this_week` runs from a Monday to the Sunday six days later, contains
      today, and is the same for every day of that week. */
  lemma ThisWeek(clock: Clock, value: FilterValue, other: Date)
    ensures var r := GetDuration(clock, "this_week", value);
      && r.Success? && r.value.startDate.On? && r.value.endDate.On?
      && Weekday(r.value.startDate.date) == 0
      && r.value.endDate.date == r.value.startDate.date + 6
      && r.value.startDate.date <= clock.today <= r.value.endDate.date
      && (r.value.startDate.date <= other <= r.value.endDate.date ==>
            GetDuration(clock.(today := other), "this_week", value) == r)
  {
    var b := BeginningOfWeek(clock.today);
    var e := EndOfWeek(clock.today);
    assert e == b + 6;
    if b <= other <= e {
      SameWeek(clock.today, other);
    }
  }

  /** `last_week` is the `this_week` duration moved back seven days. */
  lemma LastWeek(clock: Clock, value: FilterValue)
    ensures var w := GetDuration(clock, "this_week", value).value;
      GetDuration(clock, "last_week", value) ==
        Success(Duration(On(w.startDate.date - 7), On(w.endDate.date - 7)))
  {
    WeekBefore(clock.today);
  }

  /** `between` raises exactly when a present `value[1]` or `value[2]` does
      not parse; otherwise its bounds are those two dates in the order given,
      with `false` for a blank or missing one. */
  lemma BetweenOutcome(clock: Clock, value: FilterValue)
    ensures var r := GetDuration(clock, "between", value);
      && (r.Failure? <==>
            (IsPresent(At(value, 1)) && clock.strptime(At(value, 1).value).None?) ||
            (IsPresent(At(value, 2)) && clock.strptime(At(value, 2).value).None?))
      && (r.Success? ==>
            r.value == Duration(ConvertToDate(clock, At(value, 1)).value,
                                ConvertToDate(clock, At(value, 2)).value))
  {
  }

  /** `between` keeps the order it is given: swapping the two bounds of the
      value swaps the bounds of the duration. */
  lemma BetweenKeepsOrder(clock: Clock, x: string, a: string, b: string)
    ensures var r := GetDuration(clock, "between", List([x, a, b]));
      r.Success? ==>
        GetDuration(clock, "between", List([x, b, a])) ==
          Success(Duration(r.value.endDate, r.value.startDate))
  {
  }

  /** `between` reads only `value[1]` and `value[2]`. */
  lemma BetweenReadsSecondAndThird(clock: Clock, v: FilterValue, w: FilterValue)
    requires At(v, 1) == At(w, 1) && At(v, 2) == At(w, 2)
    ensures GetDuration(clock, "between", v) == GetDuration(clock, "between", w)
  {
  }

  /** A `between` filter sent as one string reads its characters: the start
      is the second character parsed as a date, and a two-character string
      has no third character, so the end is `false`. The whole string is
      never parsed. */
  lemma BetweenOfTwoCharacterScalar(clock: Clock, a: char, b: char, d: Date)
    requires !IsSpace(b) && clock.strptime([b]) == Some(d)
    ensures GetDuration(clock, "between", Scalar([a, b])) == Success(Duration(On(d), NoDate))
  {
    assert At(Scalar([a, b]), 1) == Some([b]);
    assert [b][0] == b && !IsSpace([b][0]);
  }

  /** Any other operator gives the single day named by the first element of
      the value, and `[false, false]` exactly when that element is missing,
      blank or not a date. */
  lemma DefaultOutcome(clock: Clock, operator: string, value: FilterValue)
    requires operator !in {"between", "today", "yesterday", "this_week", "last_week"}
    ensures var f := First(value);
      && (GetDuration(clock, operator, value) == Success(Duration(NoDate, NoDate)) <==>
            !IsPresent(f) || clock.strptime(f.value).None?)
      && (IsPresent(f) && clock.strptime(f.value).Some? ==>
            var d := clock.strptime(f.value).value;
            GetDuration(clock, operator, value) == Success(Duration(On(d), On(d))))
  {
  }

  /** Any other operator ignores every element of an array value but the
      first. */
  lemma DefaultReadsFirstOnly(clock: Clock, operator: string, xs: seq<string>, ys: seq<string>)
    requires operator !in {"between", "today", "yesterday", "this_week", "last_week"}
    requires |xs| > 0 && |ys| > 0 && xs[0] == ys[0]
    ensures GetDuration(clock, operator, List(xs)) == GetDuration(clock, operator, List(ys))
  {
  }
}
