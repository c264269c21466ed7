/** The statement builder: it compiles one filter (column, column type,
    value, operator) into a backend predicate, or into nothing when the
    filter should be ignored. The backend supplies the predicate type `P` and
    four hooks; this module fixes the order in which they are consulted and
    the date, datetime and numeric handling shared by every backend. */
module StatementBuilder {
  import opened Wrappers
  import opened FilterInput
  import opened Calendar
  import opened FilteringDuration
  import opened RubyInteger
  import opened Text

  /** The column types the builder distinguishes; every other type is
      `OtherType`. */
  datatype ColumnType =
    | IntegerType | DecimalType | FloatType | StringType | TextType | BooleanType
    | DateType | DatetimeType | TimestampType | OtherType(name: string)

  /** A Ruby Float, known only by its 64-bit pattern. */
  datatype Float = Float(bits: bv64)

  /** `String#to_f` and `Float#to_s`, which the model leaves abstract. */
  datatype FloatSyntax = FloatSyntax(toF: string -> Float, toS: Float -> string)

  /** A value the builder hands to a backend hook: nil, false, a number, a
      date, or a time in nanoseconds. */
  datatype Arg = NilArg | FalseArg | IntArg(i: int) | FloatArg(f: Float) | DateArg(d: Date) | TimeArg(nanos: int)

  /** The hooks a backend must supply. `unaryOperators` maps operator or
      value keywords such as "_blank" to ready-made predicates; the other
      three receive the column name first and may decline with `None`. A
      backend builds its unary table from the filter's column, so a
      `Backend` value stands for the hooks of one column's builder. */
  datatype Backend<P> = Backend(
    unaryOperators: map<string, P>,
    buildStatementForType: (string, ColumnType, FilterValue, string) -> Option<P>,
    rangeFilter: (string, Arg, Arg) -> Option<P>,
    columnForValue: (string, string, Arg) -> Option<P>)

  datatype Filter = Filter(column: string, columnType: ColumnType, value: FilterValue, operator: string)

  /** The "_discard" sentinel, as the operator or as the whole value. */
  predicate IsDiscard(f: Filter) {
    f.operator == "_discard" || f.value == Scalar("_discard")
  }

  /** `unary_operators[@operator] || unary_operators[@value]`; an array value
      is never a key of the table. */
  function UnaryMatch<P>(b: Backend<P>, f: Filter): Option<P> {
    if f.operator in b.unaryOperators then Some(b.unaryOperators[f.operator])
    else if f.value.Scalar? && f.value.text in b.unaryOperators then Some(b.unaryOperators[f.value.text])
    else None
  }

  /** `to_statement`. Only the `between` duration of a date-like column can
      raise. */
  function ToStatement<P>(b: Backend<P>, clock: Clock, f: Filter): (r: Result<Option<P>, DateError>)
    ensures IsDiscard(f) ==> r == Success(None)
    ensures r.Failure? ==>
              && f.operator == "between"
              && f.columnType in {DateType, DatetimeType, TimestampType}
              && b.buildStatementForType(f.column, f.columnType, f.value, f.operator).None?
    ensures !IsDiscard(f) && UnaryMatch(b, f).None? ==>
              var typed := b.buildStatementForType(f.column, f.columnType, f.value, f.operator);
              typed.Some? ==> r == Success(typed)
    ensures !IsDiscard(f) && UnaryMatch(b, f).None? ==>
              && b.buildStatementForType(f.column, f.columnType, f.value, f.operator).None?
              && f.columnType in {DateType, DatetimeType, TimestampType}
              && GetDuration(clock, f.operator, f.value).Failure?
              ==> r == Failure(GetDuration(clock, f.operator, f.value).error)
  {
    if IsDiscard(f) then Success(None)
    else
      match UnaryMatch(b, f)
      case Some(p) => Success(Some(p))
      case None => BuildStatementForTypeGeneric(b, clock, f)
  }

  /** A date endpoint as a range bound: the date, or `false`. */
  function DateBound(e: Endpoint): Arg {
    match e
    case NoDate => FalseArg
    case On(d) => DateArg(d)
  }

  /** A start endpoint widened to the beginning of its day; `false` stays. */
  function StartOfDayBound(e: Endpoint): Arg {
    match e
    case NoDate => FalseArg
    case On(d) => TimeArg(BeginningOfDay(d))
  }

  /** An end endpoint widened to the end of its day; `false` stays. */
  function EndOfDayBound(e: Endpoint): Arg {
    match e
    case NoDate => FalseArg
    case On(d) => TimeArg(EndOfDay(d))
  }

  /** `build_statement_for_type_generic`: the backend's type builder first;
      when it declines, dates become a range over the resolved duration,
      datetimes and timestamps a range over whole days, and other types
      nothing. */
  function BuildStatementForTypeGeneric<P>(b: Backend<P>, clock: Clock, f: Filter): Result<Option<P>, DateError> {
    match b.buildStatementForType(f.column, f.columnType, f.value, f.operator)
    case Some(p) => Success(Some(p))
    case None =>
      if f.columnType == DateType then
        match GetDuration(clock, f.operator, f.value)
        case Failure(e) => Failure(e)
        case Success(d) => Success(b.rangeFilter(f.column, DateBound(d.startDate), DateBound(d.endDate)))
      else if f.columnType == DatetimeType || f.columnType == TimestampType then
        match GetDuration(clock, f.operator, f.value)
        case Failure(e) => Failure(e)
        case Success(d) => Success(b.rangeFilter(f.column, StartOfDayBound(d.startDate), EndOfDayBound(d.endDate)))
      else
        Success(None)
  }

  // ---------------------------------------------------------------------------
  // Dispatch order
  // ---------------------------------------------------------------------------

  /** A unary keyword, once the sentinel is ruled out, decides the result on
      its own: the operator's entry first, then the value's, whatever the
      column type, the clock or the backend's other hooks. */
  lemma UnaryPrecedence<P>(b: Backend<P>, b': Backend<P>, clock: Clock, clock': Clock, f: Filter, t: ColumnType)
    requires !IsDiscard(f) && b'.unaryOperators == b.unaryOperators
    ensures f.operator in b.unaryOperators ==>
              ToStatement(b', clock', f.(columnType := t)) == Success(Some(b.unaryOperators[f.operator]))
    ensures f.operator !in b.unaryOperators && f.value.Scalar? && f.value.text in b.unaryOperators ==>
              ToStatement(b', clock', f.(columnType := t)) == Success(Some(b.unaryOperators[f.value.text]))
  {
  }

  /** The type builders are consulted only when neither the sentinel nor a
      unary keyword decided: two backends with the same unary table can
      disagree on a filter only if it is none of those. */
  lemma TypeDispatchOnlyWithoutUnary<P>(b: Backend<P>, b': Backend<P>, clock: Clock, f: Filter)
    requires b'.unaryOperators == b.unaryOperators
    requires ToStatement(b, clock, f) != ToStatement(b', clock, f)
    ensures !IsDiscard(f)
    ensures f.operator !in b.unaryOperators
    ensures !(f.value.Scalar? && f.value.text in b.unaryOperators)
  {
  }

  /** With no sentinel, no unary keyword and no answer from the backend's type
      builder, a date column gets a range over its duration, and `false`
      endpoints reach the range filter unchanged. */
  lemma DateFallback<P>(b: Backend<P>, clock: Clock, f: Filter)
    requires !IsDiscard(f) && UnaryMatch(b, f).None?
    requires b.buildStatementForType(f.column, f.columnType, f.value, f.operator).None?
    requires f.columnType == DateType
    ensures var d := GetDuration(clock, f.operator, f.value);
      d.Success? ==>
        ToStatement(b, clock, f) == Success(b.rangeFilter(f.column, DateBound(d.value.startDate), DateBound(d.value.endDate)))
    ensures var d := GetDuration(clock, f.operator, f.value);
      d.Success? && d.value.startDate.NoDate? && d.value.endDate.NoDate? ==>
        ToStatement(b, clock, f) == Success(b.rangeFilter(f.column, FalseArg, FalseArg))
  {
  }

  /** With no sentinel, no unary keyword and no answer from the backend's type
      builder, a datetime or timestamp column gets a range from the beginning
      of the start day to the end of the end day; a `false` end stays `false`
      and an unparsable `between` end raises. */
  lemma DatetimeFallback<P>(b: Backend<P>, clock: Clock, f: Filter)
    requires !IsDiscard(f) && UnaryMatch(b, f).None?
    requires b.buildStatementForType(f.column, f.columnType, f.value, f.operator).None?
    requires f.columnType == DatetimeType || f.columnType == TimestampType
    ensures match GetDuration(clock, f.operator, f.value)
      case Failure(e) => ToStatement(b, clock, f) == Failure(e)
      case Success(d) =>
        && ToStatement(b, clock, f) == Success(b.rangeFilter(f.column, StartOfDayBound(d.startDate), EndOfDayBound(d.endDate)))
        && (d.startDate.NoDate? <==> StartOfDayBound(d.startDate) == FalseArg)
        && (d.endDate.NoDate? <==> EndOfDayBound(d.endDate) == FalseArg)
        && (d.startDate.On? ==> StartOfDayBound(d.startDate) == TimeArg(BeginningOfDay(d.startDate.date)))
        && (d.endDate.On? ==> EndOfDayBound(d.endDate) == TimeArg(EndOfDay(d.endDate.date)))
  {
  }

  /** A `between` on a datetime or timestamp column with only one end given
      is a half-open range: the missing end reaches the range filter as
      `false`. */
  lemma DatetimeOneSidedBetween<P>(b: Backend<P>, clock: Clock, column: string, t: ColumnType, x: string, lo: string, a: Date)
    requires t == DatetimeType || t == TimestampType
    requires !IsBlank(lo) && clock.strptime(lo) == Some(a)
    requires UnaryMatch(b, Filter(column, t, List([x, lo, ""]), "between")).None?
    requires b.buildStatementForType(column, t, List([x, lo, ""]), "between").None?
    ensures ToStatement(b, clock, Filter(column, t, List([x, lo, ""]), "between"))
              == Success(b.rangeFilter(column, TimeArg(BeginningOfDay(a)), FalseArg))
  {
    assert IsBlank("");
  }

  /** A datetime or timestamp filter over the days `a` to `z` hands the range
      filter the beginning of day `a` and the end of day `z`, and those two
      instants enclose exactly the instants falling on days `a` to `z`. */
  lemma DatetimeCoversWholeDays<P>(b: Backend<P>, clock: Clock, f: Filter, a: Date, z: Date)
    requires !IsDiscard(f) && UnaryMatch(b, f).None?
    requires b.buildStatementForType(f.column, f.columnType, f.value, f.operator).None?
    requires f.columnType == DatetimeType || f.columnType == TimestampType
    requires GetDuration(clock, f.operator, f.value) == Success(Duration(On(a), On(z)))
    ensures ToStatement(b, clock, f) == Success(b.rangeFilter(f.column, TimeArg(BeginningOfDay(a)), TimeArg(EndOfDay(z))))
    ensures forall t: int {:trigger DayOf(t)} :: BeginningOfDay(a) <= t <= EndOfDay(z) <==> a <= DayOf(t) <= z
  {
    forall t: int
      ensures BeginningOfDay(a) <= t <= EndOfDay(z) <==> a <= DayOf(t) <= z
    {
      WholeDays(a, z, t);
    }
  }

  /** Columns that are neither date-like nor handled by the backend's type
      builder produce nothing. */
  lemma OtherTypesProduceNothing<P>(b: Backend<P>, clock: Clock, f: Filter)
    requires !IsDiscard(f) && UnaryMatch(b, f).None?
    requires b.buildStatementForType(f.column, f.columnType, f.value, f.operator).None?
    requires f.columnType !in {DateType, DatetimeType, TimestampType}
    ensures ToStatement(b, clock, f) == Success(None)
  {
  }

  // ---------------------------------------------------------------------------
  // Numeric filters
  // ---------------------------------------------------------------------------

  /** The round-trip test `v.to_i.to_s == v || v.to_f.to_s == v`. */
  predicate IsNumeral(fs: FloatSyntax, v: string) {
    IntToS(ToI(v)) == v || fs.toS(fs.toF(v)) == v
  }

  /** A string read as a number for a column of type `t`: `to_i` for integer
      columns and `to_f` otherwise, or nil when it fails the round-trip
      test. */
  function NumericArg(fs: FloatSyntax, t: ColumnType, v: string): (a: Arg)
    ensures a != NilArg <==> IsNumeral(fs, v)
    ensures a.IntArg? || a.FloatArg? || a.NilArg?
    ensures IsNumeral(fs, v) ==> a == (if t == IntegerType then IntArg(ToI(v)) else FloatArg(fs.toF(v)))
  {
    if !IsNumeral(fs, v) then NilArg
    else if t == IntegerType then IntArg(ToI(v))
    else FloatArg(fs.toF(v))
  }

  /** Element `i` of an array value read as a number; nil past the end. */
  function NumericAt(fs: FloatSyntax, t: ColumnType, xs: seq<string>, i: nat): Arg {
    if i < |xs| then NumericArg(fs, t, xs[i]) else NilArg
  }

  /** `build_statement_for_integer_decimal_or_float`. */
  function BuildStatementForIntegerDecimalOrFloat<P>(b: Backend<P>, fs: FloatSyntax, f: Filter): (r: Option<P>)
    ensures f.value.Scalar? && !IsNumeral(fs, f.value.text) ==> r.None?
    ensures f.value.List? && f.operator != "between" ==>
              (|f.value.items| == 0 || !IsNumeral(fs, f.value.items[0])) ==> r.None?
    ensures f.value.Scalar? && IsNumeral(fs, f.value.text) ==>
              r == b.columnForValue(f.column, f.operator, NumericArg(fs, f.columnType, f.value.text))
  {
    match f.value
    case List(xs) =>
      if f.operator == "between" then
        b.rangeFilter(f.column, NumericAt(fs, f.columnType, xs, 1), NumericAt(fs, f.columnType, xs, 2))
      else
        var v := NumericAt(fs, f.columnType, xs, 0);
        if v != NilArg then b.columnForValue(f.column, f.operator, v) else None
    case Scalar(s) =>
      var v := NumericArg(fs, f.columnType, s);
      if v != NilArg then b.columnForValue(f.column, f.operator, v) else None
  }

  /** On an integer column, a canonical decimal numeral reaches the backend as
      exactly the number it spells; every other string that is not a float
      print is dropped. */
  lemma IntegerScalarIsExact<P>(b: Backend<P>, fs: FloatSyntax, column: string, op: string, s: string)
    ensures IsCanonical(s) ==>
      exists n: int ::
        && IntToS(n) == s
        && BuildStatementForIntegerDecimalOrFloat(b, fs, Filter(column, IntegerType, Scalar(s), op))
             == b.columnForValue(column, op, IntArg(n))
    ensures !IsCanonical(s) && fs.toS(fs.toF(s)) != s ==>
      BuildStatementForIntegerDecimalOrFloat(b, fs, Filter(column, IntegerType, Scalar(s), op)).None?
  {
    RoundTripIffCanonical(s);
    if IsCanonical(s) {
      assert IntToS(ToI(s)) == s;
    }
  }

  /** On an integer column, a string that passes only as a float print is
      truncated by `to_i`: "1.5" filters by 1. */
  lemma IntegerColumnTruncatesFloatText<P>(b: Backend<P>, fs: FloatSyntax, column: string, op: string)
    requires fs.toS(fs.toF("1.5")) == "1.5"
    ensures BuildStatementForIntegerDecimalOrFloat(b, fs, Filter(column, IntegerType, Scalar("1.5"), op))
              == b.columnForValue(column, op, IntArg(1))
  {
    assert SkipSpace("1.5") == "1.5";
    assert LeadingDigits("1.5") == "1" by {
      assert "1.5"[1..] == ".5";
    }
    assert DigitsValue("1") == 1 by {
      assert "1"[..0] == "";
    }
    assert ToI("1.5") == 1;
  }

  /** A `between` on an array always reaches the range filter with elements
      1 and 2, nil when missing or not numbers; any other operator reads
      element 0 only. */
  lemma NumericArrayOperands<P>(b: Backend<P>, fs: FloatSyntax, column: string, t: ColumnType, op: string, xs: seq<string>)
    ensures BuildStatementForIntegerDecimalOrFloat(b, fs, Filter(column, t, List(xs), "between"))
              == b.rangeFilter(column, NumericAt(fs, t, xs, 1), NumericAt(fs, t, xs, 2))
    ensures |xs| < 2 ==>
              BuildStatementForIntegerDecimalOrFloat(b, fs, Filter(column, t, List(xs), "between"))
                == b.rangeFilter(column, NilArg, NilArg)
    ensures op != "between" && |xs| > 0 && IsNumeral(fs, xs[0]) ==>
              BuildStatementForIntegerDecimalOrFloat(b, fs, Filter(column, t, List(xs), op))
                == b.columnForValue(column, op, NumericArg(fs, t, xs[0]))
  {
  }
}
