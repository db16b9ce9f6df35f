/**
 Feature derivation: turns a raw application record into the nine-column
 row the pre-trained scaler and classifier were fit on. The three
 timestamp columns are parsed in a fixed order, two signed time
 differences and three calendar components are derived from them, and
 the columns are laid out in the training order. A timestamp may also be
 the missing-time marker NaT, which turns the cells derived from it into
 NaN instead of raising.
 */
module Features {
  import opened Wrappers
  import opened JsonValues
  import opened Calendar

  /** A parsed timestamp cell: a valid naive instant, or NaT, which the
      parser returns for a null or empty value without raising. */
  datatype Moment = Time(t: Instant) | NaT

  /** The timestamp parser applied to one cell: a moment, or `None` for a
      value it rejects by raising. Its accepted grammar is not part of this
      model. */
  type Parser = Json -> Option<Moment>

  datatype DeriveError =
    | KeyError(columns: seq<string>)  // the record lacks these columns
    | ParseError(column: string)      // the parser rejected this column's value
    | Overflow(feature: string)       // the subtraction for this feature left the 64-bit nanosecond range

  /** One cell of the derived row: an input value copied unchanged, a
      derived number, or NaN. */
  datatype Cell = Given(v: Json) | Number(x: real) | NaN
  /** The timestamp columns, in the order they are parsed. */
  const DatetimeColumns: seq<string> := ["application_at", "gps_fix_at", "server_upload_at"]

  /** The columns copied into the row unchanged. */
  const InputColumns: seq<string> := ["user_id", "age", "cash_incoming_30days"]

  /** The training column order of the derived row. */
  const FinalFeatures: seq<string> := [
    "user_id", "age", "cash_incoming_30days",
    "time_since_gps_fix", "upload_delay",
    "application_hour", "application_day", "application_month",
    "is_weekend"
  ]

  predicate Parses(data: Record, parse: Parser, column: string) {
    column in data && parse(data[column]).Some?
  }

  /** All three timestamp columns are present and accepted by the parser. */
  predicate TimestampsParse(data: Record, parse: Parser) {
    && Parses(data, parse, "application_at")
    && Parses(data, parse, "gps_fix_at")
    && Parses(data, parse, "server_upload_at")
  }

  /** All three columns copied unchanged are present. */
  predicate InputsPresent(data: Record) {
    "user_id" in data && "age" in data && "cash_incoming_30days" in data
  }

  /** The error raised for a column that does not parse. */
  function ColumnError(data: Record, column: string): (e: DeriveError) {
    if column in data then ParseError(column) else KeyError([column])
  }

  /** `columns[i]` is the first of `columns` that does not parse. */
  predicate FirstUnparsedAt(data: Record, parse: Parser, columns: seq<string>, i: int) {
    && 0 <= i < |columns|
    && !Parses(data, parse, columns[i])
    && forall j :: 0 <= j < i ==> Parses(data, parse, columns[j])
  }

  /** Parses `columns` in order, stopping at the first absent or rejected one. */
  function ParseColumns(data: Record, parse: Parser, columns: seq<string>): (r: Result<seq<Moment>, DeriveError>)
    ensures r.Success? <==> forall i :: 0 <= i < |columns| ==> Parses(data, parse, columns[i])
    ensures r.Success? ==>
      && |r.value| == |columns|
      && forall i :: 0 <= i < |columns| ==> parse(data[columns[i]]) == Some(r.value[i])
    ensures r.Failure? ==>
      exists i :: FirstUnparsedAt(data, parse, columns, i) && r.error == ColumnError(data, columns[i])
    decreases |columns|
  {
    if |columns| == 0 then Success([])
    else if !Parses(data, parse, columns[0]) then
      assert FirstUnparsedAt(data, parse, columns, 0);
      Failure(ColumnError(data, columns[0]))
    else
      var t := parse(data[columns[0]]).value;
      var rest := ParseColumns(data, parse, columns[1..]);
      assert forall i :: 1 <= i < |columns| ==> columns[i] == columns[1..][i - 1];
      match rest
      case Failure(e) =>
        var k :| FirstUnparsedAt(data, parse, columns[1..], k) && e == ColumnError(data, columns[1..][k]);
        assert FirstUnparsedAt(data, parse, columns, k + 1);
        Failure(e)
      case Success(ts) =>
        Success([t] + ts)
  }

  /** The columns of `columns` that `data` lacks. */
  function AbsentColumns(data: Record, columns: seq<string>): (r: seq<string>)
    ensures forall c :: c in r <==> c in columns && c !in data
  {
    if |columns| == 0 then []
    else (if columns[0] in data then [] else [columns[0]]) + AbsentColumns(data, columns[1..])
  }

  /** The moment a parsing timestamp column holds. */
  function ParsedAt(data: Record, parse: Parser, column: string): (m: Moment)
    requires Parses(data, parse, column)
  {
    parse(data[column]).value
  }

  predicate FitsInt64(n: int) {
    -0x8000_0000_0000_0000 <= n < 0x8000_0000_0000_0000
  }

  /** Subtracting `b` from `a` raises: both are instants and their difference
      in nanoseconds does not fit a signed 64-bit integer. A subtraction with
      NaT gives NaT and never raises. */
  predicate Overflows(a: Moment, b: Moment) {
    a.Time? && b.Time? && !FitsInt64((Seconds(a.t) - Seconds(b.t)) * 1_000_000_000)
  }

  /** Instants at most 100000 days apart (about 273 years) can be subtracted. */
  lemma NearbyInstantsFit(a: Instant, b: Instant)
    requires -100000 <= DayNumber(a) - DayNumber(b) <= 100000
    ensures !Overflows(Time(a), Time(b))
  {
  }

  /** Instants at least 106753 days apart (about 292.3 years) cannot. */
  lemma DistantInstantsOverflow(a: Instant, b: Instant)
    requires DayNumber(a) - DayNumber(b) >= 106753 || DayNumber(b) - DayNumber(a) >= 106753
    ensures Overflows(Time(a), Time(b))
  {
  }

  /** Timestamps 580 years apart, both within the parser's range, cannot be
      subtracted. */
  lemma CenturiesApartOverflow()
    ensures Overflows(Time(Timestamp(2260, 1, 1, 0, 0, 0)), Time(Timestamp(1680, 1, 1, 0, 0, 0)))
  {
    assert DaysBeforeYear(2260) - DaysBeforeYear(1680) == 211840;
    DistantInstantsOverflow(Timestamp(2260, 1, 1, 0, 0, 0), Timestamp(1680, 1, 1, 0, 0, 0));
  }

  /** Both subtractions of the derivation, application minus GPS fix and
      upload minus GPS fix, stay within range. */
  predicate DifferencesFit(data: Record, parse: Parser)
    requires TimestampsParse(data, parse)
  {
    && !Overflows(ParsedAt(data, parse, "application_at"), ParsedAt(data, parse, "gps_fix_at"))
    && !Overflows(ParsedAt(data, parse, "server_upload_at"), ParsedAt(data, parse, "gps_fix_at"))
  }

  /** Hours from the GPS fix to the application, signed and unclamped; NaN
      when either is NaT. */
  function TimeSinceGpsFix(application: Moment, gpsFix: Moment): (c: Cell)
    ensures application.NaT? || gpsFix.NaT? ==> c == NaN
    ensures application.Time? && gpsFix.Time? ==>
      c.Number? && c.x * 3600.0 == (Seconds(application.t) - Seconds(gpsFix.t)) as real
  {
    if application.NaT? || gpsFix.NaT? then NaN
    else Number((Seconds(application.t) - Seconds(gpsFix.t)) as real / 3600.0)
  }

  /** Minutes from the GPS fix to the server upload, signed and unclamped;
      NaN when either is NaT. */
  function UploadDelay(upload: Moment, gpsFix: Moment): (c: Cell)
    ensures upload.NaT? || gpsFix.NaT? ==> c == NaN
    ensures upload.Time? && gpsFix.Time? ==>
      c.Number? && c.x * 60.0 == (Seconds(upload.t) - Seconds(gpsFix.t)) as real
  {
    if upload.NaT? || gpsFix.NaT? then NaN
    else Number((Seconds(upload.t) - Seconds(gpsFix.t)) as real / 60.0)
  }

  /** 1 on Saturday (5) and Sunday (6), 0 on the other days. */
  function IsWeekend(t: Instant): (r: int)
    ensures r == 0 || r == 1
    ensures r == 1 <==> Weekday(t) == 5 || Weekday(t) == 6
  {
    if Weekday(t) == 5 || Weekday(t) == 6 then 1 else 0
  }

  /** The weekend flag of a parsed cell: NaT has no weekday and is never
      counted as a weekend. */
  function WeekendFlag(m: Moment): (r: int)
    ensures r == 0 || r == 1
    ensures r == 1 <==> m.Time? && (Weekday(m.t) == 5 || Weekday(m.t) == 6)
  {
    if m.Time? then IsWeekend(m.t) else 0
  }

  /** Weekend days among the `n` consecutive dates starting at `t`. */
  function WeekendDays(t: Instant, n: nat): (count: nat)
    decreases n
  {
    if n == 0 then 0 else IsWeekend(t) + WeekendDays(NextDay(t), n - 1)
  }

  /** 1 when weekday `w` is `d`, else 0. */
  function Hit(w: int, d: int): nat {
    if w == d then 1 else 0
  }

  /** Dates among the `n` consecutive dates starting at `t` that fall on weekday `d`. */
  function DaysOnWeekday(t: Instant, n: nat, d: int): (count: nat)
    decreases n
  {
    if n == 0 then 0 else Hit(Weekday(t), d) + DaysOnWeekday(NextDay(t), n - 1, d)
  }

  /** Days among `n` consecutive weekdays starting from weekday `w` that are weekday `d`. */
  function WeekdayHits(w: int, n: nat, d: int): (count: nat)
    decreases n
  {
    if n == 0 then 0 else Hit(w, d) + WeekdayHits((w + 1) % 7, n - 1, d)
  }

  /** Counting dates on a weekday only needs the weekday of the first date. */
  lemma {:induction false} DaysOnWeekdayHits(t: Instant, n: nat, d: int)
    ensures DaysOnWeekday(t, n, d) == WeekdayHits(Weekday(t), n, d)
    decreases n
  {
    if n > 0 {
      NextDayAdvances(t);
      DaysOnWeekdayHits(NextDay(t), n - 1, d);
    }
  }

  /** Steps forward from weekday `w` to weekday `d`, both in 0..6. */
  function StepsBetween(w: int, d: int): (steps: int) {
    if d >= w then d - w else d - w + 7
  }

  /** Among the first `n` days of a week starting at weekday `w`, weekday `d`
      occurs once if it is reached within them, and not at all otherwise. */
  lemma {:induction false} WeekdayHitsCount(w: int, n: nat, d: int)
    requires 0 <= w < 7 && 0 <= d < 7 && n <= 7
    ensures WeekdayHits(w, n, d) == if n > StepsBetween(w, d) then 1 else 0
    decreases n
  {
    if n > 0 {
      var next := (w + 1) % 7;
      assert next == if w == 6 then 0 else w + 1;
      WeekdayHitsCount(next, n - 1, d);
    }
  }

  /** Any seven consecutive dates meet each weekday exactly once. */
  lemma WeekdayOncePerWeek(t: Instant, d: int)
    requires 0 <= d < 7
    ensures DaysOnWeekday(t, 7, d) == 1
  {
    DaysOnWeekdayHits(t, 7, d);
    WeekdayHitsCount(Weekday(t), 7, d);
  }

  /** The weekend days of a run of dates are its Saturdays and its Sundays. */
  lemma {:induction false} WeekendDaysSplit(t: Instant, n: nat)
    ensures WeekendDays(t, n) == DaysOnWeekday(t, n, 5) + DaysOnWeekday(t, n, 6)
    decreases n
  {
    if n > 0 {
      WeekendDaysSplit(NextDay(t), n - 1);
    }
  }

  /** Every run of seven consecutive dates holds exactly one Saturday and
      one Sunday, so the flag is 1 on exactly two of them. */
  lemma WeekendDaysPerWeek(t: Instant)
    ensures DaysOnWeekday(t, 7, 5) == 1
    ensures DaysOnWeekday(t, 7, 6) == 1
    ensures WeekendDays(t, 7) == 2
  {
    WeekdayOncePerWeek(t, 5);
    WeekdayOncePerWeek(t, 6);
    WeekendDaysSplit(t, 7);
  }

  /** The row in training order, built from the record and its three parsed
      timestamps: the input columns unchanged, the two signed time
      differences, the application's calendar components, the weekend flag.
      A NaT timestamp turns the cells derived from it into NaN, except the
      weekend flag, which is 0. */
  function FeatureRow(userId: Json, age: Json, cash: Json, app: Moment, gps: Moment, upload: Moment): (v: seq<Cell>)
    ensures |v| == |FinalFeatures|
    ensures v[..3] == [Given(userId), Given(age), Given(cash)]
    ensures v[3].NaN? <==> app.NaT? || gps.NaT?
    ensures app.Time? && gps.Time? ==>
      v[3].Number? && v[3].x * 3600.0 == (Seconds(app.t) - Seconds(gps.t)) as real
    ensures v[4].NaN? <==> upload.NaT? || gps.NaT?
    ensures upload.Time? && gps.Time? ==>
      v[4].Number? && v[4].x * 60.0 == (Seconds(upload.t) - Seconds(gps.t)) as real
    ensures app.Time? ==>
      v[5..8] == [Number(app.t.hour as real), Number(app.t.day as real), Number(app.t.month as real)]
    ensures app.NaT? ==> v[5..8] == [NaN, NaN, NaN]
    ensures v[8] == Number(0.0) || v[8] == Number(1.0)
    ensures v[8] == Number(1.0) <==> app.Time? && (Weekday(app.t) == 5 || Weekday(app.t) == 6)
  {
    [
      Given(userId), Given(age), Given(cash),
      TimeSinceGpsFix(app, gps), UploadDelay(upload, gps),
      if app.Time? then Number(app.t.hour as real) else NaN,
      if app.Time? then Number(app.t.day as real) else NaN,
      if app.Time? then Number(app.t.month as real) else NaN,
      Number(WeekendFlag(app) as real)
    ]
  }

  /** The derived row. The timestamp columns are parsed first (application,
      GPS fix, upload); then the two differences are taken, either of which
      can overflow; the row is then selected in training order, which fails
      naming every input column the record lacks. */
  function Derive(data: Record, parse: Parser): (r: Result<seq<Cell>, DeriveError>)
    ensures r.Success? <==> TimestampsParse(data, parse) && DifferencesFit(data, parse) && InputsPresent(data)
    ensures r.Failure? ==>
      || (exists i :: FirstUnparsedAt(data, parse, DatetimeColumns, i) && r.error == ColumnError(data, DatetimeColumns[i]))
      || (&& TimestampsParse(data, parse)
          && !DifferencesFit(data, parse)
          && r.error.Overflow?
          && (r.error.feature == "time_since_gps_fix" || r.error.feature == "upload_delay")
          && (r.error.feature == "time_since_gps_fix" <==>
                Overflows(ParsedAt(data, parse, "application_at"), ParsedAt(data, parse, "gps_fix_at"))))
      || (&& TimestampsParse(data, parse)
          && DifferencesFit(data, parse)
          && r.error.KeyError?
          && r.error.columns != []
          && forall c :: c in r.error.columns <==> c in InputColumns && c !in data)
    ensures r.Success? ==>
      r.value == FeatureRow(data["user_id"], data["age"], data["cash_incoming_30days"],
        ParsedAt(data, parse, "application_at"),
        ParsedAt(data, parse, "gps_fix_at"),
        ParsedAt(data, parse, "server_upload_at"))
  {
    match ParseColumns(data, parse, DatetimeColumns)
    case Failure(e) =>
      TimestampParseFailure(data, parse);
      Failure(e)
    case Success(ms) =>
      TimestampsParsed(data, parse);
      var app, gps, upload := ms[0], ms[1], ms[2];
      if Overflows(app, gps) then Failure(Overflow("time_since_gps_fix"))
      else if Overflows(upload, gps) then Failure(Overflow("upload_delay"))
      else
        match SelectInputs(data)
        case Failure(e) => Failure(e)
        case Success(v) => Success(FeatureRow(v[0], v[1], v[2], app, gps, upload))
  }

  /** Selecting the input columns for the row: their values, or a KeyError
      listing every one of them the record lacks. */
  function SelectInputs(data: Record): (r: Result<seq<Json>, DeriveError>)
    ensures r.Success? <==> InputsPresent(data)
    ensures r.Success? ==> r.value == [data["user_id"], data["age"], data["cash_incoming_30days"]]
    ensures r.Failure? ==>
      && r.error.KeyError?
      && r.error.columns != []
      && forall c :: c in r.error.columns <==> c in InputColumns && c !in data
  {
    var absent := AbsentColumns(data, InputColumns);
    InputsAbsent(data);
    if absent != [] then Failure(KeyError(absent))
    else Success([data["user_id"], data["age"], data["cash_incoming_30days"]])
  }

  lemma TimestampParseFailure(data: Record, parse: Parser)
    requires ParseColumns(data, parse, DatetimeColumns).Failure?
    ensures !TimestampsParse(data, parse)
  {
    var i :| FirstUnparsedAt(data, parse, DatetimeColumns, i);
  }

  lemma TimestampsParsed(data: Record, parse: Parser)
    requires ParseColumns(data, parse, DatetimeColumns).Success?
    ensures TimestampsParse(data, parse)
    ensures
      var ts := ParseColumns(data, parse, DatetimeColumns).value;
      && parse(data["application_at"]) == Some(ts[0])
      && parse(data["gps_fix_at"]) == Some(ts[1])
      && parse(data["server_upload_at"]) == Some(ts[2])
  {
    assert DatetimeColumns[0] == "application_at";
    assert DatetimeColumns[1] == "gps_fix_at";
    assert DatetimeColumns[2] == "server_upload_at";
  }

  lemma InputsAbsent(data: Record)
    ensures AbsentColumns(data, InputColumns) == [] <==> InputsPresent(data)
  {
    var absent := AbsentColumns(data, InputColumns);
    if absent != [] {
      assert absent[0] in InputColumns && absent[0] !in data;
    } else {
      assert forall c :: c in InputColumns ==> c !in absent;
    }
  }

  /** `d1` and `d2` hold the same values under `columns`, and lack the same ones. */
  predicate AgreeOn(d1: Record, d2: Record, columns: seq<string>) {
    forall c :: c in columns ==> (c in d1 <==> c in d2) && (c in d1 ==> d1[c] == d2[c])
  }

  lemma {:induction false} ParseColumnsReadsOnlyColumns(d1: Record, d2: Record, parse: Parser, columns: seq<string>)
    requires AgreeOn(d1, d2, columns)
    ensures ParseColumns(d1, parse, columns) == ParseColumns(d2, parse, columns)
    decreases |columns|
  {
    if |columns| > 0 && Parses(d1, parse, columns[0]) {
      ParseColumnsReadsOnlyColumns(d1, d2, parse, columns[1..]);
    }
  }

  lemma {:induction false} AbsentColumnsReadsOnlyColumns(d1: Record, d2: Record, columns: seq<string>)
    requires AgreeOn(d1, d2, columns)
    ensures AbsentColumns(d1, columns) == AbsentColumns(d2, columns)
    decreases |columns|
  {
    if |columns| > 0 {
      AbsentColumnsReadsOnlyColumns(d1, d2, columns[1..]);
    }
  }

  /** Derivation reads only the six columns it uses: records that agree on
      them get the same result, whatever other fields they carry. */
  lemma DeriveReadsOnlyItsColumns(d1: Record, d2: Record, parse: Parser)
    requires AgreeOn(d1, d2, DatetimeColumns) && AgreeOn(d1, d2, InputColumns)
    ensures Derive(d1, parse) == Derive(d2, parse)
  {
    ParseColumnsReadsOnlyColumns(d1, d2, parse, DatetimeColumns);
    SelectInputsReadsOnlyInputs(d1, d2);
  }

  lemma SelectInputsReadsOnlyInputs(d1: Record, d2: Record)
    requires AgreeOn(d1, d2, InputColumns)
    ensures SelectInputs(d1) == SelectInputs(d2)
  {
    AbsentColumnsReadsOnlyColumns(d1, d2, InputColumns);
    if InputsPresent(d1) {
      assert InputColumns[0] == "user_id" && InputColumns[1] == "age" && InputColumns[2] == "cash_incoming_30days";
    }
  }

  /** What the derived row promises about its values: the time differences
      are non-negative exactly when the GPS fix is not later than the other
      timestamp and zero exactly when they coincide, the calendar components
      lie in their ranges, and the weekend flag is 0 or 1. */
  lemma FeatureRowProperties(userId: Json, age: Json, cash: Json, app: Moment, gps: Moment, upload: Moment)
    ensures
      var v := FeatureRow(userId, age, cash, app, gps, upload);
      && (app.Time? && gps.Time? ==>
            && (v[3].x >= 0.0 <==> !Before(app.t, gps.t))
            && (v[3].x == 0.0 <==> app == gps))
      && (upload.Time? && gps.Time? ==>
            && (v[4].x >= 0.0 <==> !Before(upload.t, gps.t))
            && (v[4].x == 0.0 <==> upload == gps))
      && (app.Time? ==>
            && 0.0 <= v[5].x <= 23.0
            && 1.0 <= v[6].x <= DaysInMonth(app.t.year, app.t.month) as real
            && 1.0 <= v[7].x <= 12.0)
      && (v[8].x == 0.0 || v[8].x == 1.0)
  {
    if app.Time? && gps.Time? {
      SecondsOrder(app.t, gps.t);
    }
    if upload.Time? && gps.Time? {
      SecondsOrder(upload.t, gps.t);
    }
  }
}
