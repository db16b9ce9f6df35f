/**
 The prediction request as far as this model follows it: the required
 fields are checked, then the row is derived. The result is the outcome
 the endpoint acts on: a rejection naming a missing field (answered with
 status 400), a derivation failure (answered with status 500), or the row
 handed on to the scaler and the classifier.
 */
module Service {
  import opened Wrappers
  import opened JsonValues
  import Calendar
  import Validation
  import Features

  datatype Outcome =
    | Rejected(missing: string)                  // status 400, "Missing required field: <missing>"
    | DerivationFailed(error: Features.DeriveError)  // status 500
    | Ready(features: seq<Features.Cell>)        // the row passed to the scaler

  function Predict(data: Record, parse: Features.Parser): (o: Outcome)
    ensures o.Rejected? <==> exists f :: f in Validation.RequiredFields && f !in data
    ensures o.Rejected? ==>
      exists i :: Validation.FirstAbsentAt(Validation.RequiredFields, data, i)
               && Validation.RequiredFields[i] == o.missing
    ensures o.DerivationFailed? ==> Features.Derive(data, parse) == Failure(o.error)
    ensures o.DerivationFailed? ==>
      || (&& o.error.ParseError?
          && o.error.column in Features.DatetimeColumns
          && o.error.column in data
          && parse(data[o.error.column]).None?)
      || (&& o.error.Overflow?
          && Features.TimestampsParse(data, parse)
          && !Features.DifferencesFit(data, parse))
    ensures o.Ready? <==>
      !o.Rejected? && Features.TimestampsParse(data, parse) && Features.DifferencesFit(data, parse)
    ensures o.Ready? ==> Features.Derive(data, parse) == Success(o.features)
    ensures o.Ready? ==> |o.features| == |Features.FinalFeatures|
  {
    match Validation.Validate(data)
    case Missing(name) => Rejected(name)
    case Ok =>
      DerivationAfterValidation(data, parse);
      match Features.Derive(data, parse)
      case Failure(e) => DerivationFailed(e)
      case Success(row) => Ready(row)
  }

  /** Once validation has passed, every column derivation selects is
      present: it can only fail on a timestamp the parser rejects or on a
      subtraction that overflows. */
  lemma DerivationAfterValidation(data: Record, parse: Features.Parser)
    requires Validation.Validate(data).Ok?
    ensures Features.Derive(data, parse).Success? <==>
      Features.TimestampsParse(data, parse) && Features.DifferencesFit(data, parse)
    ensures Features.Derive(data, parse).Failure? ==>
      var e := Features.Derive(data, parse).error;
      || (&& e.ParseError?
          && e.column in Features.DatetimeColumns
          && e.column in data
          && parse(data[e.column]).None?)
      || (&& e.Overflow?
          && Features.TimestampsParse(data, parse)
          && !Features.DifferencesFit(data, parse))
  {
    assert forall f :: f in Validation.RequiredFields ==> f in data;
    assert Features.InputsPresent(data);
    assert forall c :: c in Features.DatetimeColumns ==> c in data;
  }

  /** A rejected request never reaches derivation: its outcome is the same
      whatever the timestamp parser would have done. */
  lemma RejectionStopsEarly(data: Record, p1: Features.Parser, p2: Features.Parser)
    requires Validation.Validate(data).Missing?
    ensures Predict(data, p1) == Predict(data, p2) == Rejected(Validation.Validate(data).name)
  {
  }

  /** Fields other than the six required ones are ignored: two records that
      agree on the required fields get the same outcome. */
  lemma OtherFieldsIgnored(d1: Record, d2: Record, parse: Features.Parser)
    requires Features.AgreeOn(d1, d2, Validation.RequiredFields)
    ensures Predict(d1, parse) == Predict(d2, parse)
  {
    Validation.ValidateIgnoresOtherFields(d1, d2);
    assert forall c :: c in Features.DatetimeColumns ==> c in Validation.RequiredFields;
    assert forall c :: c in Features.InputColumns ==> c in Validation.RequiredFields;
    Features.DeriveReadsOnlyItsColumns(d1, d2, parse);
  }

  /** The incomplete sample record (user_id, application_at and age only) is
      rejected for gps_fix_at, the first absent field in the declared order. */
  lemma IncompleteRecordRejected(parse: Features.Parser)
    ensures Predict(map[
      "user_id" := JNumber(3.0),
      "application_at" := JString("2023-12-20T10:00:00"),
      "age" := JNumber(28.0)], parse) == Rejected("gps_fix_at")
  {
    var data := map[
      "user_id" := JNumber(3.0),
      "application_at" := JString("2023-12-20T10:00:00"),
      "age" := JNumber(28.0)];
    assert Validation.FirstAbsentAt(Validation.RequiredFields, data, 2);
  }

  /** A record without user_id is rejected for user_id, whatever else it holds. */
  lemma MissingUserIdRejected(data: Record, parse: Features.Parser)
    requires "user_id" !in data
    ensures Predict(data, parse) == Rejected("user_id")
  {
    assert Validation.FirstAbsentAt(Validation.RequiredFields, data, 0);
  }

  /** The first complete sample record of the client script. */
  const SampleRecord: Record := map[
    "user_id" := JNumber(1.0),
    "application_at" := JString("2023-12-20T09:08:50"),
    "gps_fix_at" := JString("2023-12-20T09:37:20"),
    "server_upload_at" := JString("2023-12-20T09:43:42"),
    "age" := JNumber(42.0),
    "cash_incoming_30days" := JNumber(8988.12)]

  /** The parser reads the sample's timestamp strings as the obvious instants. */
  predicate ReadsSampleTimestamps(parse: Features.Parser) {
    && parse(JString("2023-12-20T09:08:50")) == Some(Features.Time(Calendar.Timestamp(2023, 12, 20, 9, 8, 50)))
    && parse(JString("2023-12-20T09:37:20")) == Some(Features.Time(Calendar.Timestamp(2023, 12, 20, 9, 37, 20)))
    && parse(JString("2023-12-20T09:43:42")) == Some(Features.Time(Calendar.Timestamp(2023, 12, 20, 9, 43, 42)))
  }

  lemma SampleRecordLookups()
    ensures SampleRecord["user_id"] == JNumber(1.0)
    ensures SampleRecord["application_at"] == JString("2023-12-20T09:08:50")
    ensures SampleRecord["gps_fix_at"] == JString("2023-12-20T09:37:20")
    ensures SampleRecord["server_upload_at"] == JString("2023-12-20T09:43:42")
    ensures SampleRecord["age"] == JNumber(42.0)
    ensures SampleRecord["cash_incoming_30days"] == JNumber(8988.12)
  {
  }

  /** The row expected for the sample record. */
  const SampleFeatures: seq<Features.Cell> := [
    Features.Given(JNumber(1.0)), Features.Given(JNumber(42.0)), Features.Given(JNumber(8988.12)),
    Features.Number(-0.475), Features.Number(382.0 / 60.0),
    Features.Number(9.0), Features.Number(20.0), Features.Number(12.0), Features.Number(0.0)]

  /** The derived sample row: the GPS fix comes 28.5 minutes after the
      application (-0.475 hours) and 6 minutes 22 seconds before the upload,
      and 2023-12-20 is a Wednesday. */
  lemma SampleRow(parse: Features.Parser)
    requires ReadsSampleTimestamps(parse)
    ensures Features.Derive(SampleRecord, parse) == Success(SampleFeatures)
  {
    var app := Calendar.Timestamp(2023, 12, 20, 9, 8, 50);
    var gps := Calendar.Timestamp(2023, 12, 20, 9, 37, 20);
    var upload := Calendar.Timestamp(2023, 12, 20, 9, 43, 42);
    SampleRecordLookups();
    SampleDateIsWednesday(app);
    SampleDateIsWednesday(gps);
    SampleDateIsWednesday(upload);
    Features.NearbyInstantsFit(app, gps);
    Features.NearbyInstantsFit(upload, gps);
    assert Features.TimestampsParse(SampleRecord, parse);
    assert Features.DifferencesFit(SampleRecord, parse);
    var row := Features.FeatureRow(JNumber(1.0), JNumber(42.0), JNumber(8988.12), Features.Time(app), Features.Time(gps), Features.Time(upload));
    assert row[3].x * 3600.0 == -1710.0;
    assert row[4].x * 60.0 == 382.0;
    assert row == SampleFeatures;
  }

  /** The sample record passes validation and its row goes on to the scaler. */
  lemma SampleRecordReady(parse: Features.Parser)
    requires ReadsSampleTimestamps(parse)
    ensures Predict(SampleRecord, parse) == Ready(SampleFeatures)
  {
    SampleRecordLookups();
    assert Validation.Validate(SampleRecord) == Validation.Ok;
    SampleRow(parse);
  }

  /** The sample record with a null GPS fix: the parser turns null into NaT
      without raising, both differences become NaN, the calendar cells of the
      application time stay, and the request still reaches the scaler. */
  lemma NullGpsFixGivesNaN(parse: Features.Parser)
    requires ReadsSampleTimestamps(parse) && parse(JNull) == Some(Features.NaT)
    ensures Predict(SampleRecord["gps_fix_at" := JNull], parse) == Ready([
      Features.Given(JNumber(1.0)), Features.Given(JNumber(42.0)), Features.Given(JNumber(8988.12)),
      Features.NaN, Features.NaN,
      Features.Number(9.0), Features.Number(20.0), Features.Number(12.0), Features.Number(0.0)])
  {
    var data := SampleRecord["gps_fix_at" := JNull];
    var app := Calendar.Timestamp(2023, 12, 20, 9, 8, 50);
    var upload := Calendar.Timestamp(2023, 12, 20, 9, 43, 42);
    SampleRecordLookups();
    SampleDateIsWednesday(app);
    assert data["gps_fix_at"] == JNull;
    assert Validation.Validate(data) == Validation.Ok;
    assert Features.TimestampsParse(data, parse);
    assert Features.DifferencesFit(data, parse);
    var row := Features.FeatureRow(JNumber(1.0), JNumber(42.0), JNumber(8988.12), Features.Time(app), Features.NaT, Features.Time(upload));
    assert row[..3] == [Features.Given(JNumber(1.0)), Features.Given(JNumber(42.0)), Features.Given(JNumber(8988.12))];
  }

  /** 2023-12-20 is day 19711 after 1970-01-01, a Wednesday. */
  lemma SampleDateIsWednesday(t: Calendar.Timestamp)
    requires Calendar.Valid(t) && (t.year, t.month, t.day) == (2023, 12, 20)
    ensures Calendar.DayNumber(t) == 19711
    ensures Calendar.Weekday(t) == 2
  {
    assert Calendar.DaysBeforeYear(2023) == 19358;
    assert (19711 + 3) % 7 == 2;
  }
}
