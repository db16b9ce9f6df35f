# Loan-outcome prediction service: request check and feature derivation

This project models the logic of a small prediction service. The service takes
a raw loan-application record as JSON. It checks that six required fields are
present. Then it derives the nine-column feature row that a pre-trained scaler
and binary classifier were fit on. The model covers two parts, written as pure
functions over immutable datatypes:

- **Required-field validation** (`Validation`). The fields `user_id`,
  `application_at`, `gps_fix_at`, `server_upload_at`, `age` and
  `cash_incoming_30days` are looked up in that order. The first absent one is
  reported as `Missing(name)` and nothing further happens. Otherwise the result
  is `Ok`.
- **Datetime feature derivation** (`Features`, on top of `Calendar`). Three
  timestamps are parsed in the order application, GPS fix, upload. The row holds
  `user_id`, `age` and `cash_incoming_30days` unchanged, then:
  - the hours from the GPS fix to the application;
  - the minutes from the GPS fix to the upload;
  - the application's hour, day and month;
  - a weekend flag.

`Service.Predict` chains the two. Its result is a rejection naming a missing
field (status 400), a derivation failure (status 500), or the row handed on to
the scaler and classifier. A derivation fails on a timestamp the parser
rejects, or on a time difference that does not fit pandas' 64-bit nanosecond
range.

Modelling choices:

- **Timestamps.** A parsed timestamp is a naive proleptic-Gregorian
  `Calendar.Timestamp(year, month, day, hour, minute, second)` at whole-second
  resolution. `Calendar.Valid` says when its fields are in range.
- **Parsing.** The library parser is an opaque function parameter
  `Features.Parser = Json -> Option<Features.Moment>`. `None` stands for a
  value it rejects by raising. A `Moment` is either `Time(instant)` or `NaT`,
  pandas' missing-time marker, which the parser returns for a null or empty
  value without raising.
- **NaT and NaN.** The derived row is a sequence of `Features.Cell`s: an input
  value copied unchanged, a number, or `NaN`. A difference involving NaT is
  NaN, the hour, day and month of a NaT application time are NaN, and its
  weekend flag is 0, because NaN is not among the weekend days.
- **Overflow.** Subtracting two timestamps works on signed 64-bit nanosecond
  counts and raises when the difference does not fit
  (`Features.Overflows`). Instants about 292 years apart or more cannot be
  subtracted.
- **Day and second counts.** Day numbers count from 1970-01-01 using a
  days-from-civil formula. Seconds are `day * 86400` plus the time of day. The
  weekday counts Monday = 0, anchored at Thursday 1970-01-01.
- **Exact arithmetic.** Time differences are exact `real` quotients of the
  seconds difference.
- **JSON values.** JSON numbers are exact `real`s (`JsonValues.Json`). The
  request body is a `map<string, Json>`.

The required fields are checked in their declared order (app.py:61-67). So the
incomplete sample record of try.py:69-74, which holds only `user_id`,
`application_at` and `age`, is rejected for `gps_fix_at`, the first absent
field. `Service.IncompleteRecordRejected` proves this.

Files:

- `wrappers.dfy`: the shared `Option` and `Result` datatypes
- `json.dfy`: JSON values and records
- `calendar.dfy`: calendar arithmetic
- `validation.dfy`: the required-field check
- `features.dfy`: the feature derivation
- `service.dfy`: the request pipeline and the client scripts' sample records

## Model

| member | source | states |
|---|---|---|
| Validation.FirstMissing | app.py:66-71 | Scanning fields in order gives `Ok` exactly when every field is present. Otherwise it names a field that is absent while every earlier field is present. |
| Validation.Validate | app.py:61-71 | The request check gives `Ok` exactly when all six required fields are present. Otherwise it names the first absent field in the declared order, with every earlier one present. |
| Validation.FirstMissingIgnoresOtherFields | app.py:66-67 | The scan's verdict depends only on which of the listed fields are present. It ignores other fields and all values. |
| Validation.ValidateIgnoresOtherFields | app.py:61-67 | Two records with the same required fields present get the same verdict. Extra keys are ignored. |
| Calendar.NextDay | app.py:34-37 | The next calendar date of a valid timestamp is valid, chronologically later, and has the same time of day. |
| Calendar.Weekday | app.py:37 | The day of the week lies in 0..6, Monday = 0. |
| Calendar.DayNumberIncreases | app.py:30-31 | Day numbers strictly increase along the calendar across days, months and years, leap years included. |
| Calendar.SecondsOrder | app.py:30-31 | Seconds since the epoch order valid timestamps exactly as the calendar does, and distinct timestamps never share a count. So the sign of a timestamp difference is the chronological order. |
| Calendar.Seconds | app.py:30-31 | The seconds count behind a timestamp difference splits back exactly into the day number (quotient by 86400) and the time of day (remainder). |
| Calendar.NextDayNumber | app.py:37 | The next calendar date has the next day number, at month and year ends included. |
| Calendar.NextDayAdvances | app.py:30-37 | The next calendar date is 86400 seconds later, and its weekday is the next one mod 7. |
| Calendar.DaysLater | app.py:37 | Stepping forward k dates from a valid timestamp gives a valid timestamp. |
| Calendar.DaysLaterNumber | app.py:37 | k dates later is exactly k day numbers later. |
| Calendar.DaysLaterFromNextDay | app.py:37 | Stepping k dates on from the next date is stepping k + 1 dates on, so counting from the front over `NextDay` and from the back over `DaysLater` reach the same dates. |
| Calendar.DaysLaterAdvances | app.py:37 | k dates later the weekday has advanced by k mod 7. |
| Calendar.EpochIsThursday | app.py:37 | 1970-01-01 is day 0 and a Thursday (3), which anchors the Monday = 0 numbering. |
| Features.ParseColumns | app.py:25-27 | The timestamp columns are parsed in order. Success means every column is present and accepted, and the parser's moments (instants or NaT) come back in column order. Failure names the first column that is absent (KeyError) or rejected (ParseError). |
| Features.AbsentColumns | app.py:47 | The missing-column list holds exactly the requested columns the record lacks. |
| Features.NearbyInstantsFit | app.py:30-31 | Two instants at most 100000 days apart can be subtracted without overflow. |
| Features.DistantInstantsOverflow | app.py:30-31 | Two instants at least 106753 days apart overflow the 64-bit nanosecond difference. |
| Features.CenturiesApartOverflow | app.py:30-31 | 2260-01-01 minus 1680-01-01 overflows. |
| Features.TimeSinceGpsFix | app.py:30 | Both instants: the cell is a number, and 3600 times it is the signed seconds from GPS fix to application. Either NaT: the cell is NaN. |
| Features.UploadDelay | app.py:31 | Both instants: the cell is a number, and 60 times it is the signed seconds from GPS fix to upload. Either NaT: the cell is NaN. |
| Features.IsWeekend | app.py:37 | The flag is 0 or 1, and it is 1 exactly on weekday 5 (Saturday) or 6 (Sunday). |
| Features.WeekendFlag | app.py:37 | The flag of a parsed cell is 0 or 1, and it is 1 exactly for an instant on weekday 5 or 6. NaT gives 0. |
| Features.SelectInputs | app.py:40-47 | Selecting the input columns succeeds exactly when all three are present, and yields their values in order. Otherwise it fails with a KeyError listing exactly the absent ones. |
| Features.FeatureRow | app.py:30-47 | The row has 9 entries in training order, and the first three are the input values unchanged. Entry 3 is NaN exactly when the application or GPS fix is NaT, and otherwise 3600 times it is the signed seconds from GPS fix to application. Entry 4 is the same for the upload, with factor 60. Then come the application's hour, day and month, or three NaN for NaT. The last entry is 0 or 1, and it is 1 exactly when the application is an instant on weekday 5 or 6. |
| Features.Derive | app.py:18-47 | Derivation succeeds exactly when the three timestamps parse (to an instant or NaT), neither subtraction overflows, and the three input columns are present. On failure it names, in this order of precedence, the first unparsable timestamp column, the first overflowing difference, or every missing input column. On success the row is built from the parsed application, GPS fix and upload, in that role order. |
| Features.FeatureRowProperties | app.py:30-37 | For instants, `time_since_gps_fix` ≥ 0 exactly when the GPS fix is not after the application, and it is 0 exactly when they coincide. `upload_delay` is the same with respect to the upload. For an instant application time, the hour is in 0..23, the day in 1..days-in-month and the month in 1..12. The weekend flag is always 0 or 1. |
| Features.DaysOnWeekdayHits | app.py:37 | Counting consecutive dates that fall on a weekday depends only on the weekday of the first date. |
| Features.WeekdayHitsCount | app.py:37 | Among the first n days of a week starting at weekday w, weekday d occurs once if it is reached within them, and not otherwise. |
| Features.WeekdayOncePerWeek | app.py:37 | Any seven consecutive dates meet each weekday exactly once. |
| Features.WeekendDaysSplit | app.py:37 | The weekend days among consecutive dates are its Saturdays plus its Sundays. |
| Features.WeekendDaysPerWeek | app.py:37 | Any seven consecutive dates hold exactly one Saturday and one Sunday, so exactly two dates get weekend flag 1. |
| Features.ParseColumnsReadsOnlyColumns | app.py:25-27 | Parsing depends only on the parsed columns' values. |
| Features.DeriveReadsOnlyItsColumns | app.py:22-47 | Records that agree on the six columns used get the same derivation, whatever other fields they carry. |
| Service.Predict | app.py:55-74 | A request is rejected exactly when some required field is absent, and the rejection names the first absent one. A derivation failure carries derivation's own error, which after validation is a parse error of a present timestamp or an overflowing difference, never a missing key. The row is produced exactly when validation passes, the timestamps parse and the differences fit, and it is exactly the derived row, with 9 entries. |
| Service.DerivationAfterValidation | app.py:66-74 | Once validation passes, derivation succeeds exactly when the timestamps parse and the differences fit. Its only failures are a parse error on a present timestamp column and an overflowing difference. |
| Service.RejectionStopsEarly | app.py:66-74 | A rejected request never reaches derivation. Its outcome is the same whatever the timestamp parser would do. |
| Service.OtherFieldsIgnored | app.py:61-74 | Records that agree on the six required fields get the same outcome. Unknown fields are ignored. |
| Service.IncompleteRecordRejected | try.py:69-74 | The incomplete sample record (user_id, application_at, age) is rejected for `gps_fix_at`. |
| Service.MissingUserIdRejected | shs.py:6-12 | Any record without `user_id` is rejected for `user_id`. |
| Service.SampleRow | try.py:51-59 | The first sample record derives to `[1, 42, 8988.12, -0.475, 382/60, 9, 20, 12, 0]`. 2023-12-20 is a Wednesday. |
| Service.SampleRecordReady | try.py:51-59 | The first sample record passes validation, and that row goes on to the scaler. |
| Service.NullGpsFixGivesNaN | app.py:27-37 | The first sample record with a null GPS fix, which the parser reads as NaT, still passes and yields `[1, 42, 8988.12, NaN, NaN, 9, 20, 12, 0]`. |
| Service.SampleDateIsWednesday | try.py:54 | 2023-12-20 is day 19711 after the epoch, a Wednesday. |

## Left out

- Flask routing, `request.get_json`, `jsonify` and HTTP status plumbing (app.py:8, 49-58, 91-100) are framework I/O. The model stops at the abstract outcome, and the 400/500 statuses appear only in comments on `Service.Outcome` and its constructors. The exact error-message strings are not modelled either. A request body that is not a JSON object is not modelled.
- The health check (app.py:49-52) is left out. It returns a constant response with no logic.
- Loading the model and scaler with `pickle`/`joblib` (app.py:11-16) is left out. So are `scaler.transform`, `model.predict` and `predict_proba` (app.py:77-81). These are opaque trained artifacts with floating-point numerics and no visible source. `Service.Ready` carries the row that would be handed to them.
- `datetime.now().isoformat()` in the response (app.py:88) is left out. It is wall-clock time.
- `pd.to_datetime` (app.py:27) is an opaque `Features.Parser`. Its string grammar, timezone-aware results, sub-second precision and nanosecond range limit (years about 1677-2262) are not modelled. Any value outside that range is simply one the parser may reject. Which values it reads as NaT is the parser's choice; only the consequences of NaT are modelled.
- Service.Predict: a subtraction of a timezone-aware and a naive timestamp raises a TypeError in the source (status 500). The model has no timezones, so it gives `Ready` there.
- Features.Derive: the same TypeError on mixed timezone-aware and naive timestamps is not modelled, because parsed moments carry no timezone.
- Whether the scaler or the classifier accepts a row with NaN cells is part of the opaque trained artifacts. `Service.Ready` only says that such a row is handed on.
- Floating-point rounding of `total_seconds() / 3600` and `/ 60` is not modelled. The model computes the exact rational quotient.
- Pandas column dtypes are not modelled. Derived integers (hour, day, month, flag) appear as exact `Features.Number` real cells in the row.
- Features.Derive: when several input columns are missing, the model reports the list of missing columns. The exact wording of pandas' KeyError message is not modelled.
- Determinism of a prediction for a fixed model, scaler and input is not stated as a lemma. Every member here is a pure function, so it holds by construction.
