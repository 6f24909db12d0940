# Museum event validation and normalisation

A Dafny model of the decision logic in the museum's live pipeline
(`pipeline/live_pipeline.py`). Exhibition-floor kiosks send JSON events
(`at`, `site`, `val`, `type`). The model covers two steps:

- Validation. Four field validators, combined by `validate_info`, decide
  whether an event is accepted. Each rejection carries exactly one reason,
  which stands for the error line the source logs.
- Normalisation. `extract_ids` turns an accepted event into 1-indexed
  storage keys and a timestamp string. The first lines of
  `upload_to_database` then decide whether the row is a `rating` or a
  `request` interaction.

Everything is pure. The validators and the normaliser are functions, and
their properties are proved as lemmas.

Modules, one per concern:

- `Events` (`events.dfy`): a decoded event is a `map<string, Value>`, with
  `Value = Null | Int | Str | Other`. `Get` reads a key as
  `event.get(key, None)` does, so a missing key and an explicit `null` are
  the same.
- `Decimal` (`decimal.dfy`): `str.isdigit`, `int()` of a digit string, and
  the zero-padded digits that `strftime` prints.
- `Clock` (`clock.dfy`): `datetime` values, the time-of-day order, the
  opening window 08:45–18:15, and `format_time`. It also has `ParseStamp`,
  which reads a stored timestamp back and is proved to be the exact inverse
  of the stored format.
- `Validation` (`validation.dfy`): the fourteen rejection reasons, the four
  validators, `ValidateInfo`, and a field-by-field definition of a valid
  event (`IsValidEvent`) that does not depend on the check order.
- `Normalisation` (`normalisation.dfy`): `ExtractIds`, the rating/request
  `Record`, `Classify` and `Normalize`.
- `Scenarios` (`scenarios.dfy`): the cases of `test_validate_info`.

`datetime.fromisoformat` is a library call. The model takes it as a
parameter, `parse: string -> Option<ParsedDateTime>`. `ParsedDateTime` only
admits real dates and times (month 1–12, day within the month, and so on).

The stored timestamp keeps the event's wall-clock date and time to the
second and appends the literal text `+00`. No UTC offset is applied. The
model follows the code here: `FormatTime`'s contract says that the text
reads back as the wall-clock fields, whatever the offset was.

## Model

| member | source | states |
|---|---|---|
| `Validation.ValidateTime` | pipeline/live_pipeline.py:115-134 | Every reason the time check gives is one of the three time reasons. |
| `Validation.TimeCheckSpec` | pipeline/live_pipeline.py:115-134 | Accepts iff `at` is a string that parses to a time of day inside the opening window. "No recorded time" iff `at` is missing or null. "Not a valid time" iff `at` is present but is not a string or does not parse. "Outside opening hours" iff it parses to a time outside the window. |
| `Clock.TimeOf` | pipeline/live_pipeline.py:124 | `.time()` of a parsed datetime is a valid time of day. |
| `Clock.NotAfter` | pipeline/live_pipeline.py:130 | `a <= b` on `datetime.time`, compared field by field from the hour down. Its contract is stated by `Clock.NotAfterIsMicrosOrder`. |
| `Clock.InOpeningHours` | pipeline/live_pipeline.py:130 | `OPEN_START <= t <= OPEN_END`. Its contract is stated by `Clock.OpeningWindowIsClosed`. |
| `Clock.NotAfterIsMicrosOrder` | pipeline/live_pipeline.py:130 | Python's field-by-field `<=` on times (hour, minute, second, microsecond) is the order of the instants they name. |
| `Clock.OpeningWindowIsClosed` | pipeline/live_pipeline.py:28-29 | The window is the closed interval from 08:45:00.000000 to 18:15:00.000000. Both ends are inside it. 18:15:00.000001 and 08:44:59.999999 are outside it. |
| `Validation.ValidateExhibition` | pipeline/live_pipeline.py:137-159 | Every reason the site check gives is one of the four site reasons. |
| `Decimal.IsDigits` | pipeline/live_pipeline.py:150 | `site.isdigit()` over ASCII digits: true exactly of non-empty strings of '0'–'9'. Its effect on the site check is stated by `Validation.ExhibitionCheckSpec`. |
| `Validation.KnownSites` | pipeline/live_pipeline.py:25 | `EXHIBITION_SITE_IDS` holds exactly the one-character strings "0" to "5". |
| `Validation.ExhibitionCheckSpec` | pipeline/live_pipeline.py:137-159 | Accepts exactly the strings "0" to "5". Missing gives "no site ID". A non-string gives "not a valid string". A string that is empty or has a non-digit (such as "-1" or "abcd") gives "does not have a valid ID". Any other digit string (such as "6" or "00") gives "does not currently exist". |
| `Validation.ValidateRating` | pipeline/live_pipeline.py:162-179 | Every reason the rating check gives is one of the three rating reasons. |
| `Validation.RatingCheckSpec` | pipeline/live_pipeline.py:162-179 | Accepts exactly integers in `RATING_VALUES = range(-1, 5)`, so the literal bounds agree with the constant. Missing, non-integer and out-of-range values each get their own reason. |
| `Validation.ValidateRequest` | pipeline/live_pipeline.py:182-206 | Every reason the request check gives is one of the four request reasons. |
| `Validation.RequestCheckSpec` | pipeline/live_pipeline.py:182-206 | Accepts iff `type` is present exactly when `val` is -1, and a present `type` is the integer 0 or 1. "No type ID" iff `type` is absent and `val` is -1. "Type cannot exist" iff `type` is present and `val` is not -1. "Not a valid integer" iff `val` is -1 and `type` is not an integer. "Must be -1 or 0" iff `val` is -1 and `type` is an integer outside {0, 1}. |
| `Validation.ValidateInfo` | pipeline/live_pipeline.py:96-112 | Returns the reasonless `Empty` exactly for `None` and `{}`. Which events it accepts and which reason it reports are stated by `Validation.ValidateInfoSpec` and `Validation.FirstFailureWins`. |
| `Validation.ValidateInfoSpec` | pipeline/live_pipeline.py:96-112 | Returns the reasonless `Empty` exactly for `None` and `{}`. Accepts exactly the events that meet all four field rules. |
| `Validation.FirstFailureWins` | pipeline/live_pipeline.py:96-112 | For a rejected event, the reported reason is the one given by its own validator, and every validator that runs earlier passed. So only the first failing rule is reported. |
| `Validation.AcceptedIffAllPass` | pipeline/live_pipeline.py:96-112 | A non-empty event is accepted iff all four validators pass. |
| `Events.Get` | pipeline/live_pipeline.py:118 | `event.get(key, None)`: a missing key reads as `null`. Its contract is stated by `Events.NullReadsAsAbsent`. |
| `Events.NullReadsAsAbsent` | pipeline/live_pipeline.py:184 | `event.get(k, None)` reads a key set to `null` the same as a missing key. |
| `Validation.NullSameAsAbsent` | pipeline/live_pipeline.py:184-191 | Setting a key to `null` gives the same verdict as removing it. The one exception: removing the key leaves `{}`, which is refused as empty. |
| `Validation.ValidateTimeAsWritten` | pipeline/live_pipeline.py:122-128 | The source's time check raises exactly when `at` is present but not a string. Whenever it returns, it agrees with `ValidateTime`. |
| `Validation.ValidateInfoAsWritten` | pipeline/live_pipeline.py:96-128 | The source's `validate_info` raises exactly when the event is non-empty and `at` is present but not a string. Whenever it returns, its verdict is the corrected `ValidateInfo`'s. |
| `Validation.NumericTimeRaises` | pipeline/live_pipeline.py:122-128 | For `{"at": 1741712400, "site": "1", "val": 1}`, the source's time check raises `TypeError`, and so does its `validate_info`. The corrected `ValidateInfo` rejects the event as "not a valid time". |
| `Decimal.Value` | pipeline/live_pipeline.py:214 | `int()` of an n-digit string is less than 10^n. |
| `Decimal.Digits` | pipeline/live_pipeline.py:93 | The zero-padded rendering has the requested width, is all digits, and reads back as the number. |
| `Decimal.DigitsOfValue` | pipeline/live_pipeline.py:93 | Rendering a digit string's value at the string's own width gives the string back, leading zeros included. |
| `Clock.Truncate` | pipeline/live_pipeline.py:93 | The printed fields always fit their zero-padded widths. |
| `Clock.FormatStamp` | pipeline/live_pipeline.py:93 | The `'%Y-%m-%d %H:%M:%S+00'` text is 22 characters long, with '-', '-', ' ', ':' and ':' at positions 4, 7, 10, 13 and 16, and ends in the literal `+00`. The round trip is stated by `Clock.FormatStampParses` and `Clock.ParseStampFormats`. |
| `Clock.FormatStampParses` | pipeline/live_pipeline.py:93 | The `'%Y-%m-%d %H:%M:%S+00'` text is 22 characters long and reads back as the stamp it was made from. |
| `Clock.ParseStampFormats` | pipeline/live_pipeline.py:93 | Every string in the stored format is the rendering of what it reads as, so stored texts and stamps correspond one to one. |
| `Clock.FormatTime` | pipeline/live_pipeline.py:90-93 | `format_time` gives a 22-character text ending in `+00`. It reads back as the wall-clock date and time to the second. Microseconds and the UTC offset are dropped, not applied. |
| `Normalisation.SitePosition` | pipeline/live_pipeline.py:214-216 | `int(site)` of a known site is its index in `EXHIBITION_SITE_IDS`. |
| `Normalisation.ExtractIds` | pipeline/live_pipeline.py:209-226 | For an accepted event: `exhibition_id` is in 1..6 and indexes (1-based) the event's site in `EXHIBITION_SITE_IDS`. `rating_id` is in 0..5 and indexes (0-based) the event's `val` in `RATING_VALUES`. `request_id` is present iff `type` is. When present, it is in 1..2 and indexes (1-based) `type` in `REQUEST_TYPES`. The timestamp text reads back as the event's time to the second. |
| `Normalisation.Classify` | pipeline/live_pipeline.py:233-238 | The row is a request row iff there is a request id. `event_type` and `type_id` come from the request id in that case and from the rating id otherwise. The exhibition id and the time are kept. |
| `Normalisation.Normalize` | pipeline/live_pipeline.py:209-238 | `extract_ids` followed by the branch at the top of `upload_to_database`. The row is a request row iff `val` is -1. It keeps the exhibition id and the timestamp text that `extract_ids` computes. The rest is stated by `Normalisation.NormalizeSpec`. |
| `Normalisation.NormalizeSpec` | pipeline/live_pipeline.py:209-238 | For an accepted event, the row is a request row iff `val` is -1. A rating row has a rating id in 1..5, never the sentinel 0, and its event has no `type`. In a request row, the dropped rating id is always 0. Every stored key indexes back to the event's `site`, `val` and `type`. |
| `Normalisation.NormalizeDependsOnFields` | pipeline/live_pipeline.py:209-238 | Accepted events that agree on `site`, `val`, `type` and their time to the second are stored as the same row. |
| `Normalisation.NormalizeDeterminesFields` | pipeline/live_pipeline.py:209-238 | Accepted events stored as the same row agree on `site`, `val`, `type` and their time to the second. |
| `Normalisation.NormalizeInjective` | pipeline/live_pipeline.py:209-238 | Two accepted events give the same row iff they agree on `site`, `val`, `type` and their time to the second. Normalisation loses only the microseconds and the offset. |
| `Scenarios.TestTimePasses` | pipeline/test_pipeline.py:19-31 | The test timestamp, 17:00 on 11 March 2025, passes the time check. |
| `Scenarios.RejectedSiteCases` | pipeline/test_pipeline.py:19-21 | Site "6" is unknown. Sites "abcd" and "-1" fail the digit check. |
| `Scenarios.RejectedOtherCases` | pipeline/test_pipeline.py:22-26 | `val` -1 with `type` missing or `None` gives "no type ID". A missing `at` gives "no recorded time". `val` 5 is out of bounds. |
| `Scenarios.ListPositions` | pipeline/live_pipeline.py:25-27 | Index k of the site list reads as k, index k of `RATING_VALUES` is k - 1, and index k of `REQUEST_TYPES` is k. |
| `Scenarios.TestRow` | pipeline/live_pipeline.py:209-238 | An accepted test event is stored with exhibition id site + 1. It gets rating id val + 1, or request id type + 1 when `type` is present, and the test time. |
| `Scenarios.RatingZeroCase` | pipeline/test_pipeline.py:28 | `{"site": "0", "val": 0}` is accepted and stored as rating 1 at exhibition 1, at 2025-03-11 17:00:00. |
| `Scenarios.RequestCase` | pipeline/test_pipeline.py:29-30 | `{"site": "1", "val": -1, "type": 0}` is accepted and stored as request 1 at exhibition 2. |
| `Scenarios.RatingFourCase` | pipeline/test_pipeline.py:31 | `{"site": "5", "val": 4}` is accepted and stored as rating 5 at exhibition 6. |

## Left out

- The Kafka consumer, the command-line flags, the logger setup and the `while True` poll loop are broker and terminal I/O (pipeline/live_pipeline.py:32-78, 265-280). Logging is modelled only as the returned rejection reason. The log text itself is not modelled, including the message "must be -1 or 0" for a check against {0, 1}.
- The database connection, insert, commit and error logging in `upload_to_database` (pipeline/live_pipeline.py:240-262) are foreign calls. Only the rating/request branch before them is modelled.
- `convert_to_dict` is `json.loads`, a library call. Its output is modelled as an optional decoded object. A payload that decodes to something other than an object (a list, a string, a number) is not modelled. On a non-empty one, the source's `.get` raises `AttributeError`.
- ISO-8601 parsing (`datetime.fromisoformat`) is a parameter of the model. Only its results are constrained, to valid dates and times.
- Clock.FormatTime: always pads the year to four digits. Whether `strftime('%Y')` pads years below 1000 depends on the platform, and this is not modelled.
- Validation.ValidateRating, Validation.ValidateRequest: Python's `bool` is a subtype of `int`, and the model has no booleans: floats, booleans, arrays and objects are all the single value `Other`. So the model rejects events that the source accepts. The source accepts `{"val": true}` and stores rating id 2, and accepts `{"val": false}` and stores rating id 1. The model rejects both as "value is not a valid integer". The source accepts `{"val": -1, "type": true}` as request id 2 and `{"val": -1, "type": false}` as request id 1. The model rejects both as "type is not a valid integer". A float `val` such as `-1.0` is rejected by `validate_rating` in both, so `-1.0 == -1` in `validate_request` never changes a verdict.
- Decimal.IsDigits: accepts only '0'–'9', while `str.isdigit` also accepts other Unicode digits. The accepted sites are the same either way, because of the membership check. Only the reason changes: a site such as "٣" gets "does not currently exist" in the source and "does not have a valid ID" (`SiteNotValidId`) in the model.
- Normalisation.ExtractIds: defined only on events that `validate_info` accepted, which are the only events the consumer loop passes to it. On other events the source raises or stores `None`. The guards `exhibition_id is not None` and `rating_id is not None` (pipeline/live_pipeline.py:215, 219) always hold on such events.
- Scenarios.RatingZeroCase, Scenarios.RequestCase, Scenarios.RatingFourCase: these state the stored time as what it reads back to (`ParseStamp(...) == Some(Stamp(2025, 3, 11, 17, 0, 0))`), not as the literal text "2025-03-11 17:00:00+00". `Clock.ParseStampFormats` shows that there is exactly one such text.

## Findings

| source | as written | input that shows it | evidently intended | confidence | as-written member | corrected member |
|---|---|---|---|---|---|---|
| pipeline/live_pipeline.py:122-128 | `datetime.fromisoformat(event_at)` raises `TypeError` when `at` is not a string, but only `ValueError` is caught. The exception leaves `validate_time` and then `validate_info`, which has no handler either. The `__main__` loop (lines 271-280, not modelled) does not catch it, so the consumer stops. | `{"at": 1741712400, "site": "1", "val": 1}` | The event is rejected as "Event time is not a valid time", and the pipeline moves on to the next message. | high; not executed | `Validation.ValidateInfoAsWritten` | `Validation.ValidateInfo` |
