# evcc-tempo: a verified model of the Tempo calendar-to-rates transformation

evcc-tempo is a small Go service that serves the French "Tempo" electricity
tariff to the evcc energy manager. On `GET /prices` it queries the RTE
calendar of day colours (BLUE, WHITE, RED) for a window of three days, turns
every day it recognises into a peak rate (from the day's start + 6 h to
start + 22 h) and an off-peak rate (from start + 22 h to start + 30 h), which
on a 24-hour day are 06:00, 22:00 and 06:00 on the local clock, prices them
from the configuration, sorts the rates by start instant and answers with
them.

This project models the logic inside that handler and its helpers:

- `Text`: the parts of Go's `strings` package the handler relies on
  (`ToLower`, `HasPrefix`, `ReplaceAll(s, "+", "%2B")`).
- `Retry`: `backoffPermanentError`, the classifier that tells the exponential
  back-off which failures are permanent.
- `Prices`: the start-up price table, built from `structs.Map(conf.Prices)`
  by a loop keyed on the lower-cased field name, refused unless there are
  exactly three entries.
- `Rates`: `validTempoValue` and the loop that expands each valid calendar
  record into its two rates.
- `RateSort`: the in-place sort of the rates by start instant.
- `Query`: the day window of the calendar query and the escaping of `+` in
  its timestamps.
- `Endpoint`: expansion followed by the sort, as the handler runs them.
- `Daylight`: the rate bounds on the days the local clock changes (see
  Findings).

Modelling choices:

- Instants are integers (seconds since the epoch). Go's `.Local()` and
  `.UTC()` only change how a `time.Time` is displayed, and `Add` adds an
  absolute duration, so each bound is `StartDate` plus 6, 22 or 30 hours.
- Prices (`float64` in Go) are `real`s; they are only copied.
- A Go map read of a missing key yields the zero value; the helper
  `Prices.Lookup` models it that way, so the expansion needs no
  precondition on the table. `Rates.ConfiguredLookup` shows that with the
  start-up table the lookup of an accepted label always hits.
- The loop over `configPrices` visits a Go map, whose order is unspecified;
  the model picks each next key nondeterministically.
- Days of the query window are integers. The formatted timestamps are
  inputs, because RFC 3339 formatting is not modelled.
- An error is an optional HTTP status (that of the `request.StatusError`
  found by `errors.As`) plus its message. A nil error is `None`.

Facts about the code that the model keeps as they are:

- `sort.Slice` is not a stable sort (main.go:188-190). The model promises
  only that the result is sorted by start and is a permutation.
- Every status in [400, 599] is permanent, 500 included (main.go:41). See
  `Retry.HttpStatusIsPermanent`.
- The Tempo peak and off-peak hours are hours of the local clock, but the
  code adds absolute hours to the record's start (main.go:175-182). See
  Findings.
- When the token exchange fails, the code logs the error and still queries
  the calendar, with an empty bearer token (main.go:131-134, 157). That
  sequence is not modelled.

## Model

| member | source | states |
|---|---|---|
| Text.ToLower | main.go:109 | lower-casing keeps the length and maps each ASCII letter to its lower-case form, one character at a time |
| Text.ToLowerHasNoUpper | main.go:109 | no upper-case letter is left after lower-casing |
| Text.ToLowerInjectiveOnUpper | main.go:109 | two upper-case texts with the same lower-case form are equal |
| Text.ToLowerIdempotent | main.go:109 | lower-casing twice is lower-casing once |
| Text.HasPrefix | main.go:45 | the result is true exactly when the prefix is no longer than the text and matches it character by character; the text is then the prefix followed by the rest |
| Text.HasPrefixOfAppend | main.go:45 | every text begins with itself, whatever follows it |
| Text.EscapePlus | main.go:153-154 | the escaped text contains no `+`, is never shorter, and is unchanged when it had no `+` |
| Text.EscapePlusRoundTrip | main.go:153-154 | for a text without `%`, reading `%2B` back as `+` recovers the original |
| Text.UnescapeEscapedThen | main.go:153-154 | decoding an escaped text without `%` followed by any tail yields the original text followed by the decoded tail |
| Retry.BackoffPermanentError | main.go:39-49 | nil stays nil; any error is returned with the same value; it is marked permanent exactly when its status is in [400, 599] or its message starts with "jq: query failed", otherwise it is retryable |
| Retry.HttpStatusIsPermanent | main.go:40-44 | every status from 400 to 599 (404 and 500 alike) makes the error permanent |
| Retry.OtherStatusIsRetried | main.go:40-48 | a status outside [400, 599], without the jq prefix, leaves the error retryable |
| Retry.QueryFailureIsPermanent | main.go:45-47 | a message beginning with "jq: query failed" makes the error permanent even without a status |
| Retry.TransportFailureIsRetried | main.go:45-48 | an error without status and without the jq prefix is retried |
| Retry.QueryFailureMustBeAPrefix | main.go:45 | the jq text further inside the message does not make the error permanent |
| Prices.StructFields | main.go:98 | the struct's map has exactly the three field names Blue, Red and White |
| Prices.BuildPriceTable | main.go:99-110 | start-up fails exactly when the map does not hold three entries; otherwise the table's keys are the lower-cased entry names and each key holds the prices of an entry whose name lowers to it |
| Prices.ColorTable | main.go:102-110 | the start-up table has exactly the keys blue, red and white |
| Prices.LoadPrices | main.go:98-110 | from any configuration the table is built, has exactly the keys blue, red and white, and each holds that colour's configured prices |
| Rates.ValidTempoValue | main.go:81-90 | a label is accepted exactly when it is written in upper case and lowers to a key of the start-up table (blue, red, white) |
| Rates.UpperCaseColours | main.go:81-90 | BLUE, WHITE and RED are exactly the upper-case texts that lower to a key of the start-up table |
| Rates.LowerCaseRejected | main.go:81-90 | no lower-cased text is accepted, so "blue", "red" and "white" are refused |
| Rates.ConfiguredLookup | main.go:171-173 | for an accepted label the lookup in the start-up table hits and yields that colour's configured prices |
| Rates.PeakRate | main.go:174-178 | the peak rate starts 6 hours after the record's start and lasts 16 hours, so it is non-empty |
| Rates.OffPeakRate | main.go:180-184 | the off-peak rate starts where the record's peak rate ends and lasts 8 hours, so it is non-empty |
| Rates.Expand | main.go:171-186 | an unknown label gives no rate; a valid one gives the peak then the off-peak rate, which meet and cover the 24 hours from 6 hours after the record's start; every rate is non-empty |
| Rates.ExpandAll | main.go:167-187 | the rates appended for a list of records number at most two per record and are all non-empty; `Rates.ExpandAllShape` gives their exact count and order |
| Rates.ValidRecords | main.go:169-171 | the kept records are all valid and no more numerous than the input |
| Rates.ValidRecordsAppend | main.go:169-171 | filtering commutes with concatenation, so the kept records stay in input order |
| Rates.ValidRecordsSingle | main.go:171 | a single record is kept exactly when its label is valid |
| Rates.ExpandAllAppend | main.go:169-187 | the rates of a concatenation are the rates of the first part followed by those of the second |
| Rates.ExpandAllShape | main.go:167-187 | the expansion holds exactly two rates per valid record, in input order, the peak rate of the j-th valid record at 2j and its off-peak rate at 2j+1 |
| Rates.ExpandedIntervals | main.go:174-184 | every rate is a non-empty interval; the peak rate starts 6 hours after the record, lasts 16 hours and ends where the off-peak rate, lasting 8 hours, begins |
| Rates.ExpandedPrices | main.go:171-184 | with the start-up table the peak rate carries the configured peak price of the record's colour and the off-peak rate its off-peak price |
| Rates.RedDayExample | main.go:174-184 | a red day starting 2024-01-14T23:00Z gives a peak rate 05:00-21:00 UTC and an off-peak rate 21:00-05:00 UTC at the configured red prices |
| Rates.ExpandRecords | main.go:167-187 | the loop's result is the expansion of all the records |
| RateSort.Swap | main.go:188-190 | two elements are exchanged, the others unchanged, the multiset kept |
| RateSort.EarliestFrom | main.go:188-190 | the index of an earliest-starting rate of the unsorted suffix |
| RateSort.SortByStart | main.go:188-190 | after the in-place sort the array is non-decreasing by start and a permutation of its former contents |
| Query.QueryWindow | main.go:147-149 | the window covers yesterday and tomorrow and is exactly three days long |
| Query.QueryWindowExact | main.go:147-149 | a day lies in the window exactly when it is yesterday, today or tomorrow |
| Query.CalendarUri | main.go:151-154 | the query string has a literal `+` exactly when the base address has one, since both bounds are escaped, and is no shorter than its parts |
| Query.CalendarUriEscaped | main.go:151-154 | for a base address without `+` or `%` and bounds without `%`, the query string has no literal `+`, and decoding `%2B` gives the same query string with both bounds exactly as formatted |
| Endpoint.PricesResponse | main.go:167-190 | the answer is sorted by start, is a permutation of the expansion, has two rates per valid record, and every rate has start before end |
| Daylight.LocalExpand | main.go:174-184 | the corrected expansion: bounds found on the local clock; two rates for a valid label, none otherwise; peak end is off-peak start; in a zone whose clock changes are at most two hours, both rates are non-empty |
| Daylight.SpringZoneValid | main.go:174-184 | the Paris zone around the spring change of 2024 has clock changes of at most two hours |
| Daylight.AutumnZoneValid | main.go:174-184 | the Paris zone around the autumn change of 2024 has clock changes of at most two hours |
| Daylight.LocalDaysContiguous | main.go:174-184 | with local-clock bounds, the off-peak rate of a day ends where the peak rate of the next local day begins, whatever the day's length |
| Daylight.AbsoluteOffsetsOverlap | main.go:174-184 | as written, in Paris on 31 March 2024 the off-peak rate ends an hour after the next day's peak rate begins, and the peak starts at 07:00 local time |
| Daylight.AbsoluteOffsetsLeaveGap | main.go:174-184 | as written, in Paris on 27 October 2024 an hour between the off-peak rate and the next day's peak rate has no rate |
| Daylight.LocalOffsetsMeet | main.go:174-184 | with local-clock bounds the same spring days meet at 04:00 UTC and the peak starts at 06:00 local time |

## Left out

- The HTTP server, the `/ping` route and the JSON answer (main.go:113-119, 192, 195): framework I/O.
- The token exchange and both `client.DoJSON` calls (main.go:123-135, 156-162): network access through foreign libraries. The records are an input of `Endpoint.PricesResponse`. A failed fetch leaves the decoded list as it is, normally empty; that case is an empty input.
- `backoff.Retry` and `bo()` (main.go:51-56, 161-165): a wall-clock retry loop inside a library (initial interval 1 s, at most 1 minute elapsed). Only the classifier is modelled.
- `readConfig` and `getEnv` (main.go:58-79): file and environment I/O and YAML decoding. The configuration's prices are an input.
- The reflection of `structs.Map` and the type assertions on its values (main.go:104-108): only the resulting map is modelled.
- `now.BeginningOfDay`, `AddDate` across a clock change, and RFC 3339 formatting (main.go:147-154): library time-zone semantics. Days are integers and the formatted timestamps are inputs.
- Logging and the redaction of the Basic-Auth header (main.go:112).
- Retry.BackoffPermanentError: in the status case Go wraps the `StatusError` found in the chain, not the error passed in. The model does not tell a wrapped error from the status error it wraps.
- Text.ToLower: only the ASCII case mapping is modelled, not Unicode's. All strings involved (field names, colour labels) are ASCII.
- RateSort.SortByStart: a selection sort stands in for Go's pattern-defeating quicksort. Only what `sort.Slice` promises is stated: sorted by start and a permutation, with no stability.
- Daylight: a time zone is given as a pair of functions, not read from a time-zone database. The rest of the model (`Rates`, `Endpoint`) keeps the absolute offsets the handler computes. `Daylight.LocalExpand` is the corrected computation of the bounds.

## Findings

| source | as written | input that shows it | evidently intended | confidence | as-written member | corrected member |
|---|---|---|---|---|---|---|
| main.go:174-184 | the bounds are the record's start instant plus 6, 22 and 30 hours of absolute time | Europe/Paris, records of 31 March 2024 (start 2024-03-30T23:00Z) and 1 April 2024 (start 2024-03-31T22:00Z): the first off-peak rate ends at 05:00Z and the next peak rate begins at 04:00Z. On 27/28 October 2024 an hour is left without a rate | peak from 06:00 to 22:00 and off-peak from 22:00 to 06:00 on the local clock, so consecutive days meet exactly | not executed; medium (the tariff's hours are local clock hours) | Daylight.AbsoluteOffsetsOverlap | Daylight.LocalDaysContiguous |
