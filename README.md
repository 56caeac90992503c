# Taylor-rule rate pipeline, modelled in Dafny

The repository is a small Next.js site that compares New Zealand's official cash rate
(OCR) with two rule-based benchmarks. A data endpoint, `/api/getData`, does the following:

- reads the `Projections` sheet of a workbook;
- locates its columns from row 7;
- turns each spreadsheet date serial into a UTC instant;
- attaches the inflation-target regime in force on that date;
- attaches a long-term neutral interest rate (NIR) from `NIR.csv`, keyed by `YYYY-MM-DD`;
- computes the static Taylor rate;
- computes the inertial Taylor rate, threading the previous row's OCR through the pass;
- drops empty rows and projected quarters.

A second endpoint, `/api/getProjections`, performs the same extraction without the rates. The browser page
(`src/app/page.tsx`) does four things with the feed:

- recomputes both rates with its own fold over it;
- encodes quarter labels as numbers;
- filters the feed to a quarter range;
- maps it to chart series.

The project models that rate pipeline, in these modules:

- `Outcomes` has `Option`, `Result` and the failures a request can end in.
- `Text` holds decimal numerals, `String.prototype.split`, and `Number(...)`/`parseFloat` on decimal literals.
- `Calendar` holds the proleptic Gregorian calendar on day numbers. It covers instants in milliseconds, the UTC date of an instant, and `toISOString`'s date part.
- `Regime` is `getInflationTargetData`, the five regimes with half-open date intervals.
- `TaylorRule` is `calculateTaylorOCR`, plus both variants of `calculateInertialTaylorOCR`.
- `NirData` is `parseDate`, the CSV `data` handler and the map it builds, including the loop method `LoadNirTable`.
- `Workbook` has sheet cells, JavaScript falsy coercions, `indexOf`, `excelDateToJSDate`, the quarter label, the projection cut-off and the NIR lookup.
- `DataFeed` is `GET` of `/api/getData`. It has the header check with its typo, the loop method `EnrichRows` that carries `prevOCR`, and the two filters.
- `ProjectionsFeed` is `GET` of `/api/getProjections`, proved to return the rate-free projection of the data feed's output.
- `Client` is the page's fold, `convertQuarterToNumeric`, the range filter and `generateGraphData`.

Both route files carry identical copies of these helpers:

- `getInflationTargetData`;
- `excelDateToJSDate`;
- `parseDate`;
- the `parseNIRData` handler.

Each helper is modelled once. The rows below cite the `getData` copy; the lines of the `getProjections` copy are:

- regime: 18-28;
- `parseDate`: 67-75;
- handler: 44-55.

Rates are exact `real` arithmetic. Instants are integer milliseconds. Date serials are `real`s, converted with
`Math.round` written out as `floor(x + 0.5)`.

Some behaviours of the code are easy to misread. The model follows the code in each of them:

- **Header check.** `getData` rejects a sheet only when `outputgap` or `papc` is missing, or when `urate` is in column 2: `urateIndex ==- -1` parses as `urateIndex == 1`. A missing `urate` or `ocr` is not rejected. `getProjections` checks only `outputgap` and `papc`.
- **Output fields.** Both endpoints keep `isProjection` in every returned record, and after the filter it is always `false`.
- **Where `prevOCR` is threaded.** The server threads `prevOCR` through every non-empty sheet row, projection rows included, and filters afterwards. The page recomputes the rates over the series it receives. A sufficient condition for the two inertial rates to agree on a record is that its previous rate is null or a non-zero number (`Client.InertialAgreesWithServer`). After a zero `ocr`, a next record with a Taylor rate (a gap and an NIR) gets `0.15 ×` that rate on the server and its own `ocr` on the page (`Client.ZeroPreviousDiverges`).
- **What `prevOCR` holds.** The server stores the raw cell (`prevOCR = row[ocrIndex]`), not `ocr || null`. A missing `ocr` cell therefore makes the next record's inertial rate NaN, serialised as `null`. A zero `ocr` makes it `0.15 ×` the Taylor rate.
- **Serial conversion.** `excelDateToJSDate` rounds the product in milliseconds, not the day count. The two agree on integer serials (`Workbook.SerialIsMidnight`).

## Model

| member | source | states |
|---|---|---|
| Outcomes.MessagesDistinct | src/app/api/getData/route.ts:114-181 | the four fixed failures report four different `error` texts |
| Regime.InflationTarget | src/app/api/getData/route.ts:11-29 | every regime has lower < upper and midpoint == (lower + upper) / 2 |
| Regime.BoundaryIsMidnight | src/app/api/getData/route.ts:18-24 | each comparison constant is UTC midnight of 1996-12-10, 2002-09-17, 2018-03-26, 2023-12-20 |
| Regime.BoundariesAscend | src/app/api/getData/route.ts:18-24 | the four boundary dates, and their instants, strictly ascend |
| Regime.ExactlyOneEra | src/app/api/getData/route.ts:18-28 | every instant lies in exactly one of the five half-open intervals, and the lookup returns that interval's regime |
| Regime.OneEra | src/app/api/getData/route.ts:18-28 | two intervals containing the same instant are the same interval |
| Regime.BoundaryStartsNextEra | src/app/api/getData/route.ts:18-28 | an instant equal to a boundary gets the later regime; one millisecond before gets the earlier one |
| Regime.FirstBoundaryIsLaterRegime | src/app/api/getData/route.ts:18-21 | midnight of 1996-12-10 is in "0-3%", the millisecond before in "0-2%" |
| Regime.MidnightBeforeBoundary | src/app/api/getData/route.ts:18-24 | a date's midnight is before a boundary instant exactly when the date is before the boundary date |
| Regime.EraMonotone | src/app/api/getData/route.ts:18-28 | a later instant never gets an earlier regime |
| Workbook.SerialRounding | src/app/api/getData/route.ts:32-34 | the instant is the integer nearest the millisecond product, halves rounding up |
| Workbook.SerialIsMidnight | src/app/api/getData/route.ts:32-34 | integer serial s converts to exactly (s - 25569) * 86400000 ms, UTC midnight of day s - 25569; serial 25569 is the epoch |
| Workbook.SerialOfDate | src/app/api/getData/route.ts:32-34 | the serial of a calendar date converts to that date's midnight and reads back as that date |
| Calendar.CivilFromDays | src/app/api/getData/route.ts:146 | a day number maps to a valid calendar date with that day number |
| Calendar.CivilRoundTrip | src/app/api/getData/route.ts:146 | the date of a date's day number is the date itself |
| Calendar.DayNumberInjective | src/app/api/getData/route.ts:146 | distinct valid dates have distinct day numbers |
| Calendar.BeforeIffDayNumber | src/app/api/getData/route.ts:18-28 | lexicographic date order agrees with day-number order (both directions) |
| Calendar.UtcDate | src/app/api/getData/route.ts:146 | every instant has a valid UTC calendar date (getMonth + 1, getFullYear in UTC) |
| Calendar.InstantBeforeMidnight | src/app/api/getData/route.ts:147 | an instant is before a date's midnight exactly when its day number is smaller |
| Calendar.MidnightOnDate | src/app/api/getData/route.ts:149 | the UTC date of a date's midnight is that date |
| Calendar.IsoYearLead | src/app/api/getData/route.ts:149 | the ISO year starts with a digit exactly for years 0..9999 and with '+' exactly above 9999 |
| Calendar.IsoDateFields | src/app/api/getData/route.ts:149 | the key is the ISO year, '-', the two-digit month, '-', the two-digit day |
| Calendar.IsoDateInjective | src/app/api/getData/route.ts:149 | distinct valid dates give distinct `YYYY-MM-DD` keys |
| Text.ZeroPadValue | src/app/api/getData/route.ts:69 | zero padding keeps the value and reaches the width when the numeral fits |
| Text.DigitsInjective | src/app/api/getData/route.ts:69 | equal-length digit strings with equal values are equal |
| Text.NatToStringValue | src/app/api/getData/route.ts:146 | the decimal numeral of n has value n |
| Text.Split | src/app/api/getData/route.ts:66 | `split` gives at least one part, no part holds the separator, and joining the parts restores the input |
| Text.SplitJoin | src/app/api/getData/route.ts:66 | splitting a join of separator-free parts gives back exactly those parts |
| Text.SplitAppend | src/app/api/getData/route.ts:66 | the parts of a + sep + b are the parts of a followed by the parts of b |
| Text.SplitAtFirst | src/app/api/getData/route.ts:66 | a separator-free prefix is the first part |
| Text.TrimStart | src/app/api/getData/route.ts:66 | `Number` drops leading white space: the result is a suffix of the input, every dropped character is white space, and the result does not start with white space |
| Text.TrimEnd | src/app/api/getData/route.ts:66 | `Number` drops trailing white space: the result is a prefix of the input, every dropped character is white space, and the result does not end with white space |
| Text.ZeroPad | src/app/api/getData/route.ts:69 | `padStart` yields a non-empty digit string at least as long as the width |
| Text.Number | src/app/api/getData/route.ts:66 | `Number` of a blank or all-white-space string is 0 |
| Text.ParseFloat | src/app/api/getData/route.ts:46 | `parseFloat` of a blank or all-white-space string is NaN |
| Text.NumberOfDigitString | src/app/api/getData/route.ts:66 | `Number` of a non-empty digit string, leading zeros included, is its value |
| Text.NumberOfZeroPad | src/app/api/getData/route.ts:66 | `Number` of a zero-padded numeral is the padded number |
| Text.NumberOfDigits | src/app/api/getData/route.ts:66 | `Number` of a decimal numeral is its value |
| Text.ParseFloatOfDigits | src/app/api/getData/route.ts:46 | `parseFloat` reads a leading numeral and ignores a non-numeric tail |
| Text.NumberAgreesWithParseFloat | src/app/api/getData/route.ts:46 | on a trimmed string that is wholly a decimal literal, `Number` and `parseFloat` agree |
| NirData.Trunc | src/app/api/getData/route.ts:68 | truncation toward zero: n <= x < n + 1 for non-negative x, n - 1 < x <= n for negative x |
| NirData.DateUtc | src/app/api/getData/route.ts:68-69 | a `Date.UTC` result that is a number lies inside the time range |
| NirData.DateFromFields | src/app/api/getData/route.ts:66-71 | no key exactly when a field is 0, NaN or missing; `toISOString` throws exactly when all are truthy and `Date.UTC` is out of range |
| NirData.ParseDateMeaning | src/app/api/getData/route.ts:65-72 | `parseDate` is null iff one of the first three tokens is 0, NaN or missing; it throws iff all three are truthy and `Date.UTC` is out of range; a key is the ISO date of a day inside the time range |
| NirData.FieldTokens | src/app/api/getData/route.ts:66 | three digit fields joined by `/`, padded or not, yield their values as the first three tokens |
| NirData.DayMonthYearTokens | src/app/api/getData/route.ts:66 | `D/M/Y` yields the numbers D, M, Y as its first three tokens |
| NirData.PaddedDayMonthYearTokens | src/app/api/getData/route.ts:66 | `DD/MM/YYYY` yields the numbers D, M, Y as its first three tokens |
| NirData.ExtraTokensIgnored | src/app/api/getData/route.ts:66 | tokens after the third do not change the result |
| NirData.DayNumberInRange | src/app/api/getData/route.ts:68-69 | dates with years 100..275759 are inside the representable time range |
| NirData.DateUtcOfDate | src/app/api/getData/route.ts:68 | `Date.UTC(y, m - 1, d)` of a valid date is its day number, two-digit years included |
| NirData.ParseDateOfTokens | src/app/api/getData/route.ts:65-72 | any text whose first three tokens are a valid date's day, month and year parses to that date's ISO key |
| NirData.DateFieldsOfDate | src/app/api/getData/route.ts:67-69 | a valid date's day, month and year as numbers give its ISO key |
| NirData.ParseDateRoundTrip | src/app/api/getData/route.ts:65-72 | `DD/MM/YYYY` (zero-padded) and `D/M/YYYY` of a valid date both parse to that date's ISO key |
| NirData.ParseDateTwoDigitYear | src/app/api/getData/route.ts:68 | `DD/MM/YY` and `D/M/YY` with YY in 1..99 parse to the date in 19YY |
| NirData.RowEffectMeaning | src/app/api/getData/route.ts:44-53 | a record is inserted iff `Date` is non-empty, `parseFloat(NIR)` is a number and the date parses, with that key and value; the handler throws iff the same holds but `toISOString` throws |
| NirData.Effects | src/app/api/getData/route.ts:44-53 | one handler effect per record, in record order |
| NirData.Apply | src/app/api/getData/route.ts:44-61 | a failed load fails with the invalid-time error; a successful one holds every key an effect puts |
| NirData.NirTable | src/app/api/getData/route.ts:37-63 | the table read from the records fails only with the invalid-time error |
| NirData.FailureSticks | src/app/api/getData/route.ts:44-53 | once the handler has thrown, later records change nothing |
| NirData.ApplyStep | src/app/api/getData/route.ts:50 | a record that does not throw either sets its key to its value or leaves the table unchanged |
| NirData.ApplyThrows | src/app/api/getData/route.ts:48-50 | a record whose date is out of range fails the whole load |
| NirData.LoadNirTable | src/app/api/getData/route.ts:44-53 | the loop of `set` calls builds exactly the table the records define |
| NirData.ApplyFails | src/app/api/getData/route.ts:44-53 | applying effects fails iff one of them throws, and the failure is the invalid-time error |
| NirData.NirTableFails | src/app/api/getData/route.ts:44-53 | the load fails iff an accepted record's date is out of range |
| NirData.ApplyLastWrite | src/app/api/getData/route.ts:50 | a key is present iff some effect puts it, with the value of the last such effect |
| NirData.LastWriteWins | src/app/api/getData/route.ts:44-53 | a key is in the table iff an accepted record puts it (no other key appears), holding the last such record's value |
| Workbook.CellAt | src/app/api/getData/route.ts:139 | `row[i]` is the cell in range and undefined outside it, including index -1 |
| Workbook.OrNull | src/app/api/getData/route.ts:155 | `x \|\| null` is null exactly for 0 and undefined, else x |
| Workbook.OrZero | src/app/api/getData/route.ts:151 | `x \|\| 0` passes a number and maps undefined to 0 |
| Workbook.IndexOf | src/app/api/getData/route.ts:122-125 | -1 iff the name is absent, else the first position holding it |
| Workbook.ColumnsOf | src/app/api/getData/route.ts:122-125 | the four column positions are the `indexOf` of their names |
| Workbook.QuarterOf | src/app/api/getData/route.ts:146 | `ceil(month / 3)` is in 1..4 and brackets the month |
| Workbook.QuarterLabelShape | src/app/api/getData/route.ts:146 | the label is 'Q', a digit 1..4 equal to the quarter, a space and the year |
| Workbook.ProjectionStartIsMidnight | src/app/api/getData/route.ts:8 | the cut-off is UTC midnight of 2025-01-01 |
| Workbook.BeforeProjectionStart | src/app/api/getData/route.ts:147 | an instant is before the cut-off exactly when its UTC date is before 2025-01-01 |
| Workbook.NirLookup | src/app/api/getData/route.ts:149 | `get(key) \|\| null`: a value exactly for a present key with a non-zero value, and then that value |
| Workbook.PresentAppend | src/app/api/getData/route.ts:173 | dropping nulls distributes over concatenation, so survivors keep their order |
| Workbook.PresentMembers | src/app/api/getData/route.ts:173 | a value survives exactly when it was present |
| TaylorRule.TaylorOCR | src/app/api/getData/route.ts:80-88 | null iff the output gap or the NIR is null; otherwise NIR + 0.5 (inflation - target) + 0.5 gap |
| TaylorRule.ServerInertialOCR | src/app/api/getData/route.ts:90-103 | null before anything else when gap or NIR is null; the actual rate (or null) on the first row; NaN after an undefined cell; otherwise 0.85 prev + 0.15 Taylor |
| TaylorRule.ClientInertialOCR | src/app/page.tsx:87-115 | null when gap or NIR is null; the actual rate when there is no previous rate; otherwise 0.85 prev + 0.15 Taylor |
| TaylorRule.InertialNullIffTaylorNull | src/app/api/getData/route.ts:98 | with a previous rate, the inertial rate is null exactly when the Taylor rate is, on both sides |
| TaylorRule.InertialBetween | src/app/page.tsx:108-114 | the smoothed rate lies between the previous rate and the Taylor rate |
| TaylorRule.TaylorAtEquilibrium | src/app/api/getData/route.ts:87 | with inflation on target and no output gap the rule returns the NIR |
| TaylorRule.TaylorResponse | src/app/api/getData/route.ts:87 | the rule moves by 0.5 per point of inflation and 0.5 per point of output gap |
| DataFeed.RawPrev | src/app/api/getData/route.ts:158 | after any kept row, `prevOCR` is no longer the initial null |
| DataFeed.BuildRecord | src/app/api/getData/route.ts:142-172 | a kept row builds a record iff its instant is in the time range, else the invalid-time error |
| DataFeed.RecordMeaning | src/app/api/getData/route.ts:142-172 | the record's instant, projection flag, regime (exactly one), quarter label, NIR presence, its cells through `\|\| null` (zero or absent gives null), and when its rates are null |
| DataFeed.RecordRates | src/app/api/getData/route.ts:151-156 | the record's rates are the two rules on `papc \|\| 0`, the gap, the NIR, the regime midpoint and `prevOCR` |
| DataFeed.BuildRecordWellFormed | src/app/api/getData/route.ts:160-172 | every record is inside the time range, carries the quarter label of its own UTC date, and is flagged a projection exactly from the cut-off |
| DataFeed.HeaderRejected | src/app/api/getData/route.ts:127 | unless `urate` sits in column 2, the check rejects exactly a missing `outputgap` or `papc` |
| DataFeed.CheckHeader | src/app/api/getData/route.ts:120-129 | the header step fails iff row 7 is missing or the typo'd check rejects it, else yields the column positions |
| DataFeed.HeaderRejection | src/app/api/getData/route.ts:122-129 | the request is refused for its header iff `outputgap` or `papc` is missing or `urate` is in column 2; a missing `ocr` never is |
| DataFeed.HeaderTypoExamples | src/app/api/getData/route.ts:127 | a sheet without `urate` passes, one with `urate` in column 2 fails, one without `ocr` passes |
| DataFeed.Enrich | src/app/api/getData/route.ts:138-173 | a pass's output has one entry per row; it fails only with the invalid-time error |
| DataFeed.EnrichRows | src/app/api/getData/route.ts:135-173 | the loop carrying `prevOCR` from null computes exactly the pass `Enrich` defines |
| DataFeed.EnrichKept | src/app/api/getData/route.ts:139-158 | a kept row that builds contributes its record, and the rest of the pass sees its raw `ocr` |
| DataFeed.EnrichSkipped | src/app/api/getData/route.ts:140 | an empty row contributes null and leaves `prevOCR` alone |
| DataFeed.EnrichThrows | src/app/api/getData/route.ts:149 | a kept row out of the time range fails the whole pass |
| DataFeed.EnrichHead | src/app/api/getData/route.ts:138-173 | a successful pass splits into its first row's outcome and the pass over the rest |
| DataFeed.PrevAtShift | src/app/api/getData/route.ts:158 | the previous rate at row i + 1 is that at row i of the pass started after row 0 |
| DataFeed.EnrichPointwise | src/app/api/getData/route.ts:138-172 | entry i is null iff row i is empty, else row i's record built from the previous rate row i sees |
| DataFeed.PrevAtMeaning | src/app/api/getData/route.ts:135-158 | the previous rate is null iff no earlier row was kept, else the raw `ocr` cell of the last kept row |
| DataFeed.EnrichFails | src/app/api/getData/route.ts:149 | the pass fails iff some kept row's instant is outside the time range |
| DataFeed.EnrichWellFormed | src/app/api/getData/route.ts:138-173 | every record of a successful pass is well formed |
| DataFeed.Historical | src/app/api/getData/route.ts:176 | the projection filter never lengthens the series |
| DataFeed.HistoricalAppend | src/app/api/getData/route.ts:176 | the projection filter distributes over concatenation (order kept) |
| DataFeed.HistoricalMembers | src/app/api/getData/route.ts:176 | a record survives iff it was there and is not a projection |
| DataFeed.GetData | src/app/api/getData/route.ts:105-183 | a missing sheet fails with its own error; a success needs the sheet and the CSV and returns at most one record per sheet row |
| DataFeed.Get | src/app/api/getData/route.ts:105-183 | the handler, step by step, returns exactly what `GetData` defines |
| DataFeed.GetDataHistorical | src/app/api/getData/route.ts:173-178 | every returned record is well formed, not a projection, dated before 2025-01-01, with quarter 1..4 |
| DataFeed.SerialRow | src/app/api/getData/route.ts:142 | a row whose serial is that of a date is dated at that date's midnight |
| DataFeed.ExampleKeys | src/app/api/getData/route.ts:149 | 2000-01-01 and 2000-04-01 key as "2000-01-01" and "2000-04-01" |
| DataFeed.ExampleRegime | src/app/api/getData/route.ts:20-21 | both example dates fall in the "0-3%" regime |
| DataFeed.ExampleDatesHold | src/app/api/getData/route.ts:142-149 | serials 36526 and 36617 are 2000-01-01 and 2000-04-01, in regime 0-3% and keyed in the example table |
| DataFeed.ExampleRecord | src/app/api/getData/route.ts:151-156 | an example row's record carries the Taylor rate and the fallback or smoothed inertial rate |
| DataFeed.ExampleFirstRecord | src/app/api/getData/route.ts:155-156 | the first example row gives Taylor 5.75 and inertial 5.0 (its actual rate) |
| DataFeed.ExampleSecondRecord | src/app/api/getData/route.ts:155-156 | the second example row, after 5.0, gives Taylor 5.25 and inertial 5.0375 |
| DataFeed.EnrichTwo | src/app/api/getData/route.ts:138-158 | a pass over two kept rows gives both records, the second built from the first's `ocr` |
| DataFeed.WorkedExample | src/app/api/getData/route.ts:138-173 | the two-quarter example yields Taylor 5.75 / 5.25 and inertial 5.0 / 5.0375 |
| ProjectionsFeed.Extract | src/app/api/getProjections/route.ts:120-146 | a kept row yields an observation iff its instant is in the time range |
| ProjectionsFeed.ExtractLookup | src/app/api/getProjections/route.ts:130-146 | exact-key NIR lookup (null for a missing key or a stored 0) and a quarter label with quarter 1..4 |
| ProjectionsFeed.ExtractProjectionFlag | src/app/api/getProjections/route.ts:131 | an observation is a projection exactly when its instant is at or after the cut-off |
| ProjectionsFeed.ExtractAll | src/app/api/getProjections/route.ts:110-147 | one entry per row |
| ProjectionsFeed.ExtractAllPointwise | src/app/api/getProjections/route.ts:110-147 | entry i is null iff row i is empty, else row i's observation |
| ProjectionsFeed.ExtractAllErrors | src/app/api/getProjections/route.ts:134 | extraction fails only with the invalid-time error |
| ProjectionsFeed.Historical | src/app/api/getProjections/route.ts:150 | the projection filter never lengthens the series |
| ProjectionsFeed.HistoricalMembers | src/app/api/getProjections/route.ts:150 | an observation survives iff it was there and is not a projection |
| ProjectionsFeed.HistoricalAppend | src/app/api/getProjections/route.ts:150 | the projection filter keeps order |
| ProjectionsFeed.HeaderRejected | src/app/api/getProjections/route.ts:100 | the projections check is the data feed's check with `urate` counted as absent |
| ProjectionsFeed.GetProjections | src/app/api/getProjections/route.ts:79-157 | a missing sheet fails with its own error; a success needs the sheet and the CSV and returns at most one observation per sheet row |
| ProjectionsFeed.HeaderRejection | src/app/api/getProjections/route.ts:94-102 | the request is refused for its header iff `outputgap` or `papc` is missing |
| ProjectionsFeed.GetProjectionsHistorical | src/app/api/getProjections/route.ts:147-152 | every returned observation is not a projection and is dated before 2025-01-01 |
| ProjectionsFeed.StripAll | src/app/api/getProjections/route.ts:136-146 | dropping the rate fields is done entry by entry |
| ProjectionsFeed.StripAppend | src/app/api/getProjections/route.ts:136-146 | dropping the rate fields distributes over concatenation |
| ProjectionsFeed.ExtractAgrees | src/app/api/getProjections/route.ts:120-146 | a row's observation is the data feed's record for that row without its rates |
| ProjectionsFeed.PipelinesAgree | src/app/api/getProjections/route.ts:110-150 | both passes fail together, and the filtered observations are the filtered records without rates |
| ProjectionsFeed.EndpointsAgree | src/app/api/getProjections/route.ts:79-157 | whenever the data feed succeeds, the projections feed returns its records without the rate fields |
| Client.JsonNumber | src/app/api/getData/route.ts:178 | a serialised number is present exactly when it was finite, with its value |
| Client.FromServer | src/app/page.tsx:172-175 | the fetched entry has the record's quarter, `ocr` and Taylor rate, and an inertial rate exactly when the server's was a finite number |
| Client.WithRates | src/app/page.tsx:185-219 | only the two rates change; the Taylor rate is null iff gap or NIR is null, and then so is the inertial rate |
| Client.ClientRates | src/app/page.tsx:185-220 | the fold keeps the length of the feed |
| Client.ComputeRates | src/app/page.tsx:183-220 | the loop carrying `prevOCR` from null computes exactly the fold |
| Client.ClientRatesPointwise | src/app/page.tsx:183-220 | entry i gets its rates from its own fields and entry i-1's `ocr`; every other field is unchanged |
| Client.FallbackRecurs | src/app/page.tsx:213 | after an entry whose `ocr` is null the fallback rule applies again |
| Client.SmoothedAfterPresentRate | src/app/page.tsx:188-213 | after an entry with an `ocr` the rate is 0.85 of it plus 0.15 of the Taylor rate on `papc \|\| 0` and the midpoint |
| Client.TaylorAgreesWithServer | src/app/page.tsx:195-200 | the page's Taylor rate equals the server's for every record |
| Client.InertialAgreesWithServer | src/app/page.tsx:203-210 | the page's inertial rate equals the serialised server rate when the previous rate is null or a non-zero number |
| Client.ZeroPreviousDiverges | src/app/page.tsx:98 | after a zero `ocr` the server gives 0.15 Taylor while the page falls back to the actual rate |
| Client.FirstMatch | src/app/page.tsx:162 | the leftmost position where `/(Q[1-4]) (\d{4})/` matches, or none |
| Client.QuarterToNumeric | src/app/page.tsx:161-169 | a string without a match maps to 0 |
| Client.QuarterLabelNumeric | src/app/page.tsx:161-169 | `Q<n> <yyyy>` maps to yyyy + n/10 |
| Client.QuarterNumericOrder | src/app/page.tsx:161-169 | on labels the encoding is strictly increasing in (year, quarter), and equal exactly for equal quarters |
| Client.NoLabelIsZero | src/app/page.tsx:168 | a string without a label maps to 0, below every four-digit-year label |
| Client.RangeFilter | src/app/page.tsx:236-245 | the filtered series is no longer than the data, every survivor is from the data with its quarter between the start and end labels, and a start after the end leaves nothing |
| Client.RangeSound | src/app/page.tsx:241-245 | every survivor of the filter was in the data and in range |
| Client.InRange | src/app/page.tsx:241-245 | the range filter never lengthens the series |
| Client.RangeMembers | src/app/page.tsx:241-245 | an entry survives iff it was there and its encoded quarter lies in [start, end] |
| Client.RangeAppend | src/app/page.tsx:241-245 | the range filter distributes over concatenation, so it keeps order |
| Client.RangeEmpty | src/app/page.tsx:241-245 | start above end gives the empty series |
| Client.RangeKeepsAll | src/app/page.tsx:241-245 | when every entry is in range, nothing is dropped |
| Client.InitialRangeKeepsAll | src/app/page.tsx:228-245 | with the initial range (first to last quarter) a quarter-sorted feed is shown whole |
| Client.OrZeroNullish | src/app/page.tsx:120 | `x ?? 0` maps null to 0 and passes numbers |
| Client.GraphData | src/app/page.tsx:117-122 | labels and the three series have the input's length; entry i's quarter, and its ocr and rates with null as 0 |
| Client.GraphAppend | src/app/page.tsx:117-122 | the series of a concatenation are the concatenated series |

## Left out

- File and stream I/O (`fs.readFileSync`, `fs.createReadStream`, `XLSX.read`, `sheet_to_json`, `csv-parse` and its Promise) is foreign and asynchronous. The sheet and the CSV records are parameters: a header row and a row matrix, and `(Date, NIR)` field pairs or the error with which csv-parse rejected the CSV text (`Outcomes.CsvParseError`).
- A missing or unreadable `NIR.csv` is not modelled. `pipe` does not forward the file stream's `error` event to the parser, so in the source the Promise of `parseNIRData` never settles and the request gets no response.
- A failure of `fs.readFileSync` or `XLSX.read` on the workbook (`getData/route.ts:109-110`) is not modelled. In the source it reaches the `catch` and answers 500 with its message; in the model the sheet is a parameter, so `GetData` and `GetProjections` cannot express it.
- `NextResponse.json`, the `try`/`catch` and `console.log` are plumbing. A failure is a `Result` error with its message (`Outcomes.Message`). The `success` flag and the HTTP status are not modelled.
- An exception thrown inside the CSV `data` handler (`toISOString` on a date out of range) is simplified. In the source nothing in `getData/route.ts:44-61` passes it to `reject`: it propagates out of the parser's event emission instead of reaching `parser.on("error")`, and what the request then receives depends on csv-parse and Node stream internals. The model deliberately treats it as the load failing with `Err(InvalidTimeValue)`.
- Floating point is not modelled: rates are exact reals, with no IEEE rounding in the formulas or in `year + n/10`. Serials are reals converted exactly, with `Math.round` as `floor(x + 0.5)`.
- `getMonth` and `getFullYear` are local-time methods. The model takes the server to run in UTC.
- `Number(...)` and `parseFloat` are modelled for decimal literals with sign, fraction and exponent, plus white-space trimming. `Infinity` and hexadecimal, octal and binary literals are not modelled and read as NaN. So an `NIR` field of `Infinity`, which `parseFloat` reads as Infinity and the handler inserts, is skipped by the model.
- Data cells are numbers or undefined. String and boolean cells in data rows are not modelled. Header cells are strings or absent.
- The `date` field of a record is its time value. Its JSON form is not modelled.
- The page's `setData`/`setFilteredData` state, the hooks, `fetchData` and all rendering (React, MUI, Chart.js) are not part of this model.
- `src/app/results/page.tsx`, `src/app/table.tsx`, the navigation bars, layout, footer, sitemap, `config.ts` and the static pages are not part of this model.
- The local `taylorOCR` computed inside the page's `calculateInertialTaylorOCR` (line 101) is unused, so it is not modelled.
- The page's reset to null (lines 175-179) is subsumed by the fold overwriting both fields.
- NirData.ParseDateRoundTrip: covers years 100..275759, for both the zero-padded `DD/MM/YYYY` and the unpadded `D/M/YYYY` text (`NirData.ParseDateOfTokens` covers any digit fields). Earlier years go through `Date.UTC`'s two-digit-year rule, which `NirData.ParseDateTwoDigitYear` covers for 1..99. For year 0, `parseDate` returns null because the year token is falsy.
- Client.QuarterLabelNumeric: covers four-digit years. A longer year is matched by its first four digits only, which the model's `QuarterToNumeric` reproduces but no lemma states.
- Client.InertialAgreesWithServer: holds only when the previous `ocr` is null or a non-zero number. For a zero or missing previous `ocr` the two sides differ, as `Client.ZeroPreviousDiverges` shows.
