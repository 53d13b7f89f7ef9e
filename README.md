# NP lab dashboard statistics, modelled in Dafny

The backend of the NP lab dashboard answers statistics questions about the `asset_summary` table
of the tracker database. Each row is one asset: an NP number, a biopsy type, a start and an end
timestamp (the end is null while the asset is pending), request flags, a request code, and the
turnaround time (TAT) in days. The services build HQL criteria strings. The data access object
counts, groups, lists or takes the maximum over the rows those strings select.

This project models that core:

- The table is a sequence of rows, and a criteria string is the predicate it denotes.
- Every query is a function over the table: `Rows.Count`, `Rows.Filter`, `Rows.Sort`,
  `Rows.Groups` and `Rows.MaxOf`, with their laws.
- The value objects become classes with the fields the source updates in place:
  - `AssetSummary`, `PendingAsset` and `RequestCount`
  - `CasesCount`
  - `ReportStats`, whose stored window outlives each call
  - `SampleStatsService`
- Loops in the source are `for` and `while` loops over sequences, with invariants:
  - the request label decoder and the date reverser
  - every breakout and the daily counts
  - the projection of pending rows
- Time is Joda's `DateTime` in UTC.
  - An instant is an integer number of milliseconds since 1970-01-01T00:00.
  - A day is an integer number of days since that date.
  - Rendering starts by converting a day number to a proleptic Gregorian date.
  - The clock that `new DateTime()` reads is a parameter, `now`.
- An HQL date literal 'yyyy-MM-dd' compared with a timestamp denotes midnight of that day.
  The model takes the literal's day number directly; a day and a date string in a four-digit year
  correspond one to one (`Calendar.DateTextInjective`, `Calendar.IsoParts`).

Modules, one per source file:

| module | file |
|---|---|
| `StringToDate` | `utility/StringToDate.java` |
| `RequestCodes` | `db/RequestCount.java` |
| `AssetSummaries` | `db/AssetSummary.java` |
| `PendingAssets` | `db/PendingAsset.java` |
| `AssetSummaryDao` | `dao/AssetSummaryDao.java` |
| `PendingStats` | `dashboard/service/PendingAssetStats.java` |
| `CasesCounts` | `dashboard/service/CasesCount.java` |
| `Reports` | `dashboard/service/ReportStats.java` |
| `SampleStats` | `dashboard/service/SampleStatsService.java` and `DataSummary.java` |

Supporting modules:

- `Wrappers`: `Option`.
- `Text`: substring tests, split and join, zero-padded numbers.
- `Calendar`: days, instants and their rendering.
- `Rows`: the query semantics, generic in the row type.

Where the code does something other than what it evidently intends, the model follows the code:

- **A decoder crash on long codes.** A request code with a '1' beyond the ninth position makes
  the `RequestCount` constructor throw, rather than being ignored. The constructor requires
  `WellFormed`, and `FindCountByRequestType` returns none for such a code.
- **Closed ends on the pending breakout and daily counts.** The plain pending breakout and the
  daily case counts use `<=` at both ends (`BETWEEN` for the daily counts). So they are not
  half-open.
  - Two adjacent daily windows both count a case started exactly at their shared midnight.
  - Two adjacent closed breakout windows do too.
- **The year-to-date count is fixed.** It always counts from 2020-01-01 to 2020-02-28, because
  the code builds its date from the literal "2020-02-28" rather than from the clock.
- **The three-argument breakout always counts external cases.** `type == "internal"` is a
  reference comparison. A type passed in from a request is never that literal, so every entry
  counts the external cases.

## Model

| member | source | states |
|---|---|---|
| StringToDate.JavaSplit | backend/src/main/java/com/nplab/extension/utility/StringToDate.java:29 | `date.split("-")`: the whole string when it has no dash, else the split with trailing empty fields dropped (definition). |
| StringToDate.ReversedFields | backend/src/main/java/com/nplab/extension/utility/StringToDate.java:29-34 | `preProcessDate` as a value: the fields in reverse order joined by "-", none when the split has no field (definition). |
| StringToDate.DropTrailingEmpty | backend/src/main/java/com/nplab/extension/utility/StringToDate.java:29 | `String.split` drops trailing empty fields. The result is a prefix of the raw fields, it does not end in an empty field, and every dropped field is empty. |
| StringToDate.PreProcessDate | backend/src/main/java/com/nplab/extension/utility/StringToDate.java:28-35 | The loop prepends each field, last to first, with a "-", then cuts the final "-". The result is the date's dash-separated fields in reverse order. It is none when the split leaves no field, where `substring(0, -1)` throws. |
| StringToDate.SplitFieldsLackSeparator | backend/src/main/java/com/nplab/extension/utility/StringToDate.java:29 | No field of a split contains the separator. |
| StringToDate.SplitAllEmpty | backend/src/main/java/com/nplab/extension/utility/StringToDate.java:29 | Every raw field is empty exactly when the string consists of separators only. |
| StringToDate.FailsOnlyOnDashes | backend/src/main/java/com/nplab/extension/utility/StringToDate.java:28-35 | `preProcessDate` fails exactly on a non-empty string of dashes. |
| StringToDate.ReversedFieldsPlain | backend/src/main/java/com/nplab/extension/utility/StringToDate.java:28-35 | With no empty field, the result is the reversed fields joined by "-". |
| StringToDate.Involution | backend/src/main/java/com/nplab/extension/utility/StringToDate.java:28-35 | With no empty field, reversing succeeds and keeps that property. Reversing twice gives back the input. |
| StringToDate.LengthPreserved | backend/src/main/java/com/nplab/extension/utility/StringToDate.java:28-35 | With no empty field, the result is as long as the input. |
| StringToDate.ThreeFields | backend/src/main/java/com/nplab/extension/utility/StringToDate.java:28-35 | `a-b-c` becomes `c-b-a` for dash-free non-empty fields: "yyyy-MM-dd" to "dd-MM-yyyy". |
| StringToDate.Example | backend/src/main/java/com/nplab/extension/utility/StringToDate.java:28-35 | "2020-02-28" becomes "28-02-2020". |
| StringToDate.DashesSplitToNothing | backend/src/main/java/com/nplab/extension/utility/StringToDate.java:29-34 | "---" splits to no field at all, and the call fails. |
| Text.Split | backend/src/main/java/com/nplab/extension/utility/StringToDate.java:29 | A split before trailing fields are dropped has at least one field. |
| Text.JoinSplit | backend/src/main/java/com/nplab/extension/utility/StringToDate.java:29 | Joining the fields of a split with the separator gives back the string. |
| Text.SplitJoin | backend/src/main/java/com/nplab/extension/utility/StringToDate.java:29 | Splitting separator-free fields joined by the separator gives back the fields. |
| Text.TerminatedSnoc | backend/src/main/java/com/nplab/extension/utility/StringToDate.java:31-33 | Each loop step appends one field and the separator. |
| Text.TerminatedTrim | backend/src/main/java/com/nplab/extension/utility/StringToDate.java:34 | Cutting the last separator of the accumulated text gives the fields joined by it. |
| Text.ReverseReverse | backend/src/main/java/com/nplab/extension/utility/StringToDate.java:31-33 | Visiting the fields last to first, twice, restores their order. |
| Text.ContainsPair | backend/src/main/java/com/nplab/extension/dashboard/service/PendingAssetStats.java:23-33 | A two-character `LIKE '%ab%'` pattern matches exactly when some adjacent pair of the NP number spells `ab`. |
| Text.ValuePad | backend/src/main/java/com/nplab/extension/db/PendingAsset.java:28-29 | A zero-padded field of the rendered date reads back as its number. |
| Text.PadInjective | backend/src/main/java/com/nplab/extension/db/PendingAsset.java:28-29 | Different numbers render as different zero-padded fields. |
| Text.PadWidth | backend/src/main/java/com/nplab/extension/db/PendingAsset.java:28-29 | A number below 10^w renders in exactly w digits. |
| Calendar.MidnightBounds | backend/src/main/java/com/nplab/extension/dao/AssetSummaryDao.java:129-136 | An instant lies between the midnight that opens its day and the next midnight. |
| Calendar.MidnightCompare | backend/src/main/java/com/nplab/extension/dao/AssetSummaryDao.java:129-136 | An instant is at or after a date literal's midnight iff its day is at least that day. It is before it iff its day is earlier. |
| Calendar.MinusDaysDay | backend/src/main/java/com/nplab/extension/db/PendingAsset.java:31 | `minusDays(n)` moves the day back by exactly n and keeps the hour and minute. |
| Calendar.MidnightMonotone | backend/src/main/java/com/nplab/extension/dashboard/service/CasesCount.java:24-31 | Midnights are ordered as their days are, both strictly and not. |
| Calendar.HourOf | backend/src/main/java/com/nplab/extension/db/PendingAsset.java:29 | The hour of an instant is below 24. |
| Calendar.MinuteOf | backend/src/main/java/com/nplab/extension/db/PendingAsset.java:29 | The minute of an instant is below 60. |
| Calendar.SecondOf | backend/src/main/java/com/nplab/extension/db/PendingAsset.java:28 | The second of an instant is below 60. |
| Calendar.MilliOf | backend/src/main/java/com/nplab/extension/db/PendingAsset.java:28 | The millisecond of an instant is below 1000. |
| Calendar.CivilFromDays | backend/src/main/java/com/nplab/extension/db/PendingAsset.java:28 | Each day number maps to a month in 1..12 and a day in 1..31. Days from 0000-03-01 on have a non-negative year. |
| Calendar.CivilRoundTrip | backend/src/main/java/com/nplab/extension/dashboard/service/CasesCount.java:56-63 | Converting a day to its date and the date back to days gives back the day. |
| Calendar.DayOfMonthOffset | backend/src/main/java/com/nplab/extension/dashboard/service/CasesCount.java:56-63 | A date falls `day - 1` days after the first of its month. |
| Calendar.CivilInjective | backend/src/main/java/com/nplab/extension/db/PendingAsset.java:28-37 | Different days have different dates. |
| Calendar.EpochSample | backend/src/main/java/com/nplab/extension/db/PendingAsset.java:28 | Day 0 is 1970-01-01. |
| Calendar.LeapDaySample | backend/src/main/java/com/nplab/extension/dashboard/service/CasesCount.java:70-76 | Day 18321 is 2020-02-29, so 2020 is a leap year. |
| Calendar.AfterLeapDaySample | backend/src/main/java/com/nplab/extension/dashboard/service/CasesCount.java:56-63 | Day 18322 is 2020-03-01. |
| Calendar.PadHasNoDash | backend/src/main/java/com/nplab/extension/utility/StringToDate.java:29 | A zero-padded date field contains no dash and is not empty. |
| Calendar.DateFieldsPlain | backend/src/main/java/com/nplab/extension/utility/StringToDate.java:29 | From year 0 on, the three date fields are non-empty and dash-free. |
| Calendar.DateTextInjective | backend/src/main/java/com/nplab/extension/db/PendingAsset.java:33-37 | From year 0 on, two days render as the same "yyyy-MM-dd" text only when they are the same day. |
| Calendar.IsoText | backend/src/main/java/com/nplab/extension/db/PendingAsset.java:28-31 | `toString()` is at least 16 characters long, so both substrings exist. |
| Calendar.DateTextMinLength | backend/src/main/java/com/nplab/extension/db/PendingAsset.java:28 | The date text has at least 10 characters and starts with the year text. |
| Calendar.DateTextLength | backend/src/main/java/com/nplab/extension/db/PendingAsset.java:28 | In a four-digit year the date text has exactly 10 characters. |
| Calendar.TimeTextLength | backend/src/main/java/com/nplab/extension/db/PendingAsset.java:29 | "HH:mm" has exactly 5 characters. |
| Calendar.IsoParts | backend/src/main/java/com/nplab/extension/db/PendingAsset.java:28-31 | In a four-digit year, `substring(0, 10)` is the day's "yyyy-MM-dd" and `substring(11, 16)` is "HH:mm". |
| Calendar.Slices | backend/src/main/java/com/nplab/extension/db/PendingAsset.java:28-29 | The two substrings pick the date and the time out of the rendering. |
| Calendar.DatePartDigit | backend/src/main/java/com/nplab/extension/db/PendingAsset.java:28 | The second character of `toString().substring(0, 10)` is always a digit. |
| RequestCodes.WellFormed | backend/src/main/java/com/nplab/extension/db/RequestCount.java:24-26 | A code is decodable when every '1' stands at one of the nine known positions; past them `requestTypes.get(i)` throws (definition). |
| RequestCodes.Label | backend/src/main/java/com/nplab/extension/db/RequestCount.java:19-30 | The label the constructor stores: the names at the '1' positions joined by " + ", or "No instruction" (definition). |
| RequestCodes.PositionsLabel | backend/src/main/java/com/nplab/extension/db/RequestCount.java:19-30 | The independent reference label: the names of a set of positions in list order (definition). |
| RequestCodes.NamesBelowIgnoresHigh | backend/src/main/java/com/nplab/extension/db/RequestCount.java:19-20 | Positions beyond those that are marked add no name. |
| RequestCodes.SetNamesByPositions | backend/src/main/java/com/nplab/extension/db/RequestCount.java:24-28 | The names the loop collects are the request types at the marked positions, in order. |
| RequestCodes.OnlyOnesMatter | backend/src/main/java/com/nplab/extension/db/RequestCount.java:24-30 | The label depends only on the set of '1' positions, and equals the label of that set. |
| RequestCodes.SameOnesSameLabel | backend/src/main/java/com/nplab/extension/db/RequestCount.java:24-30 | Codes with the same '1' positions get the same label, whatever their other characters or length. |
| RequestCodes.SetNamesEmpty | backend/src/main/java/com/nplab/extension/db/RequestCount.java:24-28 | No name is collected iff no position holds '1'. |
| RequestCodes.SetNamesHead | backend/src/main/java/com/nplab/extension/db/RequestCount.java:19-27 | The first collected name is one of the nine request types. |
| RequestCodes.NoInstructionIff | backend/src/main/java/com/nplab/extension/db/RequestCount.java:30 | The label is "No instruction" iff no position of the code holds '1'. |
| RequestCodes.JoinHead | backend/src/main/java/com/nplab/extension/db/RequestCount.java:26-30 | A non-empty join starts with its first field's first character, so a set label is never empty. |
| RequestCodes.Example | backend/src/main/java/com/nplab/extension/db/RequestCount.java:18-32 | "101000000" decodes to "Special stain + Process all". |
| RequestCodes.ZeroExample | backend/src/main/java/com/nplab/extension/db/RequestCount.java:18-32 | "000000000" decodes to "No instruction". |
| RequestCodes.TenthPositionRejected | backend/src/main/java/com/nplab/extension/db/RequestCount.java:24-26 | A '1' in the tenth position is beyond the request types, where `get(i)` throws. |
| RequestCodes.RequestCount.constructor | backend/src/main/java/com/nplab/extension/db/RequestCount.java:18-32 | The stored request type is the decoded label of the code, and the count is kept. |
| RequestCodes.RequestCount.SetRequestType | backend/src/main/java/com/nplab/extension/db/RequestCount.java:46-48 | Sets the request type and leaves the count. |
| RequestCodes.RequestCount.SetCount | backend/src/main/java/com/nplab/extension/db/RequestCount.java:50-52 | Sets the count and leaves the request type. |
| AssetSummaries.DaysBetween | backend/src/main/java/com/nplab/extension/db/AssetSummary.java:88 | `Days.daysBetween(start, end).getDays()`: whole days elapsed, truncated toward zero (definition). |
| AssetSummaries.DaysBetweenBounds | backend/src/main/java/com/nplab/extension/db/AssetSummary.java:88 | `Days.daysBetween` counts whole days. Forward, it never exceeds the elapsed time and is within one day of it. Backward, it is the mirror image. |
| AssetSummaries.DaysBetweenAntisymmetric | backend/src/main/java/com/nplab/extension/db/AssetSummary.java:88 | Swapping start and end negates the TAT. |
| AssetSummaries.DaysBetweenWholeDays | backend/src/main/java/com/nplab/extension/db/AssetSummary.java:88 | An end exactly n days after the start gives a TAT of n. |
| AssetSummaries.AssetSummary.constructor | backend/src/main/java/com/nplab/extension/db/AssetSummary.java:72-90 | The row holds every argument. The TAT is the whole days from start to end, and the request code is the request type argument. |
| AssetSummaries.AssetSummary.Empty | backend/src/main/java/com/nplab/extension/db/AssetSummary.java:92-94 | A new row has no end time or TAT and every flag false. |
| AssetSummaries.AssetSummary.GetTat | backend/src/main/java/com/nplab/extension/db/AssetSummary.java:152-154 | Returns the stored TAT. |
| AssetSummaries.AssetSummary.SetRequestType | backend/src/main/java/com/nplab/extension/db/AssetSummary.java:156-158 | Only the request code changes. |
| AssetSummaries.AssetSummary.SetNpNumber | backend/src/main/java/com/nplab/extension/db/AssetSummary.java:160-162 | Only the NP number changes. |
| AssetSummaries.AssetSummary.SetBiopsyType | backend/src/main/java/com/nplab/extension/db/AssetSummary.java:164-166 | Only the biopsy type changes. |
| AssetSummaries.AssetSummary.SetStartTime | backend/src/main/java/com/nplab/extension/db/AssetSummary.java:168-170 | Only the start time changes. |
| AssetSummaries.AssetSummary.SetEndTime | backend/src/main/java/com/nplab/extension/db/AssetSummary.java:172-174 | Only the end time changes. |
| AssetSummaries.AssetSummary.SetSpecialStains | backend/src/main/java/com/nplab/extension/db/AssetSummary.java:176-178 | Only that flag changes. |
| AssetSummaries.AssetSummary.SetIhc | backend/src/main/java/com/nplab/extension/db/AssetSummary.java:180-182 | Only that flag changes. |
| AssetSummaries.AssetSummary.SetDecal | backend/src/main/java/com/nplab/extension/db/AssetSummary.java:184-186 | Only that flag changes. |
| AssetSummaries.AssetSummary.SetDeeper | backend/src/main/java/com/nplab/extension/db/AssetSummary.java:188-190 | Only that flag changes. |
| AssetSummaries.AssetSummary.SetProcessAll | backend/src/main/java/com/nplab/extension/db/AssetSummary.java:192-194 | Only that flag changes. |
| AssetSummaries.AssetSummary.SetKeptForFixation | backend/src/main/java/com/nplab/extension/db/AssetSummary.java:196-198 | Only that flag changes. |
| AssetSummaries.AssetSummary.SetEhc | backend/src/main/java/com/nplab/extension/db/AssetSummary.java:200-202 | Only that flag changes. |
| AssetSummaries.AssetSummary.SetSemithin | backend/src/main/java/com/nplab/extension/db/AssetSummary.java:204-206 | Only that flag changes. |
| AssetSummaries.AssetSummary.SetEm | backend/src/main/java/com/nplab/extension/db/AssetSummary.java:208-210 | Only that flag changes. |
| AssetSummaries.AssetSummary.SetTat | backend/src/main/java/com/nplab/extension/db/AssetSummary.java:212-214 | Only the TAT changes. A null TAT is stored as 0, so the TAT is always set afterwards. |
| PendingAssets.ConstructorText | backend/src/main/java/com/nplab/extension/db/PendingAsset.java:23-40 | The constructor's text: "Now", "Today, ", "Yesterday, " or the reversed date, by comparing reversed date parts (definition). |
| PendingAssets.SetterText | backend/src/main/java/com/nplab/extension/db/PendingAsset.java:68-85 | The setter's text: the same case split on the unreversed date parts (definition). |
| PendingAssets.DatePartReversible | backend/src/main/java/com/nplab/extension/db/PendingAsset.java:28-31 | Reversing the date part of any instant's rendering never fails. |
| PendingAssets.DateTextFields | backend/src/main/java/com/nplab/extension/db/PendingAsset.java:28 | The date part is the year, the padded month and the padded day, joined by dashes. |
| PendingAssets.DateTextNoEmptyField | backend/src/main/java/com/nplab/extension/db/PendingAsset.java:28 | From year 0 on, the date text has no empty field. |
| PendingAssets.ReversedDateText | backend/src/main/java/com/nplab/extension/db/PendingAsset.java:28-30 | In a four-digit year the reversed date part is "dd-MM-yyyy". |
| PendingAssets.DatePartSameDay | backend/src/main/java/com/nplab/extension/db/PendingAsset.java:78-80 | When both instants are in years 0 to 9999, their date parts are equal iff they fall on the same day. |
| PendingAssets.ReversedDateSameDay | backend/src/main/java/com/nplab/extension/db/PendingAsset.java:33-35 | When both instants are in years 0 to 9999, their reversed date parts are equal iff they fall on the same day. |
| PendingAssets.ConstructorCases | backend/src/main/java/com/nplab/extension/db/PendingAsset.java:23-40 | The constructor's text by days: "Now" for the clock instant itself, "Today, HH:mm" on the clock's day, "Yesterday, HH:mm" on the day before, otherwise "dd-MM-yyyy, HH:mm". |
| PendingAssets.SetterCases | backend/src/main/java/com/nplab/extension/db/PendingAsset.java:67-86 | The setter's text: the same cases, but a dated start reads "yyyy-MM-dd, HH:mm", because the setter compares unreversed dates. |
| PendingAssets.DatedOrdersDiffer | backend/src/main/java/com/nplab/extension/db/PendingAsset.java:38-39 | For every day, in any year, the constructor's dated form differs from the setter's. |
| PendingAssets.ConstructorAndSetterDisagreeOnlyWhenDated | backend/src/main/java/com/nplab/extension/db/PendingAsset.java:19-86 | The constructor and `setStartTime` store the same text iff the start is now, today or yesterday. |
| PendingAssets.PendingAsset.constructor | backend/src/main/java/com/nplab/extension/db/PendingAsset.java:19-41 | Keeps the NP number and biopsy type and stores the constructor's text for the start time. |
| PendingAssets.PendingAsset.SetNpNumber | backend/src/main/java/com/nplab/extension/db/PendingAsset.java:59-61 | Sets the NP number only. |
| PendingAssets.PendingAsset.SetBiopsyType | backend/src/main/java/com/nplab/extension/db/PendingAsset.java:63-65 | Sets the biopsy type only. |
| PendingAssets.PendingAsset.SetStartTime | backend/src/main/java/com/nplab/extension/db/PendingAsset.java:67-86 | Stores the setter's text for the start time and changes nothing else. |
| Rows.Count | backend/src/main/java/com/nplab/extension/dao/AssetSummaryDao.java:72-80 | `countByCriteria`: the matching count is at most the table size. |
| Rows.CountZero | backend/src/main/java/com/nplab/extension/dao/AssetSummaryDao.java:72-80 | The count is 0 exactly when no row matches. |
| Rows.CountIsCardinality | backend/src/main/java/com/nplab/extension/dao/AssetSummaryDao.java:72-80 | The count is the number of positions whose row matches. |
| Rows.CountEvery | backend/src/main/java/com/nplab/extension/dao/AssetSummaryDao.java:72-80 | If every row matches, the count is the table size. |
| Rows.CountCongruent | backend/src/main/java/com/nplab/extension/dao/AssetSummaryDao.java:72-80 | Criteria that agree on every row give the same count. |
| Rows.CountAppend | backend/src/main/java/com/nplab/extension/dao/AssetSummaryDao.java:72-80 | The count over two tables together is the sum of their counts. |
| Rows.CountSkips | backend/src/main/java/com/nplab/extension/dao/AssetSummaryDao.java:72-80 | A row the criteria reject does not change the count, wherever it stands. |
| Rows.CountMonotone | backend/src/main/java/com/nplab/extension/dao/AssetSummaryDao.java:72-80 | When every row `p` accepts is also accepted by `q`, `p` never counts more rows than `q`. |
| Rows.CountInclusionExclusion | backend/src/main/java/com/nplab/extension/dao/AssetSummaryDao.java:72-80 | The counts of two criteria add up to the count of their disjunction plus that of their conjunction. |
| Rows.CountPartition | backend/src/main/java/com/nplab/extension/dao/AssetSummaryDao.java:72-80 | Splitting criteria by a test splits the count: the two parts add up to the whole. |
| Rows.MaxOf | backend/src/main/java/com/nplab/extension/dao/AssetSummaryDao.java:36-47 | `max(column)`: none iff no matching row has a value; otherwise a value of a matching row that no other matching value exceeds. |
| Rows.MaxOfSkips | backend/src/main/java/com/nplab/extension/dao/AssetSummaryDao.java:36-47 | A row the criteria reject never moves the maximum. |
| Rows.Filter | backend/src/main/java/com/nplab/extension/dao/AssetSummaryDao.java:128-141 | The selected rows: as many as the count, each matching, each taken from the table, and including every matching row. |
| Rows.FilterCongruent | backend/src/main/java/com/nplab/extension/dao/AssetSummaryDao.java:128-141 | Criteria that agree on every row select the same rows. |
| Rows.FilterCons | backend/src/main/java/com/nplab/extension/dao/AssetSummaryDao.java:128-141 | Selection from a table with a leading row keeps that row first if it matches. |
| Rows.FilterAppend | backend/src/main/java/com/nplab/extension/dao/AssetSummaryDao.java:128-141 | Selection distributes over concatenated tables. |
| Rows.FilterFilter | backend/src/main/java/com/nplab/extension/dao/AssetSummaryDao.java:128-141 | Selecting by one criterion and then another is selecting by their conjunction. |
| Rows.FilterCount | backend/src/main/java/com/nplab/extension/dao/AssetSummaryDao.java:111-122 | Counting within a selection counts the conjunction over the whole table. |
| Rows.Insert | backend/src/main/java/com/nplab/extension/dao/AssetSummaryDao.java:136 | Insertion adds exactly the new row. |
| Rows.SortedTail | backend/src/main/java/com/nplab/extension/dao/AssetSummaryDao.java:136 | The tail of an ordered list is ordered. |
| Rows.InsertSorted | backend/src/main/java/com/nplab/extension/dao/AssetSummaryDao.java:136 | Inserting into an ordered list keeps it ordered. |
| Rows.Sort | backend/src/main/java/com/nplab/extension/dao/AssetSummaryDao.java:136 | `ORDER BY a.startTime ASC`: the result is a permutation of its input, of the same length, in non-decreasing key order. |
| Rows.InsertFront | backend/src/main/java/com/nplab/extension/dao/AssetSummaryDao.java:136 | A row whose key is at most the head's goes in front. |
| Rows.FilterHeadKey | backend/src/main/java/com/nplab/extension/dao/AssetSummaryDao.java:136 | The first selected row of an ordered list has a key at least the list head's. |
| Rows.FilterInsertFront | backend/src/main/java/com/nplab/extension/dao/AssetSummaryDao.java:136 | Selection commutes with insertion at the front. |
| Rows.FilterInsert | backend/src/main/java/com/nplab/extension/dao/AssetSummaryDao.java:136 | Selection commutes with ordered insertion. |
| Rows.FilterSort | backend/src/main/java/com/nplab/extension/dao/AssetSummaryDao.java:128-141 | Sorting then selecting equals selecting then sorting, including the order of ties. |
| Rows.Keys | backend/src/main/java/com/nplab/extension/dao/AssetSummaryDao.java:111-122 | `GROUP BY`: the group keys are distinct, each occurs in some row, and every row's key is among them. |
| Rows.Has | backend/src/main/java/com/nplab/extension/dao/AssetSummaryDao.java:111-122 | The predicate of a group: the row's key is the group's key. |
| Rows.Groups | backend/src/main/java/com/nplab/extension/dao/AssetSummaryDao.java:111-122 | Each group is its key paired with the count of rows having that key. |
| Rows.GroupTotalEmpty | backend/src/main/java/com/nplab/extension/dao/AssetSummaryDao.java:111-122 | No groups total nothing. |
| Rows.GroupTotalCons | backend/src/main/java/com/nplab/extension/dao/AssetSummaryDao.java:111-122 | Totals add group by group. |
| Rows.GroupTotalCovers | backend/src/main/java/com/nplab/extension/dao/AssetSummaryDao.java:111-122 | Distinct keys that cover every row have counts totalling the number of rows. |
| Rows.GroupsPartition | backend/src/main/java/com/nplab/extension/dao/AssetSummaryDao.java:111-122 | The groups partition the rows. Keys are distinct and occur in rows. Every row's key has a group. Every count is positive, and the counts total the number of rows. |
| Rows.GroupNonEmpty | backend/src/main/java/com/nplab/extension/dao/AssetSummaryDao.java:111-122 | A key taken from a row has a positive count. |
| AssetSummaryDao.Pending | backend/src/main/java/com/nplab/extension/dashboard/service/PendingAssetStats.java:46 | `a.endTime IS NULL` (definition). |
| AssetSummaryDao.External | backend/src/main/java/com/nplab/extension/dashboard/service/CasesCount.java:29 | `a.npNumber like 'X%'` (definition). |
| AssetSummaryDao.BiopsyLike | backend/src/main/java/com/nplab/extension/dashboard/service/ReportStats.java:46 | `a.biopsyType like '%t%'`, read with the sample type as literal text: it occurs as a substring of the biopsy type (definition; see "## Left out"). |
| AssetSummaryDao.TatBetween | backend/src/main/java/com/nplab/extension/dashboard/service/ReportStats.java:67-69 | `lo <= a.tat AND a.tat <= hi`, false on a null TAT (definition). |
| AssetSummaryDao.Overlaps | backend/src/main/java/com/nplab/extension/dao/AssetSummaryDao.java:94 | `a.endTime >= first AND a.startTime <= last` against the two midnights, false on a null end (definition). |
| AssetSummaryDao.InPendingWindow | backend/src/main/java/com/nplab/extension/dao/AssetSummaryDao.java:129-136 | Pending, started at or after midnight 90 days back and before midnight today (definition). |
| AssetSummaryDao.All | backend/src/main/java/com/nplab/extension/dashboard/service/PendingAssetStats.java:38-40 | The empty criteria select every row. |
| AssetSummaryDao.FindMax | backend/src/main/java/com/nplab/extension/dao/AssetSummaryDao.java:36-47 | `findMax`: 0 when no matching row has a value. Otherwise a matching row's value that no matching value exceeds. |
| AssetSummaryDao.InWindow | backend/src/main/java/com/nplab/extension/dao/AssetSummaryDao.java:89-98 | The window criteria: the criteria, an end at or after the first midnight, and a start at or before the last. |
| AssetSummaryDao.CountByDateAndCriteria | backend/src/main/java/com/nplab/extension/dao/AssetSummaryDao.java:89-98 | The window count never exceeds the count of the criteria alone. |
| AssetSummaryDao.PendingNeverCountedByDate | backend/src/main/java/com/nplab/extension/dao/AssetSummaryDao.java:89-98 | A pending row, with a null end time, never counts in a window, wherever it stands. |
| AssetSummaryDao.WiderWindowCountsMore | backend/src/main/java/com/nplab/extension/dao/AssetSummaryDao.java:89-98 | Widening the window never lowers the count. |
| AssetSummaryDao.InPendingWindowDays | backend/src/main/java/com/nplab/extension/dao/AssetSummaryDao.java:129-136 | A pending row is in the window iff it started within the 90 days before today, and not today. |
| AssetSummaryDao.PendingCriteria | backend/src/main/java/com/nplab/extension/dao/AssetSummaryDao.java:129-136 | The pending window and the extra criteria, together. |
| AssetSummaryDao.PendingRows | backend/src/main/java/com/nplab/extension/dao/AssetSummaryDao.java:128-141 | The listed rows: each pending and in the window, meeting the extra criteria, ordered by start, as a permutation of the matching rows and as many as their count. |
| AssetSummaryDao.ExtraCriteriaFilterResult | backend/src/main/java/com/nplab/extension/dao/AssetSummaryDao.java:128-141 | The list for extra criteria is exactly the unrestricted list with the non-matching entries removed, in the same order. |
| AssetSummaryDao.Project | backend/src/main/java/com/nplab/extension/dao/AssetSummaryDao.java:132-137 | `SELECT NEW PendingAsset(...)`: one asset per row, in order, carrying its NP number, biopsy type and the constructor's text. |
| AssetSummaryDao.FindPendingAssets | backend/src/main/java/com/nplab/extension/dao/AssetSummaryDao.java:128-141 | `findPendingAssets` is the projection of the listed rows. |
| AssetSummaryDao.RequestRows | backend/src/main/java/com/nplab/extension/dao/AssetSummaryDao.java:115-118 | The rows the grouped query reads: the window and the criteria (definition). |
| AssetSummaryDao.RequestGroups | backend/src/main/java/com/nplab/extension/dao/AssetSummaryDao.java:111-122 | `GROUP BY a.requestCode` over those rows: one (code, count) pair per distinct code (definition). |
| AssetSummaryDao.RequestGroupCounts | backend/src/main/java/com/nplab/extension/dao/AssetSummaryDao.java:111-122 | Each group's count is the number of rows in the window meeting the criteria with that request code. |
| AssetSummaryDao.PendingNeverGrouped | backend/src/main/java/com/nplab/extension/dao/AssetSummaryDao.java:111-122 | No pending row is ever grouped. |
| AssetSummaryDao.CountsOf | backend/src/main/java/com/nplab/extension/dao/AssetSummaryDao.java:113-121 | Decodes the groups into `RequestCount`s, in order, with the labels and counts. It fails iff a code cannot be decoded. |
| AssetSummaryDao.FindCountByRequestType | backend/src/main/java/com/nplab/extension/dao/AssetSummaryDao.java:111-122 | `findCountByRequestType`: one decoded `RequestCount` per request-code group, or none iff some code cannot be decoded. |
| PendingStats.EvenNumber | backend/src/main/java/com/nplab/extension/dashboard/service/PendingAssetStats.java:23-27 | The even criteria: the NP number contains one of "0/", "2/", "4/", "6/", "8/" (definition). |
| PendingStats.OddNumber | backend/src/main/java/com/nplab/extension/dashboard/service/PendingAssetStats.java:29-33 | The odd criteria: the NP number contains one of "1/", "3/", "5/", "7/", "9/" (definition). |
| PendingStats.ContainsDigitSlash | backend/src/main/java/com/nplab/extension/dashboard/service/PendingAssetStats.java:23-33 | `LIKE '%d/%'` matches iff the digit d stands just before some slash. |
| PendingStats.EvenNumberIff | backend/src/main/java/com/nplab/extension/dashboard/service/PendingAssetStats.java:23-27 | The even criteria match iff some even digit stands just before a slash. |
| PendingStats.OddNumberIff | backend/src/main/java/com/nplab/extension/dashboard/service/PendingAssetStats.java:29-33 | The odd criteria match iff some odd digit stands just before a slash. |
| PendingStats.OddExample | backend/src/main/java/com/nplab/extension/dashboard/service/PendingAssetStats.java:23-33 | "NP19/22" is odd and not even. |
| PendingStats.EvenExample | backend/src/main/java/com/nplab/extension/dashboard/service/PendingAssetStats.java:23-33 | "NP20/22" is even and not odd. |
| PendingStats.DigitBeforeOnlySlash | backend/src/main/java/com/nplab/extension/dashboard/service/PendingAssetStats.java:23-33 | In a number with a single '/', only the character before it decides a parity test. |
| PendingStats.BothExample | backend/src/main/java/com/nplab/extension/dashboard/service/PendingAssetStats.java:23-33 | "NP12/3/22" is both even and odd, so parity is not a partition. |
| PendingStats.NeitherExample | backend/src/main/java/com/nplab/extension/dashboard/service/PendingAssetStats.java:23-33 | "NP20" is neither even nor odd. |
| PendingStats.OriginCriteria | backend/src/main/java/com/nplab/extension/dashboard/service/PendingAssetStats.java:55-59 | Internal: the NP number does not start with "X". External: it does. |
| PendingStats.ParityCriteria | backend/src/main/java/com/nplab/extension/dashboard/service/PendingAssetStats.java:68-74 | The even criteria for "even", the odd criteria otherwise. |
| PendingStats.OriginAndParityCriteria | backend/src/main/java/com/nplab/extension/dashboard/service/PendingAssetStats.java:68-74 | The origin test and the parenthesised parity disjunction, both. |
| PendingStats.FindAllPendingAssets | backend/src/main/java/com/nplab/extension/dashboard/service/PendingAssetStats.java:38-40 | The unrestricted pending list, projected. |
| PendingStats.FindPendingAssetsCount | backend/src/main/java/com/nplab/extension/dashboard/service/PendingAssetStats.java:45-47 | `findPendingAssetsCount`: the number of pending rows, with no window (definition). |
| PendingStats.PendingCountCoversList | backend/src/main/java/com/nplab/extension/dashboard/service/PendingAssetStats.java:38-47 | The pending count, which is not limited to the last 90 days, is at least the length of the pending list. |
| PendingStats.FindPendingCasesByOrigin | backend/src/main/java/com/nplab/extension/dashboard/service/PendingAssetStats.java:55-59 | The pending list of the origin: internal for "internal", external for anything else. |
| PendingStats.FindPendingCasesByOriginAndParity | backend/src/main/java/com/nplab/extension/dashboard/service/PendingAssetStats.java:68-74 | The pending list of the origin and parity. |
| PendingStats.OriginsSplitPending | backend/src/main/java/com/nplab/extension/dashboard/service/PendingAssetStats.java:55-59 | The internal and external lists together are as long as the unrestricted list. |
| PendingStats.PendingStrictlyBetween | backend/src/main/java/com/nplab/extension/dashboard/service/PendingAssetStats.java:89-92 | Pending, started after midnight of `today - endDays` and at or before midnight of `today - startDays` (definition). |
| PendingStats.PendingBetween | backend/src/main/java/com/nplab/extension/dashboard/service/PendingAssetStats.java:134-137 | As the strict window, with the lower midnight included (definition). |
| PendingStats.StrictWindow | backend/src/main/java/com/nplab/extension/dashboard/service/PendingAssetStats.java:90-92 | Pending, started after midnight `endDays` days back and at or before midnight `startDays` days back, and meeting the extra criteria. |
| PendingStats.ClosedWindow | backend/src/main/java/com/nplab/extension/dashboard/service/PendingAssetStats.java:135-137 | Pending, started at or after midnight `endDays` days back and at or before midnight `startDays` days back. |
| PendingStats.StrictWindowDays | backend/src/main/java/com/nplab/extension/dashboard/service/PendingAssetStats.java:89-92 | By days: pending, started after midnight `endDays` days before today and at or before midnight `startDays` days before today. |
| PendingStats.BreakoutByTimeAndOrigin | backend/src/main/java/com/nplab/extension/dashboard/service/PendingAssetStats.java:83-96 | One entry per interval, counting the window with the given origin. |
| PendingStats.BreakoutByTimeOriginAndParity | backend/src/main/java/com/nplab/extension/dashboard/service/PendingAssetStats.java:106-121 | One entry per interval, counting the window with the origin and parity. |
| PendingStats.BreakoutByTime | backend/src/main/java/com/nplab/extension/dashboard/service/PendingAssetStats.java:129-141 | One entry per interval, counting the closed window. |
| PendingStats.StrictWindowEmpty | backend/src/main/java/com/nplab/extension/dashboard/service/PendingAssetStats.java:89-92 | An interval with `endDays <= startDays` counts nothing. |
| PendingStats.AdjacentStrictWindows | backend/src/main/java/com/nplab/extension/dashboard/service/PendingAssetStats.java:89-92 | Adjacent strict intervals add up to the combined interval. |
| PendingStats.AdjacentClosedWindows | backend/src/main/java/com/nplab/extension/dashboard/service/PendingAssetStats.java:134-137 | Adjacent closed intervals overcount the combined one by exactly the pending rows that start at their shared midnight. |
| CasesCounts.StartedBetween | backend/src/main/java/com/nplab/extension/dashboard/service/CasesCount.java:26 | `a.startTime BETWEEN from AND to`, both midnights included (definition). |
| CasesCounts.StartedWithin | backend/src/main/java/com/nplab/extension/dashboard/service/CasesCount.java:24-31 | `a.startTime BETWEEN 'from' AND 'to'`, inclusive at both midnights. |
| CasesCounts.InternalWithin | backend/src/main/java/com/nplab/extension/dashboard/service/CasesCount.java:25-26 | Internal and started in the window. |
| CasesCounts.ExternalWithin | backend/src/main/java/com/nplab/extension/dashboard/service/CasesCount.java:28-30 | External and started in the window. |
| CasesCounts.InternalAndExternalCoverWindow | backend/src/main/java/com/nplab/extension/dashboard/service/CasesCount.java:24-31 | The two counts add up to the cases started in the window. |
| CasesCounts.CasesCount.constructor | backend/src/main/java/com/nplab/extension/dashboard/service/CasesCount.java:24-31 | Stores the internal and the external count of the window. |
| CasesCounts.CasesCount.GetInternalCasesCount | backend/src/main/java/com/nplab/extension/dashboard/service/CasesCount.java:84-86 | Returns the internal count. |
| CasesCounts.CasesCount.GetExternalCasesCount | backend/src/main/java/com/nplab/extension/dashboard/service/CasesCount.java:88-90 | Returns the external count. |
| CasesCounts.DailyWindowDays | backend/src/main/java/com/nplab/extension/dashboard/service/CasesCount.java:43-46 | Entry k runs from the day `k + 1` days before today to the day `k` days before. |
| CasesCounts.FindDailyCount | backend/src/main/java/com/nplab/extension/dashboard/service/CasesCount.java:39-49 | `days` entries (none when not positive). Entry k holds the two counts of that day's window. |
| CasesCounts.DailyEntriesShareMidnight | backend/src/main/java/com/nplab/extension/dashboard/service/CasesCount.java:43-46 | A case started exactly at the midnight two consecutive entries share counts in both. |
| CasesCounts.StartedTodayNotCounted | backend/src/main/java/com/nplab/extension/dashboard/service/CasesCount.java:43-46 | A case started after midnight today is in no daily entry. |
| CasesCounts.FirstOfMonthDays | backend/src/main/java/com/nplab/extension/dashboard/service/CasesCount.java:56-63 | The first of the month is `day - 1` days before any day of it. |
| CasesCounts.CountCurrentMonth | backend/src/main/java/com/nplab/extension/dashboard/service/CasesCount.java:56-63 | The month count is the cases started from midnight `day - 1` days before today up to midnight today. |
| CasesCounts.MonthCoversYesterday | backend/src/main/java/com/nplab/extension/dashboard/service/CasesCount.java:39-63 | From the second of the month on, yesterday's count is at most the month count. |
| CasesCounts.YearStartSample | backend/src/main/java/com/nplab/extension/dashboard/service/CasesCount.java:74 | 2020-01-01 is day 18262. |
| CasesCounts.YearEndSample | backend/src/main/java/com/nplab/extension/dashboard/service/CasesCount.java:71 | 2020-02-28 is day 18320. |
| CasesCounts.CountCurrentYear | backend/src/main/java/com/nplab/extension/dashboard/service/CasesCount.java:70-76 | `countCurrentYear`: the cases started from 1 January of the fixed date's year to the fixed date (definition). |
| CasesCounts.YearWindowFixed | backend/src/main/java/com/nplab/extension/dashboard/service/CasesCount.java:70-76 | The year count is always the cases started from 2020-01-01 to 2020-02-28, whatever the clock reads. |
| Reports.SampleTypeCriteria | backend/src/main/java/com/nplab/extension/dashboard/service/ReportStats.java:46 | `a.biopsyType like '%type%'`, with the caller's sample type read as literal text (see "## Left out"). |
| Reports.TatCriteria | backend/src/main/java/com/nplab/extension/dashboard/service/ReportStats.java:67-69 | The sample type as literal text (see "## Left out"), and a non-null TAT from `lo` to `hi` inclusive. |
| Reports.ReportStats.constructor | backend/src/main/java/com/nplab/extension/dashboard/service/ReportStats.java:22-24 | No window is stored. |
| Reports.ReportStats.SetStartTime | backend/src/main/java/com/nplab/extension/dashboard/service/ReportStats.java:26-28 | Stores the start day and leaves the end. |
| Reports.ReportStats.SetEndTime | backend/src/main/java/com/nplab/extension/dashboard/service/ReportStats.java:30-32 | Stores the end day and leaves the start. |
| Reports.ReportStats.FindBreakoutBySampleType | backend/src/main/java/com/nplab/extension/dashboard/service/ReportStats.java:40-50 | Stores the window. Returns one entry per sample type, in the fixed order, counting that type's cases in the window. |
| Reports.ReportStats.FindSampleBreakoutByTat | backend/src/main/java/com/nplab/extension/dashboard/service/ReportStats.java:60-73 | Fails iff there is a range and no stored window. Otherwise, one entry per range, counting the type's cases with TAT in the range, within the stored window. |
| Reports.ReportStats.FindTatBreakoutByRequests | backend/src/main/java/com/nplab/extension/dashboard/service/ReportStats.java:84-88 | Without a stored window, no result. Otherwise, the request breakout of the type's cases with TAT in the range, in the stored window. |
| Reports.TatEntryWithinSampleType | backend/src/main/java/com/nplab/extension/dashboard/service/ReportStats.java:40-73 | A TAT entry never exceeds the sample type's entry for the same window. |
| Reports.AdjacentTatRanges | backend/src/main/java/com/nplab/extension/dashboard/service/ReportStats.java:63-69 | The TAT ranges `lo..mid` and `mid+1..hi` add up to `lo..hi`. |
| Reports.TumorNerveLikeBoth | backend/src/main/java/com/nplab/extension/dashboard/service/ReportStats.java:19-20 | "Tumor Nerve" is like both "%Tumor%" and "%Nerve%". |
| Reports.SampleTypesOverlap | backend/src/main/java/com/nplab/extension/dashboard/service/ReportStats.java:44-47 | One case can count under two sample types, so the entries can sum to more than the cases in the window. |
| SampleStats.SummaryCriteria | backend/src/main/java/com/nplab/extension/dashboard/service/SampleStatsService.java:131-132 | A non-null TAT, and a start at or after midnight of the day 14 days back. |
| SampleStats.SummaryCriteriaDays | backend/src/main/java/com/nplab/extension/dashboard/service/SampleStatsService.java:131-132 | By days: a TAT and a start day at least `today - 14`. |
| SampleStats.SummarizeData | backend/src/main/java/com/nplab/extension/dashboard/service/SampleStatsService.java:130-135 | None iff the column is not "tat". Otherwise the maximum TAT of the qualifying rows, or 0 when there is none. |
| SampleStats.OldRowsDoNotMatter | backend/src/main/java/com/nplab/extension/dashboard/service/SampleStatsService.java:131-134 | A row started more than 14 days before today never changes the summary. |
| SampleStats.SampleStatsService.constructor | backend/src/main/java/com/nplab/extension/dashboard/service/SampleStatsService.java:26-31 | A fresh report statistics object, with no window. |
| SampleStats.SampleStatsService.FindPendingAssets | backend/src/main/java/com/nplab/extension/dashboard/service/SampleStatsService.java:37-39 | The unrestricted pending list. |
| SampleStats.SampleStatsService.CountPendingAssets | backend/src/main/java/com/nplab/extension/dashboard/service/SampleStatsService.java:45-47 | Every pending row, however old. |
| SampleStats.SampleStatsService.CountCasesOverTime | backend/src/main/java/com/nplab/extension/dashboard/service/SampleStatsService.java:55-58 | "month" gives the month count. Anything else gives the cases from 2020-01-01 to 2020-02-28. |
| SampleStats.SampleStatsService.FindPendingAssetsBreakout | backend/src/main/java/com/nplab/extension/dashboard/service/SampleStatsService.java:67-69 | The closed-window breakout. |
| SampleStats.SampleStatsService.FindPendingAssetsBreakoutByOrigin | backend/src/main/java/com/nplab/extension/dashboard/service/SampleStatsService.java:79-81 | Every entry counts external pending cases, whatever type is passed. |
| SampleStats.SampleStatsService.FindPendingAssetsBreakoutByOriginAndParity | backend/src/main/java/com/nplab/extension/dashboard/service/SampleStatsService.java:92-94 | The origin and parity breakout. |
| SampleStats.SampleStatsService.FindPendingCasesByOrigin | backend/src/main/java/com/nplab/extension/dashboard/service/SampleStatsService.java:101-103 | The pending list of the origin. |
| SampleStats.SampleStatsService.FindPendingCasesByOriginAndParity | backend/src/main/java/com/nplab/extension/dashboard/service/SampleStatsService.java:111-113 | The pending list of the origin and parity. |
| SampleStats.SampleStatsService.FindCasesCount | backend/src/main/java/com/nplab/extension/dashboard/service/SampleStatsService.java:121-123 | The daily counts. |
| SampleStats.SampleStatsService.FindSampleTypeBreakout | backend/src/main/java/com/nplab/extension/dashboard/service/SampleStatsService.java:144-146 | Stores the window in the shared report statistics and returns the sample type breakout. |
| SampleStats.SampleStatsService.FindTatBreakout | backend/src/main/java/com/nplab/extension/dashboard/service/SampleStatsService.java:156-158 | The TAT breakout within the stored window. |
| SampleStats.SampleStatsService.FindRequestBreakout | backend/src/main/java/com/nplab/extension/dashboard/service/SampleStatsService.java:169-171 | The request breakout, with the arguments reordered to (tatStart, tatEnd, sampleType). |
| SampleStats.FreshServiceHasNoWindow | backend/src/main/java/com/nplab/extension/dashboard/service/SampleStatsService.java:26-31 | A fresh service fails the TAT breakout with a range and fails the request breakout. |
| SampleStats.TatBreakoutAfterSampleTypes | backend/src/main/java/com/nplab/extension/dashboard/service/SampleStatsService.java:144-158 | After a sample type breakout, the TAT breakout counts within its window, at most the sample type's entry. |

## Left out

- Time zones: every `DateTime` is taken in UTC. The server's default zone, and day boundaries in any other zone, are not modelled.
- Dates passed as text: the windows of the sample type breakout and of `CasesCount` take day numbers, not their 'yyyy-MM-dd' strings.
  - A day and its text correspond one to one in four-digit years (`Calendar.DateTextInjective`).
  - A malformed date string in a query is not modelled.
- `findMean` and the mean of `DataSummary` are left out, because they are floating point.
  - `SampleStats.SummarizeData` keeps only the column name and the maximum.
- Parsing a date string with `convertStringToDateTime` is not modelled, because it parses with Joda's formatter, which is library code.
- The HTTP controllers, authentication, tokens and the user repository are not part of this model.
- Queries are denotations, not HQL text. Quoting, injection and the database's own date parsing are not modelled.
- AssetSummaryDao.BiopsyLike reads the sample type literally. `ReportStats` puts the caller's `sampleType` path variable inside `like '%…%'` unescaped, so `%` and `_` in it act as wildcards. The model matches it as a plain substring: no wildcards, and no case-insensitive collation. With the sample type `_`, say, the query counts every row with a non-empty biopsy type; the model counts only biopsy types with an underscore in them. Reports.SampleTypeCriteria and Reports.TatCriteria inherit this. So do the breakouts built on them: FindBreakoutBySampleType's fixed types contain no wildcard, but FindSampleBreakoutByTat, FindTatBreakoutByRequests, FindTatBreakout and FindRequestBreakout take the caller's text.
- Null values: null strings and a null start time are not modelled. The NP number, biopsy type and request code are plain strings, and the start time is always set.
- The clock: `new DateTime()` is read once per call and passed in as `now`. Two readings within one call (as in `findPendingAssets` and the `PendingAsset` constructor) are taken to agree.
- An unset report window: with no window stored, a TAT breakout with a range and a request breakout give none. The database's handling of the literal 'null' date is left unmodelled.
- Result order: the SQL `GROUP BY` order is unspecified. The model lists each code at its last occurrence in the rows (`Rows.Keys`). Tie order within `ORDER BY a.startTime` is the model's stable order.
- PendingAssets.ConstructorCases, PendingAssets.SetterCases and PendingAssets.ConstructorAndSetterDisagreeOnlyWhenDated: these hold only for instants in years 0 to 9999, where the rendering has a four-digit year.
- DatePartSameDay (PendingAssets.DatePartSameDay) is proved only for instants in years 0 to 9999: outside them `substring(0, 10)` cuts the day's last digit off, or keeps a sign, so different days can share a date part.
- ReversedDateSameDay (PendingAssets.ReversedDateSameDay) is proved only for instants in years 0 to 9999, for the same reason.
- PendingStats.BreakoutByTimeAndOrigin, PendingStats.BreakoutByTimeOriginAndParity and PendingStats.BreakoutByTime require `|startDays| <= |endDays|`. With a shorter `endDays`, `endDays.get(i)` throws `IndexOutOfBoundsException`; that error path is not modelled. The same holds for the forwards SampleStats.SampleStatsService.FindPendingAssetsBreakout, FindPendingAssetsBreakoutByOrigin and FindPendingAssetsBreakoutByOriginAndParity.
- Reports.ReportStats.FindSampleBreakoutByTat and SampleStats.SampleStatsService.FindTatBreakout require `|startValues| <= |endValues|`. The exception `endValues.get(i)` throws on a shorter list is not modelled.
- AssetSummaries.AssetSummary.GetTat requires a TAT. Unboxing a null TAT in `getTat` throws `NullPointerException`; that error path is not modelled.
- Concurrency: the service is a singleton, so all requests share one `ReportStats` window. `findBreakoutBySampleType` stores the start and the end in two steps, so interleaved requests can leave a window that no caller asked for. The model runs every call atomically, one after another.
- Integer widths: Java's `int` and `long` are unbounded here. A count or TAT beyond their range does not wrap.
- AssetSummaries.AssetSummary.constructor: requires an end time, because `Days.daysBetween` with a null end throws.
- Grouping at the row type: the partition of the request-code groups is stated once, generically, in `Rows.GroupsPartition`. Its instance at the row type is not restated.
