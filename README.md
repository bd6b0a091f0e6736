# Weather report model

A Dafny model of the server core of a small Flask weather-probability
application (`main.py`), and of two rules of the page script that the same
file serves.

- **`/api/analyze`** (`analyze_weather`) reads a location, a date, a time
  range and a list of condition tags from the request. It draws one
  probability between 15 and 85 per tag. The tag keeps its position and
  duplicates are kept. Each entry gets a display label and a details
  sentence. Then the endpoint builds a historical series whose labels and
  length follow the time range:
  - day: 8 points, "0:00" to "21:00";
  - week: 7 points, weekday abbreviations from the date on;
  - month: 4 points, "Week 1" to "Week 4";
  - anything else: 3 points, "Month 1" to "Month 3".

  Temperatures lie in 40..95. Precipitations lie in 0..3 inches rounded to
  hundredths.
- **`/api/download/csv`** (`download_csv`) lays a report out as rows and
  writes them with Python's `csv.writer`: a title, the three request fields,
  the condition table and the period table.
- **The page script** keeps `selectedConditions`, which a click on a
  condition card toggles and the reset button empties. It colours a
  probability red from 70, amber from 40 and green below.

Modules:

| file | module | contents |
|---|---|---|
| `wrappers.dfy` | `Wrappers` | `Option` and `Result` |
| `decimal.dfy` | `Decimal` | `str()` of ints and of two-decimal floats, with readers proving nothing is lost |
| `calendar.dfy` | `Calendar` | proleptic Gregorian dates, `strptime(date, '%Y-%m-%d')`, `date + timedelta(days=i)` with its overflow, `strftime('%a')` |
| `analysis.dfy` | `Analysis` | the analysis endpoint: labels, details, historical series, the condition loop and the report |
| `csv_text.dfy` | `CsvText` | the text of the `excel` dialect of `csv.writer`, a reader for it and the round trip, and the writer object |
| `csv_export.dfy` | `CsvExport` | the row layout of the export and the `download_csv` method |
| `client.dfy` | `Client` | the selection list and its card state, and the probability colour |

How the model treats the program's inputs and effects:

- **Randomness.** The generator is a parameter `draws: nat -> int`. `draws(k)`
  is the raw output of the k-th call. `RandInt(lo, hi, raw)` maps it into
  `[lo, hi]`.
- **Draw order.** Draws are taken in program order: one per condition, then
  the temperatures, then the precipitations. A failing date still costs the
  condition draws, because `generate_historical_data` runs after the loop.
- **Time.** The `datetime.now()` stamp is a parameter.
- **Precipitation.** Values are counted in hundredths of an inch.
  `FormatHundredths` writes them as Python's `str()` writes the rounded
  float.

Behaviour worth noting:

- An unknown condition tag gets the generic sentence
  "`<p>`% probability based on historical data". It does not get the tag
  itself (`main.py:1107`).
- Besides a missing or unparseable date, generation also fails for a "week"
  report whose last day would fall after 9999-12-31. Python's `datetime`
  raises `OverflowError` there (`main.py:1119`).
- The hot and cold sentences and the period header carry the two characters
  "¬∞" where a degree sign is meant (`main.py:1101`, `main.py:1102`,
  `main.py:1164`). The model writes them as the code does.
- Clicking a selected card twice moves its condition to the end of the list:
  it leaves the list and is then appended (`ToggledTwice`). The list comes
  back unchanged only when the condition was already its last entry.

## Model

| member | source | states |
|---|---|---|
| Analysis.RandInt | main.py:1063 | `randint(lo, hi)` always lies in `[lo, hi]` |
| Analysis.RandIntReaches | main.py:1063 | every value of `[lo, hi]` is produced by some raw draw |
| Analysis.Probability | main.py:1063 | a condition probability lies in 15..85 |
| Analysis.Temperature | main.py:1129 | a temperature lies in 40..95 |
| Analysis.Precipitation | main.py:1132 | a precipitation lies in 0..300 hundredths of an inch (0 to 3 inches) |
| Analysis.ConditionLabel | main.py:1053-1069 | the label is the table entry for the five known tags; the label equals the tag itself exactly when the tag is not in the table |
| Analysis.TemplateFor | main.py:1100-1107 | a tag outside the five keys of `details_map` takes the generic template |
| Analysis.ConditionDetails | main.py:1098-1107 | the sentence opens with its tag's template words; after them the probability reads back, followed by "%" and the rest of the template |
| Analysis.ConditionResultFor | main.py:1067-1072 | the appended record: the tag, its label, the probability and the details sentence; EvaluateConditions proves entry i is this record |
| Analysis.FillReadBack | main.py:1100-1107 | every details sentence starts with its template's opening words, and then the probability reads back followed by "%" and the rest of the template |
| Analysis.DetailsDetermineProbability | main.py:1098-1107 | for one tag, two details sentences are equal exactly when their probabilities are equal; the date argument never matters |
| Analysis.UnknownConditionDetails | main.py:1107 | a tag outside the five known ones gets "`<p>`% probability based on historical data" |
| Analysis.Bucket | main.py:1115-1126 | "day", "week" and "month" select their branches, each exactly for that string; anything else, a missing value included, is a season |
| Analysis.PointCount | main.py:1115-1126 | every bucket has 3 to 8 points; SeriesLabels gives 8/7/4/3 labels for day/week/month/season |
| Analysis.DayLabels | main.py:1116 | there are 8 day labels; DayLabelsText gives their texts |
| Analysis.DayLabelsText | main.py:1116 | the day labels are exactly "0:00", "3:00", ..., "21:00", with no zero padding |
| Analysis.DayLabelsHours | main.py:1116 | there are 8 day labels, and label i reads as hour 3i followed by ":00" |
| Analysis.MonthLabels | main.py:1122 | there are 4 month labels; MonthLabelsWeeks gives their texts |
| Analysis.MonthLabelsWeeks | main.py:1122 | the month labels are exactly "Week 1" to "Week 4", and label i is "Week " followed by the number i + 1 and nothing else |
| Analysis.SeriesLabels | main.py:1115-1126 | labels exist unless a week runs past the last date, and there are 8/7/4/3 of them for day/week/month/season |
| Analysis.TemperatureSeries | main.py:1129 | n temperatures, each in 40..95 |
| Analysis.PrecipitationSeries | main.py:1132 | n precipitations, each at most 300 hundredths |
| Analysis.TemperatureDraws | main.py:1129 | temperature i comes from raw draw `from + i` |
| Analysis.PrecipitationDraws | main.py:1132 | precipitation i comes from raw draw `from + i` |
| Analysis.GenerateHistoricalData | main.py:1109-1138 | on success, labels, temperatures and precipitations all have the bucket's point count, values are in range, and exactly 2n draws are consumed |
| Analysis.HistoricalDataOutcome | main.py:1112-1120 | generation succeeds exactly when the date is present, parses, and (for a week) has six more days before 9999-12-31; a failure says which of the three went wrong |
| Analysis.HistoricalDataShape | main.py:1114-1132 | the labels are the bucket's scheme for the parsed date, the temperatures come from the first n draws, and the precipitations from the next n |
| Analysis.WeekSeries | main.py:1118-1120 | a week series has 7 labels: the first is the weekday of the date, each next one is the following weekday, and all seven differ |
| Analysis.EvaluateConditions | main.py:1061-1072 | one entry per tag, in order, duplicates kept; entry i holds tag i, its label, probability `Probability(draws(start + i))` in 15..85, and its details |
| Analysis.AnalyzeWeather | main.py:1034-1096 | the report succeeds exactly when the series does, and then echoes location, date and time range, carries the condition entries, the series, the four data sources and the fixed metadata; on failure it reports the series' error, after the condition draws have been consumed |
| Calendar.ParseDate | main.py:1112 | a date strptime accepts is a valid calendar date |
| Calendar.ReadMonth | main.py:1112 | `%m` reads a month in 1..12 from one or two characters followed by '-' |
| Calendar.ReadDay | main.py:1112 | `%d` reads a day in 1..31 from the one or two characters left |
| Calendar.ReadMonthExactly | main.py:1112 | `%m` accepts exactly a month written as one digit or as two zero-padded digits and followed by '-', and returns that month and the width it read |
| Calendar.ReadDayExactly | main.py:1112 | `%d` accepts exactly a rest of the text that writes a day as two digits, as one digit, or as a space and one digit, and returns that day |
| Calendar.ParseDateExactly | main.py:1112 | strptime accepts a text exactly when it is four digits naming the year, '-', a month text, '-' and a day text that together name a valid date, and it returns that date |
| Calendar.ParsePaddedText | main.py:1112 | a zero-padded "YYYY-MM-DD" text parses to its date when that day exists in that month, and is rejected when it does not (2025-02-30) |
| Calendar.ParseFormatRoundTrip | main.py:1112 | every valid date parses back from its zero-padded "YYYY-MM-DD" text |
| Calendar.ParseUnpaddedExample | main.py:1112 | "2025-1-5" and "2024-2- 9" are accepted, as strptime accepts them |
| Calendar.ParseRejectsExample | main.py:1112 | 2025-02-29 and year 0 are rejected, and 2024-02-29 is accepted |
| Calendar.ParseLeftoverExample | main.py:1112 | trailing text and month 13 are rejected |
| Calendar.DayOfYearBounds | main.py:1119 | the day of the year lies in 1..365 or 1..366, and only December 31st is the last |
| Calendar.Ordinal | main.py:1119 | `toordinal()` is at least 1; OrdinalBounds gives the whole range |
| Calendar.OrdinalBounds | main.py:1119 | day numbers run from 1 to MaxOrdinal, and only 9999-12-31 has the last one |
| Calendar.NextDay | main.py:1119 | the day after a valid date other than 9999-12-31 is valid |
| Calendar.NextDayOrdinal | main.py:1119 | the next day has the next day number |
| Calendar.AddDays | main.py:1119 | `date + timedelta(days=n)` gives a valid date or overflows |
| Calendar.AddDaysOrdinal | main.py:1119 | adding n days succeeds exactly when day number `Ordinal(d) + n` exists, and lands on it |
| Calendar.Weekday | main.py:1119 | `weekday()` lies in 0..6, the index of the `%a` abbreviation from Monday |
| Calendar.WeekdayAfter | main.py:1119 | a date i days later falls i weekdays later, modulo 7 |
| Calendar.WeekLabels | main.py:1119 | week labels exist exactly when six more days fit before the end of 9999, and there are seven of them |
| Calendar.WeekLabelNamesDay | main.py:1119 | week label i is `strftime('%a')` of the start date plus i days |
| Calendar.WeekLabelsDistinct | main.py:1119 | the seven week labels are pairwise different |
| Calendar.WeekLabelsSuccessive | main.py:1119 | each week label is followed by the next weekday's abbreviation, Sun by Mon |
| Calendar.SundayExample | main.py:1119 | 2025-10-05 is a Sunday, so its week starts with "Sun" |
| Decimal.NatToStringDigits | main.py:1116 | `str(n)` is a non-empty run of digits, with no leading zero, whose value is n |
| Decimal.IntToString | main.py:1158 | `str(i)` starts with '-' exactly for negative i |
| Decimal.ReadIntRoundTrip | main.py:1158 | `str(i)` reads back as i |
| Decimal.FormatHundredths | main.py:1165-1170 | a written precipitation has one or two decimals, and a trailing zero only as the single decimal of a whole value |
| Decimal.HundredthsRoundTrip | main.py:1165-1170 | a written precipitation reads back as the same number of hundredths |
| CsvText.EncodeField | main.py:1146 | a field without ',', '"', CR or LF is written as it is, any other is quoted; ParseRecordRoundTrip shows the quoting loses nothing |
| CsvText.EncodeRecord | main.py:1146 | only the record with no fields is written as an empty line; a lone empty field is written as `""` |
| CsvText.EncodeDocument | main.py:1146 | the buffer text of the rows written: each row adds a line ended by CRLF |
| CsvText.EncodeDocumentAppend | main.py:1146 | writing one more row appends exactly that row's line to the output |
| CsvText.ParseDocumentRoundTrip | main.py:1146 | the writer's output reads back as exactly the rows written, whatever commas, quotes or line breaks the fields hold |
| CsvText.ParseRecordRoundTrip | main.py:1146 | one written record reads back and leaves the following text untouched; this holds for the empty record and the lone empty field too |
| CsvText.CsvWriter.constructor | main.py:1145-1146 | a new writer has written nothing |
| CsvText.CsvWriter.WriteRow | main.py:1150 | `writerow` adds the record after those already written |
| CsvExport.CsvRows | main.py:1148-1170 | the export has 9 rows plus one per condition entry and one per label |
| CsvExport.CsvLayout | main.py:1148-1170 | the export has 9 + conditions + labels rows: the request fields in rows 1-3, the condition rows in stored order from row 6, then a blank row, the two headers and one row per label |
| CsvExport.Preamble | main.py:1149-1156 | the six rows before the condition table; CsvLayout gives each of them |
| CsvExport.ConditionRow | main.py:1157-1158 | a condition row is the label, the probability and the details; ConditionRowReadBack reads the probability back |
| CsvExport.PeriodRow | main.py:1165-1170 | a period row is the label followed by two cells; PeriodRowReadBack reads them back |
| CsvExport.ConditionRows | main.py:1157-1158 | one row per condition entry |
| CsvExport.PeriodRows | main.py:1165-1170 | one row per period written |
| CsvExport.ConditionRowReadBack | main.py:1157-1158 | a condition row's probability cell reads back as the probability |
| CsvExport.PeriodRowReadBack | main.py:1165-1170 | a period row's cells read back as its temperature and its precipitation |
| CsvExport.WritePreamble | main.py:1149-1156 | the title, location, date, time range, blank and header rows are written in that order |
| CsvExport.WriteConditionRows | main.py:1157-1158 | the loop writes exactly the condition rows, in stored order |
| CsvExport.WritePeriodRows | main.py:1165-1170 | the loop finishes exactly when both series are at least as long as the labels, and then it has written one row per label |
| CsvExport.DownloadCsv | main.py:1141-1170 | the export succeeds exactly when the series are long enough for the labels; the text is then the encoding of the laid-out rows, and otherwise the error is the IndexError |
| CsvExport.ExportReadBack | main.py:1141-1170 | the exported text reads back as exactly the laid-out rows |
| Client.Without | main.py:708 | filtering removes every occurrence and never lengthens the list |
| Client.WithoutKeepsOthers | main.py:708 | any other condition is in the filtered list exactly when it was in the list |
| Client.WithoutAppend | main.py:708 | filtering a concatenation filters each part, so the kept conditions keep their order |
| Client.WithoutAbsent | main.py:708 | filtering out an absent condition changes nothing |
| Client.WithoutAt | main.py:708 | in a list without duplicates, filtering removes exactly the one position of the condition |
| Client.Toggled | main.py:707-711 | after a click the clicked condition is in the list exactly when it was not before |
| Client.ToggledNoDuplicates | main.py:704-712 | a click keeps the list free of duplicates |
| Client.ToggledMembership | main.py:704-712 | after a click, the clicked condition is selected exactly when it was not before; every other condition is unaffected |
| Client.ToggledTwice | main.py:704-712 | two clicks on an unselected condition restore the list; two clicks on a selected one move it to the end, which restores the list only when it was last |
| Client.ConditionSelection.constructor | main.py:670 | on page load nothing is selected and no card is active |
| Client.ConditionSelection.Toggle | main.py:704-712 | the card's active state flips, the list becomes the toggled list, and the active cards stay exactly the selected conditions with no duplicates |
| Client.ConditionSelection.Reset | main.py:1008-1012 | reset leaves no condition selected and no card active |
| Client.ProbabilityColor | main.py:830-834 | red exactly from 70, amber exactly for 40..69, green exactly below 40 |
| Client.ColorMonotone | main.py:830-834 | a higher probability never gets a less alarming colour |

## Left out

- The Flask plumbing: routing, `request.json`, `jsonify`, `send_file`, the response headers and file name, and the HTML page itself.
- A request body that is not a JSON object: `data.get` raises before anything is drawn. The model takes the fields already typed.
- A `conditions` value that is not a list of strings. A JSON string is iterated character by character and an object by its keys, and each character or key is then handled as a tag. A `null`, a number or a boolean makes the loop raise `TypeError`. In a list, a number, boolean or `null` item gets an entry of its own with the generic sentence, while a nested list or object item makes the `details_map` lookup in `generate_condition_details` raise `TypeError` (main.py:1107), before the label is looked up. The model takes `conditions` as a list of strings.
- The missing-key `KeyError` and wrong-type errors of `download_csv` on a malformed report: the model takes a well-formed `Report` and keeps only the `IndexError` of short series.
- The real generator and its distribution: draws are an oracle, and `random.uniform` followed by `round(x, 2)` is a draw of 0..300 hundredths.
- Floating point: precipitation is an exact count of hundredths, written as Python writes the rounded float.
- Analysis.AnalyzeWeather: `datetime.now().isoformat()` is the parameter `now`, not derived from a clock.
- CsvExport.DownloadCsv: when the page sends a report back, JavaScript turns a whole float such as 2.0 into 2, which `csv.writer` then writes "2"; the model writes every precipitation as the server produced it ("2.0").
- The final `.encode()` of the CSV text to UTF-8 bytes: the model stops at the text.
- Calendar.ParseDate: Python's `\d` also matches non-ASCII decimal digits; the model accepts ASCII digits only.
- Analysis.TemplateFor: its contract states the fallback direction only (an unknown tag takes the generic template); that each of the five known tags takes its own `details_map` sentence is in the function's definition, not proved as a separate property.
- `strftime('%a')` follows the C locale; other locales are not modelled.
- The rest of the page script (map, charts, fetch calls, rendering) is outside the model.
