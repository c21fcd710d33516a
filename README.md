# Cholesterol panel of the FHIR patient manager, in Dafny

The page `script.js` lists patients of a FHIR server. For a chosen patient it can
show a bar chart of the last cholesterol panel or export that panel as CSV. Both
actions fetch the patient's observations for four LOINC tests and then do the
same thing. They run over the bundle's entries in order and keep, for each test,
the first entry that has a code and a value. The chart lays the four tests out in
the fixed order Total Cholesterol, LDL, HDL, Triglycerides. It colours each bar
by a risk threshold, picks an axis unit and gives up when no test has a value.
The export builds a header and four quoted rows in the same order, with the same
gate.

This project models that pipeline, plus the helpers the chart uses: the patient's
name and age, the title and subtitle, and the tooltip text. The modules follow
the pipeline:

- `Fhir`: the fields of the search bundle the page reads. Every property the page
  tests for presence is an `Option`.
- `Loinc`: the four tracked codes, `Parse` from code text, and the display order.
- `RiskColor`: `getCholesterolColor`, with the thresholds stated a second time as
  a band table and proved monotone.
- `Selection`: the `latest` table. `Select` is the loop's specification, a left
  fold of one step per entry. `FirstMatch` is an independent reference ("the
  first accepted entry"). `SelectLatest` is the loop itself.
- `Panel`: the chart's `order.forEach` loop (`BuildPanel`), the unit rule, the
  no-data gate, the title, subtitle and tooltip, and `HandleCholesterolData`.
- `CsvExport`: the export's `order.forEach` loop (`BuildCsvRows`), the gate,
  `ExportCholesterolCsv`, and proofs that the text splits back into five lines
  of four fields.
- `PatientInfo`: `getPatientInfo`.
- `Text`: `join`, `trim`, ASCII case mapping and the decimal text of an integer,
  each with its inverse or characterising contract. `Split` and `Lines` are not
  used by the page: they read an exported CSV text back in the proofs.

Inputs that are I/O in the source are parameters here:
- The bundle is a `Fhir.Bundle` value handed in after the fetch.
- "Today" is a `PatientInfo.Date`.
- The birth date arrives already parsed. `None` means missing or unparseable.
- `String(value)` for a lab value is a parameter `show: real -> string`. An age
  is printed with the concrete decimal `Text.IntText`.

Points where the code behaves otherwise than a reader of its comments might expect, as modelled:
- The axis unit is that of the **last** slot in display order that has a
  non-empty unit, not the first (script.js:392-394).
- An empty slot is grey `#cccccc`. That is not the blue `#3498db` an unknown
  code gets (script.js:399, 329).
- The CSV header is not quoted. Only the data rows are (script.js:532).
- The chart gates on "no point has a non-null `y`" and the CSV export on "no
  slot is filled". These are two different tests in the code.
  `CsvExport.GatesAgree` proves they agree, given that values are numbers.
- Selection is first-in-input-order. The source relies on the server's
  `_sort=-date` and never compares dates.

The two selection loops (script.js:341-361 and 504-523) differ only in the
`date` the export never reads. One method, `Selection.SelectLatest`, models both.

## Model

| member | source | states |
|---|---|---|
| `Loinc.ParseText` | script.js:334-339 | printing a tracked code and reading the text back gives the same code |
| `Loinc.Parse` | script.js:334-339 | reading a code text gives a code that prints back as that text, and the code is one of the four table keys exactly when the text is one of `2093-3`, `2085-9`, `13457-7`, `2571-8` |
| `Loinc.OrderCoversTracked` | script.js:364-369 | the display order has four entries, labelled Total Cholesterol, LDL, HDL, Triglycerides, and names each tracked code exactly once |
| `RiskColor.CholesterolColor` | script.js:299-330 | a colour is never the no-data grey, and it is the default blue exactly for a code outside the four tracked ones |
| `RiskColor.ColorMatchesBands` | script.js:299-330 | the branch chain agrees on every input with a band table read by interval membership: lower-is-better [200,240), [100,160), [150,200) for Total, LDL, Triglycerides; higher-is-better [40,60) for HDL |
| `RiskColor.SeverityMonotone` | script.js:299-330 | for v <= w the severity of w's colour is at least that of v's colour, except for HDL, where it is at most |
| `RiskColor.Boundaries` | script.js:300-326 | the thresholds are half-open: 199.999/200, 239.999/240, 99.999/100, 159.999/160, 149.999/150, 199.999/200 change band at the integer; for HDL 60 is green, 59.999 orange, 40 orange and 39.999 red |
| `RiskColor.HexDistinct` | script.js:302-329 | different colours have different CSS strings, so the no-data grey of script.js:399 and the unknown-code blue are never confused |
| `Selection.UnitText` | script.js:356 | the stored unit is `unit` when it is non-empty, else `code` when that is non-empty, else the empty string |
| `Selection.DateOf` | script.js:357 | the stored date is `effectiveDateTime` when non-empty, else `issued` when non-empty, else none, and is never the empty string |
| `Selection.Select` | script.js:334-361 | after any sequence of entries the table has exactly the four tracked keys: no other key is ever set |
| `Selection.SelectLatest` | script.js:334-361 | the loop, also the one of script.js:497-523, ends with the table of the specification fold over `data.entry`, or the empty table when `entry` is missing |
| `Selection.SelectIsFirstMatch` | script.js:341-361 | for each tracked code the slot holds what the first entry, in input order, accepted for that code stores, and is empty when there is none |
| `Selection.FirstWins` | script.js:349-358 | if entry i is the first accepted for a code, the slot stores entry i's value, unit and date, whatever accepted entries follow |
| `Selection.SlotEmptyIff` | script.js:344-352 | a slot stays empty exactly when no entry is well formed for its code: entries without resource, code, non-empty coding, first-coding code or value, and entries for untracked codes, fill nothing |
| `Selection.LaterEntriesIgnored` | script.js:349-350 | appending any entries never changes a slot that is already filled |
| `Selection.SkippedEntryInvisible` | script.js:344-352 | inserting a malformed or untracked entry anywhere leaves the whole table as it would be without it, so a later well-formed entry still fills the slot |
| `Selection.DuplicateIgnored` | script.js:349-350 | a second accepted entry for an already-seen code leaves the whole table unchanged: [A, B] selects as [A] |
| `Panel.DateDisplay` | script.js:381-382 | there is a display date exactly when the stored date is non-empty, and it is the prefix of that date of length min(10, length) |
| `Panel.UnitIsLast` | script.js:373-394 | the axis unit is "mg/dL" when no slot has a non-empty unit, and otherwise the unit of the last such slot in display order |
| `Panel.BuildPanel` | script.js:371-405 | the loop returns the four labels as categories, the four points of the specification, and the unit of the specification |
| `Panel.PanelShape` | script.js:375-405 | exactly four points, labelled and coded in display order; a filled slot gives y = stored value, the risk colour (green, orange or red) and the display date; an empty slot gives y null, grey and no date |
| `Panel.PointFromEntries` | script.js:341-390 | the k-th bar has no value exactly when no entry is accepted for the k-th test, and otherwise shows the value of the first accepted entry |
| `Panel.NoDataIff` | script.js:407-411 | the "no cholesterol data" gate fires exactly when no entry of the bundle is accepted for any tracked code, so untracked-only or malformed-only bundles are refused |
| `Panel.Title` | script.js:414 | the title names the patient, or "Selected Patient" when the name is empty |
| `Panel.Capitalize` | script.js:418 | the sex keeps its length, with the first letter upper-cased and the rest lower-cased |
| `Panel.CapitalizeIgnoresCase` | script.js:418 | two spellings that differ only in letter case capitalise alike, and capitalising twice changes nothing |
| `Panel.SubtitleShape` | script.js:416-426 | the subtitle is "Sex: " and the capitalised sex when the sex is known, then "Age: " and the age's decimal text when the age is known, then the colour legend, with " · " between consecutive parts; so it always ends with the legend and is the legend alone exactly when sex and age are both unknown |
| `Panel.TooltipTellsAbsence` | script.js:452-462 | the tooltip starts with the bold label and reads "No value available" exactly for a point without a value; for a point with a value it goes on with "Value: " and the value and axis unit in bold, and ends there exactly when the point has no display date, otherwise with the bold date line |
| `Panel.HandleCholesterolData` | script.js:332-427 | the outcome is "no data" exactly when no entry is accepted for a tracked code; otherwise the chart gets the title, the subtitle, the four labels, the display unit and the four points of the specification |
| `CsvExport.BuildCsvRows` | script.js:532-555 | the loop returns the header followed by one row per test in display order, and `hasAny` is true exactly when some slot is filled |
| `CsvExport.ExportCholesterolCsv` | script.js:494-562 | nothing is exported exactly when no entry is accepted for a tracked code; otherwise the export is the rows joined by newlines |
| `CsvExport.RowRoundTrip` | script.js:541-553 | splitting a row at its commas and unquoting gives label, code, value text and unit, with empty value and unit for an empty slot; the raw value field is empty exactly for an empty slot |
| `CsvExport.FiveLines` | script.js:532-562 | with newline-free values and units, the export splits back into exactly five lines: the header, then the four rows |
| `CsvExport.RowsDiffer` | script.js:541-553 | a present row is never the absent row |
| `CsvExport.AdaptersAgree` | script.js:535-555 | slot by slot, a chart point has no value exactly when its CSV row is the absent row, and a point's value is the one its row prints |
| `CsvExport.GatesAgree` | script.js:557-560 | the export's `hasAny` gate and the chart's `some(y !== null)` gate agree on every table |
| `PatientInfo.Age` | script.js:243-247 | the age is the number of completed years: the birthday in year birth+age is on or before today, the one in year birth+age+1 is after it |
| `PatientInfo.AgeCountsBirthdays` | script.js:243-247 | the age is never negative for a birth date on or before today; it is 0 on the birth date and one more a year later |
| `PatientInfo.FullName` | script.js:229-234 | the name has no white space at either end |
| `PatientInfo.FullNameCases` | script.js:229-234 | no name entry gives ""; without given names the name is the trimmed family, without a family the trimmed given names joined by spaces; given names starting and a family ending with non-space give "given family" |
| `PatientInfo.FullNameOfOneGiven` | script.js:230-233 | one unpadded given name and family name give "given family" |
| `PatientInfo.FullNameOfTwoGiven` | script.js:231-233 | given names "John" and "Q" with family "Doe" give "John Q Doe" |
| `PatientInfo.GetPatientInfo` | script.js:228-256 | the sex is known exactly when it is non-empty, and the age exactly when a birth date is present, then equal to `Age(today, birth)` |
| `Text.Trim` | script.js:233 | the result is a slice of the input with only white space cut off either end, and begins and ends with non-space |
| `Text.TrimIdempotent` | script.js:233 | trimming a second time changes nothing |
| `Text.TrimSpaceBefore` | script.js:231-233 | a space put before a text is removed by trimming, as for a missing given name |
| `Text.TrimSpaceAfter` | script.js:232-233 | a space put after a text is removed by trimming, as for a missing family name |
| `Text.ToUpperAscii` | script.js:418 | an ASCII lower-case letter becomes the upper-case letter 32 code points below it; any other character is kept |
| `Text.CaseRoundTrip` | script.js:418 | upper-casing an ASCII lower-case letter and lower-casing it again gives the letter back, and the same the other way round |
| `Text.ToLowerAscii` | script.js:418 | an ASCII upper-case letter becomes the lower-case letter 32 code points above it; any other character is kept |
| `Text.SplitOfJoin` | script.js:562 | splitting the join of separator-free pieces at the separator returns the pieces |
| `Text.IntTextValue` | script.js:422 | the printed age reads back as the age |

## Left out

- FHIR server calls, URL and query-string building, promise chaining and the error alerts of failed requests (script.js:279-295, 485-498, 573-577): these are network I/O.
- The check for a missing patient id and its alert (script.js:263-269, 479-483): this is UI.
- DOM row building, dropdown dispatch, `prompt`, `alert` and `confirm` (script.js:1-224): this is UI. The two "no data" alerts appear as `Panel.NoCholesterolData` and as `None` from `CsvExport.ExportCholesterolCsv`.
- The Highcharts call (script.js:429-471): the model keeps only the data it is given (title, subtitle, categories, unit, points). The chart type, the x-axis title, the legend and the series name are constants. The y-axis title is `"Level (" + unit + ")"` (script.js:448); the model keeps its only variable part as `Chart.unit`.
- The Blob, object-URL and anchor download, with its file name (script.js:563-572): this is file I/O.
- `new Date(...)` parsing and the clock (script.js:240-242): dates arrive as (year, month, day), and an unparseable birth date is the same as a missing one.
- `String(val)` for a lab value: this is the parameter `show`. JavaScript floating point is not modelled: values are `real`.
- A `valueQuantity.value` that is present but not a number (for example `null`) is outside the model. The source would store it; the chart would then see `y` null while the CSV's `hasAny` is true.
- A `coding[0]` that is itself `null`, or an element of `data.entry` that is itself `null`, makes the source throw (script.js:343-346, 506-509). Both are outside the model: codings and entries are records.
- `Panel.Capitalize`: upper- and lower-cases ASCII letters only. JavaScript maps all of Unicode.
- `CsvExport.RowRoundTrip`: holds only for value and unit texts with no comma, double quote or newline. The source quotes fields without escaping them, so such texts give rows with extra fields.
- `CsvExport.FiveLines`: holds only for newline-free value and unit texts, for the same reason.
- `Panel.DateDisplay`: cuts the date after 10 Unicode characters, while `substring(0, 10)` counts UTF-16 code units. The two differ only for a date holding a character outside the Basic Multilingual Plane.
- The tooltip takes the point, display unit and `show` as arguments. Highcharts' calling convention (`this.point`, `this.y`) is not modelled.
