# bp-tracker data core in Dafny

bp-tracker records blood-pressure readings. It has two front ends over one data format:

- a browser page (`app.js`), which keeps the readings as CSV text in local storage;
- a command-line logger (`log.js`), which keeps them in a CSV file.

A reading has the following fields:

- an id;
- a date (`YYYY-MM-DD`);
- an AM/PM time slot;
- systolic and diastolic pressure;
- an optional heart rate.

This project models the pure core both front ends share, with every screen, file, storage and clock access turned into a parameter. It covers:

- the CSV reader and writer of each front end, and their round trips;
- the four-way blood-pressure classifier and its two label sets;
- storing a reading in its (date, AM/PM) slot, and the list order (newest date first, PM before AM);
- deleting by id, importing, and restoring;
- the page's averages, the logger's summary, and the page's per-day chart series;
- the logger's command line: the command selection, the sorting of optional arguments into heart rate, time and date, the date argument, and the view count.

JavaScript numbers from `parseInt` are modelled as `Num = Int(n) | NaN`. Every JavaScript comparison with NaN is false (`Below`), and "truthy" means a nonzero integer. Strings are `seq<char>`.

Modules, one per file:

- `JsStrings`: trim, split and join, `startsWith`.
- `JsNumbers`: `parseInt`, number-to-text, sums, `Math.round` means, max and min.
- `Records`: readings, slots, the list order, and the sort.
- `Classifier`: `getBPStatus` in both files.
- `Codec`: `parseCSV`/`generateCSV` and `loadData`/`saveData`.
- `Store`: save, add, delete, import and restore.
- `Stats`: `calculateStats`, `showStats`, and the chart buckets.
- `Cli`: the argument handling of `log.js`.

Facts about the code that are easy to get wrong:

- **There is no crisis tier.** There are four categories. Stage 2 needs both systolic ≥ 140 and diastolic ≥ 90 (`Classifier.Classify`).
- **Delete removes every reading with the id**, not only the first (`Store.Without`).
- **Averages round halves up.** Readings 118/76/60 and 122/81/65 average to 120/79 with heart rate 63, because `Math.round` rounds 78.5 and 62.5 up (`Stats.TwoReadingAverages`).
- **A day offset must start with `-`.** A token such as `+3` is taken as a heart rate (`Cli.PlusNumberIsRate`).
- **`--view n` lists the first n readings of the stored order** (newest first). A negative n drops the last |n| readings (`Cli.NegativeCountDropsFromEnd`).

## Model

| member | source | states |
|---|---|---|
| JsStrings.Split | app.js:68 | The parts of `split` join back to the text, and no part contains the separator |
| JsStrings.SplitJoin | app.js:73 | Splitting a join of separator-free parts gives back exactly those parts |
| JsStrings.TrimDropsFinalNewline | app.js:68 | Trimming text written with a final newline and visible ends gives the text without that newline |
| JsNumbers.ParseInt | log.js:21-22 | `parseInt` gives NaN for empty or all-space text, and a nonnegative number for text that starts with a digit |
| JsNumbers.ParseIntTrimsStart | log.js:21-22 | `parseInt` skips leading white space before reading a sign and digits |
| JsNumbers.ParseIntRoundTrip | app.js:79-80 | `parseInt` reads back every number as `String` prints it, NaN included |
| JsNumbers.SumNum | app.js:221 | The `reduce` sum is a number exactly when every value is one |
| JsNumbers.RoundDiv | app.js:221 | `Math.round(s / n)` is the integer nearest s/n, halves rounding up: n(2r−1) ≤ 2s < n(2r+1) |
| JsNumbers.RoundDivUnique | app.js:221 | At most one integer meets the rounding condition, so `Math.round(s / n)` has a single result |
| JsNumbers.MeanNum | app.js:221 | The average is NaN iff some value is NaN, and otherwise the integer nearest sum/n, a half rounded up |
| JsNumbers.RoundedMeanIsUnique | app.js:221 | Any value meeting the rounded-mean condition of a list is the computed average |
| JsNumbers.MaxNum | log.js:135 | `Math.max` is NaN if any value is; otherwise it is one of the values and no value exceeds it |
| JsNumbers.MinNum | log.js:136 | `Math.min` is NaN if any value is; otherwise it is one of the values and no value is below it |
| JsNumbers.MeanWithinRange | app.js:221 | The rounded mean of integers lies between their minimum and maximum |
| Records.SlotOf | app.js:78 | The parsed time field becomes the one slot whose text it is |
| Records.SlotEqualityIsTextEquality | app.js:142 | Comparing slots is comparing their text (`r.time === currentTime`) |
| Records.StrLessTransitive | app.js:150 | The date comparison is transitive |
| Records.StrLessTotal | app.js:150 | Any two different dates are ordered one way or the other |
| Records.InOrderTransitive | app.js:149-152 | Newest date first, then PM before AM, is a transitive order on readings |
| Records.Sort | app.js:149-152 | The sort returns a permutation of its input in that order |
| Records.SortIsDetermined | app.js:149-152 | On a slot-unique list of AM/PM readings, every ordered permutation is the modelled sort, so the comparator's tie-handling cannot matter |
| Records.UniqueUnderPermutation | app.js:148-152 | Reordering a list keeps its slot uniqueness |
| Classifier.Classify | app.js:103-108 | Normal iff sys<120 and dia<80; Elevated iff sys is not below 120 but below 130 and dia<80; Stage 2 iff sys≥140 and dia≥90; Stage 1 otherwise |
| Classifier.ClassifyIntegers | app.js:103-108 | On integers the four categories are the bands 120/80, 130/80, and "both of 140 and 90" |
| Classifier.MixedReadingsAreStage1 | app.js:106 | 150/85, 122/81 and 135/95 are Stage 1 |
| Classifier.ClassifyNaN | log.js:36-41 | A NaN value fails every threshold, so the reading is Stage 1 or Stage 2 by the other value |
| Classifier.PageStatus | app.js:103-108 | The page's badge says "High…" exactly for the two stages, and its class always starts with `status-` |
| Classifier.CliStatus | log.js:36-41 | The logger's word says "High…" exactly for the two stages, and matches the page's text exactly for Normal and Elevated |
| Classifier.LabelsCorrespond | log.js:36-41 | The page's and the logger's labels name the categories one-for-one |
| Codec.Rows | app.js:90-92 | One CSV row per reading, in list order |
| Codec.RateField | app.js:81 | The heart rate is null exactly when the sixth field is missing or empty |
| Codec.PageRecord | app.js:75-82 | The id is the parsed first field when it is truthy and the fallback otherwise, so never falsy; date and time are the fields verbatim, pressures are parsed, and the heart rate is null iff the sixth field is missing or empty |
| Codec.LineRecord | app.js:73-82 | A line of five or more fields becomes a reading with a truthy id and its second and third fields as date and time |
| Codec.PageRows | app.js:72-84 | Every id read is nonzero, and there is at most one reading per line |
| Codec.PageRowsAppend | app.js:72-84 | The lines are read one by one: two runs of lines give the readings of the first run, then those of the second, with line numbers continuing |
| Codec.PageRowsSingle | app.js:74-83 | A line gives a reading, with its line number as the fallback id, iff it has at least five fields |
| Codec.ReadLine | app.js:73-83 | A line gives a reading exactly when it has at least five fields |
| Codec.WideLinesAreRead | app.js:72-84 | When every line has five fields, line k gives reading k, with fallback id the line number |
| Codec.ParseCsv | app.js:67-86 | Text of fewer than two lines gives no readings; otherwise the header line is skipped and the lines after it are read from line number 1 |
| Codec.NarrowLinesAreSkipped | app.js:74 | Lines with fewer than five fields give no readings |
| Codec.LoggerRecord | log.js:16-24 | The id is the parsed first field with no fallback; a five-field row gives its fields verbatim or parsed; a missing date or time is read as `undefined` |
| Codec.LoggerRows | log.js:15-25 | Line k after the header gives reading k, built from that line's fields |
| Codec.LoadData | log.js:9-26 | Text of fewer than two lines gives no readings; otherwise the header is dropped and each later line gives its own reading, in order |
| Codec.ReadersAgree | log.js:12-25 | When every line has five fields and a nonzero id, the page and the logger read the same readings |
| Codec.Serialize | app.js:88-94 | The written text starts with the header line and ends with a newline |
| Codec.SerializedLines | app.js:88-94 | The written text splits back into the header and one line per reading |
| Codec.FieldsParseBack | app.js:91 | The id, systolic, diastolic and heart rate of a written row parse back as written; a falsy heart rate comes back null |
| Codec.PageRoundTrip | app.js:67-94 | Reading the written text gives each reading back with a replacement id for a falsy id and null for a falsy heart rate |
| Codec.PageRoundTripExact | app.js:67-94 | The page's round trip is the identity iff every id is nonzero and every heart rate is null or nonzero |
| Codec.LoggerRoundTrip | log.js:9-34 | Loading the saved text gives each reading back with null for a falsy heart rate |
| Codec.LoggerRoundTripExact | log.js:9-34 | The logger's round trip is the identity iff every heart rate is null or nonzero |
| Codec.ZeroRateComesBackNull | app.js:91 | A heart rate of 0 is written empty and comes back null, in both readers |
| Codec.ZeroIdIsReplaced | app.js:76 | An id of 0 comes back as the page's fallback id, while the logger keeps it |
| Store.FindSlot | app.js:142 | `findIndex`: −1 iff the slot is free; otherwise the first reading in the slot |
| Store.RemoveAt | app.js:145 | `splice(i, 1)` removes exactly the reading at i |
| Store.Upsert | app.js:142-152 | A declined replacement leaves the list as it was; otherwise the result is ordered, holds the new reading, loses exactly the first reading of the slot if the slot was taken, and grows by one only if the slot was free |
| Store.UpsertDrawsFrom | app.js:142-152 | Every stored reading is the new one or one that was there before |
| Store.UpsertKeepsSlotsUnique | app.js:142-152 | A slot-unique list stays slot-unique |
| Store.UpsertPlacesReading | app.js:142-152 | When the reading is stored, it occurs once and is the only reading in its slot |
| Store.UpsertKeepsDayHalves | log.js:70-80 | A list holding only AM and PM readings keeps that shape when an AM or PM reading is stored |
| Store.UpsertHoldsReading | log.js:70-76 | After a replacing store, the first reading in the new reading's slot is that reading |
| Store.UpsertMatchesAnySort | app.js:148-152 | Any ordered arrangement of the upsert's readings is the modelled result |
| Store.UpsertIdempotent | log.js:70-80 | Adding the same reading twice gives the same list as adding it once |
| Store.PageRate | app.js:139 | `hr \|\| null`: the heart rate is kept iff it is truthy, so it survives a round trip |
| Store.PageEntry | app.js:123-140 | No reading is built iff systolic or diastolic parses to 0 or NaN |
| Store.SaveReading | app.js:122-152 | A falsy systolic or diastolic, or a declined replacement, leaves the list unchanged; otherwise the list is ordered, holds the reading built from the inputs, and grows by one iff the slot was free |
| Store.SaveKeepsStable | app.js:122-154 | Saving keeps every reading one that survives the page's round trip |
| Store.SaveKeepsSlotsUnique | app.js:142-152 | Saving keeps the list slot-unique |
| Store.LoggerRate | log.js:67 | The heart rate is null iff the argument is absent or empty |
| Store.LoggerSlot | log.js:64 | The time defaults to AM and is otherwise the argument's text |
| Store.LoggerEntry | log.js:61-68 | The new reading has id `now` and the target date, time AM when none is given and otherwise the argument, parsed pressures, and a null heart rate iff the argument is absent or empty |
| Store.AddReading | log.js:57-80 | The logger always stores the new reading, replacing without asking, and leaves the list ordered |
| Store.AddKeepsSlotsUnique | log.js:70-80 | Adding keeps the list slot-unique |
| Store.AddKeepsDayHalves | log.js:64 | Adding an AM or PM reading keeps a list of AM/PM readings one |
| Store.SaveAndAddAgree | log.js:57-80 | With nonzero pressures, no or a nonzero heart rate, an AM/PM time and a confirmed replacement, the page and the logger store the same list |
| Store.ZeroRateArgumentDiverges | log.js:67 | A heart-rate argument "0" is stored as 0 by the logger and as null by the page |
| Store.Without | app.js:177 | The filter keeps exactly the readings whose id differs, and nothing else |
| Store.Delete | app.js:175-181 | Without confirmation nothing changes; with it, no reading with the id remains and every kept reading was there |
| Store.WithoutUnknownId | app.js:177 | Deleting leaves the list unchanged iff no reading has the id |
| Store.DeleteNaNIsNoOp | app.js:177 | A NaN id matches nothing, so deleting it changes nothing |
| Store.WithoutKeepsOrder | app.js:177 | Deleting keeps an ordered list ordered |
| Store.WithoutKeepsSlotsUnique | app.js:177 | Deleting keeps a slot-unique list slot-unique |
| Store.DeleteKeepsStable | app.js:177 | Deleting keeps every reading one that survives the round trip |
| Store.Import | app.js:197-207 | The data is replaced by the parsed file iff it parses to some readings and the user confirms |
| Store.Restore | app.js:58-61 | No saved text gives no readings; otherwise the readings the saved text parses to |
| Store.StableRoundTrip | app.js:63-94 | Readings that survive the round trip come back exactly from the written text |
| Store.RestoreAfterSave | app.js:58-65 | Restoring what was saved gives back the saved readings |
| Store.ExportImportRoundTrip | app.js:183-207 | Importing an exported non-empty list replaces the data with exactly that list |
| Store.EmptyExportImportsNothing | app.js:199-207 | Importing an export of no readings leaves the data unchanged |
| Stats.Values | app.js:224-225 | One systolic (or diastolic) value per reading, in order |
| Stats.HeartRates | app.js:226 | Only truthy heart rates are averaged, and each truthy one is |
| Stats.NoHeartRates | log.js:133 | There is no heart-rate average iff no reading has a truthy heart rate |
| Stats.PageAverage | app.js:221 | The page's average is 0 for an empty list; otherwise NaN iff some value is NaN, and else the integer nearest the mean, a half rounded up |
| Stats.CalculateStats | app.js:213-230 | No statistics for an empty list; otherwise the count, the rounded means of systolic and diastolic, and the rounded mean of the truthy heart rates, or 0 when there are none |
| Stats.PageAverageWithinRange | app.js:221-225 | The page's systolic and diastolic averages lie within the values' range |
| Stats.PageHeartRateWithinRange | app.js:226 | The page's heart-rate average lies within the truthy heart rates' range |
| Stats.TwoReadingAverages | app.js:221-226 | 118/76/60 and 122/81/65 average to 120/79/63 over two readings |
| Stats.LoggerStats | log.js:108-136 | No summary for an empty list; otherwise the count, the rounded means, the status of the mean pair, a heart-rate mean iff some heart rate is truthy, and a highest and a lowest value per measure that occur in the list and bound it, each NaN iff some value is |
| Stats.LoggerAverageWithinRange | log.js:116-136 | The logger's mean of a measure lies between its lowest and highest |
| Stats.LoggerExtremesBound | log.js:135-136 | Highest and Lowest bound that measure on every reading |
| Stats.HighestMayMixReadings | log.js:135 | Highest takes systolic and diastolic maxima independently, so it can pair values from different readings |
| Stats.PageAndLoggerAgree | log.js:116-133 | The page and the logger give the same averages and count; the logger omits the heart-rate average exactly where the page shows 0 |
| Stats.DayValues | app.js:273-278 | A day's bucket is empty iff no reading has that exact date, and holds the value of every reading of that date |
| Stats.DayValuesSingle | app.js:273-278 | One reading adds its value to its own day's bucket and to no other |
| Stats.DayValuesAppend | app.js:273-278 | The buckets are filled reading by reading, in list order |
| Stats.ChartAverage | app.js:284 | The chart's average of an empty bucket is null |
| Stats.Series | app.js:264-304 | One point per day key, in key order; null iff no reading has that date, otherwise the rounded mean of the day's values |
| Stats.SeriesIgnoresOtherDays | app.js:273-278 | A reading dated outside the keys, and not named after an inherited object member, changes no series, wherever it stands |
| Stats.SeriesPointWithinRange | app.js:284 | A chart point lies within the day's values' range |
| Cli.Upper | log.js:182-183 | Upper-casing keeps the length and upper-cases each letter |
| Cli.Sniff | log.js:181-191 | An AM/PM token sets the upper-cased time, a dash number or ISO date sets the date, another numeric token sets the heart rate, and any other token changes nothing |
| Cli.SniffAll | log.js:179-191 | The loop leaves an AM/PM time AM/PM, and each of date and heart rate is either its default or a token of its own kind |
| Cli.SniffAllKeepsLastOfEachKind | log.js:179-191 | After the loop, heart rate, time and date each hold the last token of their kind, or their default when there is none |
| Cli.IgnoredTokenChangesNothing | log.js:181-191 | A token that is neither AM/PM nor numeric is ignored |
| Cli.IsoTokenIsDate | log.js:186-189 | An ISO date token also parses as a number, but sets the date and never the heart rate |
| Cli.DashNumberIsDate | log.js:184-185 | A dash followed by a digit sets the date argument |
| Cli.PlusNumberIsRate | log.js:184-189 | A plus sign followed by a digit sets the heart rate, not a date |
| Cli.NumberIsRate | log.js:188-189 | A two-digit number sets the heart rate |
| Cli.SniffedTimeIsHalfDay | log.js:179-183 | The time the loop leaves is always AM or PM |
| Cli.ParseDate | log.js:43-55 | An ISO-shaped argument is returned verbatim; a dash argument is a day offset; anything else means today |
| Cli.TargetDate | log.js:43-55 | No or an unrecognised date argument gives today, a dash offset gives the shifted day, and an ISO date is used verbatim |
| Cli.SniffedDateIsUnderstood | log.js:46-52 | Every date argument the loop keeps is a verbatim date or a numeric offset, never the fallback to today |
| Cli.ViewCount | log.js:168 | The view count is the parsed argument, or 10 when that is missing, 0 or NaN |
| Cli.Slice | log.js:99 | `slice(0, n)` is the prefix of length min(n, size), and a negative n counts back from the end |
| Cli.ViewReadings | log.js:88-103 | The view lists the first min(count, size) readings for a positive count |
| Cli.ViewDefaultsToTen | log.js:168 | `--view` alone lists the first ten readings |
| Cli.NegativeCountDropsFromEnd | log.js:99 | `--view -n` lists all but the last n readings |
| Cli.ParseCommand | log.js:163-194 | No arguments, `--help` or `-h` mean help; `--view`/`-v` means a view of the parsed count; `--stats`/`-s` means statistics; an add carries the first two arguments as non-empty pressures and the options the loop sorts out of the rest; an error has exit code 1 |
| Cli.AddNeedsBothPressures | log.js:172-177 | Outside the flags, the arguments are an add iff both pressures are present and non-empty; otherwise they are error 1 |
| Cli.RunLogger | log.js:163-194 | Only an add changes the stored list; an add stores exactly what `addReading` stores for the sniffed options and the target date, so the new reading is in the ordered list; the exit code is 1 exactly for the error |
| Cli.RunKeepsDayHalves | log.js:179-193 | A run keeps a list of AM/PM readings one |
| Cli.RunKeepsSlotsUnique | log.js:57-80 | A run keeps the stored list slot-unique |

## Left out

- Rendering is left out, because it is presentation: the DOM, `innerHTML` strings, Chart.js configuration, the 50-row history table, the help text, the status badge of `updateStatusDisplay`, event listeners and `setTimeout`.
- Storage and output are left out, because they are I/O: `localStorage`, `fs`, `FileReader`, `Blob`, `console.log` and `process.exit`. The model works on the text read or written, and on an exit code.
- `confirm` is a `bool` parameter, because it is a user dialog.
- Clock values are parameters, because they depend on the clock and the time zone: the `now` used for new ids and for the page's fallback ids (`now + i`), the logger's date for today and for today plus an offset (`Cli.TargetDate`), and the chart's 14 day keys.
- The "last 7 days" counts (app.js:216-219, log.js:122-125) are left out, because they use the clock and floating-point day differences.
- `getLocalDateString`, `shiftDate`, `updateDateDisplay` and `setTime` are left out, because they are calendar and UI state.
- Cli.ParseDate: a day offset is kept as a parsed number and not turned into a calendar date. A NaN offset would make `toISOString` throw. The command line never produces one (`Cli.SniffedDateIsUnderstood`).
- `parseInt` is simplified: leading whitespace, an optional sign, and the longest run of ASCII digits. A `0x` or `0X` prefix, which JavaScript reads as hexadecimal, is not modelled: typed arguments such as `0x78` read as 0 here but as 120 in JavaScript. Text the program writes itself is always decimal, so the round-trip lemmas are unaffected.
- `parseInt` results are exact integers. JavaScript rounds digit strings above 2^53 to the nearest double, and the model does not.
- Number-to-text is plain decimal. The exponent form JavaScript uses for very large numbers is not modelled.
- Averages are computed exactly on unbounded integers. Rounding of double-precision division for sums beyond 2^53 is not modelled.
- `localeCompare` on dates is plain code-point order. Locale collation is not modelled, because ISO dates compare the same either way.
- The sort comparator is not a consistent order on ties, so JavaScript leaves the result of sorting tied readings open. The sort is modelled as an insertion sort into the order. `Records.SortIsDetermined` shows this is the only possible result on slot-unique AM/PM lists. Lists holding other time texts or duplicate slots (possible only through imported files) have no determined order in the source, and the model fixes one.
- The logger reads a short row's missing fields as `undefined`. The model stores the text "undefined", which is what `saveData` writes back. Sorting such rows would throw in the source, and that is not modelled.
- Cli.Upper upper-cases ASCII letters only. No other character upper-cases to A, M or P, so the AM/PM test is exact.
- Store.AddReading states that the list is ordered and holds the new reading. The slot bookkeeping is stated once, on `Store.Upsert`, which it calls with replacement always on.
- Stats.Series: a reading whose date names a member every JavaScript object inherits (`constructor`, `toString`, `__proto__` and the like) makes the lookup at app.js:274 find that member, and line 275 then throws. The model has no exceptions, so its series simply skips such a reading; Stats.SeriesIgnoresOtherDays requires the date not to be one of these names.
- Cli.ViewReadings: a row too short to have a time field leaves `time` undefined in the source, and `r.time.padEnd(4)` at log.js:102 then throws. The model reads the field as the text "undefined" and lists the row.
- Stats.Series treats its day keys as a list. The source keys are 14 consecutive dates, so they never repeat; a repeated key, which a JavaScript object would merge into one bucket, gives one point per occurrence here.
