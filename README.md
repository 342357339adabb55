# CSV ingester: a Dafny model of the line classifier and router

The repository is a one-shot batch loader, `src/Main.java`. It takes a file
name, reads `<base>.csv` line by line, classifies each line and routes it to
one of two sinks. A valid line goes into a SQLite table `tbl(A..J)` as one
row of ten text values. An invalid line goes, verbatim and followed by a line
break, into `<base>-bad.csv`. The program keeps three counters (`total`,
`success`, `failure`), prints a progress line at every thousandth line and
finally writes the counters to `<base>.log`.

This project models that behaviour and proves properties of it:

- `CsvSplit` models the quote-aware comma split of line 122. The regular
  expression splits at a comma exactly when the rest of the line after it
  holds an even number of `"` characters, and limit `-1` keeps empty fields.
  The model states that rule directly (`SplitsAt`) instead of modelling a
  regex engine.
- `RecordClassifier` models the validity test of line 124: no `,,` anywhere
  in the raw line and exactly `NUM_HEADERS` = 10 fields.
- `SinkRouter` gives the meaning of routing as pure functions:
  - `Step` routes one line and `Apply` routes a sequence of lines;
  - `ValidCount`, `ValidRows` and `Rejected` describe the expected counts and sink contents;
  - `Ticks` lists the progress notifications;
  - `FirstFailure` finds the line whose failing insert ends the run.
- `RouterState` is the imperative part:
  - class `Router` holds the three counters and the two sinks, mutated the
    way the `processData` lambda mutates the static fields and the rejects writer;
  - `ProcessLine` is that lambda and `ProcessAll` is the `forEach` loop;
  - `BindParameters` is the `setString` loop of `insertInto`.

  Each of them is proved against the functions of `SinkRouter`.
- `RunLog` models the three-line summary of `printLogs` and proves that the
  three counters can be read back from it.
- `Launcher` models `main`:
  - the base name and the four paths derived from it;
  - the ways a run can end, with its exit code;
  - the `Ingest` method that ties everything together.
- `Scenarios` works through concrete lines and runs: the example behaviours
  of the ingester and a few edge cases.

External effects become parameters:
- The input file arrives as `Option<seq<string>>`: `None` means it cannot be read.
- The database's answer to each insert arrives as `storage: seq<bool>`.
  It is consulted only for valid lines (`storage[i]` for line `i`).
- The arguments arrive as `seq<string>`.

## Model

| member | source | states |
|---|---|---|
| CsvSplit.FirstSplit | src/Main.java:122 | the result is the first comma at or after `from` with an even number of quotes after it, or the end of the line when there is none |
| CsvSplit.Split | src/Main.java:122 | splitting is total and always gives at least one field, so the empty line gives one empty field |
| CsvSplit.JoinSplit | src/Main.java:122 | joining the split fields with "," gives the line back exactly, so quotes and empty leading or trailing fields are kept |
| CsvSplit.SplitCutsAreSplitPoints | src/Main.java:121-122 | a position is a separator between split fields if and only if it holds a comma followed by an even number of quotes |
| CsvSplit.FieldCount | src/Main.java:122 | the number of fields is the number of split commas plus one |
| CsvSplit.QuotedCommaNotSplit | src/Main.java:121-122 | a comma inside a quoted stretch with no quote in it, followed by text with an even number of quotes, is never a split point |
| CsvSplit.NoSplitInField | src/Main.java:121-122 | no position inside a well-quoted value is a split point when an even number of quotes follows the value |
| CsvSplit.JoinEvenQuotes | src/Main.java:122 | a line made of well-quoted values holds an even number of quotes |
| CsvSplit.SplitJoinWellQuoted | src/Main.java:122 | values written the CSV way (plain, or quoted with no inner quote) and joined with "," split back into exactly those values |
| RecordClassifier.Classify | src/Main.java:122-124 | a valid line has exactly NUM_HEADERS values, and those values joined by "," are the line |
| RecordClassifier.ValidIff | src/Main.java:124 | a line is valid if and only if it holds no ",," and has exactly nine split commas |
| RecordClassifier.DoubleCommaRejected | src/Main.java:124-127 | every line holding ",," is invalid, whatever its field count and its quoting |
| RecordClassifier.ValidValuesCutAtSplitPoints | src/Main.java:122-124 | the values of a valid line are cut exactly at the line's split commas |
| RecordClassifier.EmptyInnerFieldGivesDoubleComma | src/Main.java:124-125 | an empty field that is neither first nor last puts ",," into the line |
| RecordClassifier.ValidInnerValuesNonEmpty | src/Main.java:124-125 | in a valid line only the first and the last value can be empty |
| RecordClassifier.ClassifyJoinValid | src/Main.java:122-124 | ten well-quoted values joined without ",," make a line that is valid with exactly those values |
| RecordClassifier.ClassifyJoinWrongCount | src/Main.java:122-124 | any other number of well-quoted values makes an invalid line |
| RecordClassifier.JoinNoDoubleComma | src/Main.java:124 | values with no ",," and no comma at their edges, all non-empty after the first, join into a line with no ",," |
| SinkRouter.StepRoutesOnce | src/Main.java:124-136 | one line changes exactly one sink: a valid line adds its split values as a row and one to `success`; an invalid line adds `line + "\n"` to the rejects and one to `failure`; `total` goes up by one and the accounting stays balanced |
| SinkRouter.ApplyAccounts | src/Main.java:120-145 | after a sequence of lines, `total` has grown by the number of lines and `success` by the number of valid lines; `failure` has grown by the number of invalid lines; the valid rows and the rejects have been appended in input order |
| SinkRouter.RunFromStart | src/Main.java:40-145 | a run from zeroed counters ends with total = number of lines, success = valid lines, failure = invalid lines, and the sinks holding exactly the valid rows and the rejected lines |
| SinkRouter.ApplyKeepsBalanced | src/Main.java:129-136 | total = success + failure, one row per success and one reject per failure, and each row ten values wide, at every line boundary |
| SinkRouter.ApplyMonotone | src/Main.java:129-136 | all three counters never decrease, and both sinks only grow at their end |
| SinkRouter.ApplyConcat | src/Main.java:144-145 | routing two chunks of lines one after the other is the same as routing them together |
| SinkRouter.ValidRowsConcat | src/Main.java:128-129 | the rows of a + b are the rows of a followed by the rows of b |
| SinkRouter.RejectedConcat | src/Main.java:132-133 | the rejects of a + b are the rejects of a followed by the rejects of b |
| SinkRouter.RejectedVerbatim | src/Main.java:132 | every rejects entry is some invalid input line, unchanged, followed by "\n" |
| SinkRouter.ValidRowsAreSplits | src/Main.java:122-128 | every stored row has ten values and is the classification of some valid input line |
| SinkRouter.SinksPartitionLines | src/Main.java:124-133 | there are as many rows as valid lines and as many rejects as invalid lines |
| SinkRouter.TicksExactly | src/Main.java:136-140 | a progress line is printed at total t if and only if t is a multiple of 1000 passed during the run |
| SinkRouter.TicksIncreasing | src/Main.java:136-140 | progress lines come out in increasing order of total |
| SinkRouter.TicksCount | src/Main.java:136-140 | the number of progress lines is the number of thousands crossed |
| SinkRouter.TicksOf2500 | src/Main.java:136-140 | 2500 lines from a fresh start print progress at 1000 and 2000 only |
| SinkRouter.FirstFailure | src/Main.java:160-168 | the run stops at the first valid line whose insert is refused: every line before it passes, and the line at that index fails |
| RouterState.BindParameters | src/Main.java:162-164 | parameters 1 to n are bound, and parameter i + 1 holds value i, for exactly the values given |
| RouterState.Router.constructor | src/Main.java:40-42 | the counters start at zero and both sinks empty |
| RouterState.Router.InsertInto | src/Main.java:160-170 | the values are stored as one row, in order, exactly when the database accepts them; otherwise the rows are unchanged |
| RouterState.Router.ProcessLine | src/Main.java:120-141 | the balance is kept; a line whose insert fails changes nothing; otherwise the new state is one routing step from the old one; a tick happens exactly when the new total is a multiple of 1000 |
| RouterState.Router.ProcessAll | src/Main.java:144-145 | the loop completes exactly when no insert fails; the final state routes every line before the first failure from the old state; the ticks are the multiples of 1000 passed on the way |
| RunLog.Decimal | src/Main.java:187-189 | a counter is printed as decimal digits with no leading zero |
| RunLog.ParseDecimalOfDecimal | src/Main.java:187-189 | reading the printed digits gives the counter back |
| RunLog.CounterLine | src/Main.java:187-189 | a labelled counter line is read back as its counter |
| RunLog.SummaryLines | src/Main.java:187-189 | the summary is exactly three lines: "Received   : " total, "Successful : " success, "Failed     : " failure |
| RunLog.SummaryRoundTrip | src/Main.java:187-189 | the three counters are read back from the summary text unchanged |
| Launcher.BaseNameSpec | src/Main.java:45-50 | no argument is an error; an argument shorter than four characters is an error; otherwise the base name is the argument less its last four characters |
| Launcher.BaseNameOfExtended | src/Main.java:50 | putting any four-character extension on a base name and taking it off again gives the base name |
| Launcher.InputIsArgument | src/Main.java:50-76 | the file read is the argument itself if and only if the argument ends in ".csv" |
| Launcher.PathsDistinct | src/Main.java:53-88 | the database, input, rejects and log files derived from one base name are four different names |
| Launcher.Ingest | src/Main.java:44-92 | `main` ends in the outcome `RunOutcome` describes, for every argument list, input and sequence of insert answers |
| Launcher.RouteAll | src/Main.java:64-76 | processing on a fresh router completes exactly when no insert fails, and leaves the state of routing every line before the first failure from zeroed counters |
| Launcher.FinishedLogCounts | src/Main.java:76-88 | a run that finishes exits with 0; its log reads back as the number of lines, of valid lines and of invalid lines; its rows and rejects are exactly those of the input lines |
| Launcher.FinishedIff | src/Main.java:160-168 | with a good argument, a run finishes if and only if no attempted insert fails |
| Launcher.AbortKeepsEarlierLines | src/Main.java:166-168 | a run whose first failing insert is at line n ends with exit status 1; the state is that of lines 0 to n - 1, rows included; no log is written |
| Scenarios.CleanValuesClassify | src/Main.java:122-124 | a line built from clean values splits back into them, and is valid if and only if there are ten of them |
| Scenarios.PlainLineIsLoaded | src/Main.java:122-128 | a,b,c,d,e,f,g,h,i,j is valid with the values a to j in order |
| Scenarios.MissingValueIsRejected | src/Main.java:124-133 | a,,c,d,e,f,g,h,i,j splits into ten values yet is invalid |
| Scenarios.NineValuesAreRejected | src/Main.java:124-133 | a,b,c,d,e,f,g,h,i is invalid |
| Scenarios.QuotedCommaValue | src/Main.java:121-124 | "a,b",c,d,e,f,g,h,i,j,k is valid and its first value is "a,b" with the quotes kept |
| Scenarios.QuotedCommaNineValues | src/Main.java:121-124 | "a,b",c,d,e,f,g,h,i,j has nine values and is invalid |
| Scenarios.DoubleCommaInFirstValue | src/Main.java:124 | a ",," inside the first value is a ",," of the line |
| Scenarios.QuotedDoubleCommaIsRejected | src/Main.java:124-127 | "a,,b",c,d,e,f,g,h,i,j,k splits into ten values yet is invalid, because of the ",," inside the quotes |
| Scenarios.EmptyFirstValueIsLoaded | src/Main.java:122-124 | ,b,c,d,e,f,g,h,i,j is valid with an empty first value |
| Scenarios.EmptyLine | src/Main.java:122-124 | the empty line is one empty field and is invalid |
| Scenarios.OddQuotesFollowSuffixParity | src/Main.java:122 | a,"b,c splits into a,"b and c: the split counts the quotes after each comma, not the quotes before it |
| Scenarios.RunOf2500Lines | src/Main.java:136-189 | 2500 lines with 2400 valid ones and every insert accepted finish; the log reads 2500, 2400 and 100; progress is printed at 1000 and 2000 |
| Scenarios.InsertFailsAtLine1500 | src/Main.java:160-168 | an insert that fails on line 1500 of 2500 ends the run with status 1; the 1499 earlier lines are accounted for and their rows stay stored |

## Left out

- The JDBC work is not modelled: opening the connection, `createTable`, preparing and running the insert statement. An insert is a row appended to `rows`, and the database's verdict is the `storage` parameter. A failure to create the database or the table is not an outcome of the model.
- File creation and writing are not modelled: `createNewFile`, `FileWriter`, `PrintWriter`, `BufferedWriter`. The rejects file is the `rejects` sequence and the log is its text. Failures to create the rejects file or the log file, and the log-write failure reported on the error stream, are not outcomes of the model.
- Reading the input is not modelled. `Files.lines` is replaced by a sequence of lines, or `None` when the file cannot be opened. Line terminators and character decoding are not modelled, and neither is an I/O error part way through the stream.
- A `PrintWriter` never throws on `append`, so a rejects write cannot fail in this code. The model follows the code: a rejects write is never fatal, even though an unwritable rejects file could be read as a fatal error.
- Buffered rejects are not modelled. When `insertInto` calls `System.exit`, the buffer is not flushed, so text still in it is lost. `InsertAborted` carries the rejects routed so far as a logical state, not as file contents.
- Both output files are opened in append mode, so text from earlier runs stays in front. `println` also adds the platform line separator after the summary. The model holds only what one run writes, without that separator.
- Console output is not modelled except the progress decision: the banner lines, the progress text and the error messages.
- RouterState.Router.ProcessLine: the counters are unbounded naturals; the Java `int` wrap-around after 2^31 - 1 lines is not modelled.
- The regex engine is not modelled. The split is specified by its meaning: a comma splits when an even number of quotes follows it.
- `usage()` and `System.exit` are modelled only by their effect: an `Outcome` and its exit code.
- Where the documented behaviour and the code disagree, the model follows the code:
  - The documented example of a quoted delimiter, `"a,b",c,d,e,f,g,h,i,j`, is said to be valid. It has only nine values, so the code rejects it (`Scenarios.QuotedCommaNineValues`). The valid case, with a tenth value `k`, is `Scenarios.QuotedCommaValue`.
  - The documentation asks that a ",," inside quotes not reject a line. The code rejects any line with ",," in its raw text (`Scenarios.QuotedDoubleCommaIsRejected`).
  - The documentation calls a failed rejects write fatal. As noted above, such a write cannot fail in this code.
- The argument is a file name with a four-character extension: the code drops the last four characters, whatever they are, and then reads `<base>.csv`. An argument shorter than four characters makes `substring` throw; this is modelled as `NameTooShort`.
