# N3 decay-time data reader, modelled in Dafny

`N3_Code.py` reads a text file of measured decay times, histograms them and
fits an exponential-plus-linear curve. This project models the part of the
script that reads the file:

- **The first pass** (`Scanner`, properties in `ScanProperties`). It skips
  the configured header lines, then walks the remaining lines. After
  `strip()`, a line is blank when nothing is left or, in CSV mode, when only
  commas are left. Every other line is a data row. The pass counts data rows
  and blank lines, remembers the first and last data rows and the field count
  of the latest one, and raises a warning that stays raised when two
  neighbouring data rows disagree on their field count. Then it reports these.
- **The parameter check** (`FitParameters`). The fit function's argument
  names, the independent variable first, are compared with the tuple of
  initial guesses. The check either reports the mismatch or lists each
  parameter with its guess.
- **The second pass** (`Extraction`). It counts every line of the file and
  allocates that many zeroed time slots. Then it stores, line by line, the
  first whitespace-separated token of each line, read as nanoseconds and
  converted to microseconds. It stops at the first line with no token or with
  a token that is not a number. It reads every line of the file, header and
  blank lines included.

`Text` models the Python string operations these rely on. `str.isspace` is
given by its code-point ranges. `strip()` and `strip(",")`, `split()` and
`split(",")` are defined with their Python meaning, and each is proved
against an independent description. `strip()` keeps the slice between a
whitespace prefix and a whitespace suffix. `split()` returns, from the front,
the maximal run of non-whitespace that starts at the first non-whitespace
character, followed by the pieces of the rest; its pieces are exactly the
maximal runs, the non-whitespace characters are kept in order, and leading or
trailing whitespace changes nothing. `split(",")` is checked by split/join
round trips, and its first field is the text before the first comma.

The file is given as the list of its lines, as Python's text-mode iteration
yields them: each line ends with `\n` except possibly the last, because
universal-newline reading has already turned `\r` and `\r\n` into `\n`. The
model accepts any list of strings, including lists no file produces, and every
property holds for all of them. The script's hand-edited switches `header`, `head_lines` and
`CSV` are a `Config`.

The first pass is written as the script runs it: a method whose loop updates
the counters and flags in place (`Scanner.Scan`). It is proved equal to a
fold of one loop step (`Scanner.Summary`). That fold is proved equal to a
closed form stated over the file's data rows (`Scanner.SummaryIsSurvey`).
The properties are stated about that closed form.

Where the script fails, the model returns an error value:
- `next(raw_data)` past the end of the file becomes `HeaderPastEnd`;
- the report's read of the never-assigned `num_last` when no data row was
  found becomes `NoDataRow`;
- the second pass's `data[0]` on a line with no token becomes `NoToken`;
- a first token that is not a number becomes `NotANumber`.

The data file may be whitespace- or comma-delimited, but the code's second
pass always splits on whitespace, even in CSV mode. The model follows the code.

## Model

| member | source | states |
|---|---|---|
| Text.StripFacts | N3_Code.py:95-97 | `strip()` keeps a slice of the line. What it drops at either end is whitespace. What it keeps neither starts nor ends with whitespace. It is empty exactly when the whole line is whitespace. |
| Text.TrimLeftFacts | N3_Code.py:95-97 | Trimming the left end drops a prefix made only of characters in the set, and what is left does not start with one. |
| Text.TrimRightFacts | N3_Code.py:95-97 | Trimming the right end drops a suffix made only of characters in the set, and what is left does not end with one. |
| Text.Tokens | N3_Code.py:114-116 | A string ending in a non-whitespace character has at least one piece. |
| Text.TokensAreTokens | N3_Code.py:114-116 | Every piece `split()` returns is non-empty and free of whitespace. |
| Text.TokensOfSpaces | N3_Code.py:114-116 | Whitespace-only text splits into no pieces. |
| Text.TokensOfToken | N3_Code.py:114-116 | A non-empty run without whitespace splits into itself. |
| Text.TokensSnoc | N3_Code.py:114-116 | One more character: whitespace adds nothing, a character after whitespace (or at the start) opens a new piece, any other character extends the last piece. |
| Text.TokensAppend | N3_Code.py:114-116 | Text cut at a whitespace boundary splits into the pieces of the left part followed by those of the right part. |
| Text.TokensAround | N3_Code.py:114-116 | Leading whitespace adds no piece, and a whitespace boundary after the middle part separates its pieces from the rest. |
| Text.TokensFirstRun | N3_Code.py:114-116 | `split()` gives no piece for whitespace-only text. Otherwise its first piece is the maximal run of non-whitespace starting at the first non-whitespace character, and the other pieces are those of the text after that run. |
| Text.TokensOfStrip | N3_Code.py:168-169 | `strip()` before `split()` changes nothing: the pieces are the same. |
| Text.TokensCountRuns | N3_Code.py:114-117 | `split()` returns exactly one piece per maximal run of non-whitespace characters. |
| Text.TokensKeepText | N3_Code.py:114-116 | Concatenating the pieces of `split()` gives exactly the non-whitespace characters of the row, in order. |
| Text.TokensNonEmpty | N3_Code.py:169-170 | A string holding any non-whitespace character has a first token. |
| Text.SplitOn | N3_Code.py:110-112 | `split(",")` returns one more field than the row has commas, and no field contains a comma. |
| Text.SplitThenJoin | N3_Code.py:110-112 | Joining the fields of `split(",")` back with commas gives the row: splitting loses and invents nothing. |
| Text.JoinThenSplit | N3_Code.py:110-112 | Splitting comma-free fields joined by commas gives the same fields back, empty fields included. |
| Text.SplitOfField | N3_Code.py:110-112 | A comma-free row is a single field. |
| Text.SplitOfFieldThenSep | N3_Code.py:110-112 | A comma-free field followed by a comma splits off as the first field. |
| Text.SplitFirstField | N3_Code.py:110-112 | The first field of `split(",")` is the text up to the first comma, or the whole text when it has none. |
| Scanner.SkipHeader | N3_Code.py:88-90 | With `header` set, the header loop consumes exactly `head_lines` lines, or none when that count is not positive. It fails when the file ends first. |
| Scanner.Scan | N3_Code.py:80-151 | The in-place loop over the lines after the header ends in the outcome `ScanSpec` describes: the report of rows, last field count, blank lines, warning, first and last rows, or the failure. |
| Scanner.SummarySnoc | N3_Code.py:94-131 | Scanning one more line is one more loop step applied to the state so far. |
| Scanner.StepBlank | N3_Code.py:99-105 | A blank line (empty after `strip()`, or only commas in CSV mode) changes nothing but the blank count. |
| Scanner.DataRowsSnoc | N3_Code.py:99-108 | A further line adds its stripped text to the data rows if it is not blank, and adds one to the blank count if it is. |
| Scanner.DisagreeSnoc | N3_Code.py:121-127 | A new field count makes the counts disagree exactly when they already did, or when it differs from the last count. |
| Scanner.SurveyBlank | N3_Code.py:99-105 | For a blank line, the closed-form state after it is one loop step from the closed-form state before it. |
| Scanner.SurveyData | N3_Code.py:107-131 | For a data row, the same holds: the row count grows, `first` clears, `first_row` is set once, the warning compares with the previous data row, and `num_last` and `last_row` become this row's. |
| Scanner.SummaryIsSurvey | N3_Code.py:94-131 | After any lines, the loop's state is determined by the data rows. The row count is their number. `first` means there are none. `first_row` and `last_row` are the first and last data rows. `num_last` is the last row's field count. The warning means some neighbouring field counts differ. The blank count is the number of blank lines. |
| ScanProperties.LinesPartition | N3_Code.py:99-108 | Every line after the header is counted exactly once, either as a blank line or as a data row. |
| ScanProperties.NoRowsIffAllBlank | N3_Code.py:99-108 | There are no data rows exactly when every line is blank. |
| ScanProperties.BlankLineIff | N3_Code.py:95-105 | A line is blank exactly when it is all whitespace or, in CSV mode, a run of commas with only whitespace around it. Whitespace between commas makes a data row. |
| ScanProperties.DataRowsShape | N3_Code.py:95-108 | Every data row is non-empty, starts and ends with a non-whitespace character, and is not blank. |
| ScanProperties.FirstDataRow | N3_Code.py:121-123 | `first_row` is the stripped text of the first non-blank line. |
| ScanProperties.LastDataRow | N3_Code.py:131 | `last_row` is the stripped text of the last non-blank line. |
| ScanProperties.CountsAt | N3_Code.py:109-117 | The recorded field count of each data row is that row's field count. |
| ScanProperties.FieldCountIs | N3_Code.py:109-117 | A row's field count is its number of commas plus one in CSV mode, and its number of whitespace-separated runs otherwise. |
| ScanProperties.WarningIffRagged | N3_Code.py:119-127 | The warning is raised exactly when some data row's field count differs from the data row just before it. Blank lines in between do not separate the two. |
| ScanProperties.StepKeepsWarning | N3_Code.py:121-127 | No loop step clears the warning, and after the first data row no step changes `first_row`. |
| ScanProperties.WarningSticky | N3_Code.py:121-127 | Once raised, the warning stays raised whatever lines follow. Once set, `first_row` never changes. |
| ScanProperties.StepIgnoresBlankCount | N3_Code.py:94-131 | No loop step reads the blank count. |
| ScanProperties.BlankLineInserted | N3_Code.py:99-105 | A blank line inserted anywhere changes only the blank count. It neither resets nor takes part in the field-count comparison. |
| ScanProperties.HeaderContentIgnored | N3_Code.py:88-90 | The outcome does not depend on what the header lines say, only on how many are skipped. |
| ScanProperties.ScanHeaderPastEnd | N3_Code.py:88-90 | The header skip fails exactly when the file has fewer lines than are skipped. |
| ScanProperties.ScanNoDataRow | N3_Code.py:138-151 | The report fails for want of a data row exactly when every line after the header is blank. All those lines were then counted as blank. |
| ScanProperties.ScanReport | N3_Code.py:138-151 | A successful report has at least one row. Rows plus blank lines equal the lines after the header. The first and last rows are the first and last data rows. The column count is the last row's field count. `head_lines` is echoed as configured. The warning is reported exactly when some data row's field count differs from the data row before it. |
| FitParameters.CheckGuesses | N3_Code.py:67-77 | The mismatch is reported exactly when the argument count minus one differs from the guess count. Otherwise the listing gives that count and pairs argument `i+1` with guess `i`, for every guess, in order. |
| Extraction.CountLines | N3_Code.py:155-159 | The counting loop counts every line of the file. |
| Extraction.ToMicros | N3_Code.py:170 | A number is produced exactly when the token reads as one. The stored value is that number divided by 1000. A token that does not read fails as not a number. |
| Extraction.LineTime | N3_Code.py:168-170 | A line yields no token exactly when it is whitespace only. Otherwise its time is read from the run of non-whitespace that starts at its first non-whitespace character and ends at the next whitespace or the line end. |
| Extraction.FirstFault | N3_Code.py:167-171 | The number of lines stored is the index of the first line that yields no time: every line before it yields one, and that line does not. It is the line count when every line yields a time. |
| Extraction.StoreTimes | N3_Code.py:163-171 | The array has one zeroed slot per line. Slot `k` holds the time read from line `k` for every line before the first that yields none. The remaining slots stay zero. A fault is reported exactly when some line yields no time, and it is that line's fault. |
| Extraction.SecondPass | N3_Code.py:154-175 | The second pass allocates one zeroed slot per line of the file. It stores the time of every line before the first that yields none, leaves the other slots zero, and stops with that line's fault. |
| Extraction.BlankLineStopsSecondPass | N3_Code.py:167-174 | For the lines `1200\n` and `\n`, the first pass reports one data row. The second pass stores one time and then finds no token. |
| Extraction.HeaderReadAsTime | N3_Code.py:167-170 | For the lines `time\n` and `1200\n` with one header line, the first pass skips the header and reports one data row. The second pass reads the header word as a time, so when it is not a number it stops before storing anything. |
| Extraction.RowTime | N3_Code.py:168-170 | A time read from a first-pass data row comes from its first field. In CSV mode that is the text before the first comma, and it always exists. Otherwise it is the first run of non-whitespace, which is missing only from a whitespace-only row. |
| Extraction.DataRowsHaveFirstField | N3_Code.py:99-117 | Every data row the first pass finds has a first field in either mode, so reading data rows never runs out of tokens. |

## Left out

- The file dialog, the window handling, opening, seeking and closing files: the file is given as its lines.
- Splitting the file into lines and newline translation: text-mode reading ends lines only at `\n`, `\r` and `\r\n`, and turns each into `\n`. The lines are given already split.
- `float()`: reading a number is the parameter `parse`. The division by 1000 is exact division on reals, without floating-point rounding.
- `fit_function` and the `co_varnames` lookup: the argument names are given. With a real count mismatch, the unpacking call at line 62 would already raise `TypeError` before the check runs. The check is modelled on its own.
- Printed text and its formatting. What is printed is the `Report`, `GuessCheck` and fault values.
- The histogram, the curve fit, the uncertainties and the plot that follow the second pass (from line 178 on). They are numerical library calls.
- Scanner.Scan: a run with no data row fails at the first report line that reads `num_last`. The warning print before it is not modelled. That print cannot fire when there are no data rows.

## Findings

| source | as written | input that shows it | evidently intended | confidence | as-written member | corrected member |
|---|---|---|---|---|---|---|
| N3_Code.py:167-174 | The second pass reads the first token of every line of the file. It does not skip the header lines or the blank lines that the first pass skipped. | The lines `1200\n` and `\n`, with no header and whitespace mode. The first pass reports one data row. The second pass stores one time, then hits `data[0]` on the second line, which has no token. | Read the first field of each data row found by the first pass. Every such row has one. | high, not executed (the source comments on this failure for trailing blank lines) | Extraction.BlankLineStopsSecondPass | Extraction.DataRowsHaveFirstField |
