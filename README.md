# Phonebook console application: a Dafny model

The phonebook is a console program that keeps contacts in a `;`-separated
CSV file. The file starts with a header of seven columns: `ИД`, `Имя`,
`Фамилия`, `Отчество`, `Компания`, `Рабочий номер` and `Личный номер`.
In the last two the program writes `й` as two code points, `и` followed by
U+0306 COMBINING BREVE, and the model keeps that spelling.

`main.py` reads the command line and decides which file to open. It adds a
`.csv` extension when the name lacks one, creates a missing file holding only
the header, and then starts the `Phonebook` class (`phonebook.py`). That
class shows a numbered menu, and from it the user can:

- add a record, typed column by column and checked by the name and number
  validators;
- page through all records nine at a time, using `<`/`p`, `>`/`n`, `q` and a
  record number;
- generate `n` sample rows.

`read_last_line` finds the last non-blank line that follows a line break
(so never the header, the first line). Deleting,
changing and searching are stubs in the source.

The model is split into modules that follow the source:

| file | module | models |
|---|---|---|
| `text.dfy` | `Text` | `str.strip`, `str.isdigit`, `int()`/`str()` on naturals, `in` on strings |
| `validators.dfy` | `Validators` | `_check_name` and `_check_number` |
| `paging.dfy` | `Paging` | the arithmetic of `pagination` and the page keys of `show_all_records` |
| `last_line.dfy` | `LastLineScan` | what `read_last_line` returns, as a function of the file text |
| `record_entry.dfy` | `RecordEntry` | the field collection of `add_record`, as a function of the typed lines |
| `phonebook.dfy` | `Phonebook` | the `Phonebook` class with its page state and the rows it appends; `run`'s menu dispatch |
| `launcher.dfy` | `Launcher` | `process_file` and `main` |

The typed lines are a script, a sequence of strings. When the script runs out
before the source would stop asking, Python's `input()` would raise
`EOFError`; the model reports that as its own outcome. A file is given as its
text when it is read. The rows a session appends are kept in the class field
`appended`. The file system of `main.py` is the set of existing directories
and the set of existing (directory, file name) pairs. `os.path.split` is a
parameter of the launcher functions.

## Model

| member | source | states |
|---|---|---|
| Text.Strip | phonebook.py:75 | `strip()` yields nothing exactly when the line is all whitespace; otherwise it is the contiguous part of the line after its leading whitespace |
| Text.StripTrimsEnds | phonebook.py:75 | what `strip()` leaves has no whitespace at either end |
| Text.StripCutsOnlySpace | phonebook.py:75 | `strip()` cuts away only whitespace, at both ends |
| Text.NatToString | phonebook.py:275-278 | the decimal form of a counter is a numeral without a leading zero |
| Text.ParseNatToString | phonebook.py:253 | `int(str(n)) == n` |
| Text.ParseNatZero | phonebook.py:253 | `int(s)` (the function `ParseNat`) is zero exactly when every digit of `s` is `0` |
| Text.ContainsIffSlice | phonebook.py:125 | `part in s` (the predicate `Contains`) holds exactly when `part` occurs in `s` as a contiguous slice |
| Validators.MatchesNamePattern | phonebook.py:163-164 | the pattern matches exactly the strings made only of Latin and Cyrillic letters, `"`, whitespace and `-` |
| Validators.CheckName | phonebook.py:154-166 | the name is returned unchanged exactly when every character is allowed; otherwise the check fails |
| Validators.KeepDigits | phonebook.py:181 | removing the non-digits leaves only digits and never lengthens the text; text that is already all digits is kept as is |
| Validators.KeepDigitsCounts | phonebook.py:181 | every digit occurs as often after removing the non-digits as before |
| Validators.KeepDigitsAppend | phonebook.py:181 | removing the non-digits from a concatenation is the concatenation of the two results |
| Validators.PhonePrefixDigits | phonebook.py:179-181 | a number starting with `+7` or `8` keeps a non-empty digit string starting with `7` (for `+7`) or `8` |
| Validators.CheckNumber | phonebook.py:169-183 | the check succeeds exactly for numbers starting with `+7` or `8`; it then returns the digits of the input, which are a numeral starting with `7` or `8` |
| Validators.CheckNumberOnStoredDigits | phonebook.py:179-183 | the digits kept from a `+7` number start with `7`, so they do not pass the check themselves |
| Validators.CheckNumberExample | phonebook.py:172-173 | `+7(123)456-78-90` is accepted as `71234567890` |
| Validators.CheckNumberRejectsExample | phonebook.py:179-183 | `123456` is refused |
| Paging.PageSlice | phonebook.py:52-55 | the page is the run of at most nine items starting at item `(page-1)*9`, and is empty past the end of the data |
| Paging.PageCount | phonebook.py:50 | `(n-1)//9+1` is the least number of nine-item pages that hold `n` items |
| Paging.PagesAfter | phonebook.py:49-50 | `pages` is recomputed to that count only for more than nine items and is otherwise left as it was |
| Paging.FirstPagesArePrefix | phonebook.py:52-55 | the first `k` pages read in order are exactly the first `9k` items |
| Paging.PagesPartitionData | phonebook.py:47-55 | the pages up to the page count give back the whole data without loss or repetition, and every later page is empty |
| Paging.PagingExample | phonebook.py:47-55 | 20 items make 3 pages; the third holds the last two items and the fourth is empty |
| Paging.NextPage | phonebook.py:242-250 | a page key lowers the page exactly when it is `<`/`p` and the page is above 1, and raises it exactly when it is `>`/`n` and the page is below `pages`; the page moves by at most one and stays within `1..max(1, pages)` |
| Paging.PageAfterInputsMoves | phonebook.py:237-250 | after a run of inputs (the function `PageAfterInputs`, one `NextPage` step per input) the page has moved by at most one per input |
| Paging.PageAfterInputsBounds | phonebook.py:242-250 | any run of inputs keeps the page within `1..max(1, pages)` |
| Paging.PageAfterInputsPositive | phonebook.py:242-244 | no run of inputs takes the page below 1 |
| Paging.NavigationOf | phonebook.py:239-254 | `q` leaves the loop, a numeral chooses the record `int(input)`, and the page keys redraw the page |
| LastLineScan.LineEnd | phonebook.py:75 | `readline()` stops at the first line break at or after the position, or at the end of the file |
| LastLineScan.ReadLineStopsAtBreak | phonebook.py:75 | the line `readline()` reads (the function `ReadLine`) is the text from the position up to the next line break or the end of the file, and holds no line break |
| LastLineScan.ScanBackTrimmed | phonebook.py:63-77 | the backward scan (the function `ScanBack`, stepping back one character at a time and stopping at a line break whose following line is non-blank once stripped) returns a non-empty line with no whitespace at either end |
| LastLineScan.LastCandidate | phonebook.py:64-77 | the last line break below a position that starts a non-blank line, with none after it |
| LastLineScan.ScanBackFindsLastCandidate | phonebook.py:63-77 | the scan finds nothing exactly when there is no such line break, and otherwise returns the stripped line after the last one |
| LastLineScan.LastLine | phonebook.py:58-79 | the result is a non-empty line with no whitespace at either end, or None |
| LastLineScan.LastLineIsLastCandidate | phonebook.py:58-79 | the result is None exactly when no line after a line break is non-blank; otherwise it is the stripped text of the last such line |
| LastLineScan.HeaderOnlyHasNoLastLine | phonebook.py:58-79 | a file holding only its header line, with or without a final line break, has no last line |
| LastLineScan.ScanBackSkips | phonebook.py:63-77 | over positions where no non-blank line starts, the scan moves on without stopping |
| LastLineScan.ScanBackBelowTail | phonebook.py:63-77 | below text appended after a line break, the scan returns what it returns on the original text |
| LastLineScan.AppendBlankLines | phonebook.py:74-77 | blank lines at the end of the file do not change the result |
| RecordEntry.Accept | phonebook.py:125-141 | a line is accepted for a number column exactly when it starts with `+7` or `8`, and its digits are stored; for any other column exactly when it is non-empty and made of name characters, and the line itself is stored; every accepted value is a valid field |
| RecordEntry.NumberColumnIffSlice | phonebook.py:125 | a column is a number column (the predicate `IsNumberColumn`) exactly when its name holds `номер` as a contiguous slice |
| RecordEntry.EmptyNameRejected | phonebook.py:133-136 | the empty line passes the name check but is refused, because the empty string is falsy |
| RecordEntry.CollectRecord | phonebook.py:102-146 | the collection fills at most every column and reads at most the lines typed |
| RecordEntry.CollectRecordShape | phonebook.py:102-146 | the fields collected are keyed by the first `filled` columns and each passed its check; each stored value is what its column's check made of one of the lines read that was not `q` (that line itself in a name column, its digits in a number column); no line before the last one read is `q`; fewer than all columns are filled exactly when the last line read was `q`; input that runs out first held no `q` |
| RecordEntry.QuitAtOnce | phonebook.py:109-122 | `q` as the first line collects the empty record |
| RecordEntry.AcceptedLineStored | phonebook.py:102-146 | a line accepted for the column being prompted is stored under that column (`data[step] = user_input`), and the collection goes on with the next column and line; a later column of the same name overwrites it |
| RecordEntry.RejectedLineSkipped | phonebook.py:125-136 | a refused line is read and dropped, and the same column is prompted again |
| Phonebook.GeneratedRow | phonebook.py:275-279 | row `i` has six cells, each its column prefix (the two number prefixes spelled with `и` + U+0306, as the program writes them) followed by `str(i)`: a numeral whose value is `i`, without leading zeros |
| Phonebook.GeneratedRows | phonebook.py:275-279 | `n` rows are generated, and row `i` is the six-cell `GeneratedRow(i)` |
| Phonebook.GeneratedRowsDistinct | phonebook.py:275-279 | generated rows are pairwise distinct and have six cells |
| Phonebook.ChooseFromMenu | phonebook.py:307-323 | `q` leaves, each key `1`..`6` dispatches its entry and nothing else does |
| Phonebook.PageAfterInputsSnoc | phonebook.py:237-250 | the page after one more input is the next page of the page before it |
| Phonebook.Phonebook.constructor | phonebook.py:9-37 | a new phonebook is on page 1 of 1 with nine items per page, has no chosen record and has appended nothing |
| Phonebook.Phonebook.Pagination | phonebook.py:47-55 | returns the current page of the data and sets `pages` as `PagesAfter` says |
| Phonebook.Phonebook.Navigate | phonebook.py:239-254 | one typed line moves the page as `NextPage` says; the loop ends exactly when `NavigationOf` does not redraw (`q` and numerals) and the page then stays; the record `NavigationOf` chooses becomes the chosen record |
| Phonebook.Phonebook.ShowAllRecords | phonebook.py:206-254 | the page is the result of the page keys typed; it stays in range; the last page shown is its slice; the loop ends at the first `q` or numeral, and a numeral becomes the chosen record |
| Phonebook.Phonebook.ReadLastLine | phonebook.py:58-79 | the backward scan returns `LastLine` of the file text |
| Phonebook.Phonebook.AddRecord | phonebook.py:84-151 | the prompting loops collect `CollectRecord` of the typed lines; the record is appended, even when empty, unless the input ran out |
| Phonebook.Phonebook.GenerateData | phonebook.py:263-283 | the loop ends at the first `q` or numeral `n`, and for `n` it appends exactly the generated rows `0..n-1` |
| Launcher.LastSegment | main.py:21 | `split('.')[-1]` is the dot-free suffix after the last dot, or the whole name when it has no dot |
| Launcher.LastSegmentOfExtension | main.py:21 | a name ending in `.` and dot-free text has that text as its last segment |
| Launcher.WithCsvExtension | main.py:20-22 | the result always ends in the segment `csv`; the name is kept exactly when its last segment is `csv`, and otherwise `.csv` is appended |
| Launcher.WithCsvExtensionIdempotent | main.py:20-22 | normalising a name twice gives the same as normalising it once |
| Launcher.OtherExtensionExtended | main.py:20-22 | a name with another extension keeps it and gets `.csv` after it |
| Launcher.BareCsvKept | main.py:21 | a bare `csv` counts as already having the extension |
| Launcher.SplitJoin | main.py:28 | splitting a `;`-join gives back the parts when none holds `;` |
| Launcher.JoinSeparatorCount | main.py:28 | the join holds one separator fewer than there are parts |
| Launcher.JoinStartsWithFirst | main.py:28 | `';'.join(parts)` (the function `Join`) starts with the first part, followed by the separator when more parts follow |
| Launcher.Header | main.py:28 | the header line is the `;`-join of the columns followed by a line break; without `;` in the column names it holds `len(columns) - 1` separators and the text before the line break splits back into the columns |
| Launcher.ProcessFile | main.py:7-30 | a missing directory is reported before anything else; otherwise the path names the normalised file in that directory, and the header is written exactly when the file did not exist |
| Launcher.IndexOf | main.py:65 | `args.index(x)` is the first position holding `x` |
| Launcher.FileOptionIndex | main.py:65 | the file option is the first `--file` when there is one, otherwise the first `-f` |
| Launcher.FileOptionDecision | main.py:64-81 | a file option in last place asks for a file name; otherwise a missing directory of the named file is reported, and in every other case the phonebook runs on that file as processed |
| Launcher.DecideAsWritten | main.py:33-83 | unknown arguments are refused exactly when none is a known option; help exactly when `--help` or `-h` appears; otherwise a file option decides as `FileOptionDecision` says, and without arguments the phonebook runs on whatever processing the default file gives |
| Launcher.DefaultRunsOnSentinel | main.py:17-18 | without arguments and without `data`, the phonebook runs on the sentinel `'dir_not_found'` |
| Launcher.Decide | main.py:79-83 | with the sentinel reported for the default file too, the phonebook only runs on an opened file and every other outcome is unchanged |
| Launcher.DecisionExamples | main.py:51-71 | help wins over the file option, an unknown lone argument is refused, and a final `-f` asks for a file name |

## Left out

- Console output, `_clear` and every printed message are not modelled. The messages do not affect what is stored or returned.
- Deleting, changing and searching records are not modelled. `delete_record` only opens the file, `change_record` only prints `read_last_line()`, and `search_records` only reads one line, so none of them changes anything.
- The `run` loop is modelled one pass at a time (`ChooseFromMenu`). How its prompts interleave with the prompts of the operation it dispatches is not modelled. The `except KeyError` at phonebook.py:321 also wraps the dispatched call itself, so a `KeyError` raised inside an operation is reported as an invalid menu choice too; one example is `row['Имя']` at phonebook.py:228 on a file whose header lacks that column. The model does not capture that.
- `KeyboardInterrupt`/`SystemExit` handling in `main.py` is not modelled, because it is process control.
- Files are not read or written byte by byte. A read file is given as its text, and the rows `add_record` and `generate_data` write are kept as values in `appended`.
- LastLineScan.LineEnd: the text is the file as read in text mode with its newlines already translated to `\n`. Only `\n` ends a line in the model. The source's universal-newline mode also ends a line at a lone `\r`, which the model does not do; `\r\n` behaves the same either way.
- CSV quoting is not modelled, because `csv.DictWriter` and `csv.DictReader` are library code. `show_all_records` takes its records as already parsed.
- Phonebook.Phonebook.ReadLastLine: positions count characters. The source seeks to byte offsets in a UTF-8 text file and reads one character at each offset. An offset inside a multi-byte character raises `UnicodeDecodeError`. The header ends in the Cyrillic `номер`, so on a header-only file the source raises instead of returning. It raises too on any file where a non-ASCII character, such as a Cyrillic name, lies after the line break at which the scan stops. The model returns the value the scan would give on characters, so `LastLine`, `HeaderOnlyHasNoLastLine` and `AppendBlankLines` do not describe those raising runs.
- Validators.MatchesNamePattern: Cyrillic letters are `а`..`я` and `А`..`Я`, the ranges the pattern names, so `ё` and `Ё` are refused as in the source. Whitespace is the set `str.isspace` accepts.
- Text.IsDigit: digits are ASCII only. Python's `\d` and `str.isdigit` also accept other Unicode digits.
- Launcher.ProcessFile: the file system is given as sets, so `os.path.exists` is membership. In the source, `os.path.exists('')` is false, so a file option without a directory part reports a missing directory when the sets do not contain `""`.
- `os.path.split` and `os.path.join` are not modelled. `split` is a parameter, and an opened path is kept as its (directory, name) pair.
- Launcher.DecideAsWritten: the header file that `main` creates for the default file is not reported when the arguments lead elsewhere. Only the file the phonebook runs on is part of the result. The file system `fs` is not updated after that first call. So when `data` exists and the arguments name `data/phonebook_data.csv`, the model reports the header as created for the second call too, while the source created the file in the first call and writes nothing in the second. The file holds the same header either way.
- `record_check` is never set to true in the source. The model keeps the field, and the menu's "written" message is not modelled.
- Generated rows have six cells against the seven header columns. When the file is read back, each value sits one column to the left, under `ИД` first. The model states the six cells as the source writes them and does not correct this.
- The `ИД` column holds no `номер`, so it is checked as a name, as in the source.

## Findings

| source | as written | input that shows it | evidently intended | confidence | as-written member | corrected member |
|---|---|---|---|---|---|---|
| main.py:44, 79-83 | the sentinel `'dir_not_found'` is checked only for the file given with `--file`/`-f`; without arguments the default result goes straight to `Phonebook(file, columns)` | no arguments, with no `data` directory: the phonebook is started with `'dir_not_found'` as its file name | the missing default directory is reported like a missing `--file` directory, and the phonebook only starts on an opened file | not executed | Launcher.DefaultRunsOnSentinel | Launcher.Decide |
