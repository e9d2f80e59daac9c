# Visa bulletin page extraction, modelled in Dafny

This project models the part of the visa bulletin visualizer that turns one
monthly bulletin page into a table of employment-based priority dates. The
class `getUrlData` takes the bulletin's URL. It reads the bulletin month and
year from the page name `visa-bulletin-for-<month>-<year>.html`. From the
tables on the page it keeps every table with nine rows, which on a bulletin
page are the employment tables. It relabels each kept table's header, tags
the first one `final` and every later one `filing`, stacks them, adds the
bulletin date, and marks every `U` ("unauthorized") cell as missing.

Two variants are modelled, each after its own source:

- `Bulletin` follows tools/data.py. It adds a `date` column holding the first
  day of the bulletin month. The month number comes from the month-name
  tables.
- `LegacyBulletin` follows tools/tools.py, the older variant. It casts the
  year with `int()`, and keeps the text when the cast fails. It adds `month`
  and `year` columns and no date column.

The month-name tables of tools/variables.py are in `Months`.

Modules:

- `Wrappers`: `Option`, `Result`, and `Outcome` (a method's success or raised error).
- `PageErrors`: the exceptions construction can raise once the tables are in hand.
- `PyStrings`: the Python string operations the code relies on: `str.split` and
  `str.join` on one character, `str(n)`, `int(s)`, and `str.lower`.
- `DictInverse`: `{v: k for k, v in d.items()}` for a dictionary with distinct values.
- `Months`: `MONTH_DICT` and `MONTH_DICT_REV`.
- `Frames`: the pandas operations in use, on rows of named cells:
  - `df[name] = v`, which overwrites every column of that name or appends one;
  - reading a column, where an absent name reads as missing, as the
    missing-filled columns of `pd.concat` do;
  - `replace('U', NaN)`;
  - `pd.concat`;
  - `pd.to_datetime` on `Y-M-D` strings.
- `Employment`: the table handling both variants share:
  - the nine-row filter;
  - the `enumerate` loop, as a method with loop invariants, which relabels
    each header and tags each table's state;
  - stacking.
- `Bulletin` and `LegacyBulletin`: each variant's `getUrlData` is a class with
  the fields `month`, `year` and `data`, plus the methods `GetDate` and
  `GetTables`. Each variant also has:
  - `Open`, which stands for `getUrlData(url)`: the constructor followed by
    `get_tables`, where an exception means no object;
  - a specification function, `PageOf` or `LegacyPageOf`, which says what a
    successful construction leaves and which error a failing one raises.

The exceptions the code can raise after the fetch are the cases of
`PageError`:

- an `IndexError` when the page name has fewer than five `-` tokens;
- a `ValueError` when a header has fewer than the four cells to relabel;
- the `ValueError` of `pd.concat([])` when no table has nine rows;
- the `InvalidIndexError` of `pd.concat` when the kept tables' frames do not
  all carry the same column labels and one of them repeats a label: `pd.concat`
  reindexes such a frame onto the union of the labels, and reindexing needs
  unique labels;
- a `KeyError` for a month word missing from `MONTH_DICT_REV`;
- in tools/data.py only, the `ValueError` of `pd.to_datetime` when the frame
  has two columns labelled `date`, so that `data['date']` is a frame;
- in tools/data.py only, the error `pd.to_datetime` raises for a date string
  it cannot read.

A failing construction is followed into the fields it had already assigned.

Inputs:

- The URL enters as its path: what `urlparse(url).path` yields.
- The page's tables enter as `pd.read_html` would return them: rectangular
  lists of cell texts.

The test in tests/test_getUrlData.py:27 expects zero rows for bulletins that
do not exist. For such a bulletin the code never gets that far: the fetch in
`pd.read_html` (tools/data.py:58) fails first, with an HTTP error or with the
"No tables found" `ValueError`, and the fetch is not part of this model. What
the model covers is a fetched page that has tables but none with nine rows:
there tools/data.py:75 calls `pd.concat` on an empty list and raises, where
the test would expect zero rows. `PageOfErrors` states the resulting
`NoEmploymentTables` error.

## Model

| member | source | states |
|---|---|---|
| `PyStrings.Split` | tools/data.py:47-48 | `s.split(sep)` on one character always returns at least one piece; what the pieces are is stated by `SplitPieces`, `SplitJoin`, `SplitLastPiece` and `SplitAfterFree` |
| `PyStrings.SplitPieces` | tools/data.py:47-48 | no piece of `s.split(sep)` holds `sep`, and joining the pieces with `sep` gives `s` back |
| `PyStrings.SplitJoin` | tools/data.py:47-48 | when no part holds `sep`, splitting `sep.join(parts)` gives `parts` back |
| `PyStrings.SplitLastPiece` | tools/data.py:47 | the last piece of a split is exactly the text after the last separator, whatever precedes it |
| `PyStrings.SplitAfterFree` | tools/data.py:48 | a split cuts off exactly the text before the first separator |
| `PyStrings.Join` | tools/data.py:78 | `sep.join(parts)`; what it yields is stated by `JoinCons`, `SplitJoin` and `SplitPieces` |
| `PyStrings.JoinCons` | tools/data.py:78 | joining puts one separator between a leading part and the join of the rest |
| `PyStrings.Str` | tools/data.py:78 | `str(n)` is a run of decimal digits, with no leading zero, whose value is `n` |
| `PyStrings.PyInt` | tools/tools.py:52 | `int(s)`: optional surrounding white space (space, tab, line feed, vertical tab, form feed, carriage return; not the separators `\x1c`-`\x1f`), one optional sign, and digits with single underscores between them, at most 4300 digits (CPython's default limit); anything else raises `ValueError`. Its contract is carried by `PlainDigits`, `PyIntOfDigits`, `PyIntTooManyDigits`, `PyIntRejectsStray` and `PyIntSpacing` |
| `PyStrings.PlainDigits` | tools/tools.py:52-54 | on a run of plain digits `int()` returns its decimal value exactly when there are at most 4300 digits, and raises otherwise |
| `PyStrings.PyIntOfDigits` | tools/tools.py:52 | `int()` of a run of at most 4300 digits is its decimal value |
| `PyStrings.PyIntTooManyDigits` | tools/tools.py:52-54 | `int()` of a run of more than 4300 digits raises `ValueError` |
| `PyStrings.PyIntOfStr` | tools/tools.py:52 | `int(str(n)) == n` whenever `str(n)` has at most 4300 digits |
| `PyStrings.PyIntRejectsStray` | tools/tools.py:51-54 | `int()` raises `ValueError` on a string with a character that is neither digit, sign, underscore nor one of the six white-space characters it skips |
| `PyStrings.PyIntSpacing` | tools/tools.py:52 | `int(" 42\n")` is 42, while `int("\x1c42")` raises `ValueError` |
| `PyStrings.Lower` | tools/variables.py:3 | `s.lower()` keeps the length and lowers each ASCII capital, leaving every other character as it is |
| `DictInverse.Invert` | tools/variables.py:4 | inverting a dictionary with distinct values maps each value back to its key, and every key of the inverse comes from a value |
| `Months.MonthDictContents` | tools/variables.py:3 | `MONTH_DICT` has exactly the keys 1..12, and key `i` holds the lower-case English name of month `i` |
| `Months.NamesDistinct` | tools/variables.py:3-4 | no two months share a name, so the inverse comprehension loses nothing |
| `Months.MonthRoundTrip` | tools/variables.py:3-4 | `MONTH_DICT_REV[MONTH_DICT[i]] == i` for `i` in 1..12, and `MONTH_DICT[MONTH_DICT_REV[m]] == m` for every key `m` |
| `Months.MonthDictRevValues` | tools/variables.py:4 | `MONTH_DICT_REV` maps the name of month `i` to `i` |
| `Months.MonthDictRevKeys` | tools/variables.py:4 | the keys of `MONTH_DICT_REV` are exactly the twelve lower-case month names |
| `Months.MonthTablesSize` | tools/variables.py:3-4 | both tables have exactly twelve entries |
| `Frames.Lookup` | tools/data.py:79 | `row[name]`: the first column under that name, missing when there is none; what it reads after each operation is stated by `SetColumn`, `SetColumnAll`, `ReplaceURow`, `ReplaceU` and `LookupAbsent` |
| `Frames.LookupAbsent` | tools/data.py:75 | a row without the name reads missing there, as `pd.concat` fills a column a frame lacks |
| `Frames.SetColumn` | tools/data.py:70 | `row[name] = v` makes the row read `v` under `name` and as before under every other name; it overwrites each column of that name, or appends one when there is none; names and other columns are unchanged |
| `Frames.SetColumnTwice` | tools/data.py:78-79 | a second assignment to the same column wins over the first |
| `Frames.SetColumnAll` | tools/data.py:78 | after `df[name] = v` the frame keeps its row count, and every row reads `v` under `name` and what it read before under every other name |
| `Frames.SetColumnAllTwice` | tools/data.py:78-79 | the datetime assignment over a frame wins over the string assigned just before |
| `Frames.ReplaceURow` | tools/data.py:82 | a cell becomes missing exactly when it was missing or equal to `"U"`; every other cell and every column name is unchanged, also as read through column names |
| `Frames.ReplaceU` | tools/data.py:82 | after the replacement the frame keeps its row count, and every row reads missing wherever it read `"U"` and what it read before everywhere else |
| `Frames.AssignedColumnSurvivesReplace` | tools/data.py:78-82 | after assigning a non-`"U"` value to a column and replacing `"U"`, every row still reads that value there |
| `Frames.AssignedThenReplacedColumn` | tools/data.py:78-82 | each column keeps its name and holds the assigned or its own value, made missing when it was `"U"` |
| `Frames.Concat` | tools/data.py:75 | `pd.concat` fails with "no objects to concatenate" exactly when the list is empty, and with `InvalidIndexError` exactly when the frames' labels are not all the same and some frame repeats a label; otherwise it stacks the frames in order |
| `Frames.ConcatStacks` | tools/data.py:75 | frames that all carry the same labels, or none of which repeats a label, always stack |
| `Frames.FlattenLength` | tools/data.py:75 | stacking frames of `n` rows each gives `n` rows per frame |
| `Frames.FlattenAt` | tools/data.py:75 | row `i` of frame `j` is row `n * j + i` of the stack |
| `Frames.ToDatetime` | tools/data.py:79 | a converted date is a real calendar day inside the pandas timestamp range |
| `Frames.ToDatetimeFirstOfMonth` | tools/data.py:78-79 | a `Y-M-1` string converts to the first of month `M` of year `Y` exactly when the year has four digits and the day is in range |
| `Employment.EmploymentTables` | tools/data.py:59 | every kept table has nine rows, and none more tables are kept than the page has |
| `Employment.EmploymentTablesMembers` | tools/data.py:59 | a table is kept exactly when it is one of the page's tables and has nine rows |
| `Employment.EmploymentTablesAppend` | tools/data.py:59 | the filter keeps page order: filtering a concatenation filters each part in turn, and one table is kept exactly when it has nine rows |
| `Employment.HeaderLabels` | tools/data.py:64-65 | the relabelled header is as wide as the header; its first four labels are `EBn`, `ALL`, `CHINA` and `CENTRALAMERICA`, and every later label is the header cell itself |
| `Employment.StateTag` | tools/data.py:69-72 | `final` for the first kept table and `filing` for every later one; stated of each stacked row by `StackedRowAt` |
| `Employment.NormalizedLabels` | tools/data.py:64-73 | the frame built from a table carries the relabelled header as its labels, with `state` appended unless the header already names it |
| `Employment.NormalizeTable` | tools/data.py:66 | dropping the header row leaves one fewer row |
| `Employment.NormalizeTables` | tools/data.py:62-73 | the loop succeeds exactly when every header has four cells or more, and yields the normalized frames of the kept tables in order; otherwise it raises the header error |
| `Employment.StackedRows` | tools/data.py:62-75 | the loop followed by `pd.concat`; what it yields is stated by `StackedRowsShape`, `StackedRowAt` and `StackedRowLookupAbsent` |
| `Employment.ReindexRaisesOnClash` | tools/data.py:62-75 | `pd.concat` raises on the loop's frames exactly when the kept tables' column labels clash: not all the same, and one repeating a label |
| `Employment.StackedRowsShape` | tools/data.py:62-75 | stacking succeeds exactly when there is a kept table, every header is wide enough and the columns do not clash; it gives eight rows per table; otherwise the header error, the empty-list error or the reindexing error |
| `Employment.ClashingTablesRaise` | tools/data.py:62-75 | two kept tables whose headers end in `X, X` and in `Y` make `pd.concat` raise `InvalidIndexError` |
| `Employment.RepeatedEqualTablesStack` | tools/data.py:62-75 | two kept tables that both end in `X, X` stack, since frames with the same labels are not reindexed |
| `Employment.StackedRepeatsLabel` | tools/data.py:64-75 | with a kept header that names a label in two cells past its first four, stacking succeeds exactly when all kept tables carry the same columns, and the stack then repeats that label; otherwise `pd.concat` raises |
| `Employment.StackedRowAt` | tools/data.py:62-75 | row `i` of kept table `j` is row `8j+i-1` of the stack; its columns carry the relabelled header names and the table's cells, and it reads `final` under `state` for the first table and `filing` for every later one |
| `Employment.StackedRowLookupAbsent` | tools/tools.py:67-77 | a stacked row has no value under a name that is neither `state` nor one of its relabelled header cells |
| `Bulletin.PageTokens` | tools/data.py:46-48 | the page-name tokens are never an empty list |
| `Bulletin.BulletinPageTokens` | tools/data.py:46-51 | for any path ending in `/visa-bulletin-for-<month>-<year>.<ext>`, the tokens are `visa`, `bulletin`, `for`, the month and the year |
| `Bulletin.StemSplit` | tools/data.py:48 | `visa-bulletin-for-<month>-<year>` splits on `-` into five tokens with the month at 3 and the year at 4 |
| `Bulletin.DocumentedUrlTokens` | tools/data.py:31 | the documented example URL gives the month `january` and the year `2021` |
| `Bulletin.DocumentedUrlDate` | tools/data.py:78-79 | that month and year give the bulletin date 2021-01-01 |
| `Bulletin.PageTokensFree` | tools/data.py:48 | no page-name token contains `-` |
| `Bulletin.MonthNumberRange` | tools/data.py:78 | every month number `MONTH_DICT_REV` gives is in 1..12 |
| `Bulletin.DateText` | tools/data.py:78 | `'-'.join([year, str(MONTH_DICT_REV[month]), '1'])`; what it yields is stated by `DateTextFields` |
| `Bulletin.DateTextFields` | tools/data.py:78 | the assembled date string splits back into the year, the one- or two-digit month number and `1` |
| `Bulletin.BulletinDate` | tools/data.py:78-79 | the month lookup, the string assembly and `pd.to_datetime`; what it yields is stated by `BulletinDateSpec` and `DocumentedUrlDate` |
| `Bulletin.BulletinDateSpec` | tools/data.py:78-79 | an unknown month word raises `KeyError`; otherwise the date is the first of the looked-up month exactly when the year is four digits and the day is in the timestamp range, and the conversion fails otherwise |
| `Bulletin.PageOf` | tools/data.py:42-82 | what construction leaves or raises; its contract is carried by `PageOfErrors`, `RepeatedDateHeader`, `PageOfRows`, `TwoTablesSixteenRows`, `PageOfDates` and `PageOfRowAt` |
| `Bulletin.PageOfErrors` | tools/data.py:53-82 | construction raises the first error met, in the order: too few tokens, short header, no nine-row table, clashing column labels, unknown month, a frame with two `date` columns, unparsable date; it succeeds exactly when none of these arises |
| `Bulletin.RepeatedDateHeader` | tools/data.py:64-79 | a kept header that names `date` twice past its first four cells makes construction raise once the month is known: at `pd.to_datetime` when every kept table carries the same columns, and at `pd.concat` otherwise |
| `Bulletin.PageOfRows` | tools/data.py:62-75 | a built page keeps tokens 3 and 4 as month and year, with eight rows per nine-row table |
| `Bulletin.TwoTablesSixteenRows` | tools/data.py:59-75 | a page with two employment tables yields sixteen rows |
| `Bulletin.PageOfDates` | tools/data.py:78-79 | every row of a built page reads `date` = day 1 of the URL month in the URL's four-digit year |
| `Bulletin.PageOfRowAt` | tools/data.py:62-82 | each row keeps its table's relabelled header names and cells, with the state tag under `state` and a cell made missing exactly when it is `"U"` |
| `Bulletin.DatedRows` | tools/data.py:78-82 | the date column set and every `"U"` made missing; what each row then holds is stated by `DatedRowAt` and, through `AssignedColumnSurvivesReplace`, by `PageOfDates` |
| `Bulletin.DatedRowAt` | tools/data.py:69-82 | the same, for the stacked frames of any nine-row tables and any date |
| `Bulletin.UrlData.constructor` | tools/data.py:38-39 | a new object holds the URL path it was given and no month, year or data yet |
| `Bulletin.UrlData.GetDate` | tools/data.py:42-51 | `month` becomes token 3 and `year` token 4; with fewer tokens it raises, after setting `month` when there are exactly four; `data` is untouched |
| `Bulletin.UrlData.GetTables` | tools/data.py:53-82 | on success the fields are those of `PageOf`; on failure this is `PageOf`'s error, with `data` unchanged when the failure comes at or before the concat, the stacked rows after a `KeyError`, and the string dates after a failed conversion or a repeated `date` column |
| `Bulletin.Open` | tools/data.py:38-40 | `getUrlData(url)` succeeds exactly when `PageOf` does, and returns a fresh object holding `PageOf`'s fields; otherwise `PageOf`'s error |
| `LegacyBulletin.CastYear` | tools/tools.py:50-54 | the year after the `try`/`except`; what it yields is stated by `CastYearOfDigits`, `CastYearOfLongDigits`, `CastYearOfStr`, `CastYearKeepsText` and `SeparatorYearKeepsText` |
| `LegacyBulletin.CastYearOfDigits` | tools/tools.py:50-54 | a year token of at most 4300 digits becomes the integer it writes |
| `LegacyBulletin.CastYearOfLongDigits` | tools/tools.py:50-54 | a year token of more than 4300 digits makes `int()` raise, so it stays the original text |
| `LegacyBulletin.CastYearOfStr` | tools/tools.py:50-54 | a year written by `str(n)`, at most 4300 digits long, casts back to `n` |
| `LegacyBulletin.CastYearKeepsText` | tools/tools.py:50-54 | a year token with a stray character stays the original text |
| `LegacyBulletin.SeparatorYearKeepsText` | tools/tools.py:50-54 | the year token `"\x1c2021"` makes `int()` raise, so it stays text |
| `LegacyBulletin.DocumentedUrlYear` | tools/tools.py:28 | the documented example URL gives the month `january` and the integer year 2021 |
| `LegacyBulletin.LegacyPageOf` | tools/tools.py:43-84 | what construction leaves or raises in this variant; its contract is carried by `LegacyPageOfErrors`, `LegacyPageOfFields`, `LegacyPageOfMonthYear`, `LegacyPageOfRowAt` and `LegacyPageOfNoDate` |
| `LegacyBulletin.LegacyPageOfErrors` | tools/tools.py:56-84 | construction raises the first error in the order: too few tokens, short header, no nine-row table, clashing column labels; it succeeds exactly when none arises, so the month and year never make it fail |
| `LegacyBulletin.LegacyPageOfFields` | tools/tools.py:43-81 | a built page keeps token 3 as the month; its year is the integer `int()` reads from token 4 whenever the cast succeeds, and token 4 as text whenever it fails, so a run of at most 4300 digits gives its value and a longer one stays text; there are eight rows per nine-row table |
| `LegacyBulletin.YearCell` | tools/tools.py:81 | the cell `df['year'] = self.year` writes: the integer, or the text; read back by `LegacyPageOfMonthYear` |
| `LegacyBulletin.MonthYearRows` | tools/tools.py:80-84 | the `month` and `year` columns set and every `"U"` made missing; what each row then holds is stated by `MonthYearLookup`, `MonthYearRowAt` and `MonthYearNoDate` |
| `LegacyBulletin.LegacyPageOfMonthYear` | tools/tools.py:80-84 | every row reads the month under `month` and the year under `year`, except that a month or text year spelled `U` is made missing too |
| `LegacyBulletin.MonthYearLookup` | tools/tools.py:80-84 | the same, for any rows, month and year |
| `LegacyBulletin.LegacyPageOfRowAt` | tools/tools.py:65-84 | each row keeps its table's relabelled header names and cells, with the state tag under `state` and a cell outside the month and year columns made missing exactly when it is `"U"` |
| `LegacyBulletin.MonthYearRowAt` | tools/tools.py:65-84 | the same, for the stacked frames of any nine-row tables, month and year |
| `LegacyBulletin.MonthYearColumn` | tools/tools.py:80-84 | after the month and year assignments and the replacement, a column keeps its name and, outside those two columns, its own value, made missing when that was `"U"` |
| `LegacyBulletin.LegacyPageOfNoDate` | tools/tools.py:80-81 | no date column is added: a row reads missing under `date` unless its table's header names a `date` column |
| `LegacyBulletin.MonthYearNoDate` | tools/tools.py:80-81 | the same, for the stacked frames of any nine-row tables, month and year |
| `LegacyBulletin.UrlData.constructor` | tools/tools.py:35-36 | a new object holds the URL path it was given and no month, year or data yet |
| `LegacyBulletin.UrlData.GetDate` | tools/tools.py:39-54 | `month` becomes token 3 and `year` the `int()` cast of token 4, or token 4 itself when the cast fails; with fewer tokens it raises, after setting `month` when there are exactly four |
| `LegacyBulletin.UrlData.GetTables` | tools/tools.py:56-84 | on success the fields are those of `LegacyPageOf`; on failure this is `LegacyPageOf`'s error, raised before `data` is assigned |
| `LegacyBulletin.Open` | tools/tools.py:35-37 | `getUrlData(url)` succeeds exactly when `LegacyPageOf` does, and returns a fresh object holding its fields |

## Left out

- `validUrl.is_valid_url` (tools/data.py:16-27, tools/tools.py:13-24) is left out: it only wraps the `validators.url` grammar, which is not part of this model.
- `pd.read_html` (tools/data.py:58, tools/tools.py:61) is left out: it fetches the page over the network and parses its HTML. Its result is an input to `GetTables`, `PageOf` and `LegacyPageOf`.
- `urlparse` (tools/data.py:46, tools/tools.py:43) is left out: the model takes the URL's path as its input string.
- `pd.read_html` returns rectangular frames whose cells can already be numbers or NaN, with short rows of the HTML table padded with NaN. The model's cells are all texts, so a padded cell enters as text rather than as missing.
- Frames.ToDatetime: accepts only strings of the form `Y-M-D`, with four year digits and one or two digits each for month and day. Every other string counts as unparsable, although pandas reads many other formats. This covers every string `get_tables` can build whose year is four digits.
- Rows are lists of named cells, so the column order of the union that `pd.concat` builds across frames with different headers is not modelled. A name absent from a row reads as missing, as `pd.concat` fills it.
- Frames.Concat: a frame's labels are read off its first row, so a frame without rows counts as having no labels. Every frame the bulletin code stacks has eight rows (`NormalizedLabels`).
- Frames.Concat: the reindexing error follows the union rule of pandas 1.x and 2.x, in which labels that differ between frames give a union holding each label once. Other pandas versions are not modelled.
- Missing values are one `Missing` cell. NaN's floating-point behaviour is not modelled.
- LegacyBulletin.UrlData.GetDate: does not model the message printed when the year cast fails (tools/tools.py:54). Output is not modelled.
- The 4300-digit limit of `int()` is CPython's default (`sys.get_int_max_str_digits()`). A limit changed at run time and Python versions without the limit are not modelled.
- `int()` is modelled for ASCII digits, signs, underscores between digits, and the six ASCII white-space characters it skips. Non-ASCII decimal digits and non-ASCII white space, which `int()` also accepts, are not.
- The month name comes from `calendar.month_name` in the English locale. Other locales are not modelled.
- The dashboards under plots/ are not part of this model. Nor are URL generation over a range of dates, fiscal-year rules, the `C` ("current") substitution, compact-date parsing, category collapsing or dataset persistence: none of the modelled source files implements them.
