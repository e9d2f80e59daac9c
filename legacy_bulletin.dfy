/**
 * The older `getUrlData` of tools/tools.py. It splits the URL the same way,
 * but tries to cast the year token with `int()` (keeping the text when that
 * raises `ValueError`), and it adds `month` and `year` columns instead of a
 * date column, making no use of the month-name tables.
 */
module LegacyBulletin {
  import opened Wrappers
  import opened PyStrings
  import opened Frames
  import opened Employment
  import opened PageErrors
  import Bulletin

  /** `self.year` after `get_date`: an `int`, or the token itself when `int()` rejected it. */
  datatype Year = IntYear(n: int) | TextYear(text: string)

  /** `try: year = int(year) except ValueError: pass` (the message it prints is not modelled). */
  function CastYear(token: string): Year
  {
    match PyInt(token)
    case Some(n) => IntYear(n)
    case None => TextYear(token)
  }

  /** A run of digits within `int()`'s digit bound casts to the number it writes. */
  lemma CastYearOfDigits(token: string)
    requires IsDigits(token) && |token| <= IntMaxStrDigits
    ensures CastYear(token) == IntYear(DigitsValue(token))
  {
    PyIntOfDigits(token);
  }

  /** A run of digits past `int()`'s digit bound makes it raise, so the year stays text. */
  lemma CastYearOfLongDigits(token: string)
    requires IsDigits(token) && |token| > IntMaxStrDigits
    ensures CastYear(token) == TextYear(token)
  {
    PyIntTooManyDigits(token);
  }

  /** The year a bulletin URL carries when it was written as `str(n)` comes back as `n`. */
  lemma CastYearOfStr(n: nat)
    requires |Str(n)| <= IntMaxStrDigits
    ensures CastYear(Str(n)) == IntYear(n)
  {
    PyIntOfStr(n);
  }

  /** A token holding a letter or other stray character stays text. */
  lemma CastYearKeepsText(token: string, i: nat)
    requires i < |token|
    requires !IsDigit(token[i]) && token[i] != '_' && token[i] != '+' && token[i] != '-' && !IsSpace(token[i])
    ensures CastYear(token) == TextYear(token)
  {
    PyIntRejectsStray(token, i);
  }

  /** A year token that starts with the separator `\x1c` is one `int` rejects, so it stays text. */
  lemma SeparatorYearKeepsText()
    ensures CastYear("\U{1C}2021") == TextYear("\U{1C}2021")
  {
    CastYearKeepsText("\U{1C}2021", 0);
  }

  /** The URL in the class documentation yields the month "january" and the integer year 2021. */
  lemma DocumentedUrlYear()
    ensures var dir := "/content/travel/en/legal/visa-law0/visa-bulletin/2021";
      var tokens := Bulletin.PageTokens(dir + "/visa-bulletin-for-" + "january" + "-" + "2021" + "." + "html");
      |tokens| == 5 && tokens[3] == "january" && CastYear(tokens[4]) == IntYear(2021)
  {
    Bulletin.DocumentedUrlTokens();
    Bulletin.DocumentedYear();
    CastYearOfDigits("2021");
  }

  /** The cell `df['year'] = self.year` writes: a number, or the text. */
  function YearCell(y: Year): Cell
  {
    match y
    case IntYear(n) => Number(n)
    case TextYear(t) => Text(t)
  }

  /** The fields `get_date` and `get_tables` leave on an object of this variant. */
  datatype LegacyPage = LegacyPage(month: string, year: Year, rows: seq<Row>)

  /** The stacked rows with `month` and `year` columns set, then every "U" made missing. */
  function MonthYearRows(rows: seq<Row>, month: string, year: Year): seq<Row>
  {
    ReplaceU(SetColumnAll(SetColumnAll(rows, "month", Text(month)), "year", YearCell(year)))
  }

  /** What constructing this `getUrlData` yields, or the exception it raises first. */
  function LegacyPageOf(path: string, tables: seq<RawTable>): Result<LegacyPage, PageError>
  {
    var tokens := Bulletin.PageTokens(path);
    if |tokens| < 5 then Err(TooFewPageTokens)
    else match StackedRows(EmploymentTables(tables))
      case Err(e) => Err(e)
      case Ok(rows) =>
        var year := CastYear(tokens[4]);
        Ok(LegacyPage(tokens[3], year, MonthYearRows(rows, tokens[3], year)))
  }

  /**
   * Construction fails with the first error met: too few page-name tokens,
   * a short header, no nine-row table, then tables whose columns clash in
   * `pd.concat`. A year or month the code cannot read never makes it fail.
   */
  lemma LegacyPageOfErrors(path: string, tables: seq<RawTable>)
    ensures var tokens := Bulletin.PageTokens(path);
            var kept := EmploymentTables(tables);
            LegacyPageOf(path, tables).Err? ==>
              LegacyPageOf(path, tables).error ==
                if |tokens| < 5 then TooFewPageTokens
                else if !HeadersWide(kept) then HeaderTooShort
                else if |kept| == 0 then NoEmploymentTables
                else ColumnLabelsClash
    ensures var tokens := Bulletin.PageTokens(path);
            var kept := EmploymentTables(tables);
            LegacyPageOf(path, tables).Ok? <==> |tokens| >= 5 && HeadersWide(kept) && |kept| > 0 && !ColumnsClash(kept)
  {
    StackedRowsShape(EmploymentTables(tables));
  }

  /**
   * A built page keeps the month token, the year `int()` reads from the year
   * token or else the token itself, and eight rows for every nine-row table.
   */
  lemma LegacyPageOfFields(path: string, tables: seq<RawTable>)
    ensures LegacyPageOf(path, tables).Ok? ==>
            var tokens := Bulletin.PageTokens(path);
            var p := LegacyPageOf(path, tables).value;
            && |tokens| >= 5 && p.month == tokens[3]
            && (PyInt(tokens[4]).Some? ==> p.year == IntYear(PyInt(tokens[4]).value))
            && (PyInt(tokens[4]).None? ==> p.year == TextYear(tokens[4]))
            && (IsDigits(tokens[4]) && |tokens[4]| <= IntMaxStrDigits ==> p.year == IntYear(DigitsValue(tokens[4])))
            && (IsDigits(tokens[4]) && |tokens[4]| > IntMaxStrDigits ==> p.year == TextYear(tokens[4]))
            && |p.rows| == 8 * |EmploymentTables(tables)|
  {
    if LegacyPageOf(path, tables).Ok? {
      var tokens := Bulletin.PageTokens(path);
      StackedRowsShape(EmploymentTables(tables));
      if IsDigits(tokens[4]) && |tokens[4]| <= IntMaxStrDigits {
        CastYearOfDigits(tokens[4]);
      }
      if IsDigits(tokens[4]) && |tokens[4]| > IntMaxStrDigits {
        CastYearOfLongDigits(tokens[4]);
      }
    }
  }

  /**
   * Every row of a built page reads the month token under "month" and the
   * year under "year", except that a month or text year spelled "U" has
   * been made missing by the replacement, which runs over these columns too.
   */
  lemma LegacyPageOfMonthYear(path: string, tables: seq<RawTable>)
    ensures LegacyPageOf(path, tables).Ok? ==>
            var p := LegacyPageOf(path, tables).value;
            forall k :: 0 <= k < |p.rows| ==>
              && Lookup(p.rows[k], "month") == (if p.month == "U" then Missing else Text(p.month))
              && Lookup(p.rows[k], "year") == (if p.year == TextYear("U") then Missing else YearCell(p.year))
  {
    if LegacyPageOf(path, tables).Ok? {
      var tokens := Bulletin.PageTokens(path);
      var p := LegacyPageOf(path, tables).value;
      var stacked := StackedRows(EmploymentTables(tables)).value;
      assert p.rows == MonthYearRows(stacked, p.month, p.year);
      MonthYearLookup(stacked, p.month, p.year);
    }
  }

  lemma MonthYearLookup(rows: seq<Row>, month: string, year: Year)
    ensures forall k :: 0 <= k < |rows| ==>
              && Lookup(MonthYearRows(rows, month, year)[k], "month") == ReplaceUCell(Text(month))
              && Lookup(MonthYearRows(rows, month, year)[k], "year") == ReplaceUCell(YearCell(year))
  {
    var withMonth := SetColumnAll(rows, "month", Text(month));
    var withYear := SetColumnAll(withMonth, "year", YearCell(year));
    forall k | 0 <= k < |rows|
      ensures Lookup(ReplaceURow(withYear[k]), "month") == ReplaceUCell(Text(month))
      ensures Lookup(ReplaceURow(withYear[k]), "year") == ReplaceUCell(YearCell(year))
    {
      assert Lookup(withMonth[k], "month") == Text(month);
      assert Lookup(withYear[k], "month") == Text(month);
    }
  }

  /**
   * Row `i` of the `j`-th nine-row table is row `8 * j + i - 1` of a built
   * page. Its column `c` keeps the relabelled header cell as its name; a
   * "state" column holds the state tag, and any column other than "state",
   * "month" and "year" the table's cell, missing exactly when that cell is
   * "U". The row reads the state tag under "state".
   */
  lemma LegacyPageOfRowAt(path: string, tables: seq<RawTable>, j: nat, i: nat, c: nat)
    requires var kept := EmploymentTables(tables);
             j < |kept| && 1 <= i < EmploymentTableRows && c < |kept[j][0]|
    ensures LegacyPageOf(path, tables).Ok? ==>
            var kept := EmploymentTables(tables);
            var rows := LegacyPageOf(path, tables).value.rows;
            var name := if c < 4 then CanonicalLabels[c] else kept[j][0][c];
            && 8 * j + i - 1 < |rows| && c < |rows[8 * j + i - 1]|
            && rows[8 * j + i - 1][c].name == name
            && (name == "state" ==> rows[8 * j + i - 1][c].value == Text(StateTag(j)))
            && (name != "state" && name != "month" && name != "year" ==>
                  rows[8 * j + i - 1][c].value == if kept[j][i][c] == "U" then Missing else Text(kept[j][i][c]))
            && Lookup(rows[8 * j + i - 1], "state") == Text(StateTag(j))
  {
    if LegacyPageOf(path, tables).Ok? {
      var tokens := Bulletin.PageTokens(path);
      var kept := EmploymentTables(tables);
      var p := LegacyPageOf(path, tables).value;
      assert p.rows == MonthYearRows(StackedRows(kept).value, p.month, p.year);
      StackedRowsValue(kept);
      MonthYearRowAt(kept, p.month, p.year, j, i, c);
    }
  }

  /** `LegacyPageOfRowAt` for the stacked frames of any nine-row tables and any month and year. */
  lemma MonthYearRowAt(kept: seq<RawTable>, month: string, year: Year, j: nat, i: nat, c: nat)
    requires forall k :: 0 <= k < |kept| ==> |kept[k]| == EmploymentTableRows
    requires HeadersWide(kept)
    requires j < |kept| && 1 <= i < EmploymentTableRows && c < |kept[j][0]|
    ensures var rows := MonthYearRows(Flatten(NormalizedFrames(kept)), month, year);
            var name := if c < 4 then CanonicalLabels[c] else kept[j][0][c];
            && 8 * j + i - 1 < |rows| && c < |rows[8 * j + i - 1]|
            && rows[8 * j + i - 1][c].name == name
            && (name == "state" ==> rows[8 * j + i - 1][c].value == Text(StateTag(j)))
            && (name != "state" && name != "month" && name != "year" ==>
                  rows[8 * j + i - 1][c].value == if kept[j][i][c] == "U" then Missing else Text(kept[j][i][c]))
            && Lookup(rows[8 * j + i - 1], "state") == Text(StateTag(j))
  {
    var stacked := Flatten(NormalizedFrames(kept));
    var name := if c < 4 then CanonicalLabels[c] else kept[j][0][c];
    FlattenedRowAt(kept, j, i, c);
    MonthYearCell(stacked, month, year, 8 * j + i - 1, c, name,
                  if name == "state" then Text(StateTag(j)) else Text(kept[j][i][c]), StateTag(j));
  }

  /**
   * This variant adds no date: a row of a built page reads missing under
   * "date" unless its table's header names a "date" column.
   */
  lemma LegacyPageOfNoDate(path: string, tables: seq<RawTable>, j: nat, i: nat)
    ensures var kept := EmploymentTables(tables);
            && LegacyPageOf(path, tables).Ok?
            && j < |kept| && 1 <= i < EmploymentTableRows && |kept[j][0]| >= 4 && "date" !in HeaderLabels(kept[j][0])
            ==>
            var rows := LegacyPageOf(path, tables).value.rows;
            8 * j + i - 1 < |rows| && Lookup(rows[8 * j + i - 1], "date") == Missing
  {
    var kept := EmploymentTables(tables);
    if && LegacyPageOf(path, tables).Ok?
       && j < |kept| && 1 <= i < EmploymentTableRows && |kept[j][0]| >= 4 && "date" !in HeaderLabels(kept[j][0]) {
      var p := LegacyPageOf(path, tables).value;
      assert p.rows == MonthYearRows(StackedRows(kept).value, p.month, p.year);
      StackedRowsValue(kept);
      MonthYearNoDate(kept, p.month, p.year, j, i);
    }
  }

  /** `LegacyPageOfNoDate` for the stacked frames of any nine-row tables and any month and year. */
  lemma MonthYearNoDate(kept: seq<RawTable>, month: string, year: Year, j: nat, i: nat)
    requires forall k :: 0 <= k < |kept| ==> |kept[k]| == EmploymentTableRows
    requires HeadersWide(kept)
    requires j < |kept| && 1 <= i < EmploymentTableRows && "date" !in HeaderLabels(kept[j][0])
    ensures var rows := MonthYearRows(Flatten(NormalizedFrames(kept)), month, year);
            8 * j + i - 1 < |rows| && Lookup(rows[8 * j + i - 1], "date") == Missing
  {
    var stacked := Flatten(NormalizedFrames(kept));
    var k := 8 * j + i - 1;
    FlattenedRowLookupAbsent(kept, j, i, "date");
    MonthYearRowsAt(stacked, month, year, k);
    MonthYearLookupOther(stacked[k], month, year);
  }

  /** Row `k` of `MonthYearRows` is `MonthYearRow` of row `k`. */
  lemma MonthYearRowsAt(rows: seq<Row>, month: string, year: Year, k: nat)
    requires k < |rows|
    ensures k < |MonthYearRows(rows, month, year)|
    ensures MonthYearRows(rows, month, year)[k] == MonthYearRow(rows[k], month, year)
  {
  }

  /**
   * Column `c` of row `k` after the month and year assignments and the
   * replacement, for a row whose column `c` and "state" value are known.
   */
  lemma MonthYearCell(rows: seq<Row>, month: string, year: Year, k: nat, c: nat, name: string, v: Cell, tag: string)
    requires k < |rows| && c < |rows[k]| && rows[k][c] == Column(name, v)
    requires Lookup(rows[k], "state") == Text(tag) && tag != "U"
    ensures var r := MonthYearRows(rows, month, year);
            && k < |r| && c < |r[k]| && r[k][c].name == name
            && (name != "month" && name != "year" ==> r[k][c].value == ReplaceUCell(v))
            && Lookup(r[k], "state") == Text(tag)
  {
    MonthYearRowsAt(rows, month, year, k);
    MonthYearColumn(rows[k], month, year, c);
  }

  /** One row of `MonthYearRows`. */
  function MonthYearRow(row: Row, month: string, year: Year): Row
  {
    ReplaceURow(SetColumn(SetColumn(row, "month", Text(month)), "year", YearCell(year)))
  }

  /**
   * Column `c` of a row after the month and year assignments and the
   * replacement keeps its name, and unless it is the month or year column
   * it holds its own value, made missing when that was "U"; the row reads
   * every other name likewise.
   */
  lemma MonthYearColumn(row: Row, month: string, year: Year, c: nat)
    requires c < |row|
    ensures var r := MonthYearRow(row, month, year);
            && c < |r| && r[c].name == row[c].name
            && (row[c].name != "month" && row[c].name != "year" ==> r[c].value == ReplaceUCell(row[c].value))
            && Lookup(r, "state") == ReplaceUCell(Lookup(row, "state"))
  {
    var withMonth := SetColumn(row, "month", Text(month));
    assert c < |withMonth| && withMonth[c].name == row[c].name;
    assert row[c].name != "month" ==> withMonth[c] == row[c];
    assert Lookup(withMonth, "state") == Lookup(row, "state");
    AssignedThenReplacedColumn(withMonth, "year", YearCell(year), c);
  }

  /** Under any name but "month" and "year", the row reads as before, made missing when that was "U". */
  lemma MonthYearLookupOther(row: Row, month: string, year: Year)
    ensures forall l :: l != "month" && l != "year" ==>
              Lookup(MonthYearRow(row, month, year), l) == ReplaceUCell(Lookup(row, l))
  {
  }

  /** An object of the older `getUrlData`: the URL path it was built from and the fields its methods fill in. */
  class UrlData {
    const path: string
    var month: Option<string>
    var year: Option<Year>
    var data: Option<seq<Row>>

    constructor (path: string)
      ensures this.path == path
      ensures month == None && year == None && data == None
    {
      this.path := path;
      month, year, data := None, None, None;
    }

    /**
     * `get_date`: sets `month` to token 3 and `year` to token 4 of the page
     * name, then replaces the year by its `int()` value when the cast
     * succeeds; with fewer tokens the indexing raises, after `month` is set
     * when there are exactly four.
     */
    method GetDate() returns (r: Outcome<PageError>)
      modifies this
      ensures var tokens := Bulletin.PageTokens(path);
        && month == (if |tokens| >= 4 then Some(tokens[3]) else old(month))
        && year == (if |tokens| >= 5 then Some(CastYear(tokens[4])) else old(year))
        && r == (if |tokens| >= 5 then Pass else Fail(TooFewPageTokens))
      ensures data == old(data)
    {
      var page := Last(Split(path, '/'));
      var pageElements := Split(Split(page, '.')[0], '-');
      if |pageElements| < 4 {
        return Fail(TooFewPageTokens);
      }
      month := Some(pageElements[3]);
      if |pageElements| < 5 {
        return Fail(TooFewPageTokens);
      }
      year := Some(TextYear(pageElements[4]));
      var cast := PyInt(pageElements[4]);
      if cast.Some? {
        year := Some(IntYear(cast.value));
      }
      return Pass;
    }

    /**
     * `get_tables`, given the page's tables: on success the three fields are
     * those of `LegacyPageOf`; on failure it raised `LegacyPageOf`'s error
     * before `data` was assigned.
     */
    method GetTables(tables: seq<RawTable>) returns (r: Outcome<PageError>)
      modifies this
      ensures r.Pass? <==> LegacyPageOf(path, tables).Ok?
      ensures r.Pass? ==> var p := LegacyPageOf(path, tables).value;
        month == Some(p.month) && year == Some(p.year) && data == Some(p.rows)
      ensures r.Fail? ==> LegacyPageOf(path, tables) == Err(r.error)
      ensures r.Fail? ==> var tokens := Bulletin.PageTokens(path);
        && month == (if |tokens| >= 4 then Some(tokens[3]) else old(month))
        && year == (if |tokens| >= 5 then Some(CastYear(tokens[4])) else old(year))
        && data == old(data)
    {
      r := GetDate();
      if r.Fail? {
        return;
      }
      var employmentTables := EmploymentTables(tables);
      var tableList := NormalizeTables(employmentTables);
      if tableList.Err? {
        return Fail(tableList.error);
      }
      var stacked := Concat(tableList.value);
      if stacked.Err? {
        return Fail(if stacked.error == NoObjects then NoEmploymentTables else ColumnLabelsClash);
      }
      assert StackedRows(employmentTables) == Ok(stacked.value);
      data := Some(stacked.value);
      data := Some(SetColumnAll(data.value, "month", Text(month.value)));
      data := Some(SetColumnAll(data.value, "year", YearCell(year.value)));
      data := Some(ReplaceU(data.value));
      return Pass;
    }
  }

  /**
   * `getUrlData(valid_url)` in this variant: builds the object and runs
   * `get_tables`; when that raises, no object results.
   */
  method Open(path: string, tables: seq<RawTable>) returns (r: Result<UrlData, PageError>)
    ensures r.Ok? <==> LegacyPageOf(path, tables).Ok?
    ensures r.Err? ==> LegacyPageOf(path, tables) == Err(r.error)
    ensures r.Ok? ==> var p := LegacyPageOf(path, tables).value;
      && fresh(r.value) && r.value.path == path
      && r.value.month == Some(p.month) && r.value.year == Some(p.year) && r.value.data == Some(p.rows)
  {
    var obj := new UrlData(path);
    var outcome := obj.GetTables(tables);
    if outcome.Fail? {
      return Err(outcome.error);
    }
    return Ok(obj);
  }
}
