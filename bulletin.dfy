/**
 * `getUrlData` of tools/data.py: from a bulletin URL and the tables found on
 * its page, the bulletin's month and year and one frame holding both
 * employment tables, each row tagged with its state and the bulletin date,
 * with every "U" (unauthorized) cell made missing.
 *
 * The URL enters as its path (what `urlparse(...).path` yields) and the
 * page's tables as the list `pd.read_html` would return.
 */
module Bulletin {
  import opened Wrappers
  import opened PyStrings
  import opened Months
  import opened Frames
  import opened Employment
  import opened PageErrors

  /** `page.split('.')[0].split('-')`, where `page` is the last '/'-segment of the path. */
  function PageTokens(path: string): (tokens: seq<string>)
    ensures |tokens| >= 1
  {
    var page := Last(Split(path, '/'));
    Split(Split(page, '.')[0], '-')
  }

  /**
   * For a path ending in `/visa-bulletin-for-<month>-<year>.<ext>`, the
   * month is token 3 and the year token 4, whatever directories come first.
   */
  lemma BulletinPageTokens(dir: string, month: string, year: string, ext: string)
    requires '-' !in month && '.' !in month && '/' !in month
    requires '-' !in year && '.' !in year && '/' !in year
    requires '/' !in ext
    ensures PageTokens(dir + "/visa-bulletin-for-" + month + "-" + year + "." + ext)
            == ["visa", "bulletin", "for", month, year]
  {
    var stem := "visa-bulletin-for-" + month + "-" + year;
    var page := stem + ['.'] + ext;
    assert '/' !in stem && '.' !in stem by {
      assert '/' !in "visa-bulletin-for-" && '.' !in "visa-bulletin-for-";
    }
    assert dir + "/visa-bulletin-for-" + month + "-" + year + "." + ext == dir + ['/'] + page;
    SplitLastPiece(dir, '/', page);
    SplitAfterFree(stem, '.', ext);
    StemSplit(month, year);
  }

  /** The page name without its extension splits on '-' into the three fixed words, the month and the year. */
  lemma StemSplit(month: string, year: string)
    requires '-' !in month && '-' !in year
    ensures Split("visa-bulletin-for-" + month + "-" + year, '-') == ["visa", "bulletin", "for", month, year]
  {
    var parts := ["visa", "bulletin", "for", month, year];
    StemJoin(month, year);
    SplitJoin(parts, '-');
  }

  lemma StemJoin(month: string, year: string)
    ensures Join(["visa", "bulletin", "for", month, year], '-') == "visa-bulletin-for-" + month + "-" + year
  {
    var j2 := Join([month, year], '-');
    assert j2 == month + ['-'] + year by {
      JoinCons(month, [year], '-');
      assert [month] + [year] == [month, year];
    }
    var j3 := Join(["for", month, year], '-');
    assert j3 == "for" + ['-'] + j2 by {
      JoinCons("for", [month, year], '-');
      assert ["for"] + [month, year] == ["for", month, year];
    }
    var j4 := Join(["bulletin", "for", month, year], '-');
    assert j4 == "bulletin" + ['-'] + j3 by {
      JoinCons("bulletin", ["for", month, year], '-');
      assert ["bulletin"] + ["for", month, year] == ["bulletin", "for", month, year];
    }
    var j5 := Join(["visa", "bulletin", "for", month, year], '-');
    assert j5 == "visa" + ['-'] + j4 by {
      JoinCons("visa", ["bulletin", "for", month, year], '-');
      assert ["visa"] + ["bulletin", "for", month, year] == ["visa", "bulletin", "for", month, year];
    }
    assert "visa" + ['-'] + "bulletin" + ['-'] + "for" + ['-'] == "visa-bulletin-for-";
  }

  /** The URL in the class documentation names the January 2021 bulletin. */
  lemma DocumentedUrlTokens()
    ensures var dir := "/content/travel/en/legal/visa-law0/visa-bulletin/2021";
      PageTokens(dir + "/visa-bulletin-for-" + "january" + "-" + "2021" + "." + "html")
        == ["visa", "bulletin", "for", "january", "2021"]
  {
    BulletinPageTokens("/content/travel/en/legal/visa-law0/visa-bulletin/2021", "january", "2021", "html");
  }

  /** That URL's month and year give the bulletin date 2021-01-01. */
  lemma DocumentedUrlDate()
    ensures BulletinDate("january", "2021") == Ok(Date(2021, 1, 1))
  {
    MonthDictRevValues();
    assert EnglishMonths[0] == "january";
    DocumentedYear();
    BulletinDateSpec("january", "2021");
  }

  /** The year token "2021" is four digits worth 2021. */
  lemma DocumentedYear()
    ensures IsDigits("2021") && DigitsValue("2021") == 2021
  {
    assert "2021"[..3] == "202";
    assert "202"[..2] == "20";
    assert "20"[..1] == "2";
    assert "2"[..0] == "";
  }

  /** Every value of `MONTH_DICT_REV` is a month number. */
  lemma MonthNumberRange(month: string)
    ensures month in MonthDictRev ==> 1 <= MonthDictRev[month] <= 12
  {
    MonthDictKeys();
  }

  /** `'-'.join([year, str(MONTH_DICT_REV[month]), '1'])`. */
  function DateText(month: string, year: string): string
    requires month in MonthDictRev
  {
    MonthNumberRange(month);
    Join([year, Str(MonthDictRev[month]), "1"], '-')
  }

  /**
   * The bulletin date column: the month word is looked up in
   * `MONTH_DICT_REV` (a `KeyError` when absent), then the assembled string
   * goes through `pd.to_datetime`.
   */
  function BulletinDate(month: string, year: string): Result<Date, PageError>
  {
    if month !in MonthDictRev then Err(UnknownMonthName)
    else match ToDatetime(DateText(month, year))
      case None => Err(UnparsableDate)
      case Some(d) => Ok(d)
  }

  /**
   * For a year token without '-': the date is the first day of the looked-up
   * month in that year exactly when the month word is a key of
   * `MONTH_DICT_REV`, the year is four digits and the day lies in the
   * timestamp range; an unknown month raises `KeyError` and anything else
   * fails in `pd.to_datetime`.
   */
  lemma BulletinDateSpec(month: string, year: string)
    requires '-' !in year
    ensures month !in MonthDictRev ==> BulletinDate(month, year) == Err(UnknownMonthName)
    ensures month in MonthDictRev ==>
      BulletinDate(month, year) ==
        if |year| == 4 && IsDigits(year) && InTimestampRange(Date(DigitsValue(year), MonthDictRev[month], 1))
        then Ok(Date(DigitsValue(year), MonthDictRev[month], 1))
        else Err(UnparsableDate)
  {
    if month in MonthDictRev {
      var k := MonthDictRev[month];
      DateTextFields(month, year);
      ToDatetimeFirstOfMonth(DateText(month, year), year, Str(k));
    }
  }

  /** The date string splits back into the year, the month number and "1". */
  lemma DateTextFields(month: string, year: string)
    requires month in MonthDictRev && '-' !in year
    ensures MonthDictRev[month] >= 1
    ensures Split(DateText(month, year), '-') == [year, Str(MonthDictRev[month]), "1"]
    ensures IsDigits(Str(MonthDictRev[month])) && |Str(MonthDictRev[month])| <= 2
    ensures DigitsValue(Str(MonthDictRev[month])) == MonthDictRev[month]
  {
    MonthNumberRange(month);
    var k := MonthDictRev[month];
    MonthDigits(k);
    SplitJoin([year, Str(k), "1"], '-');
  }

  /** A month number is written with one or two digits. */
  lemma MonthDigits(k: nat)
    requires 1 <= k <= 12
    ensures |Str(k)| <= 2 && '-' !in Str(k)
  {
    var digits := Str(k);
    if k >= 10 {
      assert Str(k) == Str(k / 10) + [DigitChar(k % 10)];
    }
    assert forall i :: 0 <= i < |digits| ==> IsDigit(digits[i]);
  }

  /** The fields `get_date` and `get_tables` leave on a `getUrlData` object. */
  datatype Page = Page(month: string, year: string, rows: seq<Row>)

  /** The stacked rows with the date column set to `d`, then every "U" made missing. */
  function DatedRows(rows: seq<Row>, d: Date): seq<Row>
  {
    ReplaceU(SetColumnAll(rows, "date", Stamp(d)))
  }

  /**
   * What constructing `getUrlData` yields: the page's month and year tokens
   * and the finished frame, or the exception construction raises, in the
   * order the code meets them.
   */
  function PageOf(path: string, tables: seq<RawTable>): Result<Page, PageError>
  {
    var tokens := PageTokens(path);
    if |tokens| < 5 then Err(TooFewPageTokens)
    else match StackedRows(EmploymentTables(tables))
      case Err(e) => Err(e)
      case Ok(rows) =>
        if tokens[3] in MonthDictRev && RepeatsLabel(rows, "date") then Err(DateColumnRepeated)
        else match BulletinDate(tokens[3], tokens[4])
        case Err(e) => Err(e)
        case Ok(d) => Ok(Page(tokens[3], tokens[4], DatedRows(rows, d)))
  }

  /** No token of a page name holds '-', since the tokens are what splitting on '-' left. */
  lemma PageTokensFree(path: string)
    ensures forall k :: 0 <= k < |PageTokens(path)| ==> '-' !in PageTokens(path)[k]
  {
    SplitPieces(Split(Last(Split(path, '/')), '.')[0], '-');
  }

  /**
   * Construction fails with the first error the code meets: too few tokens
   * in the page name, a short header, no nine-row table, tables whose
   * columns clash in `pd.concat`, an unknown month word, a frame whose columns
   * repeat "date", then a date `pd.to_datetime` rejects; it succeeds exactly
   * when none of these arises.
   */
  lemma PageOfErrors(path: string, tables: seq<RawTable>)
    ensures var tokens := PageTokens(path);
            var kept := EmploymentTables(tables);
            PageOf(path, tables).Err? ==>
              PageOf(path, tables).error ==
                if |tokens| < 5 then TooFewPageTokens
                else if !HeadersWide(kept) then HeaderTooShort
                else if |kept| == 0 then NoEmploymentTables
                else if ColumnsClash(kept) then ColumnLabelsClash
                else if tokens[3] !in MonthDictRev then UnknownMonthName
                else if StackedRows(kept).Ok? && RepeatsLabel(StackedRows(kept).value, "date") then DateColumnRepeated
                else UnparsableDate
    ensures var tokens := PageTokens(path);
            var kept := EmploymentTables(tables);
            PageOf(path, tables).Ok? <==>
              && |tokens| >= 5 && HeadersWide(kept) && |kept| > 0 && !ColumnsClash(kept)
              && tokens[3] in MonthDictRev
              && StackedRows(kept).Ok? && !RepeatsLabel(StackedRows(kept).value, "date")
              && |tokens[4]| == 4 && IsDigits(tokens[4])
              && InTimestampRange(Date(DigitsValue(tokens[4]), MonthDictRev[tokens[3]], 1))
  {
    var tokens := PageTokens(path);
    var kept := EmploymentTables(tables);
    StackedRowsShape(kept);
    if |tokens| >= 5 && StackedRows(kept).Ok? {
      PageTokensFree(path);
      BulletinDateSpec(tokens[3], tokens[4]);
    }
  }

  /**
   * A kept table whose header names "date" in two of its cells past the four
   * relabelled ones: when the tables differ in their columns `pd.concat`
   * raises; otherwise `pd.to_datetime` receives a frame, so construction
   * raises there once the month word is known.
   */
  lemma RepeatedDateHeader(path: string, tables: seq<RawTable>, j: nat, a: nat, b: nat)
    ensures var tokens := PageTokens(path);
            var kept := EmploymentTables(tables);
            && |tokens| >= 5 && tokens[3] in MonthDictRev && HeadersWide(kept) && j < |kept|
            && 4 <= a < b < |kept[j][0]| && kept[j][0][a] == "date" && kept[j][0][b] == "date"
            ==> PageOf(path, tables) == if SameColumns(kept) then Err(DateColumnRepeated) else Err(ColumnLabelsClash)
  {
    var kept := EmploymentTables(tables);
    if HeadersWide(kept) && j < |kept| && 4 <= a < b < |kept[j][0]| && kept[j][0][a] == "date" && kept[j][0][b] == "date" {
      StackedRepeatsLabel(kept, j, a, b, "date");
    }
  }

  /**
   * A built page keeps the month and year tokens of its page name and has
   * eight rows for every nine-row table of the page.
   */
  lemma PageOfRows(path: string, tables: seq<RawTable>)
    ensures PageOf(path, tables).Ok? ==>
            var tokens := PageTokens(path);
            var p := PageOf(path, tables).value;
            && |tokens| >= 5 && p.month == tokens[3] && p.year == tokens[4]
            && |p.rows| == 8 * |EmploymentTables(tables)|
  {
    if PageOf(path, tables).Ok? {
      StackedRowsShape(EmploymentTables(tables));
    }
  }

  /** A page with two employment tables, as a bulletin has, yields sixteen rows. */
  lemma TwoTablesSixteenRows(path: string, tables: seq<RawTable>)
    requires |EmploymentTables(tables)| == 2
    ensures PageOf(path, tables).Ok? ==>
            |PageOf(path, tables).value.rows| == 16
  {
    if PageOf(path, tables).Ok? {
      PageOfRows(path, tables);
    }
  }

  /**
   * Every row of a built page reads, under "date", the first day of the
   * month its page name gives, in the four-digit year it gives.
   */
  lemma PageOfDates(path: string, tables: seq<RawTable>)
    ensures PageOf(path, tables).Ok? ==>
            var p := PageOf(path, tables).value;
            && p.month in MonthDictRev && |p.year| == 4 && IsDigits(p.year)
            && forall k :: 0 <= k < |p.rows| ==>
                 Lookup(p.rows[k], "date") == Stamp(Date(DigitsValue(p.year), MonthDictRev[p.month], 1))
  {
    if PageOf(path, tables).Ok? {
      PageOfErrors(path, tables);
      var tokens := PageTokens(path);
      PageTokensFree(path);
      BulletinDateSpec(tokens[3], tokens[4]);
      var d := Date(DigitsValue(tokens[4]), MonthDictRev[tokens[3]], 1);
      var stacked := StackedRows(EmploymentTables(tables)).value;
      assert PageOf(path, tables).value.rows == DatedRows(stacked, d);
      AssignedColumnSurvivesReplace(stacked, "date", Stamp(d));
    }
  }

  /**
   * Row `i` of the `j`-th nine-row table is row `8 * j + i - 1` of a built
   * page. Its column `c` keeps the relabelled header cell as its name; a
   * "state" column holds the table's state tag, and any column other than
   * "state" and "date" the table's cell, missing exactly when that cell is
   * "U". The row reads the state tag under "state".
   */
  lemma PageOfRowAt(path: string, tables: seq<RawTable>, j: nat, i: nat, c: nat)
    requires var kept := EmploymentTables(tables);
             j < |kept| && 1 <= i < EmploymentTableRows && c < |kept[j][0]|
    ensures PageOf(path, tables).Ok? ==>
            var kept := EmploymentTables(tables);
            var rows := PageOf(path, tables).value.rows;
            var name := if c < 4 then CanonicalLabels[c] else kept[j][0][c];
            && 8 * j + i - 1 < |rows| && c < |rows[8 * j + i - 1]|
            && rows[8 * j + i - 1][c].name == name
            && (name == "state" ==> rows[8 * j + i - 1][c].value == Text(StateTag(j)))
            && (name != "state" && name != "date" ==>
                  rows[8 * j + i - 1][c].value == if kept[j][i][c] == "U" then Missing else Text(kept[j][i][c]))
            && Lookup(rows[8 * j + i - 1], "state") == Text(StateTag(j))
  {
    if PageOf(path, tables).Ok? {
      var tokens := PageTokens(path);
      var kept := EmploymentTables(tables);
      var d := BulletinDate(tokens[3], tokens[4]).value;
      assert PageOf(path, tables).value.rows == DatedRows(StackedRows(kept).value, d);
      StackedRowsValue(kept);
      DatedRowAt(kept, d, j, i, c);
    }
  }

  /** `PageOfRowAt` for the stacked frames of any nine-row tables and any date. */
  lemma DatedRowAt(kept: seq<RawTable>, d: Date, j: nat, i: nat, c: nat)
    requires forall k :: 0 <= k < |kept| ==> |kept[k]| == EmploymentTableRows
    requires HeadersWide(kept)
    requires j < |kept| && 1 <= i < EmploymentTableRows && c < |kept[j][0]|
    ensures var rows := DatedRows(Flatten(NormalizedFrames(kept)), d);
            var name := if c < 4 then CanonicalLabels[c] else kept[j][0][c];
            && 8 * j + i - 1 < |rows| && c < |rows[8 * j + i - 1]|
            && rows[8 * j + i - 1][c].name == name
            && (name == "state" ==> rows[8 * j + i - 1][c].value == Text(StateTag(j)))
            && (name != "state" && name != "date" ==>
                  rows[8 * j + i - 1][c].value == if kept[j][i][c] == "U" then Missing else Text(kept[j][i][c]))
            && Lookup(rows[8 * j + i - 1], "state") == Text(StateTag(j))
  {
    var stacked := Flatten(NormalizedFrames(kept));
    var k := 8 * j + i - 1;
    FlattenedRowAt(kept, j, i, c);
    AssignedThenReplacedColumn(stacked[k], "date", Stamp(d), c);
    assert StateTag(j) != "U";
  }

  /** A `getUrlData` object: the URL path it was built from and the fields its methods fill in. */
  class UrlData {
    const path: string
    var month: Option<string>
    var year: Option<string>
    var data: Option<seq<Row>>

    constructor (path: string)
      ensures this.path == path
      ensures month == None && year == None && data == None
    {
      this.path := path;
      month, year, data := None, None, None;
    }

    /**
     * `get_date`: sets `month` to token 3 and then `year` to token 4 of the
     * page name; with fewer tokens the indexing raises, after `month` is set
     * when there are exactly four.
     */
    method GetDate() returns (r: Outcome<PageError>)
      modifies this
      ensures var tokens := PageTokens(path);
        && month == (if |tokens| >= 4 then Some(tokens[3]) else old(month))
        && year == (if |tokens| >= 5 then Some(tokens[4]) else old(year))
        && r == (if |tokens| >= 5 then Pass else Fail(TooFewPageTokens))
      ensures data == old(data)
    {
      var page := Last(Split(path, '/'));
      var pageElements := Split(Split(page, '.')[0], '-');
      if |pageElements| < 4 {
        return Fail(TooFewPageTokens);
      }
      month := Some(pageElements[3]);
      if |pageElements| < 5 {
        return Fail(TooFewPageTokens);
      }
      year := Some(pageElements[4]);
      return Pass;
    }

    /**
     * `get_tables`, given the page's tables: on success the three fields are
     * those of `PageOf`; on failure it raised `PageOf`'s error, and `data`
     * holds whatever was assigned before the raise.
     */
    method GetTables(tables: seq<RawTable>) returns (r: Outcome<PageError>)
      modifies this
      ensures r.Pass? <==> PageOf(path, tables).Ok?
      ensures r.Pass? ==> var p := PageOf(path, tables).value;
        month == Some(p.month) && year == Some(p.year) && data == Some(p.rows)
      ensures r.Fail? ==> PageOf(path, tables) == Err(r.error)
      ensures r.Fail? ==> var tokens := PageTokens(path);
        && month == (if |tokens| >= 4 then Some(tokens[3]) else old(month))
        && year == (if |tokens| >= 5 then Some(tokens[4]) else old(year))
        && data == match r.error
             case UnknownMonthName => Some(StackedRows(EmploymentTables(tables)).value)
             case DateColumnRepeated =>
               Some(SetColumnAll(StackedRows(EmploymentTables(tables)).value, "date", Text(DateText(tokens[3], tokens[4]))))
             case UnparsableDate =>
               Some(SetColumnAll(StackedRows(EmploymentTables(tables)).value, "date", Text(DateText(tokens[3], tokens[4]))))
             case _ => old(data)
    {
      r := GetDate();
      if r.Fail? {
        return;
      }
      ghost var tokens := PageTokens(path);
      assert month == Some(tokens[3]) && year == Some(tokens[4]);
      var employmentTables := EmploymentTables(tables);
      var tableList := NormalizeTables(employmentTables);
      if tableList.Err? {
        return Fail(tableList.error);
      }
      var stacked := Concat(tableList.value);
      if stacked.Err? {
        return Fail(if stacked.error == NoObjects then NoEmploymentTables else ColumnLabelsClash);
      }
      assert StackedRows(employmentTables) == Ok(stacked.value);
      data := Some(stacked.value);
      var m, y := month.value, year.value;
      if m !in MonthDictRev {
        assert BulletinDate(m, y) == Err(UnknownMonthName);
        return Fail(UnknownMonthName);
      }
      var text := DateText(m, y);
      data := Some(SetColumnAll(data.value, "date", Text(text)));
      if RepeatsLabel(stacked.value, "date") {
        return Fail(DateColumnRepeated);
      }
      var date := ToDatetime(text);
      if date.None? {
        assert BulletinDate(m, y) == Err(UnparsableDate);
        return Fail(UnparsableDate);
      }
      assert BulletinDate(m, y) == Ok(date.value);
      SetColumnAllTwice(stacked.value, "date", Text(text), Stamp(date.value));
      data := Some(SetColumnAll(data.value, "date", Stamp(date.value)));
      data := Some(ReplaceU(data.value));
      return Pass;
    }
  }

  /**
   * `getUrlData(valid_url)`: builds the object and runs `get_tables`; when
   * that raises, no object results and the caller sees the error.
   */
  method Open(path: string, tables: seq<RawTable>) returns (r: Result<UrlData, PageError>)
    ensures r.Ok? <==> PageOf(path, tables).Ok?
    ensures r.Err? ==> PageOf(path, tables) == Err(r.error)
    ensures r.Ok? ==> var p := PageOf(path, tables).value;
      && fresh(r.value) && r.value.path == path
      && r.value.month == Some(p.month) && r.value.year == Some(p.year) && r.value.data == Some(p.rows)
  {
    var obj := new UrlData(path);
    var outcome := obj.GetTables(tables);
    if outcome.Fail? {
      return Err(outcome.error);
    }
    return Ok(obj);
  }
}
