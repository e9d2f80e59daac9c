/**
 * The slice of pandas behaviour the bulletin extractor depends on: a data
 * frame as a list of rows, each row a list of labelled columns; scalar column
 * assignment (`df[name] = value`), `pd.concat`, `df.replace('U', NaN)` and
 * `pd.to_datetime` on a "year-month-day" string.
 */
module Frames {
  import opened Wrappers
  import opened PyStrings

  /** A calendar date, as `pd.to_datetime` produces it (the time of day is always midnight here). */
  datatype Date = Date(year: int, month: int, day: int)

  /** A frame cell: missing (`NaN`), a string, an integer or a timestamp. */
  datatype Cell = Missing | Text(text: string) | Number(n: int) | Stamp(date: Date)

  datatype Column = Column(name: string, value: Cell)

  /**
   * One frame row with its column names. A name the row does not have reads
   * as missing, which is how `pd.concat` fills the columns one of the stacked
   * frames lacks.
   */
  type Row = seq<Column>

  predicate HasLabel(row: Row, name: string)
  {
    exists c :: 0 <= c < |row| && row[c].name == name
  }

  /**
   * Some row has two columns under `name`: the frame's columns repeat that
   * label, and `df[name]` is then a frame rather than a single column.
   */
  predicate RepeatsLabel(rows: seq<Row>, name: string)
  {
    exists k, a, b :: 0 <= k < |rows| && 0 <= a < b < |rows[k]| && rows[k][a].name == name && rows[k][b].name == name
  }

  /** The column labels of a row, in order. */
  function Labels(row: Row): (names: seq<string>)
    ensures |names| == |row| && forall c :: 0 <= c < |row| ==> names[c] == row[c].name
  {
    seq(|row|, c requires 0 <= c < |row| => row[c].name)
  }

  /**
   * A frame's column labels, read off its first row (every frame the
   * bulletin code stacks has rows, all under the same labels).
   */
  function FrameLabels(frame: seq<Row>): seq<string>
  {
    if |frame| == 0 then [] else Labels(frame[0])
  }

  /** Some label occurs twice. */
  predicate HasRepeat(names: seq<string>)
  {
    exists a, b :: 0 <= a < b < |names| && names[a] == names[b]
  }

  /** `row[name]`: the value of the first column with that name, missing when there is none. */
  function Lookup(row: Row, name: string): Cell
  {
    if |row| == 0 then Missing
    else if row[0].name == name then row[0].value
    else Lookup(row[1..], name)
  }

  /** A row without the name reads as missing there. */
  lemma {:induction false} LookupAbsent(row: Row, name: string)
    requires !HasLabel(row, name)
    ensures Lookup(row, name) == Missing
  {
    if |row| > 0 {
      assert forall c :: 0 <= c < |row| - 1 ==> row[1..][c] == row[c + 1];
      LookupAbsent(row[1..], name);
    }
  }

  /** When every column with the name holds `v`, and there is one, the row reads as `v` there. */
  lemma {:induction false} LookupUniform(row: Row, name: string, v: Cell)
    requires HasLabel(row, name)
    requires forall c :: 0 <= c < |row| && row[c].name == name ==> row[c].value == v
    ensures Lookup(row, name) == v
  {
    if row[0].name != name {
      var c :| 0 <= c < |row| && row[c].name == name;
      assert row[1..][c - 1] == row[c];
      LookupUniform(row[1..], name, v);
    }
  }

  /** Two rows that agree on the names and on the values under `name` read alike there. */
  lemma {:induction false} LookupAgree(row: Row, row': Row, name: string)
    requires |row| == |row'|
    requires forall c :: 0 <= c < |row| ==> row[c].name == row'[c].name
    requires forall c :: 0 <= c < |row| && row[c].name == name ==> row[c].value == row'[c].value
    ensures Lookup(row, name) == Lookup(row', name)
  {
    if |row| > 0 && row[0].name != name {
      LookupAgree(row[1..], row'[1..], name);
    }
  }

  lemma {:induction false} LookupAppend(row: Row, col: Column, name: string)
    ensures Lookup(row + [col], name) == if HasLabel(row, name) then Lookup(row, name)
                                         else if col.name == name then col.value else Missing
  {
    if |row| == 0 {
      assert row + [col] == [col];
    } else {
      assert (row + [col])[1..] == row[1..] + [col];
      if row[0].name != name {
        LookupAppend(row[1..], col, name);
        assert HasLabel(row, name) ==> HasLabel(row[1..], name) by {
          if HasLabel(row, name) {
            var c :| 0 <= c < |row| && row[c].name == name;
            assert row[1..][c - 1] == row[c];
          }
        }
        assert HasLabel(row[1..], name) ==> HasLabel(row, name) by {
          if HasLabel(row[1..], name) {
            var c :| 0 <= c < |row| - 1 && row[1..][c].name == name;
            assert row[c + 1] == row[1..][c];
          }
        }
      }
    }
  }

  /**
   * `df[name] = v` on one row: every column with that name now holds `v`;
   * without one, a column is added at the end. The row then reads `v` under
   * `name` and reads as before under every other name.
   */
  function SetColumn(row: Row, name: string, v: Cell): (r: Row)
    ensures Lookup(r, name) == v
    ensures forall l :: l != name ==> Lookup(r, l) == Lookup(row, l)
    ensures |r| == if HasLabel(row, name) then |row| else |row| + 1
    ensures forall c :: 0 <= c < |row| ==> r[c].name == row[c].name
    ensures forall c :: 0 <= c < |row| && row[c].name != name ==> r[c] == row[c]
    ensures forall c :: 0 <= c < |row| && row[c].name == name ==> r[c] == Column(name, v)
    ensures !HasLabel(row, name) ==> r[|row|] == Column(name, v)
  {
    if HasLabel(row, name) then
      var r := seq(|row|, c requires 0 <= c < |row| => if row[c].name == name then Column(name, v) else row[c]);
      var c :| 0 <= c < |row| && row[c].name == name;
      assert r[c].name == name;
      LookupUniform(r, name, v);
      forall l | l != name ensures Lookup(r, l) == Lookup(row, l) {
        LookupAgree(r, row, l);
      }
      r
    else
      var r := row + [Column(name, v)];
      forall l ensures Lookup(r, l) == if l == name then v else Lookup(row, l) {
        LookupAppend(row, Column(name, v), l);
        if l != name && !HasLabel(row, l) {
          LookupAbsent(row, l);
        }
      }
      r
  }

  /** Assigning a column twice leaves only the second value. */
  lemma SetColumnTwice(row: Row, name: string, v: Cell, w: Cell)
    ensures SetColumn(SetColumn(row, name, v), name, w) == SetColumn(row, name, w)
  {
    var once := SetColumn(row, name, v);
    if !HasLabel(row, name) {
      assert once[|row|].name == name;
      assert HasLabel(once, name);
    }
  }

  /**
   * `df[name] = v` on a whole frame: every row then reads `v` under `name`
   * and reads as before under every other name.
   */
  function SetColumnAll(rows: seq<Row>, name: string, v: Cell): (r: seq<Row>)
    ensures |r| == |rows|
    ensures forall k, l :: 0 <= k < |r| ==> Lookup(r[k], l) == if l == name then v else Lookup(rows[k], l)
    ensures forall k :: 0 <= k < |rows| ==> r[k] == SetColumn(rows[k], name, v)
  {
    seq(|rows|, k requires 0 <= k < |rows| => SetColumn(rows[k], name, v))
  }

  /** Assigning a column twice over a whole frame leaves the second value. */
  lemma SetColumnAllTwice(rows: seq<Row>, name: string, v: Cell, w: Cell)
    ensures SetColumnAll(SetColumnAll(rows, name, v), name, w) == SetColumnAll(rows, name, w)
  {
    forall k | 0 <= k < |rows|
      ensures SetColumn(SetColumn(rows[k], name, v), name, w) == SetColumn(rows[k], name, w)
    {
      SetColumnTwice(rows[k], name, v, w);
    }
  }

  /** A cell after `replace(to_replace='U', value=NaN)`. */
  function ReplaceUCell(v: Cell): Cell
  {
    if v == Text("U") then Missing else v
  }

  /**
   * `replace('U', NaN)` on one row: exactly the cells equal to the string
   * "U" become missing; names and every other cell stay as they were.
   */
  function ReplaceURow(row: Row): (r: Row)
    ensures |r| == |row|
    ensures forall c :: 0 <= c < |row| ==> r[c].name == row[c].name
    ensures forall c :: 0 <= c < |row| ==> (r[c].value == Missing <==> row[c].value in {Missing, Text("U")})
    ensures forall c :: 0 <= c < |row| && row[c].value != Text("U") ==> r[c].value == row[c].value
    ensures forall l :: Lookup(r, l) == ReplaceUCell(Lookup(row, l))
  {
    var r := seq(|row|, c requires 0 <= c < |row| => Column(row[c].name, ReplaceUCell(row[c].value)));
    forall l ensures Lookup(r, l) == ReplaceUCell(Lookup(row, l)) {
      ReplaceULookup(row, r, l);
    }
    r
  }

  lemma {:induction false} ReplaceULookup(row: Row, r: Row, name: string)
    requires |r| == |row|
    requires forall c :: 0 <= c < |row| ==> r[c] == Column(row[c].name, ReplaceUCell(row[c].value))
    ensures Lookup(r, name) == ReplaceUCell(Lookup(row, name))
  {
    if |row| > 0 && row[0].name != name {
      ReplaceULookup(row[1..], r[1..], name);
    }
  }

  /**
   * `df.replace(to_replace='U', value=np.nan, inplace=True)` on a whole
   * frame: every row reads missing wherever it read "U", and as before
   * everywhere else.
   */
  function ReplaceU(rows: seq<Row>): (r: seq<Row>)
    ensures |r| == |rows|
    ensures forall k, l :: 0 <= k < |r| ==> Lookup(r[k], l) == ReplaceUCell(Lookup(rows[k], l))
    ensures forall k :: 0 <= k < |rows| ==> r[k] == ReplaceURow(rows[k])
  {
    seq(|rows|, k requires 0 <= k < |rows| => ReplaceURow(rows[k]))
  }

  /**
   * Assigning a column and then replacing "U" leaves every row reading the
   * written value under that name, unless the value was "U" itself.
   */
  lemma AssignedColumnSurvivesReplace(rows: seq<Row>, name: string, v: Cell)
    requires v != Text("U")
    ensures forall k :: 0 <= k < |rows| ==> Lookup(ReplaceU(SetColumnAll(rows, name, v))[k], name) == v
  {
    var written := SetColumnAll(rows, name, v);
    forall k | 0 <= k < |rows| ensures Lookup(ReplaceU(written)[k], name) == v {
      assert Lookup(written[k], name) == v;
      assert Lookup(ReplaceURow(written[k]), name) == ReplaceUCell(v);
    }
  }

  /**
   * Column `c` of a row after assigning `name` and replacing "U": it keeps
   * its name and holds the assigned value if it bears that name, its own
   * value otherwise, made missing when that value was "U".
   */
  lemma AssignedThenReplacedColumn(row: Row, name: string, v: Cell, c: nat)
    requires c < |row|
    ensures var r := ReplaceURow(SetColumn(row, name, v));
            && c < |r| && r[c].name == row[c].name
            && r[c].value == ReplaceUCell(if row[c].name == name then v else row[c].value)
            && forall l :: l != name ==> Lookup(r, l) == ReplaceUCell(Lookup(row, l))
  {
  }

  /** The rows of the frames, stacked in order. */
  function Flatten(frames: seq<seq<Row>>): seq<Row>
  {
    if |frames| == 0 then [] else frames[0] + Flatten(frames[1..])
  }

  /** The two errors `pd.concat` can raise on the frames built here. */
  datatype ConcatError =
    | NoObjects         // ValueError: "No objects to concatenate"
    | ReindexNotUnique  // InvalidIndexError: "Reindexing only valid with uniquely valued Index objects"

  /**
   * When the frames' column labels are not all the same, `pd.concat` builds
   * their union, each label once, and reindexes every frame whose labels
   * differ from it; a frame that repeats a label always differs from it, and
   * reindexing such a frame raises. Equal labels are taken as they are.
   */
  predicate ReindexRaises(frames: seq<seq<Row>>)
  {
    && (exists j :: 0 <= j < |frames| && FrameLabels(frames[j]) != FrameLabels(frames[0]))
    && (exists j :: 0 <= j < |frames| && HasRepeat(FrameLabels(frames[j])))
  }

  /**
   * `pd.concat(frames)`: the stacked rows, or the error it raises. It
   * raises `NoObjects` exactly on an empty list and `ReindexNotUnique`
   * exactly when the labels differ somewhere and some frame repeats one.
   */
  function Concat(frames: seq<seq<Row>>): (r: Result<seq<Row>, ConcatError>)
    ensures r == Err(NoObjects) <==> |frames| == 0
    ensures r == Err(ReindexNotUnique) <==> |frames| > 0 && ReindexRaises(frames)
    ensures r.Ok? ==> r.value == Flatten(frames)
  {
    if |frames| == 0 then Err(NoObjects)
    else if ReindexRaises(frames) then Err(ReindexNotUnique)
    else Ok(Flatten(frames))
  }

  /** Frames that all share their labels, or none of which repeats a label, always stack. */
  lemma ConcatStacks(frames: seq<seq<Row>>)
    requires |frames| > 0
    ensures (forall j :: 0 <= j < |frames| ==> FrameLabels(frames[j]) == FrameLabels(frames[0])) ==> Concat(frames).Ok?
    ensures (forall j :: 0 <= j < |frames| ==> !HasRepeat(FrameLabels(frames[j]))) ==> Concat(frames).Ok?
  {
  }

  /** Stacking frames of `n` rows each gives `n` rows per frame. */
  lemma {:induction false} FlattenLength(frames: seq<seq<Row>>, n: nat)
    requires forall j :: 0 <= j < |frames| ==> |frames[j]| == n
    ensures |Flatten(frames)| == n * |frames|
  {
    if |frames| > 0 {
      FlattenLength(frames[1..], n);
      assert n * |frames| == n + n * (|frames| - 1);
    }
  }

  /** Row `i` of frame `j` in a stack of frames of `n` rows each lands at position `n * j + i`. */
  lemma {:induction false} FlattenAt(frames: seq<seq<Row>>, n: nat, j: nat, i: nat)
    requires forall j :: 0 <= j < |frames| ==> |frames[j]| == n
    requires j < |frames| && i < n
    ensures n * j + i < |Flatten(frames)| && Flatten(frames)[n * j + i] == frames[j][i]
  {
    FlattenLength(frames, n);
    if j > 0 {
      var rest := frames[1..];
      FlattenAt(rest, n, j - 1, i);
      assert n * j + i == n + (n * (j - 1) + i) by {
        assert n * j == n + n * (j - 1);
      }
      assert rest[j - 1] == frames[j];
      assert |frames[0]| == n;
    }
  }

  // ------------------------------------------------------------ to_datetime

  function DaysInMonth(year: int, month: int): int
    requires 1 <= month <= 12
  {
    if month == 2 then (if (year % 4 == 0 && year % 100 != 0) || year % 400 == 0 then 29 else 28)
    else if month in {4, 6, 9, 11} then 30
    else 31
  }

  predicate IsCalendarDate(d: Date)
  {
    1 <= d.month <= 12 && 1 <= d.day <= DaysInMonth(d.year, d.month)
  }

  /** pandas timestamps have nanosecond resolution in 64 bits: 1677-09-21 up to 2262-04-11. */
  predicate InTimestampRange(d: Date)
  {
    && (d.year > 1677 || (d.year == 1677 && (d.month > 9 || (d.month == 9 && d.day >= 22))))
    && (d.year < 2262 || (d.year == 2262 && (d.month < 4 || (d.month == 4 && d.day <= 11))))
  }

  /**
   * `pd.to_datetime` on a string of the form "YYYY-M-D" (four year digits,
   * one or two for month and day); `None` stands for the error it raises on
   * a string that is not such a date or lies outside the timestamp range.
   */
  function ToDatetime(s: string): (r: Option<Date>)
    ensures r.Some? ==> IsCalendarDate(r.value) && InTimestampRange(r.value)
  {
    var fields := Split(s, '-');
    if |fields| == 3 && |fields[0]| == 4 && IsDigits(fields[0])
       && IsDigits(fields[1]) && |fields[1]| <= 2 && IsDigits(fields[2]) && |fields[2]| <= 2
    then
      var d := Date(DigitsValue(fields[0]), DigitsValue(fields[1]), DigitsValue(fields[2]));
      if IsCalendarDate(d) && InTimestampRange(d) then Some(d) else None
    else None
  }

  /** A "Y-M-1" string with a four-digit year and a month number converts to the first of that month, if in range. */
  lemma ToDatetimeFirstOfMonth(text: string, year: string, digits: string)
    requires Split(text, '-') == [year, digits, "1"]
    requires IsDigits(digits) && |digits| <= 2 && 1 <= DigitsValue(digits) <= 12
    ensures
      ToDatetime(text) ==
        if |year| == 4 && IsDigits(year) && InTimestampRange(Date(DigitsValue(year), DigitsValue(digits), 1))
        then Some(Date(DigitsValue(year), DigitsValue(digits), 1))
        else None
  {
    assert IsDigits("1");
    assert DigitsValue("1") == 1 by {
      assert "1"[..0] == "";
    }
  }
}
