/**
 * The table handling both `getUrlData` variants share: keep the tables of
 * exactly nine rows, turn each one's first row into its column labels with
 * the first four relabelled, drop that row, tag each frame with its state
 * ("final" for the first kept table, "filing" for every later one) and stack
 * the frames in page order.
 */
module Employment {
  import opened Wrappers
  import opened Frames
  import opened PageErrors

  /** A table as `pd.read_html` returns it: rows of cell texts, all of one width. */
  type RawTable = t: seq<seq<string>> | forall i :: 0 <= i < |t| ==> |t[i]| == |t[0]|

  /** An employment table has a header row and eight preference-category rows. */
  const EmploymentTableRows: nat := 9

  /** The labels written over the first four header cells. */
  const CanonicalLabels: seq<string> := ["EBn", "ALL", "CHINA", "CENTRALAMERICA"]

  /** `[x for x in tables if len(x) == 9]`: every kept table has nine rows. */
  function EmploymentTables(tables: seq<RawTable>): (kept: seq<RawTable>)
    ensures forall k :: 0 <= k < |kept| ==> |kept[k]| == EmploymentTableRows
    ensures |kept| <= |tables|
  {
    if |tables| == 0 then []
    else
      var rest := EmploymentTables(tables[1..]);
      if |tables[0]| == EmploymentTableRows then [tables[0]] + rest else rest
  }

  /** The kept tables are exactly the page's tables with nine rows. */
  lemma {:induction false} EmploymentTablesMembers(tables: seq<RawTable>)
    ensures forall t :: t in EmploymentTables(tables) <==> t in tables && |t| == EmploymentTableRows
  {
    if |tables| > 0 {
      EmploymentTablesMembers(tables[1..]);
      assert forall t :: t in tables <==> t == tables[0] || t in tables[1..];
    }
  }

  /**
   * The filter keeps page order: filtering a concatenation filters each part,
   * and a single table is kept exactly when it has nine rows.
   */
  lemma {:induction false} EmploymentTablesAppend(a: seq<RawTable>, b: seq<RawTable>)
    ensures EmploymentTables(a + b) == EmploymentTables(a) + EmploymentTables(b)
    ensures forall t: RawTable :: EmploymentTables([t]) == if |t| == EmploymentTableRows then [t] else []
  {
    KeptInOrder(a, b);
    forall t: RawTable ensures EmploymentTables([t]) == if |t| == EmploymentTableRows then [t] else [] {
      assert [t][1..] == [];
    }
  }

  lemma {:induction false} KeptInOrder(a: seq<RawTable>, b: seq<RawTable>)
    ensures EmploymentTables(a + b) == EmploymentTables(a) + EmploymentTables(b)
  {
    if |a| > 0 {
      var ab := a + b;
      assert ab[0] == a[0] && ab[1..] == a[1..] + b;
      KeptInOrder(a[1..], b);
      if |a[0]| == EmploymentTableRows {
        assert EmploymentTables(ab) == [a[0]] + EmploymentTables(a[1..] + b);
        assert EmploymentTables(a) == [a[0]] + EmploymentTables(a[1..]);
      } else {
        assert EmploymentTables(ab) == EmploymentTables(a[1..] + b);
        assert EmploymentTables(a) == EmploymentTables(a[1..]);
      }
    } else {
      assert a + b == b;
    }
  }

  /** The state a kept table's rows are tagged with, by its position among the kept tables. */
  function StateTag(idx: nat): string
  {
    if idx == 0 then "final" else "filing"
  }

  /**
   * `columns = table.iloc[0]; columns[0:4] = [...]`: the header keeps its
   * width; its first four labels become the canonical ones and every later
   * label is the header cell itself.
   */
  function HeaderLabels(header: seq<string>): (labels: seq<string>)
    requires |header| >= 4
    ensures |labels| == |header|
    ensures labels[..4] == CanonicalLabels && labels[4..] == header[4..]
  {
    CanonicalLabels + header[4..]
  }

  /** One data row under the given labels. */
  function LabelledRow(names: seq<string>, cells: seq<string>): Row
    requires |names| == |cells|
  {
    seq(|names|, c requires 0 <= c < |names| => Column(names[c], Text(cells[c])))
  }

  /**
   * What one loop iteration appends for the kept table `t` at position
   * `idx`: its rows after the first, under the relabelled header, each with
   * its `state` column set.
   */
  function NormalizeTable(t: RawTable, idx: nat): (frame: seq<Row>)
    requires |t| >= 1 && |t[0]| >= 4
    ensures |frame| == |t| - 1
  {
    var names := HeaderLabels(t[0]);
    seq(|t| - 1, i requires 0 <= i < |t| - 1 =>
      assert |t[i + 1]| == |t[0]|;
      SetColumn(LabelledRow(names, t[i + 1]), "state", Text(StateTag(idx))))
  }

  /** Every kept table has a header wide enough to relabel. */
  predicate HeadersWide(kept: seq<RawTable>)
  {
    forall k :: 0 <= k < |kept| ==> |kept[k]| >= 1 && |kept[k][0]| >= 4
  }

  /**
   * The column labels of the frame built from a table with this header: the
   * relabelled header, with "state" appended unless it names one already.
   */
  function FrameColumns(header: seq<string>): seq<string>
    requires |header| >= 4
  {
    var names := HeaderLabels(header);
    if "state" in names then names else names + ["state"]
  }

  /** The frame built from a table with at least one data row carries `FrameColumns` of its header. */
  lemma NormalizedLabels(t: RawTable, idx: nat)
    requires |t| >= 2 && |t[0]| >= 4
    ensures FrameLabels(NormalizeTable(t, idx)) == FrameColumns(t[0])
  {
    var names := HeaderLabels(t[0]);
    assert |t[1]| == |t[0]|;
    var plain := LabelledRow(names, t[1]);
    var row := SetColumn(plain, "state", Text(StateTag(idx)));
    assert NormalizeTable(t, idx)[0] == row;
    assert HasLabel(plain, "state") <==> "state" in names by {
      if "state" in names {
        var c :| 0 <= c < |names| && names[c] == "state";
        assert plain[c].name == "state";
      }
    }
    assert Labels(row) == FrameColumns(t[0]);
  }

  /** Every kept table's frame carries the labels of the first one. */
  predicate SameColumns(kept: seq<RawTable>)
    requires HeadersWide(kept)
  {
    forall k :: 0 <= k < |kept| ==> FrameColumns(kept[k][0]) == FrameColumns(kept[0][0])
  }

  /**
   * The kept tables on which `pd.concat` raises `InvalidIndexError`: their
   * frames' labels are not all the same, and one frame repeats a label.
   */
  predicate ColumnsClash(kept: seq<RawTable>)
    requires HeadersWide(kept)
  {
    !SameColumns(kept) && exists k :: 0 <= k < |kept| && HasRepeat(FrameColumns(kept[k][0]))
  }

  /** The frames the loop builds when no header is too short. */
  function NormalizedFrames(kept: seq<RawTable>): (frames: seq<seq<Row>>)
    requires HeadersWide(kept)
    ensures |frames| == |kept|
  {
    seq(|kept|, k requires 0 <= k < |kept| => NormalizeTable(kept[k], k))
  }

  /** Each frame of the loop has one row fewer than its table. */
  lemma NormalizedFramesRows(kept: seq<RawTable>)
    requires HeadersWide(kept)
    ensures forall k :: 0 <= k < |kept| ==> |NormalizedFrames(kept)[k]| == |kept[k]| - 1
  {
  }

  /**
   * The `for idx, table in enumerate(employment_tables)` loop: one frame per
   * kept table, in order, stopping with an error at the first header that
   * has fewer than four cells.
   */
  method NormalizeTables(kept: seq<RawTable>) returns (r: Result<seq<seq<Row>>, PageError>)
    requires forall k :: 0 <= k < |kept| ==> |kept[k]| >= 1
    ensures r.Ok? <==> HeadersWide(kept)
    ensures r.Err? ==> r.error == HeaderTooShort
    ensures r.Ok? ==> r.value == NormalizedFrames(kept)
  {
    var tableList: seq<seq<Row>> := [];
    for idx := 0 to |kept|
      invariant forall k :: 0 <= k < idx ==> |kept[k][0]| >= 4
      invariant |tableList| == idx
      invariant forall k :: 0 <= k < idx ==> tableList[k] == NormalizeTable(kept[k], k)
    {
      var table := kept[idx];
      if |table[0]| < 4 {
        return Err(HeaderTooShort);
      }
      tableList := tableList + [NormalizeTable(table, idx)];
    }
    return Ok(tableList);
  }

  /** The loop followed by `pd.concat(table_list)`. */
  function StackedRows(kept: seq<RawTable>): Result<seq<Row>, PageError>
  {
    if !HeadersWide(kept) then Err(HeaderTooShort)
    else match Concat(NormalizedFrames(kept))
      case Err(NoObjects) => Err(NoEmploymentTables)
      case Err(ReindexNotUnique) => Err(ColumnLabelsClash)
      case Ok(rows) => Ok(rows)
  }

  /** A stack that succeeded holds the loop's frames, stacked. */
  lemma StackedRowsValue(kept: seq<RawTable>)
    requires StackedRows(kept).Ok?
    ensures HeadersWide(kept) && StackedRows(kept).value == Flatten(NormalizedFrames(kept))
  {
  }

  /** For nine-row tables, `pd.concat` raises on the loop's frames exactly when the tables' columns clash. */
  lemma ReindexRaisesOnClash(kept: seq<RawTable>)
    requires forall k :: 0 <= k < |kept| ==> |kept[k]| == EmploymentTableRows
    requires HeadersWide(kept)
    ensures ReindexRaises(NormalizedFrames(kept)) <==> ColumnsClash(kept)
  {
    var frames := NormalizedFrames(kept);
    forall k | 0 <= k < |kept|
      ensures FrameLabels(frames[k]) == FrameColumns(kept[k][0])
    {
      NormalizedLabels(kept[k], k);
    }
  }

  /** A table of nine copies of `header`, header row included. */
  function Repeated(header: seq<string>): (t: RawTable)
    ensures |t| == EmploymentTableRows && t[0] == header
  {
    seq(9, i => header)
  }

  /**
   * Two nine-row tables whose headers end in "X", "X" and in "Y": their
   * labels differ and the first frame repeats "X", so `pd.concat` raises.
   */
  lemma ClashingTablesRaise()
    ensures StackedRows([Repeated(["a", "b", "c", "d", "X", "X"]), Repeated(["a", "b", "c", "d", "Y"])])
            == Err(ColumnLabelsClash)
  {
    var h0, h1 := ["a", "b", "c", "d", "X", "X"], ["a", "b", "c", "d", "Y"];
    var kept := [Repeated(h0), Repeated(h1)];
    assert HeadersWide(kept) by {
      assert kept[0][0] == h0 && kept[1][0] == h1;
    }
    var names := FrameColumns(h0);
    assert names == ["EBn", "ALL", "CHINA", "CENTRALAMERICA", "X", "X", "state"];
    assert FrameColumns(h1) == ["EBn", "ALL", "CHINA", "CENTRALAMERICA", "Y", "state"];
    assert FrameColumns(kept[1][0]) != FrameColumns(kept[0][0]);
    assert HasRepeat(FrameColumns(kept[0][0])) by {
      assert names[4] == names[5];
    }
    StackedRowsShape(kept);
  }

  /** The same two repeated labels in every table: nothing is reindexed and the tables stack. */
  lemma RepeatedEqualTablesStack()
    ensures StackedRows([Repeated(["a", "b", "c", "d", "X", "X"]), Repeated(["a", "b", "c", "d", "X", "X"])]).Ok?
  {
    var h := ["a", "b", "c", "d", "X", "X"];
    var kept := [Repeated(h), Repeated(h)];
    assert HeadersWide(kept) by {
      assert kept[0][0] == h && kept[1][0] == h;
    }
    assert SameColumns(kept);
    StackedRowsShape(kept);
  }

  /**
   * Stacking nine-row tables succeeds exactly when there is at least one,
   * every header has four cells or more and their columns do not clash; it
   * then yields eight rows per table, and otherwise raises the loop's or
   * `pd.concat`'s error.
   */
  lemma StackedRowsShape(kept: seq<RawTable>)
    requires forall k :: 0 <= k < |kept| ==> |kept[k]| == EmploymentTableRows
    ensures StackedRows(kept).Ok? <==> |kept| > 0 && HeadersWide(kept) && !ColumnsClash(kept)
    ensures !HeadersWide(kept) ==> StackedRows(kept) == Err(HeaderTooShort)
    ensures HeadersWide(kept) && |kept| == 0 ==> StackedRows(kept) == Err(NoEmploymentTables)
    ensures HeadersWide(kept) && |kept| > 0 && ColumnsClash(kept) ==> StackedRows(kept) == Err(ColumnLabelsClash)
    ensures StackedRows(kept).Ok? ==> |StackedRows(kept).value| == 8 * |kept|
  {
    if HeadersWide(kept) {
      ReindexRaisesOnClash(kept);
      if StackedRows(kept).Ok? {
        FlattenLength(NormalizedFrames(kept), 8);
      }
    }
  }

  /**
   * Tables one of whose headers names a label twice past its first four
   * cells stack only when every table carries the same columns, and the
   * stack then repeats that label; otherwise `pd.concat` raises.
   */
  lemma StackedRepeatsLabel(kept: seq<RawTable>, j: nat, a: nat, b: nat, name: string)
    requires forall k :: 0 <= k < |kept| ==> |kept[k]| == EmploymentTableRows
    requires HeadersWide(kept) && j < |kept|
    requires 4 <= a < b < |kept[j][0]| && kept[j][0][a] == name && kept[j][0][b] == name
    ensures !SameColumns(kept) ==> StackedRows(kept) == Err(ColumnLabelsClash)
    ensures StackedRows(kept).Ok? <==> SameColumns(kept)
    ensures StackedRows(kept).Ok? ==> RepeatsLabel(StackedRows(kept).value, name)
  {
    assert HasRepeat(FrameColumns(kept[j][0])) by {
      var header := kept[j][0];
      var labels := HeaderLabels(header);
      assert labels[a] == labels[4..][a - 4] == header[4..][a - 4] == name;
      assert labels[b] == labels[4..][b - 4] == header[4..][b - 4] == name;
      var names := FrameColumns(header);
      assert names[a] == name && names[b] == name;
    }
    StackedRowsShape(kept);
    if !SameColumns(kept) {
      return;
    }
    StackedRowAt(kept, j, 1, a);
    StackedRowAt(kept, j, 1, b);
    var row := StackedRows(kept).value[8 * j];
    assert row[a].name == name && row[b].name == name;
  }

  /**
   * Row `i` (counting the header as row 0) of the `j`-th kept table is row
   * `8 * j + i - 1` of the stack. Its column `c` carries the relabelled header
   * cell and the table's cell text, except that a column labelled "state"
   * holds the table's state tag; the row reads that tag under "state".
   */
  lemma StackedRowAt(kept: seq<RawTable>, j: nat, i: nat, c: nat)
    requires forall k :: 0 <= k < |kept| ==> |kept[k]| == EmploymentTableRows
    requires StackedRows(kept).Ok?
    requires j < |kept| && 1 <= i < EmploymentTableRows && c < |kept[j][0]|
    ensures 8 * j + i - 1 < |StackedRows(kept).value|
    ensures var row := StackedRows(kept).value[8 * j + i - 1];
            var name := if c < 4 then CanonicalLabels[c] else kept[j][0][c];
            && c < |row|
            && row[c] == Column(name, if name == "state" then Text(StateTag(j)) else Text(kept[j][i][c]))
            && Lookup(row, "state") == Text(StateTag(j))
  {
    StackedRowsValue(kept);
    FlattenedRowAt(kept, j, i, c);
  }

  /** `StackedRowAt` for the loop's frames, stacked. */
  lemma FlattenedRowAt(kept: seq<RawTable>, j: nat, i: nat, c: nat)
    requires forall k :: 0 <= k < |kept| ==> |kept[k]| == EmploymentTableRows
    requires HeadersWide(kept)
    requires j < |kept| && 1 <= i < EmploymentTableRows && c < |kept[j][0]|
    ensures 8 * j + i - 1 < |Flatten(NormalizedFrames(kept))|
    ensures var row := Flatten(NormalizedFrames(kept))[8 * j + i - 1];
            var name := if c < 4 then CanonicalLabels[c] else kept[j][0][c];
            && c < |row|
            && row[c] == Column(name, if name == "state" then Text(StateTag(j)) else Text(kept[j][i][c]))
            && Lookup(row, "state") == Text(StateTag(j))
  {
    FlattenedRowIs(kept, j, i);
    NormalizedRowAt(kept[j], j, i, c);
  }

  /** Row `i` of the `j`-th kept table is the loop's row for it, at `8 * j + i - 1` of the stack. */
  lemma FlattenedRowIs(kept: seq<RawTable>, j: nat, i: nat)
    requires forall k :: 0 <= k < |kept| ==> |kept[k]| == EmploymentTableRows
    requires HeadersWide(kept)
    requires j < |kept| && 1 <= i < EmploymentTableRows
    ensures 8 * j + i - 1 < |Flatten(NormalizedFrames(kept))|
    ensures Flatten(NormalizedFrames(kept))[8 * j + i - 1] == NormalizeTable(kept[j], j)[i - 1]
  {
    NormalizedFramesRows(kept);
    FlattenAt(NormalizedFrames(kept), 8, j, i - 1);
  }

  /** `StackedRowAt` for row `i` of one normalized table. */
  lemma NormalizedRowAt(t: RawTable, idx: nat, i: nat, c: nat)
    requires |t| >= 1 && |t[0]| >= 4 && 1 <= i < |t| && c < |t[0]|
    ensures var row := NormalizeTable(t, idx)[i - 1];
            var name := if c < 4 then CanonicalLabels[c] else t[0][c];
            && c < |row|
            && row[c] == Column(name, if name == "state" then Text(StateTag(idx)) else Text(t[i][c]))
            && Lookup(row, "state") == Text(StateTag(idx))
  {
    assert |t[i]| == |t[0]|;
    var labels := HeaderLabels(t[0]);
    if c >= 4 {
      assert labels[c] == labels[4..][c - 4] == t[0][4..][c - 4];
    } else {
      assert labels[c] == labels[..4][c];
    }
  }

  /**
   * A stacked row has no column under a name that is neither "state" nor
   * one of its table's relabelled header cells, so it reads missing there.
   */
  lemma StackedRowLookupAbsent(kept: seq<RawTable>, j: nat, i: nat, name: string)
    requires forall k :: 0 <= k < |kept| ==> |kept[k]| == EmploymentTableRows
    requires StackedRows(kept).Ok?
    requires j < |kept| && 1 <= i < EmploymentTableRows
    requires name != "state" && name !in HeaderLabels(kept[j][0])
    ensures 8 * j + i - 1 < |StackedRows(kept).value|
    ensures Lookup(StackedRows(kept).value[8 * j + i - 1], name) == Missing
  {
    StackedRowsValue(kept);
    FlattenedRowLookupAbsent(kept, j, i, name);
  }

  /** `StackedRowLookupAbsent` for the loop's frames, stacked. */
  lemma FlattenedRowLookupAbsent(kept: seq<RawTable>, j: nat, i: nat, name: string)
    requires forall k :: 0 <= k < |kept| ==> |kept[k]| == EmploymentTableRows
    requires HeadersWide(kept)
    requires j < |kept| && 1 <= i < EmploymentTableRows
    requires name != "state" && name !in HeaderLabels(kept[j][0])
    ensures 8 * j + i - 1 < |Flatten(NormalizedFrames(kept))|
    ensures Lookup(Flatten(NormalizedFrames(kept))[8 * j + i - 1], name) == Missing
  {
    FlattenedRowIs(kept, j, i);
    NormalizedRowLookupAbsent(kept[j], j, i, name);
  }

  /** A row of one normalized table reads missing under a name that is neither "state" nor a relabelled header cell. */
  lemma NormalizedRowLookupAbsent(t: RawTable, idx: nat, i: nat, name: string)
    requires |t| >= 1 && |t[0]| >= 4 && 1 <= i < |t|
    requires name != "state" && name !in HeaderLabels(t[0])
    ensures Lookup(NormalizeTable(t, idx)[i - 1], name) == Missing
  {
    var names := HeaderLabels(t[0]);
    assert |t[i]| == |t[0]|;
    var plain := LabelledRow(names, t[i]);
    assert NormalizeTable(t, idx)[i - 1] == SetColumn(plain, "state", Text(StateTag(idx)));
    LabelledRowAbsent(names, t[i], name);
  }

  /** A row under the given labels reads missing under any other name. */
  lemma LabelledRowAbsent(names: seq<string>, cells: seq<string>, name: string)
    requires |names| == |cells| && name !in names
    ensures Lookup(LabelledRow(names, cells), name) == Missing
  {
    var plain := LabelledRow(names, cells);
    assert !HasLabel(plain, name) by {
      assert forall c :: 0 <= c < |plain| ==> plain[c].name == names[c];
    }
    LookupAbsent(plain, name);
  }
}
