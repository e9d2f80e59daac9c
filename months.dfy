/**
 * The month-name tables: `MONTH_DICT` maps 1..12 to the lower-case English
 * month name, and `MONTH_DICT_REV` is its inverse, used to turn the month
 * word of a bulletin URL into a month number.
 */
module Months {
  import opened PyStrings
  import opened DictInverse

  /** `calendar.month_name` in the English locale: an empty name at index 0, then the twelve months. */
  const CalendarMonthName: seq<string> :=
    ["", "January", "February", "March", "April", "May", "June",
     "July", "August", "September", "October", "November", "December"]

  /** `{idx: month.lower() for idx, month in enumerate(calendar.month_name) if month}`. */
  const MonthDict: map<int, string> :=
    map idx | 0 <= idx < |CalendarMonthName| && CalendarMonthName[idx] != "" :: Lower(CalendarMonthName[idx])

  /** `{v: k for k, v in MONTH_DICT.items()}`. */
  const MonthDictRev: map<string, int> := (NamesDistinct(); Invert(MonthDict))

  /** The lower-case English month names, January first: an independent reference for both tables. */
  const EnglishMonths: seq<string> :=
    ["january", "february", "march", "april", "may", "june",
     "july", "august", "september", "october", "november", "december"]

  /**
   * `MONTH_DICT` holds exactly the keys 1..12 (the empty name at index 0 is
   * filtered out), and key `i + 1` is the lower-case name of the `i`-th month.
   */
  lemma MonthDictContents()
    ensures forall i :: i in MonthDict <==> 1 <= i <= 12
    ensures forall i :: 0 <= i < 12 ==> MonthDict[i + 1] == EnglishMonths[i]
  {
    MonthDictKeys();
    forall i | 0 <= i < 12
      ensures Lower(CalendarMonthName[i + 1]) == EnglishMonths[i]
    {
      LowerName(i);
    }
  }

  lemma MonthDictKeys()
    ensures forall i :: i in MonthDict <==> 1 <= i <= 12
  {
    assert CalendarMonthName[0] == "";
  }

  lemma LowerName(i: int)
    requires 0 <= i < 12
    ensures Lower(CalendarMonthName[i + 1]) == EnglishMonths[i]
  {
    var name, lower := CalendarMonthName[i + 1], EnglishMonths[i];
    assert |Lower(name)| == |lower|;
    forall k | 0 <= k < |lower| ensures Lower(name)[k] == lower[k] {
    }
  }

  /** No two months share a name, so the inverse comprehension loses no month. */
  lemma NamesDistinct()
    ensures Injective(MonthDict)
  {
    MonthDictContents();
    forall i, j | i in MonthDict && j in MonthDict && MonthDict[i] == MonthDict[j]
      ensures i == j
    {
      var a, b := EnglishMonths[i - 1], EnglishMonths[j - 1];
      assert |a| == |b| && a[0] == b[0] && a[2] == b[2];
    }
  }

  /** The two tables undo each other: number to name and back, and name to number and back. */
  lemma MonthRoundTrip()
    ensures forall i :: 1 <= i <= 12 ==> MonthDict[i] in MonthDictRev && MonthDictRev[MonthDict[i]] == i
    ensures forall m :: m in MonthDictRev ==> MonthDictRev[m] in MonthDict && MonthDict[MonthDictRev[m]] == m
  {
    NamesDistinct();
    MonthDictKeys();
  }

  /** `MONTH_DICT_REV` maps the lower-case name of the `i`-th month to `i`. */
  lemma MonthDictRevValues()
    ensures forall i :: 0 <= i < 12 ==> EnglishMonths[i] in MonthDictRev && MonthDictRev[EnglishMonths[i]] == i + 1
  {
    NamesDistinct();
    MonthDictContents();
  }

  /** `MONTH_DICT_REV` has exactly the twelve lower-case English month names as keys. */
  lemma MonthDictRevKeys()
    ensures forall m :: m in MonthDictRev <==> m in EnglishMonths
  {
    NamesDistinct();
    MonthDictContents();
    forall m | m in MonthDictRev ensures m in EnglishMonths {
      var k := MonthDictRev[m];
      assert MonthDict[k] == EnglishMonths[k - 1];
    }
    forall m | m in EnglishMonths ensures m in MonthDictRev {
      var i :| 0 <= i < 12 && EnglishMonths[i] == m;
      assert MonthDict[i + 1] == m;
    }
  }

  /** Both tables have twelve entries. */
  lemma MonthTablesSize()
    ensures |MonthDict| == 12 && |MonthDictRev| == 12
  {
    MonthDictSize();
    MonthDictRevKeys();
    TwelveNames(MonthDictRev.Keys);
  }

  lemma MonthDictSize()
    ensures |MonthDict| == 12
  {
    var keys := {1, 2, 3, 4, 5, 6, 7, 8, 9, 10, 11, 12};
    assert |keys| == 12;
    MonthDictKeys();
    assert forall i :: i in keys <==> 1 <= i <= 12;
    assert MonthDict.Keys == keys;
  }

  lemma TwelveNames(keys: set<string>)
    requires forall m :: m in keys <==> m in EnglishMonths
    ensures |keys| == 12
  {
    forall i, j | 0 <= i < j < 12 ensures EnglishMonths[i] != EnglishMonths[j] {
      var a, b := EnglishMonths[i], EnglishMonths[j];
      assert |a| != |b| || a[0] != b[0] || a[2] != b[2];
    }
    DistinctElements(EnglishMonths);
    assert keys == set m | m in EnglishMonths;
  }

  /** A list without repeats has as many distinct elements as entries. */
  lemma {:induction false} DistinctElements(s: seq<string>)
    requires forall i, j :: 0 <= i < j < |s| ==> s[i] != s[j]
    ensures |set m | m in s| == |s|
  {
    if |s| > 0 {
      DistinctElements(s[1..]);
      assert (set m | m in s) == {s[0]} + (set m | m in s[1..]);
      assert s[0] !in (set m | m in s[1..]);
    }
  }
}
