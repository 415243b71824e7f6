/** The column distribution chart: the 90-row frequency table grouped into the
    nine columns of a loto card (1-9, 10-19, ..., 70-79, 80-90), the total over
    the columns, and the columns with the highest and the lowest count. */
module ColumnDistribution {
  import opened SeqUtil
  import opened UseStats

  datatype ColumnStat = ColumnStat(column: string, count: int, numbers: seq<int>)

  const COLUMN_LABELS: seq<string> :=
    ["1-9", "10-19", "20-29", "30-39", "40-49", "50-59", "60-69", "70-79", "80-90"]

  /** The column of a number, by the chain of range tests; every number outside
      1..79 lands in the last column, including any outside 1..90. */
  function ColumnIndex(num: int): (k: nat)
    ensures k < 9
  {
    if num >= 1 && num <= 9 then 0
    else if num >= 10 && num <= 19 then 1
    else if num >= 20 && num <= 29 then 2
    else if num >= 30 && num <= 39 then 3
    else if num >= 40 && num <= 49 then 4
    else if num >= 50 && num <= 59 then 5
    else if num >= 60 && num <= 69 then 6
    else if num >= 70 && num <= 79 then 7
    else 8
  }

  /** The chain of tests is the tens digit for 1..79, and the last column for
      everything else. */
  lemma ColumnIndexByTens(num: int)
    ensures 1 <= num <= 79 ==> ColumnIndex(num) == num / 10
    ensures !(1 <= num <= 79) ==> ColumnIndex(num) == 8
  {
  }

  /** Within 1..90 the columns are the ranges of their labels: the first holds
      1..9, column k holds 10k..10k+9 for k = 1..7 and the last holds 80..90. */
  lemma ColumnRanges(num: int, k: nat)
    requires 1 <= num <= 90 && k < 9
    ensures ColumnIndex(num) == k <==>
      if k == 0 then num <= 9 else if k == 8 then 80 <= num else 10 * k <= num <= 10 * k + 9
  {
  }

  function InColumn(k: nat): FrequencyEntry -> bool {
    (e: FrequencyEntry) => ColumnIndex(e.number) == k
  }

  function DrawnInColumn(k: nat): FrequencyEntry -> bool {
    (e: FrequencyEntry) => ColumnIndex(e.number) == k && e.count > 0
  }

  /** A column's count: the counts of its rows added up. */
  function ColumnCount(data: seq<FrequencyEntry>, k: nat): int {
    SumCounts(Filter(data, InColumn(k)))
  }

  /** A column's numbers: its rows with a positive count, in table order. */
  function ColumnNumbers(data: seq<FrequencyEntry>, k: nat): seq<int> {
    Numbers(Filter(data, DrawnInColumn(k)))
  }

  function Columns(data: seq<FrequencyEntry>): seq<ColumnStat> {
    seq(9, k requires 0 <= k < 9 => ColumnStat(COLUMN_LABELS[k], ColumnCount(data, k), ColumnNumbers(data, k)))
  }

  /** One more table row adds its count to its own column only. */
  lemma ColumnCountAppend(data: seq<FrequencyEntry>, e: FrequencyEntry, k: nat)
    ensures ColumnCount(data + [e], k) == ColumnCount(data, k) + (if ColumnIndex(e.number) == k then e.count else 0)
  {
    assert (data + [e])[..|data|] == data;
  }

  /** One more table row with a positive count appends its number to its own
      column's list only. */
  lemma ColumnNumbersAppend(data: seq<FrequencyEntry>, e: FrequencyEntry, k: nat)
    ensures ColumnNumbers(data + [e], k)
         == ColumnNumbers(data, k) + (if ColumnIndex(e.number) == k && e.count > 0 then [e.number] else [])
  {
    assert (data + [e])[..|data|] == data;
    var drawn := Filter(data, DrawnInColumn(k));
    if ColumnIndex(e.number) == k && e.count > 0 {
      assert Numbers(drawn + [e]) == Numbers(drawn) + [e.number];
    }
  }

  /** The record of a column after one more of its rows. */
  function Added(col: ColumnStat, e: FrequencyEntry): ColumnStat {
    col.(count := col.count + e.count, numbers := if e.count > 0 then col.numbers + [e.number] else col.numbers)
  }

  lemma ColumnAppendAt(data: seq<FrequencyEntry>, e: FrequencyEntry, k: nat)
    requires k < 9
    ensures Columns(data + [e])[k]
         == if k == ColumnIndex(e.number) then Added(Columns(data)[k], e) else Columns(data)[k]
  {
    ColumnCountAppend(data, e, k);
    ColumnNumbersAppend(data, e, k);
  }

  /** One more table row changes its own column's record only. */
  lemma ColumnsAppend(data: seq<FrequencyEntry>, e: FrequencyEntry)
    ensures var k := ColumnIndex(e.number);
      Columns(data + [e]) == Columns(data)[k := Added(Columns(data)[k], e)]
  {
    var before, after := Columns(data), Columns(data + [e]);
    var c := ColumnIndex(e.number);
    var updated := before[c := Added(before[c], e)];
    forall k | 0 <= k < 9 ensures after[k] == updated[k] {
      ColumnAppendAt(data, e, k);
    }
  }

  /** Before any row, every column is empty. */
  lemma NoRowsColumns(columns: seq<ColumnStat>)
    requires |columns| == 9 && forall k :: 0 <= k < 9 ==> columns[k] == ColumnStat(COLUMN_LABELS[k], 0, [])
    ensures columns == Columns([])
  {
  }

  /** The bucketing loop: nine records start at zero; each table row adds its
      count to its column and, when positive, appends its number. */
  method BucketColumns(data: seq<FrequencyEntry>) returns (columns: seq<ColumnStat>)
    ensures columns == Columns(data)
  {
    var columnData := seq(9, k requires 0 <= k < 9 => ColumnStat(COLUMN_LABELS[k], 0, []));
    NoRowsColumns(columnData);
    for i := 0 to |data|
      invariant columnData == Columns(data[..i])
    {
      var item := data[i];
      var num := item.number;
      var columnIndex := ColumnIndex(num);
      var col := columnData[columnIndex].(count := columnData[columnIndex].count + item.count);
      if item.count > 0 {
        col := col.(numbers := col.numbers + [num]);
      }
      BucketStep(data, i, columnData, col);
      columnData := columnData[columnIndex := col];
    }
    assert data[..|data|] == data;
    columns := columnData;
  }

  lemma BucketStep(data: seq<FrequencyEntry>, i: nat, columns: seq<ColumnStat>, col: ColumnStat)
    requires i < |data| && columns == Columns(data[..i])
    requires col == Added(columns[ColumnIndex(data[i].number)], data[i])
    ensures Columns(data[..i + 1]) == columns[ColumnIndex(data[i].number) := col]
  {
    assert data[..i + 1] == data[..i] + [data[i]];
    ColumnsAppend(data[..i], data[i]);
  }

  /** `columnData.reduce((sum, col) => sum + col.count, 0)`. */
  function ColumnTotal(columns: seq<ColumnStat>): int
    decreases |columns|
  {
    if columns == [] then 0 else ColumnTotal(columns[..|columns| - 1]) + columns[|columns| - 1].count
  }

  /** The counts of the first K columns added up. */
  function FirstColumnsTotal(data: seq<FrequencyEntry>, K: nat): (t: int)
    ensures data == [] ==> t == 0
    decreases K
  {
    if K == 0 then 0 else FirstColumnsTotal(data, K - 1) + ColumnCount(data, K - 1)
  }

  lemma {:induction false} FirstColumnsAppend(data: seq<FrequencyEntry>, e: FrequencyEntry, K: nat)
    ensures FirstColumnsTotal(data + [e], K)
         == FirstColumnsTotal(data, K) + (if ColumnIndex(e.number) < K then e.count else 0)
    decreases K
  {
    if K > 0 {
      FirstColumnsAppend(data, e, K - 1);
      ColumnCountAppend(data, e, K - 1);
    }
  }

  /** Every row's count lands in exactly one column, and all columns lie
      below K. */
  lemma {:induction false} AllColumnsTotal(data: seq<FrequencyEntry>, K: nat)
    requires K >= 9
    ensures FirstColumnsTotal(data, K) == SumCounts(data)
    decreases |data|
  {
    if data != [] {
      var p, e := data[..|data| - 1], data[|data| - 1];
      AllColumnsTotal(p, K);
      assert SumCounts(data) == SumCounts(p) + e.count;
      assert data == p + [e];
      FirstColumnsAppend(p, e, K);
      assert ColumnIndex(e.number) < K;
    }
  }

  lemma {:induction false} ColumnTotalPrefix(columns: seq<ColumnStat>, data: seq<FrequencyEntry>, K: nat)
    requires K <= |columns| == 9
    requires forall k :: 0 <= k < 9 ==> columns[k].count == ColumnCount(data, k)
    ensures ColumnTotal(columns[..K]) == FirstColumnsTotal(data, K)
    decreases K
  {
    if K > 0 {
      ColumnTotalPrefix(columns, data, K - 1);
      assert columns[..K][..K - 1] == columns[..K - 1];
    }
  }

  /** The columns' total is the sum of all the table's counts. */
  lemma ColumnsTotal(data: seq<FrequencyEntry>)
    ensures ColumnTotal(Columns(data)) == SumCounts(data)
  {
    var columns := Columns(data);
    ColumnTotalPrefix(columns, data, 9);
    assert columns[..9] == columns;
    AllColumnsTotal(data, 9);
  }

  /** A number is listed in column k iff some table row carries it with a
      positive count and it belongs to column k. */
  lemma ColumnNumbersMember(data: seq<FrequencyEntry>, k: nat, x: int)
    ensures x in ColumnNumbers(data, k) <==>
      ColumnIndex(x) == k && exists i :: 0 <= i < |data| && data[i].number == x && data[i].count > 0
  {
    var drawn := Filter(data, DrawnInColumn(k));
    FilterMembers(data, DrawnInColumn(k));
    if x in ColumnNumbers(data, k) {
      var j :| 0 <= j < |drawn| && drawn[j].number == x;
      assert drawn[j] in data;
    }
    if ColumnIndex(x) == k && exists i :: 0 <= i < |data| && data[i].number == x && data[i].count > 0 {
      var i :| 0 <= i < |data| && data[i].number == x && data[i].count > 0;
      assert data[i] in drawn;
      var j :| 0 <= j < |drawn| && drawn[j] == data[i];
      assert ColumnNumbers(data, k)[j] == x;
    }
  }

  /** `reduce((max, col) => col.count > max.count ? col : max)`: the strict
      comparison keeps the first column with the largest count. */
  function MaxColumn(columns: seq<ColumnStat>): (i: nat)
    requires columns != []
    ensures i < |columns|
    ensures forall j :: 0 <= j < |columns| ==> columns[j].count <= columns[i].count
    ensures forall j :: 0 <= j < i ==> columns[j].count < columns[i].count
    decreases |columns|
  {
    if |columns| == 1 then 0
    else
      var m := MaxColumn(columns[..|columns| - 1]);
      if columns[|columns| - 1].count > columns[m].count then |columns| - 1 else m
  }

  /** `reduce((min, col) => col.count < min.count ? col : min)`: the first
      column with the smallest count. */
  function MinColumn(columns: seq<ColumnStat>): (i: nat)
    requires columns != []
    ensures i < |columns|
    ensures forall j :: 0 <= j < |columns| ==> columns[i].count <= columns[j].count
    ensures forall j :: 0 <= j < i ==> columns[i].count < columns[j].count
    decreases |columns|
  {
    if |columns| == 1 then 0
    else
      var m := MinColumn(columns[..|columns| - 1]);
      if columns[|columns| - 1].count < columns[m].count then |columns| - 1 else m
  }
}
