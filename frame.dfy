/**
 * The observable semantics of the pandas DataFrames the transform builds: a
 * sequence of row labels (nanoseconds since the epoch, already shifted to local
 * time) and named columns whose cells hold a value or are absent (NaN).
 */
module Frame {
  import opened Wrappers

  /** A cell value. Values are only stored and copied, never computed with. */
  type Value = real

  datatype Column = Column(name: string, cells: seq<Option<Value>>)

  datatype Table = Table(index: seq<int>, columns: seq<Column>) {
    /** Every column has one cell per row label. */
    predicate Valid()
    {
      forall c | c in columns :: |c.cells| == |index|
    }
  }

  /** Row labels with no label repeated. */
  predicate Distinct(s: seq<int>)
  {
    forall p, q | 0 <= p < q < |s| :: s[p] != s[q]
  }

  /** Row labels in strictly ascending order. */
  predicate Increasing(s: seq<int>)
  {
    forall p, q | 0 <= p < q < |s| :: s[p] < s[q]
  }

  const DayNanos: int := 86_400_000_000_000

  /** The calendar day of a label, as `strftime('%Y-%m-%d')` distinguishes days. */
  function DayOf(stamp: int): (day: int)
  {
    stamp / DayNanos
  }

  /** The distinct elements of a sequence: Python's `set(...)`. */
  function Elements<T(!new)>(s: seq<T>): (r: set<T>)
    ensures forall x :: x in r <==> x in s
  {
    if s == [] then {} else {s[0]} + Elements(s[1..])
  }

  lemma {:induction false} ElementsBounds<T(!new)>(s: seq<T>)
    ensures |Elements(s)| <= |s|
    ensures |s| > 0 ==> |Elements(s)| >= 1
  {
    if s != [] {
      ElementsBounds(s[1..]);
    }
  }

  lemma {:induction false} DistinctElements(s: seq<int>)
    requires Distinct(s)
    ensures |Elements(s)| == |s|
  {
    if s != [] {
      DistinctElements(s[1..]);
      assert s[0] !in Elements(s[1..]);
    }
  }

  /** The calendar days of the labels, one per row. */
  function DayList(index: seq<int>): (r: seq<int>)
    ensures |r| == |index| && forall p | 0 <= p < |index| :: r[p] == DayOf(index[p])
  {
    if index == [] then [] else [DayOf(index[0])] + DayList(index[1..])
  }

  /** The set of distinct days among the labels. */
  function Days(index: seq<int>): (days: set<int>)
    ensures forall d :: d in days <==> exists p | 0 <= p < |index| :: DayOf(index[p]) == d
  {
    var r := DayList(index);
    assert forall d :: d in r <==> exists p | 0 <= p < |index| :: DayOf(index[p]) == d by {
      forall d | d in r ensures exists p | 0 <= p < |index| :: DayOf(index[p]) == d {
        var p :| 0 <= p < |r| && r[p] == d;
      }
    }
    Elements(r)
  }

  lemma DaysBounds(index: seq<int>)
    requires |index| > 0
    ensures 1 <= |Days(index)| <= |index|
  {
    ElementsBounds(DayList(index));
  }

  /** The number of absent cells of one column: `isnull().sum()`. */
  function NaNCount(cells: seq<Option<Value>>): (n: nat)
    ensures n <= |cells|
    ensures n == multiset(cells)[None]
  {
    if cells == [] then 0
    else
      assert cells == [cells[0]] + cells[1..];
      (if cells[0].None? then 1 else 0) + NaNCount(cells[1..])
  }

  /** Every cell of the table, column after column: `df.values` read column-wise. */
  function AllCells(columns: seq<Column>): (cells: seq<Option<Value>>)
  {
    if columns == [] then [] else columns[0].cells + AllCells(columns[1..])
  }

  /** The number of absent cells of a table: `isnull().sum().sum()`. */
  function NaNs(columns: seq<Column>): (n: nat)
    ensures n == multiset(AllCells(columns))[None]
  {
    if columns == [] then 0 else NaNCount(columns[0].cells) + NaNs(columns[1..])
  }

  lemma {:induction false} NaNsBound(columns: seq<Column>, rows: nat)
    requires forall c | c in columns :: |c.cells| == rows
    ensures NaNs(columns) <= rows * |columns|
    decreases |columns|
  {
    if columns != [] {
      assert columns[0] in columns;
      var head, rest := NaNCount(columns[0].cells), NaNs(columns[1..]);
      assert head <= rows;
      NaNsBound(columns[1..], rows);
      assert NaNs(columns) == head + rest;
      MulSucc(rows, |columns[1..]|);
    }
  }

  lemma MulSucc(a: nat, n: nat)
    ensures a * (n + 1) == a * n + a
  {
  }

  /** The integer part of `data_info` / `info`. */
  datatype Info = Info(start: int, end: int, days: nat, rows: nat, cols: nat, nans: nat)

  /**
   * First and last label, distinct days, shape and absent-cell count of a
   * table; `None` where indexing the first label of an empty index raises.
   */
  function InfoOf(t: Table): (r: Option<Info>)
    requires t.Valid()
    ensures r.Some? <==> |t.index| > 0
    ensures r.Some? ==> r.value.rows == |t.index| && r.value.cols == |t.columns|
    ensures r.Some? ==> r.value.start == t.index[0] && r.value.end == t.index[|t.index| - 1]
    ensures r.Some? ==> r.value.nans <= r.value.rows * r.value.cols
    ensures r.Some? ==> 1 <= r.value.days <= r.value.rows
    ensures r.Some? ==> r.value.nans == multiset(AllCells(t.columns))[None] && r.value.days == |Days(t.index)|
  {
    if |t.index| == 0 then None
    else
      NaNsBound(t.columns, |t.index|);
      DaysBounds(t.index);
      Some(Info(t.index[0], t.index[|t.index| - 1], |Days(t.index)|, |t.index|, |t.columns|, NaNs(t.columns)))
  }
}
