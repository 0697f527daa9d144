/**
 * `TsDataSet`: the series of a query response decoded one by one and
 * outer-joined on their row labels into one wide table, with the `metrics`,
 * `tags`, substring lookup and `info` accessors.
 */
module TsDataSet {
  import opened Wrappers
  import opened Text
  import opened Frame
  import opened TsData

  datatype SetError =
    | BadSeries(position: nat, cause: DecodeError) // the series at `position` does not decode
    | NoObjects                                    // concatenating an empty list of frames
    | RepeatedLabel                                // reindexing a frame whose index repeats a label
    | KeyNotFound(key: string)                     // lookup matched no series

  predicate AllValid(series: seq<Series>)
  {
    forall i | 0 <= i < |series| :: series[i].Valid()
  }

  predicate AllDistinct(series: seq<Series>)
  {
    forall i | 0 <= i < |series| :: Distinct(series[i].index)
  }

  /** The decoded series of a list of outcomes; the first failure, by position, aborts the list. */
  function Collect(outcomes: seq<Result<Series, DecodeError>>): (r: Result<seq<Series>, SetError>)
    ensures r.Ok? ==> |r.value| == |outcomes|
    ensures r.Ok? ==> forall i | 0 <= i < |outcomes| :: outcomes[i] == Ok(r.value[i])
    ensures r.Err? ==> r.error.BadSeries? && r.error.position < |outcomes|
    ensures r.Err? ==> outcomes[r.error.position] == Err(r.error.cause)
    ensures r.Err? ==> forall i | 0 <= i < r.error.position :: outcomes[i].Ok?
  {
    if outcomes == [] then Ok([])
    else
      var n := |outcomes| - 1;
      var init := outcomes[..n];
      assert forall i | 0 <= i < n :: init[i] == outcomes[i];
      match Collect(init)
      case Err(e) => Err(e)
      case Ok(done) =>
        match outcomes[n]
        case Err(e) => Err(BadSeries(n, e))
        case Ok(s) => Ok(done + [s])
  }

  /** `[TsData(**i) for i in raws]`: the first series that fails to decode aborts the list. */
  function DecodeAll(raws: seq<RawSeries>, hours: int): (r: Result<seq<Series>, SetError>)
    requires forall i | 0 <= i < |raws| :: DistinctKeys(raws[i].dps)
    ensures r.Ok? ==> |r.value| == |raws|
    ensures r.Ok? ==> forall i | 0 <= i < |raws| :: Decode(raws[i], hours) == Ok(r.value[i])
    ensures r.Err? ==> r.error.BadSeries? && r.error.position < |raws|
    ensures r.Err? ==> Decode(raws[r.error.position], hours) == Err(r.error.cause)
    ensures r.Err? ==> forall i | 0 <= i < r.error.position :: Decode(raws[i], hours).Ok?
  {
    var outcomes := seq(|raws|, i requires 0 <= i < |raws| => Decode(raws[i], hours));
    var r := Collect(outcomes);
    assert r.Err? ==> forall i | 0 <= i < r.error.position :: Decode(raws[i], hours).Ok? by {
      if r.Err? {
        forall i | 0 <= i < r.error.position ensures Decode(raws[i], hours).Ok? {
          assert outcomes[i].Ok?;
        }
      }
    }
    r
  }

  /** Adds one label to an ascending, repeat-free label list. */
  function InsertLabel(x: int, s: seq<int>): (r: seq<int>)
    requires Increasing(s)
    ensures Increasing(r)
    ensures forall y :: y in r <==> y == x || y in s
  {
    if s == [] then [x]
    else if x < s[0] then [x] + s
    else if x == s[0] then s
    else
      var rest := InsertLabel(x, s[1..]);
      assert forall q | 0 <= q < |rest| :: s[0] < rest[q] by {
        forall q | 0 <= q < |rest| ensures s[0] < rest[q] {
          assert rest[q] in rest;
        }
      }
      assert s == [s[0]] + s[1..];
      [s[0]] + rest
  }

  function AddLabels(xs: seq<int>, s: seq<int>): (r: seq<int>)
    requires Increasing(s)
    ensures Increasing(r)
    ensures forall y :: y in r <==> y in xs || y in s
  {
    if xs == [] then s
    else
      assert xs == [xs[0]] + xs[1..];
      AddLabels(xs[1..], InsertLabel(xs[0], s))
  }

  /** The union of the row labels of all series, ascending, each label once. */
  function UnionLabels(series: seq<Series>): (u: seq<int>)
    ensures Increasing(u)
    ensures forall y :: y in u <==> exists i | 0 <= i < |series| :: y in series[i].index
  {
    if series == [] then []
    else
      var init := series[..|series| - 1];
      var rest := UnionLabels(init);
      assert forall i | 0 <= i < |init| :: init[i] == series[i];
      AddLabels(series[|series| - 1].index, rest)
  }

  /** The value a series holds at a label (at its first occurrence), or absent. */
  function LookupLabel(index: seq<int>, values: seq<Option<Value>>, x: int): (v: Option<Value>)
    requires |index| == |values|
    ensures x !in index ==> v == None
    ensures Distinct(index) ==> forall p | 0 <= p < |index| && index[p] == x :: v == values[p]
  {
    if index == [] then None
    else if index[0] == x then values[0]
    else
      var v := LookupLabel(index[1..], values[1..], x);
      assert forall p | 1 <= p < |index| :: index[1..][p - 1] == index[p] && values[1..][p - 1] == values[p];
      v
  }

  /** The columns of series that already share one index, as they are. */
  function AsIsColumns(series: seq<Series>): (cs: seq<Column>)
    ensures |cs| == |series|
    ensures forall i | 0 <= i < |series| :: cs[i] == Column(series[i].Name(), series[i].values)
  {
    if series == [] then [] else [Column(series[0].Name(), series[0].values)] + AsIsColumns(series[1..])
  }

  /** A series reindexed to the labels `u`: its value at each label, absent where it has none. */
  function Reindexed(index: seq<int>, values: seq<Option<Value>>, u: seq<int>): (cells: seq<Option<Value>>)
    requires |index| == |values|
    ensures |cells| == |u|
    ensures forall r | 0 <= r < |u| :: cells[r] == LookupLabel(index, values, u[r])
  {
    if u == [] then [] else [LookupLabel(index, values, u[0])] + Reindexed(index, values, u[1..])
  }

  function ReindexedColumns(series: seq<Series>, u: seq<int>): (cs: seq<Column>)
    requires AllValid(series)
    ensures |cs| == |series|
    ensures forall i | 0 <= i < |series| ::
      cs[i] == Column(series[i].Name(), Reindexed(series[i].index, series[i].values, u))
  {
    if series == [] then []
    else
      [Column(series[0].Name(), Reindexed(series[0].index, series[0].values, u))] + ReindexedColumns(series[1..], u)
  }

  /** Every series has the index of the first one. */
  predicate SameIndex(series: seq<Series>)
    requires |series| > 0
  {
    forall i | 0 <= i < |series| :: series[i].index == series[0].index
  }

  /**
   * `pd.concat([s.dps for s in series], axis=1)`: one column per series, in
   * order. Indexes that are all equal are kept as they are; otherwise the rows
   * are the ascending union of all labels and each series is reindexed to it,
   * which fails when a series repeats a label.
   */
  function Align(series: seq<Series>): (r: Result<Table, SetError>)
    requires AllValid(series)
    ensures r.Ok? ==> r.value.Valid() && |r.value.columns| == |series|
    ensures r.Ok? ==> forall i | 0 <= i < |series| :: r.value.columns[i].name == series[i].Name()
    ensures |series| == 0 ==> r == Err(NoObjects)
    ensures r.Err? ==> |series| == 0 || !AllDistinct(series)
    ensures |series| > 0 && AllDistinct(series) ==> r.Ok?
  {
    if |series| == 0 then Err(NoObjects)
    else if SameIndex(series) then
      Ok(Table(series[0].index, AsIsColumns(series)))
    else if !AllDistinct(series) then Err(RepeatedLabel)
    else
      var u := UnionLabels(series);
      Ok(Table(u, ReindexedColumns(series, u)))
  }

  /**
   * The rows of the aligned table are exactly the labels of the series; they
   * ascend whenever every series' index ascends, and repeat no label when no
   * series does.
   */
  lemma AlignRows(series: seq<Series>, t: Table)
    requires AllValid(series) && Align(series) == Ok(t)
    ensures forall y :: y in t.index <==> exists i | 0 <= i < |series| :: y in series[i].index
    ensures (forall i | 0 <= i < |series| :: Increasing(series[i].index)) ==> Increasing(t.index)
    ensures AllDistinct(series) ==> Distinct(t.index)
  {
    if SameIndex(series) {
      assert t.index == series[0].index;
    }
  }

  /**
   * Each cell holds its series' value at the row's label, and is absent where
   * the series has no point at that label: nothing is invented.
   */
  lemma AlignCells(series: seq<Series>, t: Table)
    requires AllValid(series) && AllDistinct(series) && Align(series) == Ok(t)
    ensures forall i, r | 0 <= i < |series| && 0 <= r < |t.index| ::
      t.columns[i].cells[r] == LookupLabel(series[i].index, series[i].values, t.index[r])
  {
    if SameIndex(series) {
      forall i, r | 0 <= i < |series| && 0 <= r < |t.index|
        ensures t.columns[i].cells[r] == LookupLabel(series[i].index, series[i].values, t.index[r])
      {
        assert series[i].index == t.index;
      }
    }
  }

  /**
   * Equal indexes are kept as they are, repeated labels included: the table's
   * index is the shared one and each column holds its series' own values.
   */
  lemma AlignSameIndex(series: seq<Series>, t: Table)
    requires AllValid(series) && |series| > 0 && SameIndex(series)
    requires Align(series) == Ok(t)
    ensures t.index == series[0].index
    ensures forall i | 0 <= i < |series| :: t.columns[i].cells == series[i].values
  {
    assert t == Table(series[0].index, AsIsColumns(series));
  }

  /** A cell whose row label is not among its series' labels is absent. */
  lemma AlignAbsent(series: seq<Series>, t: Table)
    requires AllValid(series) && Align(series) == Ok(t)
    ensures forall i, r | 0 <= i < |series| && 0 <= r < |t.index| && t.index[r] !in series[i].index ::
      t.columns[i].cells[r] == None
  {
    if SameIndex(series) {
      forall i, r | 0 <= i < |series| && 0 <= r < |t.index|
        ensures t.index[r] in series[i].index
      {
        assert series[i].index == t.index;
      }
    }
  }

  /** Every point of every series appears in the aligned table at its own label: nothing is lost. */
  lemma AlignKeepsPoints(series: seq<Series>, t: Table)
    requires AllValid(series) && AllDistinct(series) && Align(series) == Ok(t)
    ensures forall i, p | 0 <= i < |series| && 0 <= p < |series[i].index| ::
      exists r | 0 <= r < |t.index| :: t.index[r] == series[i].index[p] && t.columns[i].cells[r] == series[i].values[p]
  {
    forall i, p | 0 <= i < |series| && 0 <= p < |series[i].index|
      ensures exists r | 0 <= r < |t.index| :: t.index[r] == series[i].index[p] && t.columns[i].cells[r] == series[i].values[p]
    {
      var r := KeptPoint(series, t, i, p);
    }
  }

  /** The row of the aligned table that holds point `p` of series `i`. */
  lemma KeptPoint(series: seq<Series>, t: Table, i: nat, p: nat) returns (r: nat)
    requires AllValid(series) && AllDistinct(series) && Align(series) == Ok(t)
    requires i < |series| && p < |series[i].index|
    ensures r < |t.index| && t.index[r] == series[i].index[p] && t.columns[i].cells[r] == series[i].values[p]
  {
    AlignRows(series, t);
    var x := series[i].index[p];
    assert x in t.index;
    r :| 0 <= r < |t.index| && t.index[r] == x;
    AlignCells(series, t);
  }

  /**
   * Two series with no label in common: the table has a row for each point of
   * either, and in every row at least one of the two cells is absent.
   */
  lemma AlignDisjoint(a: Series, b: Series, t: Table)
    requires a.Valid() && b.Valid() && Distinct(a.index) && Distinct(b.index)
    requires forall x | x in a.index :: x !in b.index
    requires Align([a, b]) == Ok(t)
    ensures |t.index| == |a.index| + |b.index|
    ensures forall r | 0 <= r < |t.index| :: t.columns[0].cells[r].None? || t.columns[1].cells[r].None?
  {
    var series := [a, b];
    AlignRows(series, t);
    AlignAbsent(series, t);
    assert forall y :: y in t.index <==> y in a.index || y in b.index by {
      assert series[0] == a && series[1] == b;
    }
    DisjointCount(t.index, a.index, b.index);
  }

  /** A repeat-free list holding exactly the labels of two disjoint repeat-free lists is as long as both. */
  lemma DisjointCount(u: seq<int>, a: seq<int>, b: seq<int>)
    requires Distinct(u) && Distinct(a) && Distinct(b)
    requires forall x | x in a :: x !in b
    requires forall y :: y in u <==> y in a || y in b
    ensures |u| == |a| + |b|
  {
    var eu, ea, eb := Elements(u), Elements(a), Elements(b);
    assert eu == ea + eb by {
      forall y ensures y in eu <==> y in ea + eb {
      }
    }
    assert ea * eb == {} by {
      forall y | y in ea ensures y !in eb {
      }
    }
    DistinctElements(u);
    DistinctElements(a);
    DistinctElements(b);
  }

  /** Whether a series matches a lookup key: `key in metric + tags`. */
  function Matches(s: Series, key: string): (b: bool)
    ensures b <==> Occurs(key, s.metric + s.RenderedTags())
  {
    Contains(s.metric + s.RenderedTags(), key)
  }

  /** The series that match `key`, in their original order. */
  function Matching(series: seq<Series>, key: string): (r: seq<Series>)
    ensures |r| <= |series|
    ensures forall s :: s in r <==> s in series && Matches(s, key)
  {
    if series == [] then []
    else (if Matches(series[0], key) then [series[0]] else []) + Matching(series[1..], key)
  }

  /** Filtering keeps order: it distributes over concatenation. */
  lemma {:induction false} MatchingAppend(a: seq<Series>, b: seq<Series>, key: string)
    ensures Matching(a + b, key) == Matching(a, key) + Matching(b, key)
  {
    if a == [] {
      assert a + b == b;
    } else {
      assert (a + b)[1..] == a[1..] + b;
      MatchingAppend(a[1..], b, key);
    }
  }

  /** When every series matches, the lookup keeps all of them, in order. */
  lemma {:induction false} MatchingAll(series: seq<Series>, key: string)
    requires forall i | 0 <= i < |series| :: Matches(series[i], key)
    ensures Matching(series, key) == series
  {
    if series != [] {
      MatchingAll(series[1..], key);
    }
  }

  /** The metric of each series, in order. */
  function MetricList(records: seq<Series>): (names: seq<string>)
    ensures |names| == |records|
    ensures forall i | 0 <= i < |records| :: names[i] == records[i].metric
  {
    if records == [] then [] else [records[0].metric] + MetricList(records[1..])
  }

  /** The rendered tags of each series, in order. */
  function TagList(records: seq<Series>): (tags: seq<string>)
    ensures |tags| == |records|
    ensures forall i | 0 <= i < |records| :: tags[i] == records[i].RenderedTags()
  {
    if records == [] then [] else [records[0].RenderedTags()] + TagList(records[1..])
  }

  /** A decoded response: the `TsData` list and the aligned `dps` table. */
  datatype DataSet = DataSet(records: seq<Series>, table: Table)
  {
    predicate Valid()
    {
      AllValid(records) && table.Valid()
    }

    /** `metrics`: the distinct metrics of the series. */
    function Metrics(): (m: set<string>)
      ensures forall x :: x in m <==> exists i | 0 <= i < |records| :: records[i].metric == x
      ensures |m| <= |records|
    {
      var names := MetricList(records);
      ElementsBounds(names);
      assert forall x :: x in names <==> exists i | 0 <= i < |records| :: records[i].metric == x by {
        forall x ensures x in names ==> exists i | 0 <= i < |records| :: records[i].metric == x {
          if x in names {
            var i :| 0 <= i < |names| && names[i] == x;
          }
        }
      }
      Elements(names)
    }

    /** `tags`: the distinct rendered tags of the series. */
    function Tags(): (m: set<string>)
      ensures forall x :: x in m <==> exists i | 0 <= i < |records| :: records[i].RenderedTags() == x
      ensures |m| <= |records|
    {
      var tags := TagList(records);
      ElementsBounds(tags);
      assert forall x :: x in tags <==> exists i | 0 <= i < |records| :: records[i].RenderedTags() == x by {
        forall x ensures x in tags ==> exists i | 0 <= i < |records| :: records[i].RenderedTags() == x {
          if x in tags {
            var i :| 0 <= i < |tags| && tags[i] == x;
          }
        }
      }
      Elements(tags)
    }

    /**
     * `ds[key]`: the aligned table of the series whose metric and rendered
     * tags contain `key`; no match raises `KeyError`.
     */
    function Get(key: string): (r: Result<Table, SetError>)
      requires AllValid(records)
      ensures r == Err(KeyNotFound(key)) <==> forall i | 0 <= i < |records| :: !Matches(records[i], key)
      ensures r.Ok? ==> |r.value.columns| == |Matching(records, key)|
      ensures r.Ok? ==> forall i | 0 <= i < |r.value.columns| :: r.value.columns[i].name == Matching(records, key)[i].Name()
      ensures Matching(records, key) != [] ==> AllValid(Matching(records, key)) && r == Align(Matching(records, key))
    {
      var found := Matching(records, key);
      assert AllValid(found) by {
        forall i | 0 <= i < |found| ensures found[i].Valid() {
          assert found[i] in found;
        }
      }
      if found == [] then
        assert forall i | 0 <= i < |records| :: !Matches(records[i], key) by {
          forall i | 0 <= i < |records| ensures !Matches(records[i], key) {
            assert records[i] in records;
          }
        }
        Err(KeyNotFound(key))
      else
        assert found[0] in records && Matches(found[0], key);
        var r := Align(found);
        assert r != Err(KeyNotFound(key));
        r
    }

    /** The integer part of `info`. */
    function Info(): (r: Option<Frame.Info>)
      requires table.Valid()
      ensures r.Some? <==> |table.index| > 0
      ensures r.Some? ==> r.value.rows == |table.index| && r.value.cols == |table.columns|
      ensures r.Some? ==> r.value.start == table.index[0] && r.value.end == table.index[|table.index| - 1]
      ensures r.Some? ==> r.value.nans == multiset(AllCells(table.columns))[None] && r.value.days == |Days(table.index)|
    {
      InfoOf(table)
    }
  }

  /** `TsDataSet(raws)`: decode every series, then align them; any failure aborts. */
  function Build(raws: seq<RawSeries>, hours: int): (r: Result<DataSet, SetError>)
    requires forall i | 0 <= i < |raws| :: DistinctKeys(raws[i].dps)
    ensures r.Ok? ==> r.value.Valid() && |r.value.records| == |raws|
    ensures r.Ok? ==> forall i | 0 <= i < |raws| :: Decode(raws[i], hours) == Ok(r.value.records[i])
    ensures r.Ok? ==> Align(r.value.records) == Ok(r.value.table)
    ensures |raws| == 0 ==> r == Err(NoObjects)
    ensures var d := DecodeAll(raws, hours); d.Err? ==> r == Err(d.error)
    ensures var d := DecodeAll(raws, hours); d.Ok? ==> AllValid(d.value) && (Align(d.value).Err? ==> r == Err(Align(d.value).error))
    ensures var d := DecodeAll(raws, hours); r.Ok? <==> d.Ok? && AllValid(d.value) && Align(d.value).Ok?
  {
    var records :- DecodeAll(raws, hours);
    assert AllValid(records);
    var table :- Align(records);
    Ok(DataSet(records, table))
  }

  /**
   * A lookup keeps every point of every matching series: `ds[key]` is the
   * outer join of the matching frames.
   */
  lemma GetKeepsPoints(ds: DataSet, key: string, t: Table)
    requires AllValid(ds.records) && AllDistinct(ds.records) && ds.Get(key) == Ok(t)
    ensures var found := Matching(ds.records, key);
      forall i, p | 0 <= i < |found| && 0 <= p < |found[i].index| ::
        exists r | 0 <= r < |t.index| :: t.index[r] == found[i].index[p] && t.columns[i].cells[r] == found[i].values[p]
  {
    var found := Matching(ds.records, key);
    assert found != [];
    assert AllValid(found) && Align(found) == Ok(t);
    MatchingDistinct(ds.records, key);
    AlignKeepsPoints(found, t);
  }

  /** The series a lookup keeps repeat no label when no series does. */
  lemma MatchingDistinct(records: seq<Series>, key: string)
    requires AllDistinct(records)
    ensures AllDistinct(Matching(records, key))
  {
    var found := Matching(records, key);
    forall i | 0 <= i < |found| ensures Distinct(found[i].index) {
      assert found[i] in found;
      var j :| 0 <= j < |records| && records[j] == found[i];
    }
  }

  /** Every series matches the empty key, so `ds[""]` is the whole table. */
  lemma GetEmptyKey(raws: seq<RawSeries>, hours: int, ds: DataSet)
    requires forall i | 0 <= i < |raws| :: DistinctKeys(raws[i].dps)
    requires Build(raws, hours) == Ok(ds)
    ensures ds.Get("") == Ok(ds.table)
  {
    forall i | 0 <= i < |ds.records| ensures Matches(ds.records[i], "") {
      var s := ds.records[i].metric + ds.records[i].RenderedTags();
      assert "" <= s[0..];
    }
    MatchingAll(ds.records, "");
  }

  /**
   * A built set's `info`: rows are the distinct labels of all series, one
   * column per series, and the index is never empty.
   */
  lemma BuiltInfo(raws: seq<RawSeries>, hours: int, ds: DataSet)
    requires forall i | 0 <= i < |raws| :: DistinctKeys(raws[i].dps)
    requires Build(raws, hours) == Ok(ds)
    ensures ds.Info().Some?
    ensures ds.Info().value.cols == |raws|
    ensures forall y :: y in ds.table.index <==> exists i | 0 <= i < |ds.records| :: y in ds.records[i].index
  {
    AlignRows(ds.records, ds.table);
    var s := ds.records[0];
    assert Decode(raws[0], hours) == Ok(s);
    assert |s.index| > 0;
    assert s.index[0] in ds.table.index;
  }
}
