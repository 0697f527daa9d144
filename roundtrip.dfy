/**
 * Reading a query response and writing it back: one series with one tag,
 * decoded by `TsDataSet` with offset `hd` and flattened by `_write_df` with
 * offset `he`, gives back its own points, shifted by `hd - he` hours.
 */
module RoundTrip {
  import opened Wrappers
  import opened Text
  import opened Frame
  import opened TsData
  import opened TsDataSet
  import opened Client

  /**
   * A series the write path can give back: one plain tag, a metric without
   * `{`, at least one entry, and every key a ten-digit (seconds) number.
   */
  predicate Reversible(raw: RawSeries, key: string, value: string)
  {
    && raw.tags == [(key, value)] && Plain(key) && Plain(value) && '{' !in raw.metric
    && DistinctKeys(raw.dps) && |raw.dps| > 0
    && forall l | 0 <= l < |raw.dps| :: |raw.dps[l].0| == 10 && IsDigits(raw.dps[l].0)
  }

  /** The point entry `l` of the response stands for, its time moved by `shift` seconds. */
  function Reread(raw: RawSeries, tags: map<string, string>, l: nat, shift: int): (pt: Point)
    requires l < |raw.dps| && IsDigits(raw.dps[l].0) && raw.dps[l].1.Some?
  {
    Point(raw.metric, DigitsValue(raw.dps[l].0) + shift, raw.dps[l].1.value, tags)
  }

  /** Some key of a non-empty dict sorts before every other key. */
  lemma LeastKey(dps: seq<Item>) returns (j: nat)
    requires DistinctKeys(dps) && |dps| > 0
    ensures j < |dps| && forall l | 0 <= l < |dps| && l != j :: Less(dps[j].0, dps[l].0)
  {
    var items := SortItems(dps);
    assert |multiset(items)| == |multiset(dps)|;
    assert items[0] in multiset(dps);
    j :| 0 <= j < |dps| && dps[j] == items[0];
    forall l | 0 <= l < |dps| && l != j ensures Less(dps[j].0, dps[l].0) {
      var p := Locate(items, dps, l);
      assert dps[l].0 != dps[j].0;
    }
  }

  /** Row `p` of series `s` holds the value of some entry of `raw` at that entry's label. */
  predicate RowFromEntry(raw: RawSeries, s: Series, u: Unit, hd: int, p: int)
  {
    0 <= p < |s.index| && p < |s.values| &&
    exists l | 0 <= l < |raw.dps| :: IsDigits(raw.dps[l].0) &&
      s.index[p] == Label(raw.dps[l].0, u, hd) && s.values[p] == raw.dps[l].1
  }

  /** Entry `l` of `raw` has a row of series `s` holding its value at its label. */
  predicate EntryInRow(raw: RawSeries, s: Series, u: Unit, hd: int, l: int)
  {
    0 <= l < |raw.dps| && IsDigits(raw.dps[l].0) &&
    exists p | 0 <= p < |s.index| && p < |s.values| ::
      s.index[p] == Label(raw.dps[l].0, u, hd) && s.values[p] == raw.dps[l].1
  }

  /** A reversible series decodes, in seconds, to an ascending index whose rows are its entries. */
  lemma DecodedRows(raw: RawSeries, key: string, value: string, hd: int) returns (s: Series, u: Unit)
    requires Reversible(raw, key, value)
    ensures u == Second
    ensures Decode(raw, hd) == Ok(s) && Increasing(s.index)
    ensures forall p | 0 <= p < |s.index| :: RowFromEntry(raw, s, u, hd, p)
  {
    var j := LeastKey(raw.dps);
    assert |raw.dps[j].0| == 10;
    DecodeOutcome(raw, hd, j);
    s := Decode(raw, hd).value;
    u := UnitOf(|raw.dps[j].0|).value;
    DecodeRowsFromEntries(raw, hd, j, s);
    DecodeIncreasing(raw, hd);
  }

  /** Every entry of a decoded reversible series has its row. */
  lemma DecodedEntries(raw: RawSeries, key: string, value: string, hd: int, s: Series)
    requires Reversible(raw, key, value) && Decode(raw, hd) == Ok(s)
    ensures forall l | 0 <= l < |raw.dps| :: EntryInRow(raw, s, Second, hd, l)
  {
    var j := LeastKey(raw.dps);
    assert |raw.dps[j].0| == 10;
    DecodeEntriesHaveRows(raw, hd, j, s);
  }

  /** A set of one series is that series' own frame. */
  lemma BuiltTable(raw: RawSeries, hd: int, s: Series)
    requires DistinctKeys(raw.dps) && Decode(raw, hd) == Ok(s)
    ensures Build([raw], hd) == Ok(DataSet([s], Table(s.index, [Column(s.Name(), s.values)])))
  {
    DecodedOne(raw, hd, s);
    AlignedOne(s);
  }

  lemma DecodedOne(raw: RawSeries, hd: int, s: Series)
    requires DistinctKeys(raw.dps) && Decode(raw, hd) == Ok(s)
    ensures DecodeAll([raw], hd) == Ok([s])
  {
    var r := DecodeAll([raw], hd);
    assert [raw][0] == raw;
    if r.Ok? {
      assert r.value == [r.value[0]];
    }
  }

  lemma AlignedOne(s: Series)
    requires s.Valid()
    ensures Align([s]) == Ok(Table(s.index, [Column(s.Name(), s.values)]))
  {
    assert SameIndex([s]);
    assert AsIsColumns([s]) == [Column(s.Name(), s.values)];
  }

  /** Two labels read in seconds are ordered as their keys' values. */
  lemma LabelOrder(a: string, b: string, hd: int)
    requires IsDigits(a) && IsDigits(b) && Label(a, Second, hd) < Label(b, Second, hd)
    ensures DigitsValue(a) < DigitsValue(b)
  {
  }

  /** A one-column table whose name parses and whose labels do not repeat flattens. */
  lemma OneColumnFlattens(index: seq<int>, values: seq<Option<Value>>, name: string, he: int)
    requires |values| == |index| && Distinct(index) && MetricTags(name).Ok?
    ensures Flatten(Table(index, [Column(name, values)]), he).Ok?
  {
    var t := Table(index, [Column(name, values)]);
    assert ParseNames(t.columns)[0] == MetricTags(name);
    assert Writable(t);
    FlattenSucceeds(t, he);
  }

  /**
   * A one-column table whose name parses and whose labels ascend flattens to
   * its present cells in row order: `rows[k]` is the row the `k`th point comes
   * from.
   */
  lemma WrittenRows(index: seq<int>, values: seq<Option<Value>>, name: string, metric: string, tags: map<string, string>, he: int)
    returns (ps: seq<Point>, rows: seq<nat>)
    requires |values| == |index| && Increasing(index)
    requires MetricTags(name) == Ok((metric, tags))
    ensures Flatten(Table(index, [Column(name, values)]), he) == Ok(ps) && |rows| == |ps|
    ensures forall k | 0 <= k < |ps| :: rows[k] < |index| && values[rows[k]] == Some(ps[k].value)
    ensures forall k | 0 <= k < |ps| :: ps[k] == Point(metric, Seconds(index[rows[k]], he), ps[k].value, tags)
    ensures forall k, k' | 0 <= k < k' < |ps| :: rows[k] < rows[k']
    ensures forall r | 0 <= r < |index| && values[r].Some? :: r in rows
  {
    var t := Table(index, [Column(name, values)]);
    OneColumnFlattens(index, values, name, he);
    ps := Flatten(t, he).value;
    var parsed := ParseNames(t.columns);
    assert parsed[0] == Ok((metric, tags));
    rows := RowsOfPoints(t, parsed, he, ps);
  }

  /** The rows of the points a one-column table flattens to. */
  lemma RowsOfPoints(t: Table, parsed: seq<Parsed>, he: int, ps: seq<Point>) returns (rows: seq<nat>)
    requires t.Valid() && |t.columns| == 1 && Flatten(t, he) == Ok(ps)
    requires parsed == ParseNames(t.columns) && parsed[0].Ok?
    ensures |rows| == |ps|
    ensures forall k | 0 <= k < |ps| :: rows[k] < |t.index| && t.columns[0].cells[rows[k]] == Some(ps[k].value)
    ensures forall k | 0 <= k < |ps| :: ps[k] == Point(parsed[0].value.0, Seconds(t.index[rows[k]], he), ps[k].value, parsed[0].value.1)
    ensures forall k, k' | 0 <= k < k' < |ps| :: rows[k] < rows[k']
    ensures forall r | 0 <= r < |t.index| && t.columns[0].cells[r].Some? :: r in rows
  {
    var cells := Present(t, |t.index|, 0);
    FlattenCells(t, he, ps);
    rows := seq(|ps|, k requires 0 <= k < |ps| => cells[k].0 as nat);
    RowsEmit(t, parsed, he, ps, cells, rows);
    RowsAscend(t, ps, cells, rows);
    RowsCover(t, ps, cells, rows);
  }

  /** Cell rows and points match up one for one: the shared part of the three lemmas below. */
  predicate CellRows(t: Table, ps: seq<Point>, cells: seq<(int, int)>, rows: seq<nat>)
  {
    |rows| == |ps| == |cells| && forall k | 0 <= k < |ps| :: rows[k] == cells[k].0
  }

  lemma RowsEmit(t: Table, parsed: seq<Parsed>, he: int, ps: seq<Point>, cells: seq<(int, int)>, rows: seq<nat>)
    requires t.Valid() && |t.columns| == 1 && parsed == ParseNames(t.columns) && parsed[0].Ok?
    requires CellRows(t, ps, cells, rows)
    requires forall k | 0 <= k < |ps| :: Emits(t, parsed, he, cells[k], ps[k])
    ensures forall k | 0 <= k < |ps| :: rows[k] < |t.index| && t.columns[0].cells[rows[k]] == Some(ps[k].value)
    ensures forall k | 0 <= k < |ps| :: ps[k] == Point(parsed[0].value.0, Seconds(t.index[rows[k]], he), ps[k].value, parsed[0].value.1)
  {
    forall k | 0 <= k < |ps|
      ensures rows[k] < |t.index| && t.columns[0].cells[rows[k]] == Some(ps[k].value)
      ensures ps[k] == Point(parsed[0].value.0, Seconds(t.index[rows[k]], he), ps[k].value, parsed[0].value.1)
    {
      assert Emits(t, parsed, he, cells[k], ps[k]);
    }
  }

  lemma RowsAscend(t: Table, ps: seq<Point>, cells: seq<(int, int)>, rows: seq<nat>)
    requires CellRows(t, ps, cells, rows)
    requires forall k, l | 0 <= k < l < |cells| :: RowMajorBefore(cells[k], cells[l])
    requires forall k | 0 <= k < |cells| :: cells[k].1 == 0
    ensures forall k, k' | 0 <= k < k' < |ps| :: rows[k] < rows[k']
  {
    forall k, k' | 0 <= k < k' < |ps| ensures rows[k] < rows[k'] {
      assert RowMajorBefore(cells[k], cells[k']);
    }
  }

  lemma RowsCover(t: Table, ps: seq<Point>, cells: seq<(int, int)>, rows: seq<nat>)
    requires t.Valid() && |t.columns| == 1 && CellRows(t, ps, cells, rows)
    requires forall r, c | 0 <= r < |t.index| && 0 <= c < |t.columns| :: (r, c) in cells <==> t.columns[c].cells[r].Some?
    ensures forall r | 0 <= r < |t.index| && t.columns[0].cells[r].Some? :: r in rows
  {
    forall r | 0 <= r < |t.index| && t.columns[0].cells[r].Some? ensures r in rows {
      assert (r, 0) in cells;
      var k :| 0 <= k < |cells| && cells[k] == (r, 0);
      assert rows[k] == r;
    }
  }

  /** Point `pt` is some entry of `raw` with a value, its time moved by `shift` seconds. */
  predicate PointFromEntry(raw: RawSeries, tags: map<string, string>, shift: int, pt: Point)
  {
    exists l | 0 <= l < |raw.dps| :: IsDigits(raw.dps[l].0) && raw.dps[l].1.Some? && pt == Reread(raw, tags, l, shift)
  }

  /** Entry `l` of `raw` is among the points `ps`, its time moved by `shift` seconds. */
  predicate EntryWritten(raw: RawSeries, tags: map<string, string>, shift: int, ps: seq<Point>, l: int)
  {
    0 <= l < |raw.dps| && IsDigits(raw.dps[l].0) && raw.dps[l].1.Some? &&
    exists k | 0 <= k < |ps| :: ps[k] == Reread(raw, tags, l, shift)
  }

  /** What `_write_df` emits from the one-column frame of `s`: `rows[k]` is the row of point `k`. */
  predicate WrittenFrom(s: Series, he: int, metric: string, tags: map<string, string>, ps: seq<Point>, rows: seq<nat>)
  {
    && |rows| == |ps|
    && (forall k | 0 <= k < |ps| :: rows[k] < |s.index| && rows[k] < |s.values| && s.values[rows[k]] == Some(ps[k].value))
    && (forall k | 0 <= k < |ps| :: rows[k] < |s.index| && ps[k] == Point(metric, Seconds(s.index[rows[k]], he), ps[k].value, tags))
    && (forall k, k' | 0 <= k < k' < |ps| :: rows[k] < rows[k'])
    && (forall r | 0 <= r < |s.index| && r < |s.values| && s.values[r].Some? :: r in rows)
  }

  /** Every point written from a reversible series is one of its entries with a value. */
  lemma WrittenAreEntries(raw: RawSeries, key: string, value: string, hd: int, he: int, s: Series, ps: seq<Point>, rows: seq<nat>)
    requires Reversible(raw, key, value)
    requires forall p | 0 <= p < |s.index| :: RowFromEntry(raw, s, Second, hd, p)
    requires WrittenFrom(s, he, raw.metric, map[key := value], ps, rows)
    ensures forall k | 0 <= k < |ps| :: PointFromEntry(raw, map[key := value], (hd - he) * 3600, ps[k])
  {
    forall k | 0 <= k < |ps| ensures PointFromEntry(raw, map[key := value], (hd - he) * 3600, ps[k]) {
      var r := rows[k];
      assert RowFromEntry(raw, s, Second, hd, r);
      var l :| 0 <= l < |raw.dps| && IsDigits(raw.dps[l].0) && s.index[r] == Label(raw.dps[l].0, Second, hd) && s.values[r] == raw.dps[l].1;
      SecondsOfLabel(raw.dps[l].0, Second, hd, he);
    }
  }

  /** Every entry of a reversible series that has a value is written. */
  lemma EntriesAreWritten(raw: RawSeries, key: string, value: string, hd: int, he: int, s: Series, ps: seq<Point>, rows: seq<nat>)
    requires Reversible(raw, key, value)
    requires forall l | 0 <= l < |raw.dps| :: EntryInRow(raw, s, Second, hd, l)
    requires WrittenFrom(s, he, raw.metric, map[key := value], ps, rows)
    ensures forall l | 0 <= l < |raw.dps| && raw.dps[l].1.Some? :: EntryWritten(raw, map[key := value], (hd - he) * 3600, ps, l)
  {
    forall l | 0 <= l < |raw.dps| && raw.dps[l].1.Some? ensures EntryWritten(raw, map[key := value], (hd - he) * 3600, ps, l) {
      assert EntryInRow(raw, s, Second, hd, l);
      var r :| 0 <= r < |s.index| && r < |s.values| && s.index[r] == Label(raw.dps[l].0, Second, hd) && s.values[r] == raw.dps[l].1;
      assert r in rows;
      var k :| 0 <= k < |rows| && rows[k] == r;
      SecondsOfLabel(raw.dps[l].0, Second, hd, he);
      assert ps[k] == Reread(raw, map[key := value], l, (hd - he) * 3600);
    }
  }

  /** The points written from a reversible series come in strictly ascending time. */
  lemma WrittenAscending(raw: RawSeries, key: string, value: string, hd: int, he: int, s: Series, ps: seq<Point>, rows: seq<nat>)
    requires Reversible(raw, key, value) && Increasing(s.index)
    requires forall p | 0 <= p < |s.index| :: RowFromEntry(raw, s, Second, hd, p)
    requires WrittenFrom(s, he, raw.metric, map[key := value], ps, rows)
    ensures forall k, k' | 0 <= k < k' < |ps| :: ps[k].timestamp < ps[k'].timestamp
  {
    forall k, k' | 0 <= k < k' < |ps| ensures ps[k].timestamp < ps[k'].timestamp {
      var r, r' := rows[k], rows[k'];
      assert RowFromEntry(raw, s, Second, hd, r) && RowFromEntry(raw, s, Second, hd, r');
      var l :| 0 <= l < |raw.dps| && IsDigits(raw.dps[l].0) && s.index[r] == Label(raw.dps[l].0, Second, hd);
      var l' :| 0 <= l' < |raw.dps| && IsDigits(raw.dps[l'].0) && s.index[r'] == Label(raw.dps[l'].0, Second, hd);
      SecondsOfLabel(raw.dps[l].0, Second, hd, he);
      SecondsOfLabel(raw.dps[l'].0, Second, hd, he);
      LabelOrder(raw.dps[l].0, raw.dps[l'].0, hd);
    }
  }

  /**
   * The round trip: every point written is an entry of the response with a
   * value, at the entry's own second moved by `hd - he` hours, under the
   * metric and the tag the response named; every entry with a value is
   * written; and the points come in strictly ascending time, so none twice.
   * With `hd == he` the timestamps are the response's own keys.
   */
  lemma RoundTrip(raw: RawSeries, key: string, value: string, hd: int, he: int)
    requires Reversible(raw, key, value)
    ensures Build([raw], hd).Ok? && Flatten(Build([raw], hd).value.table, he).Ok?
    ensures var ps := Flatten(Build([raw], hd).value.table, he).value;
      && (forall k | 0 <= k < |ps| :: PointFromEntry(raw, map[key := value], (hd - he) * 3600, ps[k]))
      && (forall l | 0 <= l < |raw.dps| && raw.dps[l].1.Some? :: EntryWritten(raw, map[key := value], (hd - he) * 3600, ps, l))
      && (forall k, l | 0 <= k < l < |ps| :: ps[k].timestamp < ps[l].timestamp)
  {
    var s, u := DecodedRows(raw, key, value, hd);
    DecodedEntries(raw, key, value, hd, s);
    BuiltTable(raw, hd, s);
    ParseSingleTag(raw.metric, key, value);
    var ps, rows := WrittenRows(s.index, s.values, s.Name(), raw.metric, map[key := value], he);
    assert WrittenFrom(s, he, raw.metric, map[key := value], ps, rows);
    WrittenAreEntries(raw, key, value, hd, he, s, ps, rows);
    EntriesAreWritten(raw, key, value, hd, he, s, ps, rows);
    WrittenAscending(raw, key, value, hd, he, s, ps, rows);
  }

  /**
   * With the `+8` offset `TsData` adds and `_write_df` takes off, the written
   * timestamps are the response's own keys: reading and writing back posts the
   * same points.
   */
  lemma RoundTripAtTimedelta(raw: RawSeries, key: string, value: string)
    requires Reversible(raw, key, value)
    ensures Build([raw], Timedelta).Ok? && Flatten(Build([raw], Timedelta).value.table, Timedelta).Ok?
    ensures var ps := Flatten(Build([raw], Timedelta).value.table, Timedelta).value;
      && (forall k | 0 <= k < |ps| :: PointFromEntry(raw, map[key := value], 0, ps[k]))
      && (forall l | 0 <= l < |raw.dps| && raw.dps[l].1.Some? :: EntryWritten(raw, map[key := value], 0, ps, l))
  {
    RoundTrip(raw, key, value, Timedelta, Timedelta);
  }
}
