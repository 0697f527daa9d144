/**
 * `TsData`: one series object of an OpenTSDB query response decoded into a
 * single-column table indexed by shifted timestamps.
 */
module TsData {
  import opened Wrappers
  import opened Text
  import opened Frame

  /** One `dps` entry: the timestamp key as text and its value (`None` for NaN or null). */
  type Item = (string, Option<Value>)

  /** One series object of a query response, `dps` listed in the order the object holds them. */
  datatype RawSeries = RawSeries(
    metric: string,
    tags: seq<(string, string)>,
    aggregateTags: seq<string>,
    dps: seq<Item>)

  datatype DecodeError =
    | EmptyPoints             // unpacking `zip(*sorted({}.items()))` fails
    | UnknownUnit(digits: nat) // the first sorted key has a length outside the unit table
    | BadTimestamp(key: string) // a key that `to_datetime` cannot read as a number

  /** The pandas time units of the unit table. */
  datatype Unit = Second | Milli | Nano

  /** The unit table: digit length of a timestamp key to its unit. */
  function UnitOf(digits: nat): (u: Option<Unit>)
    ensures u.Some? <==> digits == 10 || digits == 13 || digits == 16
    ensures u.Some? && u.value != Nano ==> NanosPer(u.value) * Pow10(digits) == Pow10(19)
    ensures u == Some(Nano) ==> NanosPer(u.value) * Pow10(digits) == Pow10(16)
  {
    PowersOfTen();
    if digits == 10 then Some(Second)
    else if digits == 13 then Some(Milli)
    else if digits == 16 then Some(Nano)
    else None
  }

  lemma PowersOfTen()
    ensures Pow10(10) == 10_000_000_000 && Pow10(13) == 10_000_000_000_000
    ensures Pow10(16) == 10_000_000_000_000_000 && Pow10(19) == 10_000_000_000_000_000_000
  {
    assert Pow10(4) == 10_000;
    assert Pow10(7) == 10_000_000;
    assert Pow10(10) == 10_000_000_000;
    assert Pow10(13) == 10_000_000_000_000;
    assert Pow10(16) == 10_000_000_000_000_000;
  }

  function NanosPer(u: Unit): (n: nat)
  {
    match u
    case Second => 1_000_000_000
    case Milli => 1_000_000
    case Nano => 1
  }

  const HourNanos: int := 3_600_000_000_000

  /** `pd.Timedelta('<hours> h')` in nanoseconds. */
  function OffsetNanos(hours: int): (n: int)
  {
    hours * HourNanos
  }

  /** The row label of a key: the key read in `u`, in nanoseconds, shifted by `hours`. */
  function Label(key: string, u: Unit, hours: int): (l: int)
    requires IsDigits(key)
    ensures (l - OffsetNanos(hours)) % NanosPer(u) == 0
    ensures (l - OffsetNanos(hours)) / NanosPer(u) == DigitsValue(key)
  {
    DigitsValue(key) * NanosPer(u) + OffsetNanos(hours)
  }

  /** A dict has no repeated key. */
  predicate DistinctKeys(dps: seq<Item>)
  {
    forall p, q | 0 <= p < q < |dps| :: dps[p].0 != dps[q].0
  }

  predicate SortedByKey(dps: seq<Item>)
  {
    forall p, q | 0 <= p < q < |dps| :: Less(dps[p].0, dps[q].0)
  }

  function Insert(x: Item, s: seq<Item>): (r: seq<Item>)
    requires SortedByKey(s)
    requires forall p | 0 <= p < |s| :: s[p].0 != x.0
    ensures SortedByKey(r)
    ensures multiset(r) == multiset(s) + multiset{x}
  {
    if s == [] then [x]
    else if Less(x.0, s[0].0) then
      LessThanSorted(x, s);
      ConsSorted(x, s);
      [x] + s
    else
      var rest := Insert(x, s[1..]);
      LessTotal(x.0, s[0].0);
      FirstBeforeRest(x, s, rest);
      ConsSorted(s[0], rest);
      assert s == [s[0]] + s[1..];
      [s[0]] + rest
  }

  /** A key below every key of a sorted list can go in front of it. */
  lemma ConsSorted(h: Item, s: seq<Item>)
    requires SortedByKey(s) && forall q | 0 <= q < |s| :: Less(h.0, s[q].0)
    ensures SortedByKey([h] + s)
  {
    var r := [h] + s;
    forall p, q | 0 <= p < q < |r| ensures Less(r[p].0, r[q].0) {
      if p > 0 {
        assert r[p] == s[p - 1] && r[q] == s[q - 1];
      } else {
        assert r[q] == s[q - 1];
      }
    }
  }

  /** A key below the first of a sorted list is below all of them. */
  lemma LessThanSorted(x: Item, s: seq<Item>)
    requires SortedByKey(s) && |s| > 0 && Less(x.0, s[0].0)
    ensures forall q | 0 <= q < |s| :: Less(x.0, s[q].0)
  {
    forall q | 0 < q < |s| ensures Less(x.0, s[q].0) {
      LessTransitive(x.0, s[0].0, s[q].0);
    }
  }

  /** The head of a sorted list precedes the rest with a larger key put in. */
  lemma FirstBeforeRest(x: Item, s: seq<Item>, rest: seq<Item>)
    requires SortedByKey(s) && |s| > 0 && Less(s[0].0, x.0)
    requires multiset(rest) == multiset(s[1..]) + multiset{x}
    ensures forall q | 0 <= q < |rest| :: Less(s[0].0, rest[q].0)
  {
    forall q | 0 <= q < |rest| ensures Less(s[0].0, rest[q].0) {
      assert rest[q] in multiset(rest);
      if rest[q] != x {
        assert rest[q] in multiset(s[1..]);
        var k :| 0 <= k < |s[1..]| && s[1..][k] == rest[q];
        assert s[k + 1] == rest[q];
      }
    }
  }

  /** `sorted(dps.items())`: the entries in string order of their keys. */
  function SortItems(dps: seq<Item>): (r: seq<Item>)
    requires DistinctKeys(dps)
    ensures SortedByKey(r)
    ensures multiset(r) == multiset(dps)
  {
    if dps == [] then []
    else
      var rest := SortItems(dps[1..]);
      OtherKeys(dps, rest);
      assert dps == [dps[0]] + dps[1..];
      Insert(dps[0], rest)
  }

  /** A reordering of the tail of a dict repeats none of the head's key. */
  lemma OtherKeys(dps: seq<Item>, rest: seq<Item>)
    requires DistinctKeys(dps) && |dps| > 0 && multiset(rest) == multiset(dps[1..])
    ensures forall p | 0 <= p < |rest| :: rest[p].0 != dps[0].0
  {
    forall p | 0 <= p < |rest| ensures rest[p].0 != dps[0].0 {
      assert rest[p] in multiset(dps[1..]);
      var k :| 0 <= k < |dps[1..]| && dps[1..][k] == rest[p];
      assert dps[k + 1] == rest[p];
    }
  }

  /** The `k=v` texts of the tags, in the order the tags are supplied. */
  function PairTexts(tags: seq<(string, string)>): (r: seq<string>)
    ensures |r| == |tags|
    ensures forall i | 0 <= i < |tags| :: r[i] == tags[i].0 + "=" + tags[i].1
  {
    if tags == [] then [] else [tags[0].0 + "=" + tags[0].1] + PairTexts(tags[1..])
  }

  /** `__format_tags`: the canonical tag string `{k=v, k=v}`. */
  function FormatTags(tags: seq<(string, string)>): (s: string)
    ensures |s| >= 2 && s[0] == '{' && s[|s| - 1] == '}'
  {
    "{" + Join(PairTexts(tags), ", ") + "}"
  }

  /** The first key that is not a digit string, in sorted order. */
  function FirstBadKey(items: seq<Item>): (r: Option<string>)
    ensures r.None? <==> forall p | 0 <= p < |items| :: IsDigits(items[p].0)
    ensures r.Some? ==> exists p | 0 <= p < |items| :: items[p].0 == r.value && !IsDigits(r.value)
  {
    if items == [] then None
    else if !IsDigits(items[0].0) then Some(items[0].0)
    else
      var r := FirstBadKey(items[1..]);
      assert forall p | 1 <= p < |items| :: items[1..][p - 1] == items[p];
      r
  }

  /** The row labels of sorted entries whose keys are all digit strings. */
  function Labels(items: seq<Item>, u: Unit, hours: int): (index: seq<int>)
    requires forall p | 0 <= p < |items| :: IsDigits(items[p].0)
    ensures |index| == |items|
    ensures forall p | 0 <= p < |items| :: index[p] == Label(items[p].0, u, hours)
  {
    if items == [] then [] else [Label(items[0].0, u, hours)] + Labels(items[1..], u, hours)
  }

  /** The values of sorted entries, in the same order. */
  function Values(items: seq<Item>): (values: seq<Option<Value>>)
    ensures |values| == |items|
    ensures forall p | 0 <= p < |items| :: values[p] == items[p].1
  {
    if items == [] then [] else [items[0].1] + Values(items[1..])
  }

  /** A decoded series: `metric`, canonical `tags`, `aggregateTags` and the `dps` frame. */
  datatype Series = Series(
    metric: string,
    tags: string,
    aggregateTags: seq<string>,
    index: seq<int>,
    values: seq<Option<Value>>)
  {
    predicate Valid()
    {
      |index| == |values|
    }

    /** The name of the single column: metric followed by the canonical tags. */
    function Name(): (n: string)
      ensures metric <= n && n[|metric|..] == tags
    {
      metric + tags
    }

    /** The `dps` property: a one-column table. */
    function Dps(): (t: Table)
      requires Valid()
      ensures t.Valid() && |t.columns| == 1 && t.columns[0].name == Name()
      ensures t.index == index && t.columns[0].cells == values
    {
      Table(index, [Column(Name(), values)])
    }

    /** The `tags` property: the canonical string with each `=` shown as `: `. */
    function RenderedTags(): (r: string)
      ensures '=' !in r
      ensures '=' !in tags ==> r == tags
    {
      Replace(tags, '=', ": ")
    }

    /** The integer part of `data_info`. */
    function DataInfo(): (r: Option<Info>)
      requires Valid()
      ensures r.Some? <==> |index| > 0
      ensures r.Some? ==> r.value.rows == |index| && r.value.cols == 1
      ensures r.Some? ==> r.value.start == index[0] && r.value.end == index[|index| - 1]
      ensures r.Some? ==> r.value.nans == multiset(values)[None]
      ensures r.Some? ==> r.value.days == |Days(index)| && 1 <= r.value.days <= r.value.rows
    {
      assert AllCells([Column(Name(), values)]) == values + [];
      InfoOf(Dps())
    }
  }

  /**
   * `TsData(**raw)`: sort the entries by key, take the unit from the length of
   * the first key, and label each value with its key read in that unit and
   * shifted by `hours`.
   */
  function Decode(raw: RawSeries, hours: int): (r: Result<Series, DecodeError>)
    requires DistinctKeys(raw.dps)
    ensures |raw.dps| == 0 ==> r == Err(EmptyPoints)
    ensures r.Ok? ==> r.value.Valid() && |r.value.index| == |raw.dps|
    ensures r.Ok? ==> r.value.metric == raw.metric && r.value.aggregateTags == raw.aggregateTags
    ensures r.Ok? ==> r.value.tags == FormatTags(raw.tags) && r.value.Name() == raw.metric + FormatTags(raw.tags)
  {
    var tags := FormatTags(raw.tags);
    if |raw.dps| == 0 then Err(EmptyPoints)
    else
      var items := SortItems(raw.dps);
      assert |items| == |raw.dps| by {
        assert |multiset(items)| == |multiset(raw.dps)|;
      }
      match UnitOf(|items[0].0|)
      case None => Err(UnknownUnit(|items[0].0|))
      case Some(u) =>
        match FirstBadKey(items)
        case Some(key) => Err(BadTimestamp(key))
        case None =>
          Ok(Series(raw.metric, tags, raw.aggregateTags, Labels(items, u, hours), Values(items)))
  }

  /** Where an entry of one permutation stands in the other. */
  lemma Locate(a: seq<Item>, b: seq<Item>, l: nat) returns (p: nat)
    requires multiset(a) == multiset(b) && l < |b|
    ensures p < |a| && a[p] == b[l]
  {
    assert b[l] in multiset(a);
    p :| 0 <= p < |a| && a[p] == b[l];
  }

  /** What a successful decode holds, in terms of the sorted entries. */
  lemma DecodeValue(raw: RawSeries, hours: int)
    requires DistinctKeys(raw.dps)
    requires Decode(raw, hours).Ok?
    ensures var items := SortItems(raw.dps);
      && |items| == |raw.dps| > 0
      && UnitOf(|items[0].0|).Some?
      && (forall p | 0 <= p < |items| :: IsDigits(items[p].0))
      && Decode(raw, hours).value.index == Labels(items, UnitOf(|items[0].0|).value, hours)
      && Decode(raw, hours).value.values == Values(items)
  {
    var items := SortItems(raw.dps);
    assert |multiset(items)| == |multiset(raw.dps)|;
  }

  /** The entry that sorts first is the one whose key precedes every other key. */
  lemma SortedFirstIsLeast(dps: seq<Item>, j: nat)
    requires DistinctKeys(dps)
    requires j < |dps| && forall l | 0 <= l < |dps| && l != j :: Less(dps[j].0, dps[l].0)
    ensures |SortItems(dps)| == |dps| && SortItems(dps)[0] == dps[j]
  {
    var items := SortItems(dps);
    assert |multiset(items)| == |multiset(dps)|;
    assert items[0] in multiset(dps);
    var l :| 0 <= l < |dps| && dps[l] == items[0];
    if l != j {
      assert dps[j] in multiset(items);
      var k :| 0 <= k < |items| && items[k] == dps[j];
      assert k != 0;
      LessAsymmetric(dps[j].0, dps[l].0);
    }
  }

  /**
   * Whether decoding succeeds is decided by the key that sorts first: its
   * length must be in the unit table, and then every key must be a digit string.
   */
  lemma DecodeOutcome(raw: RawSeries, hours: int, j: nat)
    requires DistinctKeys(raw.dps)
    requires j < |raw.dps| && forall l | 0 <= l < |raw.dps| && l != j :: Less(raw.dps[j].0, raw.dps[l].0)
    ensures UnitOf(|raw.dps[j].0|).None? ==> Decode(raw, hours) == Err(UnknownUnit(|raw.dps[j].0|))
    ensures UnitOf(|raw.dps[j].0|).Some? ==>
      (Decode(raw, hours).Ok? <==> forall l | 0 <= l < |raw.dps| :: IsDigits(raw.dps[l].0))
  {
    var items := SortItems(raw.dps);
    SortedFirstIsLeast(raw.dps, j);
    if UnitOf(|raw.dps[j].0|).Some? {
      if forall l | 0 <= l < |raw.dps| :: IsDigits(raw.dps[l].0) {
        forall p | 0 <= p < |items| ensures IsDigits(items[p].0) {
          assert items[p] in multiset(raw.dps);
        }
      } else {
        var l :| 0 <= l < |raw.dps| && !IsDigits(raw.dps[l].0);
        assert raw.dps[l] in multiset(items);
      }
    }
  }

  /**
   * One row per entry, and each row holds the value of some entry at that
   * entry's key read in the unit of the first sorted key and shifted by
   * `hours`: no value is invented.
   */
  lemma DecodeRowsFromEntries(raw: RawSeries, hours: int, j: nat, s: Series)
    requires DistinctKeys(raw.dps)
    requires j < |raw.dps| && forall l | 0 <= l < |raw.dps| && l != j :: Less(raw.dps[j].0, raw.dps[l].0)
    requires Decode(raw, hours) == Ok(s)
    ensures UnitOf(|raw.dps[j].0|).Some?
    ensures forall l | 0 <= l < |raw.dps| :: IsDigits(raw.dps[l].0)
    ensures |s.index| == |s.values| == |raw.dps|
    ensures forall p | 0 <= p < |s.index| :: exists l | 0 <= l < |raw.dps| ::
      s.index[p] == Label(raw.dps[l].0, UnitOf(|raw.dps[j].0|).value, hours) && s.values[p] == raw.dps[l].1
  {
    var items := SortItems(raw.dps);
    DecodeValue(raw, hours);
    SortedFirstIsLeast(raw.dps, j);
    DecodeOutcome(raw, hours, j);
    var u := UnitOf(|raw.dps[j].0|).value;
    forall p | 0 <= p < |s.index| ensures exists l | 0 <= l < |raw.dps| ::
      s.index[p] == Label(raw.dps[l].0, u, hours) && s.values[p] == raw.dps[l].1
    {
      var l := Locate(raw.dps, items, p);
      assert s.index[p] == Label(raw.dps[l].0, u, hours);
    }
  }

  /** Every entry has a row holding its value at its shifted time: no value is lost. */
  lemma DecodeEntriesHaveRows(raw: RawSeries, hours: int, j: nat, s: Series)
    requires DistinctKeys(raw.dps)
    requires j < |raw.dps| && forall l | 0 <= l < |raw.dps| && l != j :: Less(raw.dps[j].0, raw.dps[l].0)
    requires Decode(raw, hours) == Ok(s)
    ensures UnitOf(|raw.dps[j].0|).Some?
    ensures forall l | 0 <= l < |raw.dps| :: IsDigits(raw.dps[l].0)
    ensures forall l | 0 <= l < |raw.dps| :: exists p | 0 <= p < |s.index| ::
      s.index[p] == Label(raw.dps[l].0, UnitOf(|raw.dps[j].0|).value, hours) && s.values[p] == raw.dps[l].1
  {
    var items := SortItems(raw.dps);
    DecodeValue(raw, hours);
    SortedFirstIsLeast(raw.dps, j);
    DecodeOutcome(raw, hours, j);
    var u := UnitOf(|raw.dps[j].0|).value;
    forall l | 0 <= l < |raw.dps| ensures exists p | 0 <= p < |s.index| ::
      s.index[p] == Label(raw.dps[l].0, u, hours) && s.values[p] == raw.dps[l].1
    {
      var p := Locate(items, raw.dps, l);
      assert s.index[p] == Label(raw.dps[l].0, u, hours);
    }
  }

  lemma LabelMonotone(a: string, b: string, u: Unit, hours: int)
    requires IsDigits(a) && IsDigits(b) && DigitsValue(a) < DigitsValue(b)
    ensures Label(a, u, hours) < Label(b, u, hours)
  {
    var x, y, c := DigitsValue(a), DigitsValue(b), NanosPer(u);
    assert c >= 1;
    MulLe(x + 1, y, c);
  }

  /**
   * When all keys have one length, string order is time order: the decoded
   * index is strictly ascending.
   */
  lemma DecodeIncreasing(raw: RawSeries, hours: int)
    requires DistinctKeys(raw.dps)
    requires forall l | 0 <= l < |raw.dps| :: |raw.dps[l].0| == |raw.dps[0].0|
    requires Decode(raw, hours).Ok?
    ensures Increasing(Decode(raw, hours).value.index)
  {
    var items := SortItems(raw.dps);
    DecodeValue(raw, hours);
    var index := Decode(raw, hours).value.index;
    var u := UnitOf(|items[0].0|).value;
    forall p, q | 0 <= p < q < |index| ensures index[p] < index[q] {
      assert items[p] in multiset(raw.dps);
      assert items[q] in multiset(raw.dps);
      DigitsOrder(items[p].0, items[q].0);
      LabelMonotone(items[p].0, items[q].0, u, hours);
    }
  }

  /**
   * Keys of different lengths sort as text, not as numbers: here the decoded
   * index runs backwards in time.
   */
  lemma MixedLengthKeysOutOfTimeOrder()
    ensures var raw := RawSeries("m", [], [], [("2", Some(1.0)), ("1000000000", Some(2.0))]);
      && Decode(raw, 0).Ok?
      && Decode(raw, 0).value.index == [1_000_000_000_000_000_000, 2_000_000_000]
  {
    var raw := RawSeries("m", [], [], [("2", Some(1.0)), ("1000000000", Some(2.0))]);
    var items := [("1000000000", Some(2.0)), ("2", Some(1.0))];
    SortTwoKeys();
    TwoKeysLabels();
    assert UnitOf(|items[0].0|) == Some(Second);
    assert Decode(raw, 0) == Ok(Series("m", FormatTags([]), [], Labels(items, Second, 0), Values(items)));
  }

  lemma TwoKeysLabels()
    ensures var items := [("1000000000", Some(2.0)), ("2", Some(1.0))];
      && FirstBadKey(items).None?
      && Labels(items, Second, 0) == [1_000_000_000_000_000_000, 2_000_000_000]
  {
    var items := [("1000000000", Some(2.0)), ("2", Some(1.0))];
    BillionDigits();
    assert IsDigits("2") && DigitsValue("2") == 2;
    assert FirstBadKey(items).None?;
    var index := Labels(items, Second, 0);
    assert index[0] == 1_000_000_000_000_000_000 by {
      assert index[0] == Label("1000000000", Second, 0);
    }
    assert index[1] == 2_000_000_000 by {
      assert index[1] == Label("2", Second, 0);
    }
  }

  lemma SortTwoKeys()
    ensures SortItems([("2", Some(1.0)), ("1000000000", Some(2.0))]) == [("1000000000", Some(2.0)), ("2", Some(1.0))]
  {
    var dps := [("2", Some(1.0)), ("1000000000", Some(2.0))];
    assert Less("1000000000", "2");
    assert SortItems(dps[1..]) == [("1000000000", Some(2.0))];
  }

  lemma BillionDigits()
    ensures IsDigits("1000000000") && DigitsValue("1000000000") == 1_000_000_000
  {
    var s := "1000000000";
    ZeroDigits(s[1..]);
    assert Pow10(3) == 1_000;
    assert Pow10(6) == 1_000_000;
    assert Pow10(9) == 1_000_000_000;
  }

  lemma {:induction false} ZeroDigits(s: string)
    requires forall i | 0 <= i < |s| :: s[i] == '0'
    ensures IsDigits(s) && DigitsValue(s) == 0
  {
    if s != [] {
      ZeroDigits(s[1..]);
    }
  }

  /** The `k: v` texts the `tags` property shows. */
  function RenderedPairs(tags: seq<(string, string)>): (r: seq<string>)
    ensures |r| == |tags|
  {
    if tags == [] then [] else [tags[0].0 + ": " + tags[0].1] + RenderedPairs(tags[1..])
  }

  lemma ReplacePair(k: string, v: string)
    requires '=' !in k && '=' !in v
    ensures Replace(k + "=" + v, '=', ": ") == k + ": " + v
  {
    ReplaceAppend(k + "=", v, '=', ": ");
    ReplaceAppend(k, "=", '=', ": ");
  }

  lemma {:induction false} ReplacePairs(tags: seq<(string, string)>)
    requires forall i | 0 <= i < |tags| :: '=' !in tags[i].0 && '=' !in tags[i].1
    ensures Replace(Join(PairTexts(tags), ", "), '=', ": ") == Join(RenderedPairs(tags), ", ")
    decreases |tags|
  {
    if tags != [] {
      var k, v := tags[0].0, tags[0].1;
      ReplacePair(k, v);
      if |tags| > 1 {
        ReplacePairs(tags[1..]);
        var pt := PairTexts(tags[1..]);
        ReplaceAppend(k + "=" + v, ", " + Join(pt, ", "), '=', ": ");
        ReplaceAppend(", ", Join(pt, ", "), '=', ": ");
        assert k + "=" + v + ", " + Join(pt, ", ") == (k + "=" + v) + (", " + Join(pt, ", "));
      }
    }
  }

  /**
   * The `tags` property of a series whose tags hold no `=` is `{k: v, k: v}`:
   * the canonical string with only the separators changed.
   */
  lemma RenderedTagsShape(tags: seq<(string, string)>)
    requires forall i | 0 <= i < |tags| :: '=' !in tags[i].0 && '=' !in tags[i].1
    ensures Replace(FormatTags(tags), '=', ": ") == "{" + Join(RenderedPairs(tags), ", ") + "}"
  {
    var body := Join(PairTexts(tags), ", ");
    ReplacePairs(tags);
    ReplaceAppend("{" + body, "}", '=', ": ");
    ReplaceAppend("{", body, '=', ": ");
  }
}
