/**
 * The encode direction of `Connection`: a column name is parsed back into a
 * metric and a tag dictionary, a wide table is flattened into OpenTSDB point
 * records, and `write_ts` chooses the path by the kind of data it is given.
 */
module Client {
  import opened Wrappers
  import opened Text
  import opened Frame
  import opened TsData
  import opened TsDataSet

  /** `Connection.__timedelta`: the hours taken off every row label before writing. */
  const Timedelta: int := 8

  /** One OpenTSDB point record, as `/api/put` takes it. */
  datatype Point = Point(metric: string, timestamp: int, value: Value, tags: map<string, string>)

  datatype WriteError =
    | MalformedName(name: string)          // a column name `__metric_tags` cannot unpack
    | AmbiguousCell(stamp: int, name: string) // `df.loc[i, j]` is not one cell (a label or a name repeats)
    | UnsupportedInput                     // `write_ts` given anything else

  // ---------------------------------------------------------------------------
  // `__metric_tags`
  // ---------------------------------------------------------------------------

  /** `s[:-1]`: everything but the last character (nothing, for the empty string). */
  function DropLast(s: string): (t: string)
    ensures |s| > 0 ==> s == t + [s[|s| - 1]]
    ensures |s| == 0 ==> t == []
  {
    if s == [] then [] else s[..|s| - 1]
  }

  /** `tuple(part.split('='))` as a dictionary entry: the part must hold exactly one `=`. */
  function PairOf(part: string): (r: Option<(string, string)>)
    ensures r.Some? <==> Count(part, '=') == 1
    ensures r.Some? ==> r.value.0 + "=" + r.value.1 == part && '=' !in r.value.0 && '=' !in r.value.1
  {
    var kv := Split(part, '=');
    if |kv| == 2 then
      assert kv[0] in kv && kv[1] in kv;
      JoinTwo(kv, "=");
      Some((kv[0], kv[1]))
    else None
  }

  /** Every part as an entry; one part that is not `k=v` makes the whole list fail. */
  function PairsOf(parts: seq<string>): (r: Option<seq<(string, string)>>)
    ensures r.Some? <==> forall i | 0 <= i < |parts| :: PairOf(parts[i]).Some?
    ensures r.Some? ==> |r.value| == |parts| && forall i | 0 <= i < |parts| :: PairOf(parts[i]) == Some(r.value[i])
  {
    if parts == [] then Some([])
    else
      match PairOf(parts[0])
      case None => None
      case Some(p) =>
        match PairsOf(parts[1..])
        case None =>
          assert exists i | 0 <= i < |parts| :: PairOf(parts[i]).None? by {
            var i :| 0 <= i < |parts[1..]| && PairOf(parts[1..][i]).None?;
            assert PairOf(parts[i + 1]).None?;
          }
          None
        case Some(ps) =>
          assert forall i | 1 <= i < |parts| :: parts[1..][i - 1] == parts[i];
          Some([p] + ps)
  }

  /** `dict(pairs)`: the keys of the pairs, each bound to the value of its last pair. */
  function PairsMap(pairs: seq<(string, string)>): (m: map<string, string>)
    ensures |m| <= |pairs|
    ensures pairs != [] ==> pairs[|pairs| - 1].0 in m && m[pairs[|pairs| - 1].0] == pairs[|pairs| - 1].1
  {
    if pairs == [] then map[] else PairsMap(pairs[..|pairs| - 1])[pairs[|pairs| - 1].0 := pairs[|pairs| - 1].1]
  }

  /** The dictionary holds the keys of the pairs, each bound to the value of its last pair. */
  lemma PairsMapSpec(pairs: seq<(string, string)>)
    ensures var m := PairsMap(pairs);
      && (forall k :: k in m <==> exists i | 0 <= i < |pairs| :: pairs[i].0 == k)
      && (forall i | 0 <= i < |pairs| && (forall l | i < l < |pairs| :: pairs[l].0 != pairs[i].0) ::
            pairs[i].0 in m && m[pairs[i].0] == pairs[i].1)
  {
    PairsMapKeys(pairs);
    PairsMapLast(pairs);
  }

  lemma {:induction false} PairsMapKeys(pairs: seq<(string, string)>)
    ensures forall k :: k in PairsMap(pairs) <==> exists i | 0 <= i < |pairs| :: pairs[i].0 == k
    decreases |pairs|
  {
    if pairs != [] {
      var n := |pairs| - 1;
      var init := pairs[..n];
      PairsMapKeys(init);
      forall k ensures k in PairsMap(pairs) <==> exists i | 0 <= i < |pairs| :: pairs[i].0 == k {
        if exists i | 0 <= i < |pairs| :: pairs[i].0 == k {
          var i :| 0 <= i < |pairs| && pairs[i].0 == k;
          if i < n {
            assert init[i] == pairs[i];
          }
        }
        if k in PairsMap(init) {
          var i :| 0 <= i < n && init[i].0 == k;
          assert pairs[i] == init[i];
        }
      }
    }
  }

  lemma {:induction false} PairsMapLast(pairs: seq<(string, string)>)
    ensures forall i | 0 <= i < |pairs| && (forall l | i < l < |pairs| :: pairs[l].0 != pairs[i].0) ::
      pairs[i].0 in PairsMap(pairs) && PairsMap(pairs)[pairs[i].0] == pairs[i].1
    decreases |pairs|
  {
    if pairs != [] {
      var n := |pairs| - 1;
      var init := pairs[..n];
      PairsMapLast(init);
      forall i | 0 <= i < |pairs| && (forall l | i < l < |pairs| :: pairs[l].0 != pairs[i].0)
        ensures pairs[i].0 in PairsMap(pairs) && PairsMap(pairs)[pairs[i].0] == pairs[i].1
      {
        if i < n {
          assert init[i] == pairs[i];
          assert forall l | i < l < n :: init[l] == pairs[l];
          assert pairs[n].0 != pairs[i].0;
        }
      }
    }
  }

  /**
   * `__metric_tags(name)`: drop the closing character, split once at `{` into
   * the metric and the tag list, split the list at `,` and every item at `=`.
   */
  function MetricTags(name: string): (r: Result<(string, map<string, string>), WriteError>)
    ensures r.Err? ==> r.error == MalformedName(name)
    ensures r.Ok? ==> |r.value.0| < |name| && name[..|r.value.0| + 1] == r.value.0 + "{" && '{' !in r.value.0
    ensures r.Ok? ==> forall k | k in r.value.1 :: '=' !in k && ',' !in k && '{' !in k
  {
    var halves := Split(DropLast(name), '{');
    if |halves| != 2 then Err(MalformedName(name))
    else
      MetricPrefix(name, halves);
      match PairsOf(Split(halves[1], ','))
      case None => Err(MalformedName(name))
      case Some(pairs) =>
        PlainKeys(halves[1], pairs);
        Ok((halves[0], PairsMap(pairs)))
  }

  /** The text before the one `{` of a name is a brace-free prefix of it, and so is the text after. */
  lemma MetricPrefix(name: string, halves: seq<string>)
    requires halves == Split(DropLast(name), '{') && |halves| == 2
    ensures |halves[0]| < |name| && name[..|halves[0]| + 1] == halves[0] + "{"
    ensures '{' !in halves[0] && '{' !in halves[1]
  {
    var body := DropLast(name);
    assert halves[0] in halves && halves[1] in halves;
    JoinTwo(halves, "{");
    assert name[..|halves[0]| + 1] == body[..|halves[0]| + 1];
  }

  /** The keys parsed from a brace-free tag list hold no `=`, `,` or `{`. */
  lemma PlainKeys(tagText: string, pairs: seq<(string, string)>)
    requires '{' !in tagText && PairsOf(Split(tagText, ',')) == Some(pairs)
    ensures forall k | k in PairsMap(pairs) :: '=' !in k && ',' !in k && '{' !in k
  {
    var parts := Split(tagText, ',');
    forall i | 0 <= i < |pairs| ensures '=' !in pairs[i].0 && ',' !in pairs[i].0 && '{' !in pairs[i].0 {
      assert PairOf(parts[i]) == Some(pairs[i]);
      assert parts[i] in parts;
      CharOfPart(parts[i], tagText, pairs[i].0 + "=" + pairs[i].1, pairs[i].0);
    }
    PairsMapKeys(pairs);
  }

  /** A prefix of a comma-free piece of a brace-free string holds neither. */
  lemma CharOfPart(part: string, whole: string, text: string, key: string)
    requires '{' !in whole && part in Split(whole, ',') && text == part
    requires key <= text
    ensures ',' !in key && '{' !in key
  {
    JoinMember(Split(whole, ','), ",", part, '{');
  }

  /** A part of a join holds no character the join lacks. */
  lemma {:induction false} JoinMember(parts: seq<string>, sep: string, p: string, c: char)
    requires p in parts && c !in Join(parts, sep)
    ensures c !in p
    decreases |parts|
  {
    if |parts| > 1 && p != parts[0] {
      JoinMember(parts[1..], sep, p, c);
    }
  }

  /** A tag key or value the canonical form can carry back: no `{`, `,` or `=`. */
  predicate Plain(s: string)
  {
    '{' !in s && ',' !in s && '=' !in s
  }

  predicate PlainTags(tags: seq<(string, string)>)
  {
    forall i | 0 <= i < |tags| :: Plain(tags[i].0) && Plain(tags[i].1)
  }

  /** The tags as a canonical name parses them: every key after the first keeps a leading space. */
  function SpacedPairs(tags: seq<(string, string)>): (r: seq<(string, string)>)
    ensures |r| == |tags|
    ensures forall i | 0 <= i < |tags| :: r[i] == ((if i == 0 then "" else " ") + tags[i].0, tags[i].1)
  {
    seq(|tags|, i requires 0 <= i < |tags| => ((if i == 0 then "" else " ") + tags[i].0, tags[i].1))
  }

  /**
   * Parsing a canonical column name (`metric` followed by `{k=v, k=v}`) gives
   * back the metric and the tag pairs, each later key still carrying the space
   * that followed its comma.
   */
  lemma ParseCanonical(metric: string, tags: seq<(string, string)>)
    requires |tags| >= 1 && '{' !in metric && PlainTags(tags)
    ensures MetricTags(metric + FormatTags(tags)) == Ok((metric, PairsMap(SpacedPairs(tags))))
  {
    CanonicalBody(metric, tags);
    CanonicalItems(tags);
    SpacedItemsParse(tags);
    ParseParts(metric + FormatTags(tags), metric, Join(PairTexts(tags), ", "), SpacedPairs(tags));
  }

  /** A canonical name without its closing brace is the metric, `{` and the brace-free tag list. */
  lemma CanonicalBody(metric: string, tags: seq<(string, string)>)
    requires PlainTags(tags)
    ensures DropLast(metric + FormatTags(tags)) == metric + "{" + Join(PairTexts(tags), ", ")
    ensures '{' !in Join(PairTexts(tags), ", ")
  {
    var texts := PairTexts(tags);
    forall p | p in texts ensures '{' !in p {
      var i :| 0 <= i < |texts| && texts[i] == p;
    }
    JoinWithout(texts, ", ", '{');
    var name := metric + FormatTags(tags);
    assert name == (metric + "{" + Join(texts, ", ")) + "}";
  }

  /** How `__metric_tags` reads a name `metric{rest` + one closing character. */
  lemma ParseParts(name: string, metric: string, rest: string, pairs: seq<(string, string)>)
    requires DropLast(name) == metric + "{" + rest && '{' !in metric && '{' !in rest
    requires PairsOf(Split(rest, ',')) == Some(pairs)
    ensures MetricTags(name) == Ok((metric, PairsMap(pairs)))
  {
    SplitAt(metric, rest, '{');
    SplitWithout(rest, '{');
  }

  /** Splitting the canonical tag list at `,` gives the `k=v` texts, later ones with a leading space. */
  lemma CanonicalItems(tags: seq<(string, string)>)
    requires |tags| >= 1 && PlainTags(tags)
    ensures Split(Join(PairTexts(tags), ", "), ',') == Spaced(PairTexts(tags))
  {
    var texts := PairTexts(tags);
    var spaced := Spaced(texts);
    JoinCommaSpace(texts);
    forall p | p in spaced ensures ',' !in p {
      var i :| 0 <= i < |spaced| && spaced[i] == p;
      ItemWithout(tags, i, ',');
    }
    SplitJoin(spaced, ',');
  }

  lemma ItemWithout(tags: seq<(string, string)>, i: nat, c: char)
    requires i < |tags| && c != '=' && c != ' '
    requires c !in tags[i].0 && c !in tags[i].1
    ensures c !in Spaced(PairTexts(tags))[i]
  {
    var t := PairTexts(tags)[i];
    assert t == tags[i].0 + "=" + tags[i].1;
    assert c !in t;
  }

  /** Each spaced `k=v` text reads back as its pair. */
  lemma SpacedItemsParse(tags: seq<(string, string)>)
    requires PlainTags(tags)
    ensures PairsOf(Spaced(PairTexts(tags))) == Some(SpacedPairs(tags))
  {
    var texts := PairTexts(tags);
    var spaced := Spaced(texts);
    var pairs := SpacedPairs(tags);
    forall i | 0 <= i < |spaced| ensures PairOf(spaced[i]) == Some(pairs[i]) {
      ItemParses(tags, i);
    }
    var r := PairsOf(spaced);
    assert r.Some?;
    assert r.value == pairs by {
      forall i | 0 <= i < |pairs| ensures r.value[i] == pairs[i] {
        assert PairOf(spaced[i]) == Some(r.value[i]);
      }
    }
  }

  lemma ItemParses(tags: seq<(string, string)>, i: nat)
    requires i < |tags| && '=' !in tags[i].0 && '=' !in tags[i].1
    ensures PairOf(Spaced(PairTexts(tags))[i]) == Some(SpacedPairs(tags)[i])
  {
    var k, v := SpacedPairs(tags)[i].0, tags[i].1;
    var t := PairTexts(tags)[i];
    assert t == tags[i].0 + "=" + v;
    if i == 0 {
      assert k == tags[i].0;
      assert Spaced(PairTexts(tags))[i] == t;
    } else {
      assert k == " " + tags[i].0;
      assert Spaced(PairTexts(tags))[i] == " " + t;
      SpaceBeforeItem(tags[i].0, v);
    }
    PairOfPlain(k, v);
  }

  lemma SpaceBeforeItem(k: string, v: string)
    ensures " " + (k + "=" + v) == (" " + k) + "=" + v
  {
  }

  lemma PairOfPlain(k: string, v: string)
    requires '=' !in k && '=' !in v
    ensures PairOf(k + "=" + v) == Some((k, v))
  {
    SplitAt(k, v, '=');
    SplitWithout(v, '=');
  }

  /** A one-tag canonical name parses back to exactly its metric and tag. */
  lemma ParseSingleTag(metric: string, key: string, value: string)
    requires '{' !in metric && Plain(key) && Plain(value)
    ensures MetricTags(metric + FormatTags([(key, value)])) == Ok((metric, map[key := value]))
  {
    var tags := [(key, value)];
    ParseCanonical(metric, tags);
    var sp := SpacedPairs(tags);
    assert sp[0] == ("" + key, value);
    assert "" + key == key;
    assert sp == tags;
  }

  /**
   * The dictionary a canonical name with several tags parses to: the first key
   * as it is and every later key only with a leading space, bound to its own
   * value when no later tag repeats it.
   */
  lemma SpacedKeys(tags: seq<(string, string)>)
    requires |tags| >= 1
    ensures var m := PairsMap(SpacedPairs(tags));
      && tags[0].0 in m
      && forall i | 0 < i < |tags| :: " " + tags[i].0 in m
    ensures var m := PairsMap(SpacedPairs(tags));
      forall i | 0 < i < |tags| && (forall l | i < l < |tags| :: tags[l].0 != tags[i].0) :: m[" " + tags[i].0] == tags[i].1
  {
    var pairs := SpacedPairs(tags);
    PairsMapSpec(pairs);
    assert pairs[0].0 == "" + tags[0].0 == tags[0].0;
    forall i | 0 < i < |tags| ensures " " + tags[i].0 in PairsMap(pairs) {
      assert pairs[i].0 == " " + tags[i].0;
    }
    forall i | 0 < i < |tags| && (forall l | i < l < |tags| :: tags[l].0 != tags[i].0)
      ensures PairsMap(pairs)[" " + tags[i].0] == tags[i].1
    {
      forall l | i < l < |tags| ensures pairs[l].0 != pairs[i].0 {
        assert pairs[l].0 == " " + tags[l].0;
        assert pairs[i].0 == " " + tags[i].0;
        assert (" " + tags[l].0)[1..] == tags[l].0;
        assert (" " + tags[i].0)[1..] == tags[i].0;
      }
    }
  }

  /**
   * A two-tag name `metric{k1=v1, k2=v2}` parses to the keys `k1` and ` k2`:
   * the second tag comes back under a different key, and `k2` itself is missing.
   */
  lemma ParseTwoTags(metric: string, k1: string, v1: string, k2: string, v2: string)
    requires '{' !in metric && PlainTags([(k1, v1), (k2, v2)])
    ensures MetricTags(metric + FormatTags([(k1, v1), (k2, v2)])) == Ok((metric, map[k1 := v1, " " + k2 := v2]))
    ensures k2 != k1 ==> k2 !in map[k1 := v1, " " + k2 := v2]
  {
    ParseCanonical(metric, [(k1, v1), (k2, v2)]);
    TwoSpacedPairs(k1, v1, k2, v2);
    assert |" " + k2| != |k2|;
  }

  lemma TwoSpacedPairs(k1: string, v1: string, k2: string, v2: string)
    ensures PairsMap(SpacedPairs([(k1, v1), (k2, v2)])) == map[k1 := v1, " " + k2 := v2]
  {
    var pairs := SpacedPairs([(k1, v1), (k2, v2)]);
    assert pairs[0] == ("" + k1, v1) && "" + k1 == k1;
    assert pairs[1] == (" " + k2, v2);
    assert pairs == [(k1, v1), (" " + k2, v2)];
    assert pairs[..1] == [(k1, v1)];
    assert pairs[..1][..0] == [];
    assert PairsMap(pairs[..1]) == PairsMap([])[k1 := v1];
    assert PairsMap(pairs) == PairsMap(pairs[..1])[" " + k2 := v2];
  }

  /** A series without tags is named `metric{}`, which does not parse back. */
  lemma ParseEmptyTags(metric: string)
    requires '{' !in metric
    ensures MetricTags(metric + FormatTags([])) == Err(MalformedName(metric + FormatTags([])))
  {
    var name := metric + FormatTags([]);
    assert DropLast(name) == metric + "{" + [];
    SplitAt(metric, [], '{');
    assert Split(DropLast(name), '{') == [metric, []];
    assert Split([], ',') == [[]];
    assert PairOf([]).None?;
  }

  /** A metric that itself holds `{` splits into too many pieces and does not parse back. */
  lemma ParseBraceInMetric(metric: string, tags: seq<(string, string)>)
    requires '{' in metric
    ensures MetricTags(metric + FormatTags(tags)).Err?
  {
    var name := metric + FormatTags(tags);
    var joined := Join(PairTexts(tags), ", ");
    assert DropLast(name) == metric + ("{" + joined);
    CountAppend(metric, "{" + joined, '{');
    CountAppend("{", joined, '{');
    CountPositive(metric, '{');
  }

  // ---------------------------------------------------------------------------
  // `_write_df`
  // ---------------------------------------------------------------------------

  const NanosPerSecond: int := 1_000_000_000

  /** `(label - pd.Timedelta('{} h'.format(hours))).value // 10**9`: whole seconds, rounded down. */
  function Seconds(stamp: int, hours: int): (sec: int)
    ensures sec * NanosPerSecond <= stamp - OffsetNanos(hours) < (sec + 1) * NanosPerSecond
  {
    (stamp - OffsetNanos(hours)) / NanosPerSecond
  }

  /** The entry at position `p` occurs at some other position too. */
  predicate Repeated<T(==)>(s: seq<T>, p: nat)
    requires p < |s|
  {
    exists q | 0 <= q < |s| :: q != p && s[q] == s[p]
  }

  function ColumnNames(columns: seq<Column>): (names: seq<string>)
    ensures |names| == |columns|
    ensures forall j | 0 <= j < |columns| :: names[j] == columns[j].name
  {
    if columns == [] then [] else [columns[0].name] + ColumnNames(columns[1..])
  }

  /** The outcome of parsing one column name. */
  type Parsed = Result<(string, map<string, string>), WriteError>

  /** `__metric_tags` of every column name, in column order. */
  function ParseNames(columns: seq<Column>): (parsed: seq<Parsed>)
    ensures |parsed| == |columns|
  {
    if columns == [] then [] else [MetricTags(columns[0].name)] + ParseNames(columns[1..])
  }

  /** Entry `j` of the parses is the parse of column `j`'s name. */
  lemma {:induction false} ParseNamesAt(columns: seq<Column>, j: nat)
    requires j < |columns|
    ensures ParseNames(columns)[j] == MetricTags(columns[j].name)
    decreases j
  {
    if j > 0 {
      ParseNamesAt(columns[1..], j - 1);
    }
  }

  /** A table, with the parse of each of its column names beside it. */
  predicate Fits(t: Table, parsed: seq<Parsed>)
  {
    t.Valid() && |parsed| == |t.columns|
  }

  /**
   * What one pass of the inner loop makes of the cell in row `i`, column `j`
   * (`parsed[j]` being the parse of its column name): the name must parse,
   * `df.loc[i, j]` must be a single cell, an absent cell is skipped and a
   * present one becomes a point.
   */
  function CellOut(t: Table, parsed: seq<Parsed>, hours: int, i: nat, j: nat): (out: Result<Option<Point>, WriteError>)
    requires Fits(t, parsed) && i < |t.index| && j < |t.columns|
    ensures out.Ok? <==> parsed[j].Ok? && !Repeated(t.index, i) && !Repeated(ColumnNames(t.columns), j)
    ensures out.Ok? ==> (out.value.Some? <==> t.columns[j].cells[i].Some?)
  {
    assert t.columns[j] in t.columns;
    match parsed[j]
    case Err(e) => Err(e)
    case Ok((metric, tags)) =>
      if Repeated(t.index, i) || Repeated(ColumnNames(t.columns), j) then Err(AmbiguousCell(t.index[i], t.columns[j].name))
      else
        match t.columns[j].cells[i]
        case None => Ok(None)
        case Some(v) => Ok(Some(Point(metric, Seconds(t.index[i], hours), v, tags)))
  }

  /** The list so far extended by the outcome of one cell; the first error stops the list. */
  function Then(acc: Result<seq<Point>, WriteError>, cell: Result<Option<Point>, WriteError>): (r: Result<seq<Point>, WriteError>)
  {
    match acc
    case Err(e) => Err(e)
    case Ok(ps) =>
      match cell
      case Err(e) => Err(e)
      case Ok(None) => Ok(ps)
      case Ok(Some(p)) => Ok(ps + [p])
  }

  /** Cell (r, c) is visited before the loops reach row `i`, column `j`. */
  predicate Before(t: Table, r: int, c: int, i: int, j: int)
  {
    0 <= r < |t.index| && 0 <= c < |t.columns| && (r < i || (r == i && c < j))
  }

  /** The outcome of the loops once every cell before row `i`, column `j` is visited, row by row. */
  function Upto(t: Table, parsed: seq<Parsed>, hours: int, i: nat, j: nat): (r: Result<seq<Point>, WriteError>)
    requires Fits(t, parsed) && i <= |t.index| && j <= |t.columns| && (i == |t.index| ==> j == 0)
    ensures r.Ok? ==> |r.value| <= i * |t.columns| + j
    ensures j == 0 && (i == 0 || |t.columns| == 0) ==> r == Ok([])
    decreases i, j
  {
    if j > 0 then Then(Upto(t, parsed, hours, i, j - 1), CellOut(t, parsed, hours, i, j - 1))
    else if i > 0 then
      MulSucc(|t.columns|, i - 1);
      Upto(t, parsed, hours, i - 1, |t.columns|)
    else Ok([])
  }

  /** The payload `_write_df` hands to `_write`, or the error that stops it. */
  function Flatten(t: Table, hours: int): (r: Result<seq<Point>, WriteError>)
    requires t.Valid()
    ensures r.Ok? ==> |r.value| <= |t.index| * |t.columns|
    ensures |t.index| == 0 || |t.columns| == 0 ==> r == Ok([])
  {
    Upto(t, ParseNames(t.columns), hours, |t.index|, 0)
  }

  /** Once a cell has failed, the loops end with that error. */
  lemma {:induction false} ErrorSticks(t: Table, parsed: seq<Parsed>, hours: int, i: nat, j: nat, e: WriteError)
    requires Fits(t, parsed) && i <= |t.index| && j <= |t.columns| && (i == |t.index| ==> j == 0)
    requires Upto(t, parsed, hours, i, j) == Err(e)
    ensures Upto(t, parsed, hours, |t.index|, 0) == Err(e)
    decreases |t.index| - i, |t.columns| - j
  {
    if i == |t.index| {
    } else if j < |t.columns| {
      ErrorSticks(t, parsed, hours, i, j + 1, e);
    } else {
      assert Upto(t, parsed, hours, i + 1, 0) == Upto(t, parsed, hours, i, j);
      ErrorSticks(t, parsed, hours, i + 1, 0, e);
    }
  }

  /** `self.__metric_tags(j)` for the name of column `j`. */
  method ParseColumn(columns: seq<Column>, j: nat) returns (r: Parsed)
    requires j < |columns|
    ensures r == ParseNames(columns)[j]
  {
    ParseNamesAt(columns, j);
    r := MetricTags(columns[j].name);
  }

  /** One pass of the inner loop, case by case. */
  lemma StepCell(t: Table, parsed: seq<Parsed>, hours: int, i: nat, j: nat, out: seq<Point>)
    requires Fits(t, parsed) && i < |t.index| && j < |t.columns|
    requires Upto(t, parsed, hours, i, j) == Ok(out)
    ensures |t.columns[j].cells| == |t.index|
    ensures parsed[j].Err? ==> Upto(t, parsed, hours, i, j + 1) == Err(parsed[j].error)
    ensures parsed[j].Ok? && (Repeated(t.index, i) || Repeated(ColumnNames(t.columns), j)) ==>
      Upto(t, parsed, hours, i, j + 1) == Err(AmbiguousCell(t.index[i], t.columns[j].name))
    ensures parsed[j].Ok? && !Repeated(t.index, i) && !Repeated(ColumnNames(t.columns), j) ==>
      Upto(t, parsed, hours, i, j + 1) ==
        if t.columns[j].cells[i].None? then Ok(out)
        else Ok(out + [Point(parsed[j].value.0, Seconds(t.index[i], hours), t.columns[j].cells[i].value, parsed[j].value.1)])
  {
    assert t.columns[j] in t.columns;
  }

  /** A failing cell ends its row, and the loops, with its error. */
  lemma CellFails(t: Table, parsed: seq<Parsed>, hours: int, i: nat, j: nat, e: WriteError)
    requires Fits(t, parsed) && i < |t.index| && j < |t.columns|
    requires Upto(t, parsed, hours, i, j + 1) == Err(e)
    ensures Upto(t, parsed, hours, i + 1, 0) == Err(e)
    ensures Upto(t, parsed, hours, |t.index|, 0) == Err(e)
  {
    RowErrorSticks(t, parsed, hours, i, j + 1, e);
    ErrorSticks(t, parsed, hours, i + 1, 0, e);
  }

  /** Once a cell of row `i` has failed, the row ends with that error. */
  lemma {:induction false} RowErrorSticks(t: Table, parsed: seq<Parsed>, hours: int, i: nat, j: nat, e: WriteError)
    requires Fits(t, parsed) && i < |t.index| && j <= |t.columns|
    requires Upto(t, parsed, hours, i, j) == Err(e)
    ensures Upto(t, parsed, hours, i + 1, 0) == Err(e)
    decreases |t.columns| - j
  {
    if j < |t.columns| {
      RowErrorSticks(t, parsed, hours, i, j + 1, e);
    }
  }

  /**
   * `_write_df(df)` as the nested loops run it: for every row label, for
   * every column, parse the name, read the cell, skip it if absent, append a
   * point otherwise.
   */
  method WriteDf(t: Table, hours: int) returns (r: Result<seq<Point>, WriteError>)
    requires t.Valid()
    ensures r == Flatten(t, hours)
  {
    ghost var parsed := ParseNames(t.columns);
    var names := ColumnNames(t.columns);
    var points: seq<Point> := [];
    var i := 0;
    while i < |t.index|
      invariant 0 <= i <= |t.index|
      invariant Upto(t, parsed, hours, i, 0) == Ok(points)
    {
      var row := WriteRow(t, parsed, hours, names, i, points);
      if row.Err? {
        return row;
      }
      points := row.value;
      i := i + 1;
    }
    return Ok(points);
  }

  /** The inner loop of `_write_df`: the cells of row `i`, column by column, appended to `points`. */
  method WriteRow(t: Table, ghost parsed: seq<Parsed>, hours: int, names: seq<string>, i: nat, points: seq<Point>)
    returns (r: Result<seq<Point>, WriteError>)
    requires t.Valid() && parsed == ParseNames(t.columns) && i < |t.index| && names == ColumnNames(t.columns)
    requires Upto(t, parsed, hours, i, 0) == Ok(points)
    ensures r == Upto(t, parsed, hours, i + 1, 0)
    ensures r.Err? ==> r == Upto(t, parsed, hours, |t.index|, 0)
  {
    var out := points;
    var j := 0;
    while j < |t.columns|
      invariant 0 <= j <= |t.columns|
      invariant Upto(t, parsed, hours, i, j) == Ok(out)
    {
      var column := t.columns[j];
      StepCell(t, parsed, hours, i, j, out);
      var nameParse := ParseColumn(t.columns, j);
      if nameParse.Err? {
        CellFails(t, parsed, hours, i, j, nameParse.error);
        return Err(nameParse.error);
      }
      var (metric, tags) := nameParse.value;
      if Repeated(t.index, i) || Repeated(names, j) {
        CellFails(t, parsed, hours, i, j, AmbiguousCell(t.index[i], column.name));
        return Err(AmbiguousCell(t.index[i], column.name));
      }
      var cell := column.cells[i];
      if cell.Some? {
        var stamp := Seconds(t.index[i], hours);
        out := out + [Point(metric, stamp, cell.value, tags)];
      }
      j := j + 1;
    }
    return Ok(out);
  }

  // ---------------------------------------------------------------------------
  // What the flattening promises
  // ---------------------------------------------------------------------------

  /** Whether the loops run through: every name parses and no label or name repeats. */
  predicate Writable(t: Table)
  {
    && (forall j | 0 <= j < |t.columns| :: ParseNames(t.columns)[j].Ok?)
    && Distinct(t.index)
    && (forall j, k | 0 <= j < k < |t.columns| :: t.columns[j].name != t.columns[k].name)
  }

  /** A sequence repeats no entry exactly when no position is repeated elsewhere. */
  lemma NoRepeats<T>(s: seq<T>)
    ensures (forall p, q | 0 <= p < q < |s| :: s[p] != s[q]) <==> forall p | 0 <= p < |s| :: !Repeated(s, p)
  {
    if forall p | 0 <= p < |s| :: !Repeated(s, p) {
      forall p, q | 0 <= p < q < |s| ensures s[p] != s[q] {
        assert !Repeated(s, p);
      }
    }
  }

  /** The loops run through the cells before row `i`, column `j` exactly when each of them succeeds. */
  lemma {:induction false} UptoOk(t: Table, parsed: seq<Parsed>, hours: int, i: nat, j: nat)
    requires Fits(t, parsed) && i <= |t.index| && j <= |t.columns| && (i == |t.index| ==> j == 0)
    ensures Upto(t, parsed, hours, i, j).Ok? <==> forall r, c | Before(t, r, c, i, j) :: CellOut(t, parsed, hours, r, c).Ok?
    decreases i, j
  {
    if j > 0 {
      UptoOk(t, parsed, hours, i, j - 1);
      assert forall r, c :: Before(t, r, c, i, j) <==> Before(t, r, c, i, j - 1) || (r == i && c == j - 1);
    } else if i > 0 {
      UptoOk(t, parsed, hours, i - 1, |t.columns|);
      assert forall r, c :: Before(t, r, c, i, j) <==> Before(t, r, c, i - 1, |t.columns|);
    }
  }

  /**
   * Flattening succeeds exactly when the table is empty or has no columns, or
   * every column name parses and no row label and no column name repeats; a
   * malformed name fails even when all its cells are absent.
   */
  lemma FlattenSucceeds(t: Table, hours: int)
    requires t.Valid()
    ensures Flatten(t, hours).Ok? <==> |t.index| == 0 || |t.columns| == 0 || Writable(t)
  {
    if |t.index| > 0 && |t.columns| > 0 {
      if Flatten(t, hours).Ok? {
        FlattenedIsWritable(t, hours);
      } else if Writable(t) {
        WritableFlattens(t, hours);
      }
    } else {
      UptoOk(t, ParseNames(t.columns), hours, |t.index|, 0);
    }
  }

  lemma FlattenedIsWritable(t: Table, hours: int)
    requires t.Valid() && |t.index| > 0 && |t.columns| > 0 && Flatten(t, hours).Ok?
    ensures Writable(t)
  {
    var parsed := ParseNames(t.columns);
    UptoOk(t, parsed, hours, |t.index|, 0);
    var names := ColumnNames(t.columns);
    forall j | 0 <= j < |t.columns| ensures parsed[j].Ok? && !Repeated(names, j) {
      assert Before(t, 0, j, |t.index|, 0);
      assert CellOut(t, parsed, hours, 0, j).Ok?;
    }
    forall i | 0 <= i < |t.index| ensures !Repeated(t.index, i) {
      assert Before(t, i, 0, |t.index|, 0);
      assert CellOut(t, parsed, hours, i, 0).Ok?;
    }
    NoRepeats(t.index);
    NoRepeats(names);
  }

  lemma WritableFlattens(t: Table, hours: int)
    requires t.Valid() && Writable(t)
    ensures Flatten(t, hours).Ok?
  {
    var parsed := ParseNames(t.columns);
    var names := ColumnNames(t.columns);
    NoRepeats(t.index);
    NoRepeats(names);
    forall r, c | Before(t, r, c, |t.index|, 0) ensures CellOut(t, parsed, hours, r, c).Ok? {
      CellOk(t, parsed, hours, r, c);
    }
    UptoOk(t, parsed, hours, |t.index|, 0);
  }

  /** A cell whose name parses and whose label and name are unique never fails. */
  lemma CellOk(t: Table, parsed: seq<Parsed>, hours: int, r: nat, c: nat)
    requires Fits(t, parsed) && r < |t.index| && c < |t.columns|
    requires parsed[c].Ok? && !Repeated(t.index, r) && !Repeated(ColumnNames(t.columns), c)
    ensures CellOut(t, parsed, hours, r, c).Ok?
  {
  }

  /** The present cells before row `i`, column `j`, in the order the loops visit them. */
  function Present(t: Table, i: nat, j: nat): (cells: seq<(int, int)>)
    requires t.Valid() && i <= |t.index| && j <= |t.columns| && (i == |t.index| ==> j == 0)
    decreases i, j
  {
    if j > 0 then
      assert t.columns[j - 1] in t.columns;
      Present(t, i, j - 1) + (if t.columns[j - 1].cells[i].Some? then [(i as int, j - 1)] else [])
    else if i > 0 then Present(t, i - 1, |t.columns|)
    else []
  }

  /** Cell `a` comes before cell `b` in row-major order. */
  predicate RowMajorBefore(a: (int, int), b: (int, int))
  {
    a.0 < b.0 || (a.0 == b.0 && a.1 < b.1)
  }

  /** The listed cells are exactly the present cells visited so far, each once, in row-major order. */
  lemma PresentCells(t: Table, i: nat, j: nat)
    requires t.Valid() && i <= |t.index| && j <= |t.columns| && (i == |t.index| ==> j == 0)
    ensures forall r, c :: (r, c) in Present(t, i, j) <==> Before(t, r, c, i, j) && t.columns[c].cells[r].Some?
    ensures forall k, l | 0 <= k < l < |Present(t, i, j)| :: RowMajorBefore(Present(t, i, j)[k], Present(t, i, j)[l])
  {
    PresentMembers(t, i, j);
    PresentOrder(t, i, j);
  }

  lemma {:induction false} PresentMembers(t: Table, i: nat, j: nat)
    requires t.Valid() && i <= |t.index| && j <= |t.columns| && (i == |t.index| ==> j == 0)
    ensures forall r, c :: (r, c) in Present(t, i, j) <==> Before(t, r, c, i, j) && t.columns[c].cells[r].Some?
    decreases i, j
  {
    if j > 0 {
      PresentMembers(t, i, j - 1);
      assert t.columns[j - 1] in t.columns;
    } else if i > 0 {
      PresentMembers(t, i - 1, |t.columns|);
    }
  }

  lemma {:induction false} PresentOrder(t: Table, i: nat, j: nat)
    requires t.Valid() && i <= |t.index| && j <= |t.columns| && (i == |t.index| ==> j == 0)
    ensures forall k, l | 0 <= k < l < |Present(t, i, j)| :: RowMajorBefore(Present(t, i, j)[k], Present(t, i, j)[l])
    decreases i, j
  {
    if j > 0 {
      PresentOrder(t, i, j - 1);
      PresentMembers(t, i, j - 1);
      var prev := Present(t, i, j - 1);
      forall k | 0 <= k < |prev| ensures RowMajorBefore(prev[k], (i, j - 1)) {
        var (r, c) := prev[k];
        assert (r, c) in prev;
      }
      assert t.columns[j - 1] in t.columns;
    } else if i > 0 {
      PresentOrder(t, i - 1, |t.columns|);
    }
  }

  /** Point `p` is what the loops emit for the present cell `cell`, given the parses of the names. */
  predicate Emits(t: Table, parsed: seq<Parsed>, hours: int, cell: (int, int), p: Point)
  {
    var (r, c) := cell;
    && 0 <= r < |t.index| && 0 <= c < |t.columns| && c < |parsed| && |t.columns[c].cells| == |t.index|
    && t.columns[c].cells[r] == Some(p.value)
    && p.timestamp == Seconds(t.index[r], hours)
    && parsed[c] == Ok((p.metric, p.tags))
  }

  /** The point a present cell with a parsable column name becomes. */
  function PointOf(t: Table, parsed: seq<Parsed>, hours: int, i: nat, j: nat): (p: Option<Point>)
    requires Fits(t, parsed) && i < |t.index| && j < |t.columns|
  {
    assert t.columns[j] in t.columns;
    match (parsed[j], t.columns[j].cells[i])
    case (Ok((metric, tags)), Some(v)) => Some(Point(metric, Seconds(t.index[i], hours), v, tags))
    case _ => None
  }

  /** The points of the present cells before row `i`, column `j`, in visiting order. */
  function Emitted(t: Table, parsed: seq<Parsed>, hours: int, i: nat, j: nat): (ps: seq<Point>)
    requires Fits(t, parsed) && i <= |t.index| && j <= |t.columns| && (i == |t.index| ==> j == 0)
    decreases i, j
  {
    if j > 0 then
      Emitted(t, parsed, hours, i, j - 1) + (match PointOf(t, parsed, hours, i, j - 1) case Some(p) => [p] case None => [])
    else if i > 0 then Emitted(t, parsed, hours, i - 1, |t.columns|)
    else []
  }

  /** A successful run has emitted exactly the points of the present cells visited. */
  lemma {:induction false} UptoPoints(t: Table, parsed: seq<Parsed>, hours: int, i: nat, j: nat, ps: seq<Point>)
    requires Fits(t, parsed) && i <= |t.index| && j <= |t.columns| && (i == |t.index| ==> j == 0)
    requires Upto(t, parsed, hours, i, j) == Ok(ps)
    ensures ps == Emitted(t, parsed, hours, i, j)
    decreases i, j
  {
    if j > 0 {
      var before := Upto(t, parsed, hours, i, j - 1);
      assert before.Ok?;
      UptoPoints(t, parsed, hours, i, j - 1, before.value);
      assert t.columns[j - 1] in t.columns;
    } else if i > 0 {
      UptoPoints(t, parsed, hours, i - 1, |t.columns|, ps);
    }
  }

  /** With parsable names, the emitted points are one per listed present cell, in the same order. */
  lemma {:induction false} EmittedCells(t: Table, parsed: seq<Parsed>, hours: int, i: nat, j: nat)
    requires Fits(t, parsed) && i <= |t.index| && j <= |t.columns| && (i == |t.index| ==> j == 0)
    requires forall c | 0 <= c < |t.columns| :: parsed[c].Ok?
    ensures |Emitted(t, parsed, hours, i, j)| == |Present(t, i, j)|
    ensures forall k | 0 <= k < |Present(t, i, j)| ::
      Emits(t, parsed, hours, Present(t, i, j)[k], Emitted(t, parsed, hours, i, j)[k])
    decreases i, j
  {
    if j > 0 {
      EmittedCells(t, parsed, hours, i, j - 1);
      assert t.columns[j - 1] in t.columns;
      var ps, cells := Emitted(t, parsed, hours, i, j), Present(t, i, j);
      var ps', cells' := Emitted(t, parsed, hours, i, j - 1), Present(t, i, j - 1);
      if t.columns[j - 1].cells[i].Some? {
        var p := PointOf(t, parsed, hours, i, j - 1).value;
        assert ps == ps' + [p] && cells == cells' + [(i as int, j - 1)];
        assert Emits(t, parsed, hours, (i, j - 1), p);
        forall k | 0 <= k < |cells| ensures Emits(t, parsed, hours, cells[k], ps[k]) {
          if k < |cells'| {
            assert cells[k] == cells'[k] && ps[k] == ps'[k];
          }
        }
      } else {
        assert ps == ps' && cells == cells';
      }
    } else if i > 0 {
      EmittedCells(t, parsed, hours, i - 1, |t.columns|);
    }
  }

  lemma {:induction false} NothingEmitted(t: Table, parsed: seq<Parsed>, hours: int, i: nat, j: nat)
    requires Fits(t, parsed) && i <= |t.index| && j <= |t.columns| && (i == |t.index| ==> j == 0)
    requires |t.index| == 0 || |t.columns| == 0
    ensures Emitted(t, parsed, hours, i, j) == [] && Present(t, i, j) == []
    decreases i, j
  {
    if i > 0 {
      NothingEmitted(t, parsed, hours, i - 1, |t.columns|);
    }
  }

  /**
   * A successful flattening emits exactly one point per present cell, and
   * none for an absent one, row by row and within a row column by column;
   * each point carries the parsed name of its column, the cell's value and
   * its label in whole seconds.
   */
  lemma FlattenCells(t: Table, hours: int, ps: seq<Point>)
    requires t.Valid() && Flatten(t, hours) == Ok(ps)
    ensures var cells := Present(t, |t.index|, 0);
      && |ps| == |cells|
      && (forall k | 0 <= k < |ps| :: Emits(t, ParseNames(t.columns), hours, cells[k], ps[k]))
      && (forall r, c | 0 <= r < |t.index| && 0 <= c < |t.columns| :: (r, c) in cells <==> t.columns[c].cells[r].Some?)
      && (forall k, l | 0 <= k < l < |cells| :: RowMajorBefore(cells[k], cells[l]))
  {
    FlattenPoints(t, hours, ps);
    PresentCells(t, |t.index|, 0);
  }

  lemma FlattenPoints(t: Table, hours: int, ps: seq<Point>)
    requires t.Valid() && Flatten(t, hours) == Ok(ps)
    ensures |ps| == |Present(t, |t.index|, 0)|
    ensures forall k | 0 <= k < |ps| :: Emits(t, ParseNames(t.columns), hours, Present(t, |t.index|, 0)[k], ps[k])
  {
    var parsed := ParseNames(t.columns);
    UptoPoints(t, parsed, hours, |t.index|, 0, ps);
    if |t.index| > 0 && |t.columns| > 0 {
      FlattenSucceeds(t, hours);
      EmittedCells(t, parsed, hours, |t.index|, 0);
    } else {
      NothingEmitted(t, parsed, hours, |t.index|, 0);
    }
  }

  lemma FloorUnique(x: int, a: int, b: int)
    requires a * NanosPerSecond <= x < (a + 1) * NanosPerSecond
    requires b * NanosPerSecond <= x < (b + 1) * NanosPerSecond
    ensures a == b
  {
  }

  lemma SecondsMonotone(x: int, y: int, hours: int)
    requires x <= y
    ensures Seconds(x, hours) <= Seconds(y, hours)
  {
  }

  /** Over an ascending index the emitted timestamps never decrease. */
  lemma FlattenOrder(t: Table, hours: int, ps: seq<Point>)
    requires t.Valid() && Increasing(t.index) && Flatten(t, hours) == Ok(ps)
    ensures forall k, l | 0 <= k < l < |ps| :: ps[k].timestamp <= ps[l].timestamp
  {
    FlattenCells(t, hours, ps);
    var cells := Present(t, |t.index|, 0);
    forall k, l | 0 <= k < l < |ps| ensures ps[k].timestamp <= ps[l].timestamp {
      assert Emits(t, ParseNames(t.columns), hours, cells[k], ps[k]) && Emits(t, ParseNames(t.columns), hours, cells[l], ps[l]);
      assert RowMajorBefore(cells[k], cells[l]);
      SecondsMonotone(t.index[cells[k].0], t.index[cells[l].0], hours);
    }
  }

  /**
   * A label decoded from key `n` with offset `hd` and written with offset
   * `he` becomes `n` seconds for a 10-digit key, `n // 1000` for a 13-digit
   * key and `n // 10**9` for a 16-digit key, plus the difference of the offsets.
   */
  lemma SecondsOfLabel(key: string, u: Unit, hd: int, he: int)
    requires IsDigits(key)
    ensures var shift := (hd - he) * 3600;
      && (u == Second ==> Seconds(Label(key, u, hd), he) == DigitsValue(key) + shift)
      && (u == Milli ==> Seconds(Label(key, u, hd), he) == DigitsValue(key) / 1000 + shift)
      && (u == Nano ==> Seconds(Label(key, u, hd), he) == DigitsValue(key) / NanosPerSecond + shift)
  {
    var n := DigitsValue(key);
    var shift := (hd - he) * 3600;
    var x := Label(key, u, hd) - OffsetNanos(he);
    assert x == n * NanosPer(u) + shift * NanosPerSecond;
    var q := match u case Second => n case Milli => n / 1000 case Nano => n / NanosPerSecond;
    var rest := match u case Second => 0 case Milli => (n % 1000) * 1_000_000 case Nano => n % NanosPerSecond;
    assert n * NanosPer(u) == q * NanosPerSecond + rest;
    assert 0 <= rest < NanosPerSecond;
    assert x == (q + shift) * NanosPerSecond + rest;
    FloorUnique(x, Seconds(Label(key, u, hd), he), q + shift);
  }

  // ---------------------------------------------------------------------------
  // `write_ts`
  // ---------------------------------------------------------------------------

  /** What `write_ts` may be handed. */
  datatype WriteInput =
    | PointList(points: seq<Point>) // a list of point records
    | FrameData(table: Table)       // a `pd.DataFrame`
    | SetData(data: DataSet)        // a `TsDataSet`
    | OtherData                     // anything else

  /**
   * `write_ts(data)`: the payload sent for writing. A list goes as it is, a
   * table is flattened, a `TsDataSet` is flattened through its aligned table,
   * and anything else is refused.
   */
  method WriteTs(input: WriteInput, hours: int) returns (r: Result<seq<Point>, WriteError>)
    requires input.FrameData? ==> input.table.Valid()
    requires input.SetData? ==> input.data.table.Valid()
    ensures input.PointList? ==> r == Ok(input.points)
    ensures input.FrameData? ==> r == Flatten(input.table, hours)
    ensures input.SetData? ==> r == Flatten(input.data.table, hours)
    ensures input.OtherData? ==> r == Err(UnsupportedInput)
  {
    match input
    case PointList(points) =>
      r := Ok(points);
    case FrameData(table) =>
      r := WriteDf(table, hours);
    case SetData(data) =>
      r := WriteDf(data.table, hours);
    case OtherData =>
      r := Err(UnsupportedInput);
  }
}
