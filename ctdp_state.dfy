/**
 * The session state of the conditional-tail dependence plots: the filter
 * table, a data frame with one two-row column per filtered feature (the
 * lower bound in row 0, the upper bound in row 1), and the metadata
 * record with its dictionary form. The table operations return new
 * tables and never change their argument, so they are functions here; a
 * bound is any value, the type parameter `V`.
 */
module CtdpState {
  import opened Wrappers

  // ---------------------------------------------------------------------
  // The filter table
  // ---------------------------------------------------------------------

  /** One filter column: its name and its two rows. */
  datatype Column<V> = Column(name: string, min: V, max: V)

  type Filters<V> = seq<Column<V>>

  function Names<V>(f: Filters<V>): (r: seq<string>)
    ensures |r| == |f| && forall i :: 0 <= i < |f| ==> r[i] == f[i].name
  {
    if f == [] then [] else [f[0].name] + Names(f[1..])
  }

  /** A data frame never holds two columns of the same name. */
  predicate DistinctNames<V>(f: Filters<V>)
  {
    forall i, j :: 0 <= i < j < |f| ==> f[i].name != f[j].name
  }

  /** `DataFrame.drop` of a column that is present: the others, in their order. */
  function Drop<V>(f: Filters<V>, c: string): (r: Filters<V>)
    ensures |r| <= |f|
    ensures forall i :: 0 <= i < |r| ==> r[i] in f && r[i].name != c
    ensures forall i :: 0 <= i < |f| && f[i].name != c ==> f[i] in r
  {
    if f == [] then []
    else if f[0].name == c then Drop(f[1..], c)
    else [f[0]] + Drop(f[1..], c)
  }

  /** `update_filter`: the table with column `c` set to `(lo, hi)`, placed last. */
  function UpdateFilter<V>(f: Filters<V>, c: string, lo: V, hi: V): Filters<V>
  {
    var newFilter := [Column(c, lo, hi)];
    if |f| == 0 then newFilter
    else
      var kept := if c in Names(f) then Drop(f, c) else f;
      kept + newFilter
  }

  /** `remove_filter`: the table without column `c`, or the same table when there is none. */
  function RemoveFilter<V>(f: Filters<V>, c: string): Filters<V>
  {
    if c in Names(f) then Drop(f, c) else f
  }

  /** `get_filter_range`: the two rows of column `c`, if the table has it. */
  function GetFilterRange<V>(f: Filters<V>, c: string): (r: Option<(V, V)>)
  {
    if f == [] then None
    else if f[0].name == c then Some((f[0].min, f[0].max))
    else GetFilterRange(f[1..], c)
  }

  /** Dropping a column from a concatenation drops it from both parts; a lone column goes or stays whole. */
  lemma {:induction false} DropConcat<V>(f: Filters<V>, g: Filters<V>, c: string)
    ensures Drop(f + g, c) == Drop(f, c) + Drop(g, c)
    ensures forall x: Column<V> :: Drop([x], c) == if x.name == c then [] else [x]
    decreases |f|
  {
    if f != [] {
      assert (f + g)[1..] == f[1..] + g;
      DropConcat(f[1..], g, c);
    } else {
      assert f + g == g;
    }
    forall x: Column<V>
      ensures Drop([x], c) == if x.name == c then [] else [x]
    {
      assert [x][1..] == [];
    }
  }

  /** A column the table does not have: dropping it changes nothing. */
  lemma {:induction false} DropAbsent<V>(f: Filters<V>, c: string)
    requires c !in Names(f)
    ensures Drop(f, c) == f
  {
    if f != [] {
      assert Names(f) == [f[0].name] + Names(f[1..]);
      DropAbsent(f[1..], c);
    }
  }

  /** The range of a column is its rows exactly when the table has it. */
  lemma {:induction false} RangeFound<V>(f: Filters<V>, c: string)
    ensures GetFilterRange(f, c).None? <==> c !in Names(f)
    ensures DistinctNames(f) ==> forall i :: 0 <= i < |f| && f[i].name == c ==>
      GetFilterRange(f, c) == Some((f[i].min, f[i].max))
  {
    if f != [] {
      assert Names(f) == [f[0].name] + Names(f[1..]);
      RangeFound(f[1..], c);
      if DistinctNames(f) {
        assert DistinctNames(f[1..]) by {
          forall i, j | 0 <= i < j < |f| - 1
            ensures f[1..][i].name != f[1..][j].name
          {
            assert f[1..][i] == f[i + 1] && f[1..][j] == f[j + 1];
          }
        }
        forall i | 0 <= i < |f| && f[i].name == c
          ensures GetFilterRange(f, c) == Some((f[i].min, f[i].max))
        {
          if i > 0 {
            assert f[1..][i - 1] == f[i];
          }
        }
      }
    }
  }

  /** The range of a column is that of its first entry, and the rows after it do not matter. */
  lemma {:induction false} RangeConcat<V>(f: Filters<V>, g: Filters<V>, c: string)
    ensures GetFilterRange(f + g, c) == if c in Names(f) then GetFilterRange(f, c) else GetFilterRange(g, c)
    decreases |f|
  {
    if f != [] {
      assert (f + g)[1..] == f[1..] + g;
      assert Names(f) == [f[0].name] + Names(f[1..]);
      RangeConcat(f[1..], g, c);
    } else {
      assert f + g == g;
    }
  }

  /** After dropping `c`, the table has no column `c` and every other column keeps its range. */
  lemma {:induction false} RangeAfterDrop<V>(f: Filters<V>, c: string, other: string)
    ensures GetFilterRange(Drop(f, c), c).None?
    ensures other != c ==> GetFilterRange(Drop(f, c), other) == GetFilterRange(f, other)
  {
    if f != [] {
      RangeAfterDrop(f[1..], c, other);
      if f[0].name != c {
        assert ([f[0]] + Drop(f[1..], c))[1..] == Drop(f[1..], c);
      }
    }
    RangeFound(Drop(f, c), c);
  }

  /**
   * On an empty table `update_filter` gives the single new column; on any
   * other it drops the old column `c`, keeps the rest in order, and appends
   * the new one at the end.
   */
  lemma UpdateShape<V>(f: Filters<V>, c: string, lo: V, hi: V)
    ensures |f| == 0 ==> UpdateFilter(f, c, lo, hi) == [Column(c, lo, hi)]
    ensures UpdateFilter(f, c, lo, hi) == Drop(f, c) + [Column(c, lo, hi)]
    ensures Names(UpdateFilter(f, c, lo, hi)) == Names(Drop(f, c)) + [c]
    ensures DistinctNames(f) ==> DistinctNames(UpdateFilter(f, c, lo, hi))
  {
    var col := [Column(c, lo, hi)];
    if |f| == 0 {
      assert Drop(f, c) == [];
      assert UpdateFilter(f, c, lo, hi) == col;
    } else if c !in Names(f) {
      DropAbsent(f, c);
      assert UpdateFilter(f, c, lo, hi) == f + col;
    } else {
      assert UpdateFilter(f, c, lo, hi) == Drop(f, c) + col;
    }
    NamesConcat(Drop(f, c), col);
    assert Names(col) == [c];
    assert Names(UpdateFilter(f, c, lo, hi)) == Names(Drop(f, c) + col);
    if DistinctNames(f) {
      UpdateDistinct(f, c, lo, hi);
    }
  }

  /** The new column's name is not among the kept ones, so the names stay distinct. */
  lemma UpdateDistinct<V>(f: Filters<V>, c: string, lo: V, hi: V)
    requires DistinctNames(f)
    ensures DistinctNames(Drop(f, c) + [Column(c, lo, hi)])
  {
    var r := Drop(f, c) + [Column(c, lo, hi)];
    DropDistinct(f, c);
    forall i, j | 0 <= i < j < |r|
      ensures r[i].name != r[j].name
    {
      if j == |r| - 1 {
        assert r[i] in Drop(f, c);
      } else {
        assert r[i] == Drop(f, c)[i] && r[j] == Drop(f, c)[j];
      }
    }
  }

  lemma NamesConcat<V>(f: Filters<V>, g: Filters<V>)
    ensures Names(f + g) == Names(f) + Names(g)
  {
  }

  /** Dropping keeps the names distinct. */
  lemma {:induction false} DropDistinct<V>(f: Filters<V>, c: string)
    requires DistinctNames(f)
    ensures DistinctNames(Drop(f, c))
  {
    if f != [] {
      assert DistinctNames(f[1..]) by {
        forall i, j | 0 <= i < j < |f| - 1
          ensures f[1..][i].name != f[1..][j].name
        {
          assert f[1..][i] == f[i + 1] && f[1..][j] == f[j + 1];
        }
      }
      DropDistinct(f[1..], c);
      if f[0].name != c {
        var r := [f[0]] + Drop(f[1..], c);
        forall i, j | 0 <= i < j < |r|
          ensures r[i].name != r[j].name
        {
          if i == 0 {
            assert r[j] in Drop(f[1..], c);
            var k :| 0 <= k < |f[1..]| && f[1..][k] == r[j];
            assert f[k + 1] == r[j];
          }
        }
      }
    }
  }

  /**
   * After `update_filter(c, lo, hi)` the range of `c` is `(lo, hi)` and
   * every other column keeps its range.
   */
  lemma RangeAfterUpdate<V>(f: Filters<V>, c: string, lo: V, hi: V, other: string)
    ensures GetFilterRange(UpdateFilter(f, c, lo, hi), c) == Some((lo, hi))
    ensures other != c ==> GetFilterRange(UpdateFilter(f, c, lo, hi), other) == GetFilterRange(f, other)
  {
    UpdateShape(f, c, lo, hi);
    var rest := Drop(f, c);
    RangeConcat(rest, [Column(c, lo, hi)], c);
    RangeConcat(rest, [Column(c, lo, hi)], other);
    RangeAfterDrop(f, c, other);
    RangeFound(rest, c);
    RangeFound(rest, other);
    RangeFound(f, other);
  }

  /**
   * `remove_filter` returns the same table when the column is absent;
   * otherwise the column is gone and every other column keeps its range.
   * Removing twice is removing once.
   */
  lemma RemoveShape<V>(f: Filters<V>, c: string, other: string)
    ensures c !in Names(f) ==> RemoveFilter(f, c) == f
    ensures RemoveFilter(f, c) == Drop(f, c)
    ensures GetFilterRange(RemoveFilter(f, c), c).None?
    ensures other != c ==> GetFilterRange(RemoveFilter(f, c), other) == GetFilterRange(f, other)
    ensures RemoveFilter(RemoveFilter(f, c), c) == RemoveFilter(f, c)
  {
    if c !in Names(f) {
      DropAbsent(f, c);
    }
    RangeAfterDrop(f, c, other);
    RangeFound(Drop(f, c), c);
  }

  /** Updating then removing a column leaves the table as dropping it would. */
  lemma UpdateThenRemove<V>(f: Filters<V>, c: string, lo: V, hi: V)
    ensures RemoveFilter(UpdateFilter(f, c, lo, hi), c) == RemoveFilter(f, c)
  {
    UpdateShape(f, c, lo, hi);
    DropConcat(Drop(f, c), [Column(c, lo, hi)], c);
    RangeAfterDrop(f, c, c);
    RangeFound(Drop(f, c), c);
    DropAbsent(Drop(f, c), c);
    RemoveShape(f, c, c);
    NamesConcat(Drop(f, c), [Column(c, lo, hi)]);
  }

  // ---------------------------------------------------------------------
  // The metadata record
  // ---------------------------------------------------------------------

  const DEFAULT_N_TICKS := 5
  const DEFAULT_NUM_COLS := 2
  const VERSION := "0.1.0"

  datatype Metadata = Metadata(accumCols: seq<string>, featureCols: seq<string>, weightCol: string,
                               nTicks: int, numCols: int, createdAt: string, version: string)

  /** A value of the JSON-compatible dictionary. */
  datatype Field = Texts(texts: seq<string>) | Text(text: string) | Number(number: int)

  const FIELDS: set<string> := {"accum_cols", "feature_cols", "weight_col", "n_ticks", "num_cols", "created_at", "version"}
  const REQUIRED: set<string> := {"accum_cols", "feature_cols", "weight_col"}

  const UNEXPECTED_ARGUMENT := "CTDPMetadata.__init__() got an unexpected keyword argument"
  const MISSING_ARGUMENT := "CTDPMetadata.__init__() missing a required argument"
  const WRONG_KIND := "CTDPMetadata field of an unexpected kind"

  /** The constructor with its defaults; `now` is the ISO time the default factory would read. */
  function NewMetadata(accumCols: seq<string>, featureCols: seq<string>, weightCol: string, now: string): (m: Metadata)
    ensures m.nTicks == DEFAULT_N_TICKS && m.numCols == DEFAULT_NUM_COLS && m.version == VERSION && m.createdAt == now
  {
    Metadata(accumCols, featureCols, weightCol, DEFAULT_N_TICKS, DEFAULT_NUM_COLS, now, VERSION)
  }

  /** `to_dict` (`asdict`): one entry per field, under the field's own name. */
  function ToDict(m: Metadata): (d: map<string, Field>)
    ensures d.Keys == FIELDS
  {
    map["accum_cols" := Texts(m.accumCols), "feature_cols" := Texts(m.featureCols),
        "weight_col" := Text(m.weightCol), "n_ticks" := Number(m.nTicks), "num_cols" := Number(m.numCols),
        "created_at" := Text(m.createdAt), "version" := Text(m.version)]
  }

  predicate TextsAt(d: map<string, Field>, k: string)
  {
    k !in d || d[k].Texts?
  }

  predicate TextAt(d: map<string, Field>, k: string)
  {
    k !in d || d[k].Text?
  }

  predicate NumberAt(d: map<string, Field>, k: string)
  {
    k !in d || d[k].Number?
  }

  /** Every entry present holds the kind of value its field has. */
  predicate WellKinded(d: map<string, Field>)
  {
    && TextsAt(d, "accum_cols") && TextsAt(d, "feature_cols") && TextAt(d, "weight_col")
    && NumberAt(d, "n_ticks") && NumberAt(d, "num_cols") && TextAt(d, "created_at") && TextAt(d, "version")
  }

  /**
   * `from_dict` (`cls(**data)`): a key that is no field and a missing
   * required field are `TypeError`s; absent optional fields take their
   * defaults.
   */
  function FromDict(d: map<string, Field>, now: string): Result<Metadata>
  {
    if !(d.Keys <= FIELDS) then Failure(UNEXPECTED_ARGUMENT)
    else if !(REQUIRED <= d.Keys) then Failure(MISSING_ARGUMENT)
    else if !WellKinded(d) then Failure(WRONG_KIND)
    else
      Success(Metadata(
        d["accum_cols"].texts, d["feature_cols"].texts, d["weight_col"].text,
        if "n_ticks" in d then d["n_ticks"].number else DEFAULT_N_TICKS,
        if "num_cols" in d then d["num_cols"].number else DEFAULT_NUM_COLS,
        if "created_at" in d then d["created_at"].text else now,
        if "version" in d then d["version"].text else VERSION))
  }

  /** `from_dict(m.to_dict()) == m`, whatever the clock says. */
  lemma MetadataRoundTrip(m: Metadata, now: string)
    ensures FromDict(ToDict(m), now) == Success(m)
  {
  }

  /**
   * `from_dict` accepts exactly the dictionaries whose keys are fields,
   * include the three required ones, and hold the right kinds; what it
   * returns serialises back to the same entries, plus the defaults.
   */
  lemma FromDictAccepts(d: map<string, Field>, now: string)
    ensures FromDict(d, now).Success? <==> d.Keys <= FIELDS && REQUIRED <= d.Keys && WellKinded(d)
    ensures FromDict(d, now).Success? ==> forall k :: k in d ==> ToDict(FromDict(d, now).value)[k] == d[k]
    ensures FromDict(d, now).Success? ==> (
      && ("n_ticks" !in d ==> FromDict(d, now).value.nTicks == DEFAULT_N_TICKS)
      && ("num_cols" !in d ==> FromDict(d, now).value.numCols == DEFAULT_NUM_COLS)
      && ("created_at" !in d ==> FromDict(d, now).value.createdAt == now)
      && ("version" !in d ==> FromDict(d, now).value.version == VERSION))
  {
    if FromDict(d, now).Success? {
      var m := FromDict(d, now).value;
      forall k | k in d
        ensures ToDict(m)[k] == d[k]
      {
        assert k in FIELDS;
      }
    }
  }

  /** Filling in the defaults by hand and going through the dictionary agree. */
  lemma DefaultsAgree(accumCols: seq<string>, featureCols: seq<string>, weightCol: string, now: string)
    ensures FromDict(map["accum_cols" := Texts(accumCols), "feature_cols" := Texts(featureCols),
                         "weight_col" := Text(weightCol)], now)
      == Success(NewMetadata(accumCols, featureCols, weightCol, now))
  {
  }
}
