/**
 * The feature pipeline's bookkeeping: which regex pattern each feature
 * belongs to, the per-group index buffers, the module names derived from
 * the patterns, the warnings raised while grouping, and the `match_info`
 * table. Regex full-matching is a parameter (`fullmatch(pattern,
 * feature)`); the tensors, the torch modules and their `fit`/`forward`
 * are not part of this model.
 */
module FeaturePipelines {
  import opened Wrappers
  import opened Strings
  import opened Indexing

  /** `re.fullmatch(pattern, feature) is not None`. */
  type FullMatch = (string, string) -> bool

  // ---------------------------------------------------------------------
  // Module names
  // ---------------------------------------------------------------------

  /** The characters of the class `[a-zA-Z0-9_]`. */
  predicate IsNameChar(ch: char)
  {
    IsAlnum(ch) || ch == '_'
  }

  /** `_sanitize_for_module_name`: every character outside `[a-zA-Z0-9_]` becomes `_`. */
  function SanitizeForModuleName(s: string): (r: string)
    ensures |r| == |s|
    ensures forall i :: 0 <= i < |s| ==> r[i] == if IsNameChar(s[i]) then s[i] else '_'
  {
    if s == [] then [] else [if IsNameChar(s[0]) then s[0] else '_'] + SanitizeForModuleName(s[1..])
  }

  /**
   * A sanitized name holds only name characters; sanitizing it again
   * changes nothing, and a name that is already clean is its own
   * sanitized form.
   */
  lemma SanitizeSpec(s: string)
    ensures forall i :: 0 <= i < |s| ==> IsNameChar(SanitizeForModuleName(s)[i])
    ensures SanitizeForModuleName(SanitizeForModuleName(s)) == SanitizeForModuleName(s)
    ensures (forall i :: 0 <= i < |s| ==> IsNameChar(s[i])) ==> SanitizeForModuleName(s) == s
  {
  }

  /** `sanitized_names`: each pattern's module name, in pattern order. */
  function SanitizedNames(ps: seq<string>): (r: seq<string>)
    ensures |r| == |ps| && forall k :: 0 <= k < |ps| ==> r[k] == SanitizeForModuleName(ps[k])
  {
    seq(|ps|, k requires 0 <= k < |ps| => SanitizeForModuleName(ps[k]))
  }

  /**
   * `nn.ModuleDict` over the sanitized names: a later pattern whose name
   * collides with an earlier one replaces its entry. Each name maps to the
   * index of the pattern whose processors it holds.
   */

  function ModuleDict(names: seq<string>): (d: map<string, nat>)
    ensures d.Keys == set n | n in names
    ensures forall n :: n in d ==> d[n] < |names| && names[d[n]] == n
  {
    if names == [] then map[]
    else
      var k := |names| - 1;
      ModuleDict(names[..k])[names[k] := k]
  }

  /** With distinct names every pattern keeps its own entry. */
  lemma {:induction false} ModuleDictDistinct(names: seq<string>)
    requires forall i, j :: 0 <= i < j < |names| ==> names[i] != names[j]
    ensures |ModuleDict(names)| == |names|
    ensures forall k :: 0 <= k < |names| ==> ModuleDict(names)[names[k]] == k
  {
    if names != [] {
      var k := |names| - 1;
      ModuleDictDistinct(names[..k]);
      assert names[k] !in ModuleDict(names[..k]);
      forall j | 0 <= j < k
        ensures ModuleDict(names)[names[j]] == j
      {
        assert names[..k][j] == names[j];
      }
    }
  }

  // ---------------------------------------------------------------------
  // The grouping, as a specification
  // ---------------------------------------------------------------------

  /** The first pattern, in order, that fully matches `f`. */
  function FirstMatch(ps: seq<string>, f: string, fullmatch: FullMatch): (r: Option<nat>)
    ensures r.Some? ==> (r.value < |ps| && fullmatch(ps[r.value], f)
      && forall k :: 0 <= k < r.value ==> !fullmatch(ps[k], f))
    ensures r.None? ==> forall k :: 0 <= k < |ps| ==> !fullmatch(ps[k], f)
  {
    if ps == [] then None
    else if fullmatch(ps[0], f) then Some(0)
    else
      var rest := FirstMatch(ps[1..], f, fullmatch);
      if rest.Some? then Some(rest.value + 1) else None
  }

  /** The indices, from `from` on and in order, of the features whose first matching pattern lies in `[lo, hi)`. */
  function Assigned(ps: seq<string>, features: seq<string>, fullmatch: FullMatch, lo: nat, hi: nat, from: nat)
    : (r: seq<nat>)
    ensures forall i :: 0 <= i < |r| ==> from <= r[i] < |features|
    decreases |features| - from
  {
    if from >= |features| then []
    else
      var m := FirstMatch(ps, features[from], fullmatch);
      (if m.Some? && lo <= m.value < hi then [from] else []) + Assigned(ps, features, fullmatch, lo, hi, from + 1)
  }

  /** The index buffer of group `k`: the features whose first matching pattern is pattern `k`. */
  function GroupIndices(ps: seq<string>, features: seq<string>, fullmatch: FullMatch, k: nat): seq<nat>
  {
    Assigned(ps, features, fullmatch, k, k + 1, 0)
  }

  /** Every feature is matched by some pattern. */
  predicate AllMatched(ps: seq<string>, features: seq<string>, fullmatch: FullMatch)
  {
    forall j :: 0 <= j < |features| ==> FirstMatch(ps, features[j], fullmatch).Some?
  }

  lemma {:induction false} AssignedMember(ps: seq<string>, features: seq<string>, fullmatch: FullMatch,
                                          lo: nat, hi: nat, from: nat, j: nat)
    ensures j in Assigned(ps, features, fullmatch, lo, hi, from) <==>
      from <= j < |features| && var m := FirstMatch(ps, features[j], fullmatch); m.Some? && lo <= m.value < hi
    decreases |features| - from
  {
    if from < |features| {
      AssignedMember(ps, features, fullmatch, lo, hi, from + 1, j);
    }
  }

  predicate Ascending(s: seq<nat>)
  {
    forall i, j :: 0 <= i < j < |s| ==> s[i] < s[j]
  }

  lemma {:induction false} AssignedIncreasing(ps: seq<string>, features: seq<string>, fullmatch: FullMatch,
                                              lo: nat, hi: nat, from: nat)
    ensures Ascending(Assigned(ps, features, fullmatch, lo, hi, from))
    decreases |features| - from
  {
    if from < |features| {
      AssignedIncreasing(ps, features, fullmatch, lo, hi, from + 1);
      var rest := Assigned(ps, features, fullmatch, lo, hi, from + 1);
      var m := FirstMatch(ps, features[from], fullmatch);
      var head: seq<nat> := if m.Some? && lo <= m.value < hi then [from] else [];
      var r := Assigned(ps, features, fullmatch, lo, hi, from);
      assert r == head + rest;
      forall i, j | 0 <= i < j < |r|
        ensures r[i] < r[j]
      {
        assert r[j] == rest[j - |head|];
        assert rest[j - |head|] >= from + 1;
        if i < |head| {
          assert r[i] == head[i] == from;
        } else {
          assert r[i] == rest[i - |head|];
        }
      }
    }
  }

  /** Each feature index is in the buffer of exactly the first pattern that fully matches the feature. */
  lemma GroupMember(ps: seq<string>, features: seq<string>, fullmatch: FullMatch, k: nat, j: nat)
    ensures j in GroupIndices(ps, features, fullmatch, k) <==>
      j < |features| && FirstMatch(ps, features[j], fullmatch) == Some(k)
  {
    AssignedMember(ps, features, fullmatch, k, k + 1, 0, j);
  }

  /** No feature index is in two buffers. */
  lemma GroupsDisjoint(ps: seq<string>, features: seq<string>, fullmatch: FullMatch, k: nat, l: nat, j: nat)
    requires k != l
    ensures !(j in GroupIndices(ps, features, fullmatch, k) && j in GroupIndices(ps, features, fullmatch, l))
  {
    GroupMember(ps, features, fullmatch, k, j);
    GroupMember(ps, features, fullmatch, l, j);
  }

  /** Each buffer lists its feature indices in strictly ascending order. */
  lemma GroupAscending(ps: seq<string>, features: seq<string>, fullmatch: FullMatch, k: nat)
    ensures Ascending(GroupIndices(ps, features, fullmatch, k))
  {
    AssignedIncreasing(ps, features, fullmatch, k, k + 1, 0);
  }

  /** When every feature is matched, the buffers of the patterns cover every feature index. */
  lemma GroupsCover(ps: seq<string>, features: seq<string>, fullmatch: FullMatch, j: nat)
    requires AllMatched(ps, features, fullmatch) && j < |features|
    ensures exists g :: 0 <= g < |ps| && j in GroupIndices(ps, features, fullmatch, g)
  {
    var g := FirstMatch(ps, features[j], fullmatch).value;
    GroupMember(ps, features, fullmatch, g, j);
    assert j in GroupIndices(ps, features, fullmatch, g);
  }

  /**
   * The features, among those still unassigned, that pattern `regex`
   * fully matches: the `matches` comprehension, by index.
   */
  function Matching(features: seq<string>, remaining: set<string>, regex: string, fullmatch: FullMatch, from: nat)
    : (r: seq<nat>)
    ensures forall i :: 0 <= i < |r| ==> from <= r[i] < |features|
    decreases |features| - from
  {
    if from >= |features| then []
    else
      (if features[from] in remaining && fullmatch(regex, features[from]) then [from] else [])
        + Matching(features, remaining, regex, fullmatch, from + 1)
  }

  /** When "unassigned and matched by pattern k" means "first matched by pattern k", the comprehension is the group buffer. */
  lemma {:induction false} MatchingIsGroup(ps: seq<string>, features: seq<string>, remaining: set<string>,
                                           fullmatch: FullMatch, k: nat, from: nat)
    requires k < |ps|
    requires forall j :: 0 <= j < |features| ==>
      (features[j] in remaining && fullmatch(ps[k], features[j]) <==> FirstMatch(ps, features[j], fullmatch) == Some(k))
    ensures Matching(features, remaining, ps[k], fullmatch, from) == Assigned(ps, features, fullmatch, k, k + 1, from)
    decreases |features| - from
  {
    if from < |features| {
      MatchingIsGroup(ps, features, remaining, fullmatch, k, from + 1);
    }
  }

  // ---------------------------------------------------------------------
  // Warnings
  // ---------------------------------------------------------------------

  /** The two warnings `_parse_feature_groups` raises. */
  datatype Warning =
    | AlreadyMatched(regex: string, duplicates: set<string>)
    | Noncontiguous(regex: string, features: seq<string>)

  /** Features pattern `k` matches that an earlier pattern already took. */
  function Duplicates(ps: seq<string>, features: seq<string>, fullmatch: FullMatch, k: nat): set<string>
    requires k < |ps|
  {
    set f | f in features && fullmatch(ps[k], f) && FirstMatch(ps, f, fullmatch) != Some(k)
  }

  /** The span test on an ascending list of indices: as many entries as the range from the least to the greatest. */
  predicate Contiguous(indices: seq<nat>)
  {
    indices == [] || |indices| == indices[|indices| - 1] as int - indices[0] as int + 1
  }

  /** The features at the given indices. */
  function NamesAt(features: seq<string>, indices: seq<nat>): (r: seq<string>)
    requires forall i :: 0 <= i < |indices| ==> indices[i] < |features|
    ensures |r| == |indices| && forall i :: 0 <= i < |indices| ==> r[i] == features[indices[i]]
  {
    if indices == [] then [] else [features[indices[0]]] + NamesAt(features, indices[1..])
  }

  /** The warnings one pattern raises, in the order they are raised, from its duplicates and its index buffer. */
  function RaisedWarnings(regex: string, duplicates: set<string>, features: seq<string>, indices: seq<nat>,
                          warnNoncontiguous: bool, warnDuplicates: bool): seq<Warning>
    requires forall i :: 0 <= i < |indices| ==> indices[i] < |features|
  {
    (if duplicates != {} && warnDuplicates then [AlreadyMatched(regex, duplicates)] else [])
      + (if indices != [] && warnNoncontiguous && !Contiguous(indices) then [Noncontiguous(regex, NamesAt(features, indices))] else [])
  }

  /** The warnings raised while processing pattern `k`. */
  function GroupWarnings(ps: seq<string>, features: seq<string>, fullmatch: FullMatch, k: nat,
                         warnNoncontiguous: bool, warnDuplicates: bool): seq<Warning>
    requires k < |ps|
  {
    RaisedWarnings(ps[k], Duplicates(ps, features, fullmatch, k), features, GroupIndices(ps, features, fullmatch, k),
                   warnNoncontiguous, warnDuplicates)
  }

  /** The warnings raised for the first `k` patterns. */
  function WarningsUpTo(ps: seq<string>, features: seq<string>, fullmatch: FullMatch, k: nat,
                        warnNoncontiguous: bool, warnDuplicates: bool): seq<Warning>
    requires k <= |ps|
  {
    if k == 0 then []
    else
      WarningsUpTo(ps, features, fullmatch, k - 1, warnNoncontiguous, warnDuplicates)
        + GroupWarnings(ps, features, fullmatch, k - 1, warnNoncontiguous, warnDuplicates)
  }

  /** A strictly ascending list passes the span test exactly when it has no gaps. */
  lemma {:induction false} ContiguousMeans(indices: seq<nat>)
    requires Ascending(indices)
    ensures Contiguous(indices) <==> forall i :: 0 <= i < |indices| ==> indices[i] == indices[0] + i
  {
    if |indices| > 0 {
      Spread(indices, |indices| - 1);
      if Contiguous(indices) {
        forall i | 0 <= i < |indices|
          ensures indices[i] == indices[0] + i
        {
          Spread(indices, i);
          SpreadAbove(indices, i);
        }
      }
    }
  }

  /** In a strictly ascending list of naturals the entry at `i` is at least `i` above the first. */
  lemma {:induction false} Spread(indices: seq<nat>, i: nat)
    requires i < |indices| && Ascending(indices)
    ensures indices[i] >= indices[0] + i
  {
    if i > 0 {
      Spread(indices, i - 1);
    }
  }

  /** ... and the last entry is at least `|indices| - 1 - i` above the entry at `i`. */
  lemma {:induction false} SpreadAbove(indices: seq<nat>, i: nat)
    requires i < |indices| && Ascending(indices)
    ensures indices[|indices| - 1] >= indices[i] + (|indices| - 1 - i)
    decreases |indices| - i
  {
    if i < |indices| - 1 {
      SpreadAbove(indices, i + 1);
    }
  }

  // ---------------------------------------------------------------------
  // match_info
  // ---------------------------------------------------------------------

  datatype MatchRow = MatchRow(feature: string, featureIndex: nat, regexMatch: string, regexMatchIndex: nat)

  /** The row of feature `j`, naming its group. */
  function RowOf(ps: seq<string>, features: seq<string>, fullmatch: FullMatch, j: nat): MatchRow
    requires j < |features| && FirstMatch(ps, features[j], fullmatch).Some?
  {
    var g := FirstMatch(ps, features[j], fullmatch).value;
    MatchRow(features[j], j, ps[g], g)
  }

  /** The rows of one group's buffer, in buffer order. */
  function GroupRows(features: seq<string>, ps: seq<string>, g: nat, indices: seq<nat>): seq<MatchRow>
    requires g < |ps| && forall i :: 0 <= i < |indices| ==> indices[i] < |features|
  {
    if indices == [] then []
    else [MatchRow(features[indices[0]], indices[0], ps[g], g)] + GroupRows(features, ps, g, indices[1..])
  }

  predicate BuffersInRange(features: seq<string>, ps: seq<string>, groups: seq<seq<nat>>)
  {
    |groups| <= |ps| && forall g, i :: 0 <= g < |groups| && 0 <= i < |groups[g]| ==> groups[g][i] < |features|
  }

  /** The `records` comprehension of `match_info`: group by group, and within a group in buffer order. */
  function Records(features: seq<string>, ps: seq<string>, groups: seq<seq<nat>>): seq<MatchRow>
    requires BuffersInRange(features, ps, groups)
  {
    if groups == [] then []
    else
      var g := |groups| - 1;
      Records(features, ps, groups[..g]) + GroupRows(features, ps, g, groups[g])
  }

  /** The rows of the features from `from` on, by feature index: the table `match_info` returns once sorted. */
  function MatchInfoFrom(ps: seq<string>, features: seq<string>, fullmatch: FullMatch, from: nat): (r: seq<MatchRow>)
    requires AllMatched(ps, features, fullmatch)
    ensures |r| == if from <= |features| then |features| - from else 0
    ensures forall i :: 0 <= i < |r| ==> r[i].featureIndex == from + i && r[i].feature == features[from + i]
    decreases |features| - from
  {
    if from >= |features| then []
    else [RowOf(ps, features, fullmatch, from)] + MatchInfoFrom(ps, features, fullmatch, from + 1)
  }

  /** The rows of the features whose first matching pattern lies in `[lo, hi)`, by feature index. */
  function AssignedRows(ps: seq<string>, features: seq<string>, fullmatch: FullMatch, lo: nat, hi: nat, from: nat)
    : seq<MatchRow>
    decreases |features| - from
  {
    if from >= |features| then []
    else
      var m := FirstMatch(ps, features[from], fullmatch);
      (if m.Some? && lo <= m.value < hi then [RowOf(ps, features, fullmatch, from)] else [])
        + AssignedRows(ps, features, fullmatch, lo, hi, from + 1)
  }

  lemma {:induction false} GroupRowsAssigned(ps: seq<string>, features: seq<string>, fullmatch: FullMatch,
                                             k: nat, from: nat)
    requires k < |ps|
    ensures GroupRows(features, ps, k, Assigned(ps, features, fullmatch, k, k + 1, from))
         == AssignedRows(ps, features, fullmatch, k, k + 1, from)
    decreases |features| - from
  {
    if from < |features| {
      GroupRowsAssigned(ps, features, fullmatch, k, from + 1);
      var m := FirstMatch(ps, features[from], fullmatch);
      var rest := Assigned(ps, features, fullmatch, k, k + 1, from + 1);
      if m.Some? && k <= m.value < k + 1 {
        assert ([from] + rest)[1..] == rest;
      } else {
        assert [] + rest == rest;
      }
    }
  }

  lemma {:induction false} AssignedRowsSplit(ps: seq<string>, features: seq<string>, fullmatch: FullMatch,
                                             lo: nat, mid: nat, hi: nat, from: nat)
    requires lo <= mid <= hi
    ensures multiset(AssignedRows(ps, features, fullmatch, lo, mid, from))
          + multiset(AssignedRows(ps, features, fullmatch, mid, hi, from))
         == multiset(AssignedRows(ps, features, fullmatch, lo, hi, from))
    decreases |features| - from
  {
    if from < |features| {
      AssignedRowsSplit(ps, features, fullmatch, lo, mid, hi, from + 1);
    }
  }

  /** The buffers of the first `k` patterns. */
  function Buffers(ps: seq<string>, features: seq<string>, fullmatch: FullMatch, k: nat): (r: seq<seq<nat>>)
    ensures |r| == k
  {
    if k == 0 then [] else Buffers(ps, features, fullmatch, k - 1) + [GroupIndices(ps, features, fullmatch, k - 1)]
  }

  /** Buffer `g` holds the features pattern `g` took first, whichever pattern the loop has reached. */
  lemma {:induction false} BufferAt(ps: seq<string>, features: seq<string>, fullmatch: FullMatch, k: nat, g: nat)
    requires g < k
    ensures Buffers(ps, features, fullmatch, k)[g] == GroupIndices(ps, features, fullmatch, g)
  {
    if g < k - 1 {
      BufferAt(ps, features, fullmatch, k - 1, g);
    }
  }

  /** The buffers hold feature indices only. */
  lemma BuffersBounded(ps: seq<string>, features: seq<string>, fullmatch: FullMatch, k: nat)
    requires k <= |ps|
    ensures BuffersInRange(features, ps, Buffers(ps, features, fullmatch, k))
  {
    var b := Buffers(ps, features, fullmatch, k);
    forall g, i | 0 <= g < |b| && 0 <= i < |b[g]|
      ensures b[g][i] < |features|
    {
      BufferAt(ps, features, fullmatch, k, g);
    }
  }

  lemma {:induction false} RecordsAssigned(ps: seq<string>, features: seq<string>, fullmatch: FullMatch, k: nat)
    requires k <= |ps|
    ensures BuffersInRange(features, ps, Buffers(ps, features, fullmatch, k))
    ensures multiset(Records(features, ps, Buffers(ps, features, fullmatch, k)))
         == multiset(AssignedRows(ps, features, fullmatch, 0, k, 0))
  {
    BuffersBounded(ps, features, fullmatch, k);
    if k == 0 {
      AssignedRowsNone(ps, features, fullmatch, 0);
    } else {
      RecordsAssigned(ps, features, fullmatch, k - 1);
      RecordsLast(ps, features, fullmatch, k);
      AssignedRowsSplit(ps, features, fullmatch, 0, k - 1, k, 0);
    }
  }

  /** The records of `k` buffers: those of the first `k - 1`, then the rows the last pattern took. */
  lemma RecordsLast(ps: seq<string>, features: seq<string>, fullmatch: FullMatch, k: nat)
    requires 0 < k <= |ps|
    ensures BuffersInRange(features, ps, Buffers(ps, features, fullmatch, k - 1))
    ensures BuffersInRange(features, ps, Buffers(ps, features, fullmatch, k))
    ensures multiset(Records(features, ps, Buffers(ps, features, fullmatch, k)))
         == multiset(Records(features, ps, Buffers(ps, features, fullmatch, k - 1)))
          + multiset(AssignedRows(ps, features, fullmatch, k - 1, k, 0))
  {
    var b := Buffers(ps, features, fullmatch, k);
    var front := Buffers(ps, features, fullmatch, k - 1);
    BuffersBounded(ps, features, fullmatch, k);
    RecordsSnoc(features, ps, b, front);
    BufferAt(ps, features, fullmatch, k, k - 1);
    GroupRowsAssigned(ps, features, fullmatch, k - 1, 0);
    assert |b| == k;
    assert b[k - 1] == Assigned(ps, features, fullmatch, k - 1, k, 0);
    assert GroupRows(features, ps, k - 1, b[k - 1]) == AssignedRows(ps, features, fullmatch, k - 1, k, 0);
    assert multiset(Records(features, ps, b)) == multiset(Records(features, ps, front)) + multiset(GroupRows(features, ps, k - 1, b[k - 1]));
  }

  lemma RecordsSnoc(features: seq<string>, ps: seq<string>, b: seq<seq<nat>>, front: seq<seq<nat>>)
    requires BuffersInRange(features, ps, b) && |b| > 0 && front == b[..|b| - 1]
    ensures BuffersInRange(features, ps, front)
    ensures multiset(Records(features, ps, b))
         == multiset(Records(features, ps, front)) + multiset(GroupRows(features, ps, |b| - 1, b[|b| - 1]))
  {
    assert forall g :: 0 <= g < |front| ==> front[g] == b[g];
  }


  lemma {:induction false} AssignedRowsNone(ps: seq<string>, features: seq<string>, fullmatch: FullMatch, from: nat)
    ensures AssignedRows(ps, features, fullmatch, 0, 0, from) == []
    decreases |features| - from
  {
    if from < |features| {
      AssignedRowsNone(ps, features, fullmatch, from + 1);
    }
  }

  lemma {:induction false} AllAssigned(ps: seq<string>, features: seq<string>, fullmatch: FullMatch, from: nat)
    requires AllMatched(ps, features, fullmatch)
    ensures AssignedRows(ps, features, fullmatch, 0, |ps|, from) == MatchInfoFrom(ps, features, fullmatch, from)
    decreases |features| - from
  {
    if from < |features| {
      AllAssigned(ps, features, fullmatch, from + 1);
    }
  }

  /**
   * `match_info`: sorting the records by feature index gives one row per
   * feature, row `j` for feature `j` with the pattern that took it — the
   * records and that table hold the same rows, and the table is sorted.
   */
  lemma MatchInfoSorted(ps: seq<string>, features: seq<string>, fullmatch: FullMatch)
    requires AllMatched(ps, features, fullmatch)
    ensures BuffersInRange(features, ps, Buffers(ps, features, fullmatch, |ps|))
    ensures var table := MatchInfoFrom(ps, features, fullmatch, 0);
      && multiset(Records(features, ps, Buffers(ps, features, fullmatch, |ps|))) == multiset(table)
      && |table| == |features|
      && forall j :: 0 <= j < |table| ==> (table[j].featureIndex == j && table[j].feature == features[j]
        && table[j].regexMatchIndex == FirstMatch(ps, features[j], fullmatch).value
        && table[j].regexMatch == ps[table[j].regexMatchIndex])
  {
    RecordsAssigned(ps, features, fullmatch, |ps|);
    AllAssigned(ps, features, fullmatch, 0);
    MatchInfoRows(ps, features, fullmatch);
  }

  /** Row `j` of the sorted table is the row of feature `j`. */
  lemma MatchInfoRows(ps: seq<string>, features: seq<string>, fullmatch: FullMatch)
    requires AllMatched(ps, features, fullmatch)
    ensures var table := MatchInfoFrom(ps, features, fullmatch, 0);
      forall j :: 0 <= j < |table| ==> table[j] == RowOf(ps, features, fullmatch, j)
  {
    var table := MatchInfoFrom(ps, features, fullmatch, 0);
    forall j | 0 <= j < |table|
      ensures table[j] == RowOf(ps, features, fullmatch, j)
    {
      MatchInfoAt(ps, features, fullmatch, 0, j);
    }
  }

  /** What polars raises when sorting the column-less frame that no records make. */
  const NO_FEATURE_INDEX_COLUMN := "ColumnNotFoundError: feature_index"

  /**
   * `match_info`: the records sorted by feature index. With no features
   * there are no records, the frame has no columns and the sort raises.
   */
  function MatchInfo(ps: seq<string>, features: seq<string>, fullmatch: FullMatch): (r: Result<seq<MatchRow>>)
    requires AllMatched(ps, features, fullmatch)
    ensures r.Failure? <==> |features| == 0
    ensures r.Failure? ==> r.error == NO_FEATURE_INDEX_COLUMN
    ensures r.Success? ==> |r.value| == |features|
    ensures r.Success? ==> forall j :: 0 <= j < |r.value| ==> r.value[j] == RowOf(ps, features, fullmatch, j)
  {
    MatchInfoSorted(ps, features, fullmatch);
    var records := Records(features, ps, Buffers(ps, features, fullmatch, |ps|));
    assert |records| == |multiset(records)|;
    if records == [] then Failure(NO_FEATURE_INDEX_COLUMN)
    else
      MatchInfoRows(ps, features, fullmatch);
      Success(MatchInfoFrom(ps, features, fullmatch, 0))
  }

  lemma {:induction false} MatchInfoAt(ps: seq<string>, features: seq<string>, fullmatch: FullMatch, from: nat, j: nat)
    requires AllMatched(ps, features, fullmatch) && from <= j < |features|
    ensures MatchInfoFrom(ps, features, fullmatch, from)[j - from] == RowOf(ps, features, fullmatch, j)
    decreases j - from
  {
    if from < j {
      MatchInfoAt(ps, features, fullmatch, from + 1, j);
    }
  }

  // ---------------------------------------------------------------------
  // The pipeline object
  // ---------------------------------------------------------------------

  const FEATURE_AXIS := "*"
  const UNMATCHED_FEATURES := "Unmatched features"

  class FeaturePipeline {
    var featureNames: seq<string>
    var featurePackPattern: string
    var featureDim: int
    var regexPatterns: seq<string>
    var moduleDict: map<string, nat>
    var groupIndices: seq<seq<nat>>
    var groupNames: seq<string>

    constructor (features: seq<string>, featurePackPattern: string, featureDim: int)
      ensures featureNames == features && this.featurePackPattern == featurePackPattern && this.featureDim == featureDim
      ensures regexPatterns == [] && groupIndices == [] && groupNames == [] && moduleDict == map[]
    {
      featureNames := features;
      this.featurePackPattern := featurePackPattern;
      this.featureDim := featureDim;
      regexPatterns := [];
      moduleDict := map[];
      groupIndices := [];
      groupNames := [];
    }

    /**
     * `__init__`: the feature axis is where `*` sits in the pack pattern,
     * then the features are grouped; either step may raise.
     */
    static method Create(processors: seq<string>, features: seq<string>, featurePackPattern: string, fullmatch: FullMatch)
      returns (r: Result<FeaturePipeline>, emitted: seq<Warning>)
      ensures FindDim(featurePackPattern, FEATURE_AXIS).Failure? ==>
        r == Failure(FindDim(featurePackPattern, FEATURE_AXIS).error) && emitted == []
      ensures FindDim(featurePackPattern, FEATURE_AXIS).Success? ==>
        emitted == WarningsUpTo(processors, features, fullmatch, |processors|, true, true)
      ensures r.Success? <==> FindDim(featurePackPattern, FEATURE_AXIS).Success? && AllMatched(processors, features, fullmatch)
      ensures r.Failure? && FindDim(featurePackPattern, FEATURE_AXIS).Success? ==> r.error == UNMATCHED_FEATURES
      ensures r.Success? ==> (fresh(r.value) && r.value.featureDim == FindDim(featurePackPattern, FEATURE_AXIS).value
        && r.value.featureNames == features && r.value.regexPatterns == processors
        && r.value.groupIndices == Buffers(processors, features, fullmatch, |processors|)
        && r.value.groupNames == SanitizedNames(processors))
    {
      emitted := [];
      var dim := FindDimLoop(featurePackPattern, FEATURE_AXIS);
      if dim.Failure? {
        return Failure(dim.error), emitted;
      }
      var pipeline := new FeaturePipeline(features, featurePackPattern, dim.value);
      var parsed;
      parsed, emitted := pipeline.ParseFeatureGroups(processors, fullmatch, true, true);
      if parsed.Failure? {
        return Failure(parsed.error), emitted;
      }
      return Success(pipeline), emitted;
    }

    /**
     * `_parse_feature_groups`: pattern by pattern, the features not yet
     * taken that the pattern fully matches become its group; the groups'
     * index buffers and the warnings are recorded, and the call fails when
     * some feature is left over.
     */
    method ParseFeatureGroups(processors: seq<string>, fullmatch: FullMatch, warnNoncontiguous: bool, warnDuplicates: bool)
      returns (r: Result<Unit>, emitted: seq<Warning>)
      modifies this
      ensures regexPatterns == processors
      ensures moduleDict == ModuleDict(SanitizedNames(processors))
      ensures groupIndices == old(groupIndices) + Buffers(processors, featureNames, fullmatch, |processors|)
      ensures emitted == WarningsUpTo(processors, featureNames, fullmatch, |processors|, warnNoncontiguous, warnDuplicates)
      ensures r.Success? <==> AllMatched(processors, featureNames, fullmatch)
      ensures r.Failure? ==> r.error == UNMATCHED_FEATURES && groupNames == old(groupNames)
      ensures r.Success? ==> groupNames == SanitizedNames(processors)
      ensures featureNames == old(featureNames) && featureDim == old(featureDim) && featurePackPattern == old(featurePackPattern)
    {
      regexPatterns := processors;
      var sanitizedNames := SanitizedNames(processors);
      moduleDict := ModuleDict(sanitizedNames);
      var names := featureNames;
      var remaining;
      remaining, emitted := GroupFeatures(processors, names, fullmatch, warnNoncontiguous, warnDuplicates);
      UnassignedAll(processors, names, fullmatch);
      if remaining != {} {
        return Failure(UNMATCHED_FEATURES), emitted;
      }
      groupNames := sanitizedNames;
      return Success(Unit), emitted;
    }

    /**
     * The loop of `_parse_feature_groups`: each pattern in turn takes the
     * still-unassigned features it fully matches as its index buffer.
     */
    method GroupFeatures(processors: seq<string>, names: seq<string>, fullmatch: FullMatch,
                         warnNoncontiguous: bool, warnDuplicates: bool)
      returns (remaining: set<string>, emitted: seq<Warning>)
      modifies this`groupIndices
      ensures groupIndices == old(groupIndices) + Buffers(processors, names, fullmatch, |processors|)
      ensures remaining == Unassigned(processors, names, fullmatch, |processors|)
      ensures emitted == WarningsUpTo(processors, names, fullmatch, |processors|, warnNoncontiguous, warnDuplicates)
    {
      ghost var buffers0 := groupIndices;
      emitted := [];
      remaining := set f | f in names;
      assert remaining == Unassigned(processors, names, fullmatch, 0);
      var k := 0;
      while k < |processors|
        invariant k <= |processors|
        invariant remaining == Unassigned(processors, names, fullmatch, k)
        invariant groupIndices == buffers0 + Buffers(processors, names, fullmatch, k)
        invariant emitted == WarningsUpTo(processors, names, fullmatch, k, warnNoncontiguous, warnDuplicates)
      {
        var indices, left, raised := TakeGroup(processors, names, fullmatch, k, remaining,
                                               warnNoncontiguous, warnDuplicates);
        WarningsStep(processors, names, fullmatch, k, warnNoncontiguous, warnDuplicates, raised);
        BuffersStep(processors, names, fullmatch, k, buffers0, indices);
        emitted := emitted + raised;
        groupIndices := groupIndices + [indices];
        remaining := left;
        k := k + 1;
      }
    }
  }

  /**
   * One turn of the `_parse_feature_groups` loop, for pattern `k`: the
   * still-unassigned features it fully matches (its index buffer), the
   * names left unassigned after it, and the warnings it raises.
   */
  method TakeGroup(processors: seq<string>, featureNames: seq<string>, fullmatch: FullMatch, k: nat,
                   remaining: set<string>, warnNoncontiguous: bool, warnDuplicates: bool)
    returns (indices: seq<nat>, left: set<string>, raised: seq<Warning>)
    requires k < |processors|
    requires remaining == Unassigned(processors, featureNames, fullmatch, k)
    ensures indices == GroupIndices(processors, featureNames, fullmatch, k)
    ensures left == Unassigned(processors, featureNames, fullmatch, k + 1)
    ensures raised == GroupWarnings(processors, featureNames, fullmatch, k, warnNoncontiguous, warnDuplicates)
  {
    var regex := processors[k];
    var matches := Matching(featureNames, remaining, regex, fullmatch, 0);
    assert matches == GroupIndices(processors, featureNames, fullmatch, k) by {
      StillUnmatched(processors, featureNames, fullmatch, remaining, k);
      MatchingIsGroup(processors, featureNames, remaining, fullmatch, k, 0);
    }
    var matchedNames := set j | j in matches :: featureNames[j];
    left := remaining - matchedNames;
    var allMatches := set f | f in featureNames && fullmatch(regex, f);
    var duplicates := allMatches - matchedNames;
    assert left == Unassigned(processors, featureNames, fullmatch, k + 1)
        && duplicates == Duplicates(processors, featureNames, fullmatch, k) by {
      MatchedNames(processors, featureNames, fullmatch, k, matches, matchedNames);
      RemainingStep(processors, featureNames, fullmatch, k);
    }
    indices := matches;
    raised := RaiseWarnings(regex, duplicates, featureNames, indices, warnNoncontiguous, warnDuplicates);
  }

  /** The `warnings.warn` calls for one pattern: already-matched features first, then a gap in its buffer. */
  method RaiseWarnings(regex: string, duplicates: set<string>, features: seq<string>, indices: seq<nat>,
                       warnNoncontiguous: bool, warnDuplicates: bool)
    returns (raised: seq<Warning>)
    requires forall i :: 0 <= i < |indices| ==> indices[i] < |features|
    ensures raised == RaisedWarnings(regex, duplicates, features, indices, warnNoncontiguous, warnDuplicates)
  {
    raised := [];
    if duplicates != {} && warnDuplicates {
      raised := raised + [AlreadyMatched(regex, duplicates)];
    }
    // `sorted` of an ascending list leaves it as it is
    if indices != [] && warnNoncontiguous {
      if |indices| != indices[|indices| - 1] as int - indices[0] as int + 1 {
        raised := raised + [Noncontiguous(regex, NamesAt(features, indices))];
      }
    }
  }

  /** The names whose first fully matching pattern is pattern `k`. */
  function TakenBy(ps: seq<string>, features: seq<string>, fullmatch: FullMatch, k: nat): set<string>
  {
    set f | f in features && FirstMatch(ps, f, fullmatch) == Some(k)
  }

  /** The names no pattern before pattern `k` fully matches: `remaining` at the start of turn `k`. */
  function Unassigned(ps: seq<string>, features: seq<string>, fullmatch: FullMatch, k: nat): set<string>
    requires k <= |ps|
  {
    set f | f in features && FirstMatch(ps[..k], f, fullmatch).None?
  }

  /** No name is left once every pattern has had its turn exactly when every feature is matched. */
  lemma UnassignedAll(ps: seq<string>, features: seq<string>, fullmatch: FullMatch)
    ensures Unassigned(ps, features, fullmatch, |ps|) == {} <==> AllMatched(ps, features, fullmatch)
  {
    assert ps[..|ps|] == ps;
    if !AllMatched(ps, features, fullmatch) {
      var j :| 0 <= j < |features| && FirstMatch(ps, features[j], fullmatch).None?;
      assert features[j] in Unassigned(ps, features, fullmatch, |ps|);
    }
  }

  /** Appending pattern `k`'s warnings to those of the patterns before it gives those of the first `k + 1`. */
  lemma WarningsStep(ps: seq<string>, features: seq<string>, fullmatch: FullMatch, k: nat,
                     warnNoncontiguous: bool, warnDuplicates: bool, raised: seq<Warning>)
    requires k < |ps| && raised == GroupWarnings(ps, features, fullmatch, k, warnNoncontiguous, warnDuplicates)
    ensures WarningsUpTo(ps, features, fullmatch, k, warnNoncontiguous, warnDuplicates) + raised
         == WarningsUpTo(ps, features, fullmatch, k + 1, warnNoncontiguous, warnDuplicates)
  {
  }

  /** Appending pattern `k`'s buffer to those of the patterns before it gives those of the first `k + 1`. */
  lemma BuffersStep(ps: seq<string>, features: seq<string>, fullmatch: FullMatch, k: nat,
                    start: seq<seq<nat>>, indices: seq<nat>)
    requires indices == GroupIndices(ps, features, fullmatch, k)
    ensures start + Buffers(ps, features, fullmatch, k) + [indices] == start + Buffers(ps, features, fullmatch, k + 1)
  {
  }

  /** Unassigned before pattern `k` and matched by it is exactly "first matched by pattern `k`". */
  lemma StillUnmatched(ps: seq<string>, features: seq<string>, fullmatch: FullMatch, remaining: set<string>, k: nat)
    requires k < |ps|
    requires remaining == Unassigned(ps, features, fullmatch, k)
    ensures forall j :: 0 <= j < |features| ==>
      (features[j] in remaining && fullmatch(ps[k], features[j]) <==> FirstMatch(ps, features[j], fullmatch) == Some(k))
  {
    forall j | 0 <= j < |features|
      ensures features[j] in remaining && fullmatch(ps[k], features[j]) <==> FirstMatch(ps, features[j], fullmatch) == Some(k)
    {
      var f := features[j];
      FirstMatchPrefix(ps, f, fullmatch, k);
    }
  }

  /** The first match among the first `k` patterns is the overall first match when it exists, and none means none before `k`. */
  lemma FirstMatchPrefix(ps: seq<string>, f: string, fullmatch: FullMatch, k: nat)
    requires k <= |ps|
    ensures FirstMatch(ps[..k], f, fullmatch).None? <==>
      (FirstMatch(ps, f, fullmatch).None? || FirstMatch(ps, f, fullmatch).value >= k)
  {
    var m := FirstMatch(ps, f, fullmatch);
    var mk := FirstMatch(ps[..k], f, fullmatch);
    if mk.Some? {
      assert ps[..k][mk.value] == ps[mk.value];
      if m.Some? && m.value >= k {
        assert false;
      }
    }
    if m.Some? && m.value < k {
      assert ps[..k][m.value] == ps[m.value];
    }
  }

  /** The names the comprehension picked, and those matched earlier, for pattern `k`. */
  lemma MatchedNames(ps: seq<string>, features: seq<string>, fullmatch: FullMatch, k: nat, matches: seq<nat>,
                     matchedNames: set<string>)
    requires k < |ps| && matches == GroupIndices(ps, features, fullmatch, k)
    requires forall i :: 0 <= i < |matches| ==> matches[i] < |features|
    requires matchedNames == set j | j in matches :: features[j]
    ensures matchedNames == TakenBy(ps, features, fullmatch, k)
    ensures (set f | f in features && fullmatch(ps[k], f)) - matchedNames == Duplicates(ps, features, fullmatch, k)
  {
    forall f | f in features && FirstMatch(ps, f, fullmatch) == Some(k)
      ensures f in matchedNames
    {
      var j :| 0 <= j < |features| && features[j] == f;
      GroupMember(ps, features, fullmatch, k, j);
    }
    forall f | f in matchedNames
      ensures f in features && FirstMatch(ps, f, fullmatch) == Some(k)
    {
      var j :| j in matches && features[j] == f;
      GroupMember(ps, features, fullmatch, k, j);
    }
  }

  /** Removing the names pattern `k` took keeps `remaining` equal to the names no pattern before `k + 1` matches. */
  lemma RemainingStep(ps: seq<string>, features: seq<string>, fullmatch: FullMatch, k: nat)
    requires k < |ps|
    ensures Unassigned(ps, features, fullmatch, k) - TakenBy(ps, features, fullmatch, k)
         == Unassigned(ps, features, fullmatch, k + 1)
  {
    var before, taken, after :=
      Unassigned(ps, features, fullmatch, k), TakenBy(ps, features, fullmatch, k), Unassigned(ps, features, fullmatch, k + 1);
    forall f | f in features
      ensures f in after <==> f in before && f !in taken
    {
      FirstMatchPrefix(ps, f, fullmatch, k);
      FirstMatchPrefix(ps, f, fullmatch, k + 1);
    }
  }


}
