/**
 * The bidirectional map (`bimap::BiMap`) that pairs normalised symbols
 * (left) with exchange symbols (right): each side determines the other,
 * and inserting a pair evicts any pair sharing either side.
 */
module BiMaps {
  import opened Wrappers
  import opened ArgusTypes

  type Sym = TradingSymbol
  type Pair = (Sym, Sym)

  datatype BiMap = BiMap(fwd: map<Sym, Sym>, bwd: map<Sym, Sym>)

  /** The two directions describe the same set of pairs. */
  predicate Valid(m: BiMap)
  {
    && (forall l :: l in m.fwd ==> m.fwd[l] in m.bwd && m.bwd[m.fwd[l]] == l)
    && (forall r :: r in m.bwd ==> m.bwd[r] in m.fwd && m.fwd[m.bwd[r]] == r)
  }

  function Empty(): (m: BiMap)
    ensures Valid(m) && m.fwd == map[]
  {
    BiMap(map[], map[])
  }

  function GetByLeft(m: BiMap, l: Sym): Option<Sym>
  {
    if l in m.fwd then Some(m.fwd[l]) else None
  }

  function GetByRight(m: BiMap, r: Sym): Option<Sym>
  {
    if r in m.bwd then Some(m.bwd[r]) else None
  }

  /** The two lookups are inverse to each other. */
  lemma GetInverse(m: BiMap, l: Sym, r: Sym)
    requires Valid(m)
    ensures GetByLeft(m, l) == Some(r) <==> GetByRight(m, r) == Some(l)
  {
  }

  /** `get_by_left(l)`, falling back to `l` itself when it has no partner. */
  function LeftOrSelf(m: BiMap, l: Sym): Sym
  {
    if l in m.fwd then m.fwd[l] else l
  }

  /** `get_by_right(r)`, falling back to `r` itself when it has no partner. */
  function RightOrSelf(m: BiMap, r: Sym): Sym
  {
    if r in m.bwd then m.bwd[r] else r
  }

  /** Translating a mapped name one way and back gives it back, in both directions. */
  lemma FallbackRoundTrip(m: BiMap, s: Sym)
    requires Valid(m)
    ensures s in m.fwd ==> RightOrSelf(m, LeftOrSelf(m, s)) == s
    ensures s in m.bwd ==> LeftOrSelf(m, RightOrSelf(m, s)) == s
  {
  }

  /** `insert(l, r)`: drops the pair of `l` and the pair of `r`, then pairs them. */
  function Insert(m: BiMap, l: Sym, r: Sym): BiMap
  {
    var f1 := m.fwd - {l};
    var f2 := if r in m.bwd then f1 - {m.bwd[r]} else f1;
    var b1 := m.bwd - {r};
    var b2 := if l in m.fwd then b1 - {m.fwd[l]} else b1;
    BiMap(f2[l := r], b2[r := l])
  }

  /**
   * After `insert(l, r)` the map is still a bijection, `l` and `r` are
   * paired, and every other left keeps its partner unless that partner
   * was `r`.
   */
  lemma InsertEffect(m: BiMap, l: Sym, r: Sym)
    requires Valid(m)
    ensures var m' := Insert(m, l, r);
      && Valid(m')
      && GetByLeft(m', l) == Some(r) && GetByRight(m', r) == Some(l)
      && (forall k :: k != l ==> (k in m'.fwd <==> k in m.fwd && m.fwd[k] != r))
      && (forall k :: k != l && k in m'.fwd ==> m'.fwd[k] == m.fwd[k])
  {
  }

  /** `retain(keep)`: exactly the pairs whose left side is kept. */
  function Retain(m: BiMap, keep: Sym -> bool): BiMap
  {
    BiMap(map l | l in m.fwd && keep(l) :: m.fwd[l], map r | r in m.bwd && keep(m.bwd[r]) :: m.bwd[r])
  }

  lemma RetainEffect(m: BiMap, keep: Sym -> bool)
    requires Valid(m)
    ensures var m' := Retain(m, keep);
      && Valid(m')
      && (forall k :: k in m'.fwd <==> k in m.fwd && keep(k))
      && (forall k :: k in m'.fwd ==> m'.fwd[k] == m.fwd[k])
  {
  }

  /** `insert` applied to each pair in order. */
  function InsertAll(m: BiMap, pairs: seq<Pair>): BiMap
    decreases |pairs|
  {
    if pairs == [] then m else InsertAll(Insert(m, pairs[0].0, pairs[0].1), pairs[1..])
  }

  lemma InsertAllCons(m: BiMap, p: Pair, pairs: seq<Pair>)
    ensures InsertAll(m, [p] + pairs) == InsertAll(Insert(m, p.0, p.1), pairs)
  {
    assert ([p] + pairs)[1..] == pairs;
  }

  function Lefts(pairs: seq<Pair>): set<Sym>
  {
    set i | 0 <= i < |pairs| :: pairs[i].0
  }

  function Rights(pairs: seq<Pair>): set<Sym>
  {
    set i | 0 <= i < |pairs| :: pairs[i].1
  }

  /** The pairs of a valid bimap, listed in any order, have distinct lefts and distinct rights. */
  predicate Injective(pairs: seq<Pair>)
  {
    forall i, j :: 0 <= i < |pairs| && 0 <= j < |pairs| && i != j ==>
      pairs[i].0 != pairs[j].0 && pairs[i].1 != pairs[j].1
  }

  lemma InjectiveTail(pairs: seq<Pair>)
    requires Injective(pairs) && pairs != []
    ensures Injective(pairs[1..])
    ensures pairs[0].0 !in Lefts(pairs[1..]) && pairs[0].1 !in Rights(pairs[1..])
  {
    var rest := pairs[1..];
    forall i, j | 0 <= i < |rest| && 0 <= j < |rest| && i != j
      ensures rest[i].0 != rest[j].0 && rest[i].1 != rest[j].1 {
      assert rest[i] == pairs[i + 1] && rest[j] == pairs[j + 1];
    }
    forall i | 0 <= i < |rest| ensures rest[i].0 != pairs[0].0 && rest[i].1 != pairs[0].1 {
      assert rest[i] == pairs[i + 1];
    }
  }

  lemma SidesCons(pairs: seq<Pair>)
    requires pairs != []
    ensures Lefts(pairs) == {pairs[0].0} + Lefts(pairs[1..])
    ensures Rights(pairs) == {pairs[0].1} + Rights(pairs[1..])
  {
    var rest := pairs[1..];
    forall x | x in Lefts(pairs) ensures x in {pairs[0].0} + Lefts(rest) {
      var i :| 0 <= i < |pairs| && pairs[i].0 == x;
      if i > 0 { assert rest[i - 1] == pairs[i]; }
    }
    forall x | x in Lefts(rest) ensures x in Lefts(pairs) {
      var i :| 0 <= i < |rest| && rest[i].0 == x;
      assert pairs[i + 1] == rest[i];
    }
    forall x | x in Rights(pairs) ensures x in {pairs[0].1} + Rights(rest) {
      var i :| 0 <= i < |pairs| && pairs[i].1 == x;
      if i > 0 { assert rest[i - 1] == pairs[i]; }
    }
    forall x | x in Rights(rest) ensures x in Rights(pairs) {
      var i :| 0 <= i < |rest| && rest[i].1 == x;
      assert pairs[i + 1] == rest[i];
    }
  }

  /**
   * Inserting the pairs of an injective list, in whatever order they come:
   * every listed pair is present, and an old left survives exactly when it
   * is not listed and its partner is not a listed right.
   */
  lemma {:induction false} InsertAllEffect(m: BiMap, pairs: seq<Pair>)
    requires Valid(m) && Injective(pairs)
    ensures var m' := InsertAll(m, pairs);
      && Valid(m')
      && (forall i :: 0 <= i < |pairs| ==> GetByLeft(m', pairs[i].0) == Some(pairs[i].1))
      && (forall k :: k !in Lefts(pairs) ==>
            (k in m'.fwd <==> k in m.fwd && m.fwd[k] !in Rights(pairs)))
      && (forall k :: k !in Lefts(pairs) && k in m'.fwd ==> m'.fwd[k] == m.fwd[k])
    decreases |pairs|
  {
    if pairs != [] {
      var (l, r) := pairs[0];
      var m1 := Insert(m, l, r);
      InsertEffect(m, l, r);
      var rest := pairs[1..];
      InjectiveTail(pairs);
      SidesCons(pairs);
      InsertAllEffect(m1, rest);
      var m' := InsertAll(m1, rest);
      forall i | 0 <= i < |pairs| ensures GetByLeft(m', pairs[i].0) == Some(pairs[i].1) {
        if i > 0 { assert rest[i - 1] == pairs[i]; }
      }
    }
  }
}
