/**
 * The Hyperliquid symbol universe: the perpetual and spot symbol lists
 * drawn from the exchange's metadata, and the bidirectional map between
 * normalised names ("BTC_PERP", "PURR-USDC") and exchange names ("BTC",
 * "@109"). Fetching the metadata is I/O; its outcome is an input.
 */
module HyperliquidUniverse {
  import opened Wrappers
  import opened Strings
  import opened ArgusTypes
  import opened BiMaps

  const PERP_SUFFIX := "_PERP"

  /** The characters `sanitize_symbol` keeps. */
  predicate Kept(c: char)
  {
    IsAlnum(c) || c == '-' || c == '_'
  }

  /** `sanitize_symbol`: the kept characters, in their original order. */
  function Sanitize(s: string): (r: string)
    ensures |r| <= |s|
    ensures forall i :: 0 <= i < |r| ==> Kept(r[i])
  {
    if s == [] then [] else (if Kept(s[0]) then [s[0]] else []) + Sanitize(s[1..])
  }

  /** Sanitising distributes over concatenation, so it is a filter. */
  lemma {:induction false} SanitizeAppend(a: string, b: string)
    ensures Sanitize(a + b) == Sanitize(a) + Sanitize(b)
  {
    if a != [] {
      assert (a + b)[1..] == a[1..] + b;
      SanitizeAppend(a[1..], b);
    } else {
      assert a + b == b;
    }
  }

  /** A string of kept characters is its own sanitisation; so sanitising twice changes nothing. */
  lemma {:induction false} SanitizeKeepsClean(s: string)
    requires forall i :: 0 <= i < |s| ==> Kept(s[i])
    ensures Sanitize(s) == s
  {
    if s != [] {
      SanitizeKeepsClean(s[1..]);
    }
  }

  lemma SanitizeIdempotent(s: string)
    ensures Sanitize(Sanitize(s)) == Sanitize(s)
  {
    SanitizeKeepsClean(Sanitize(s));
  }

  // ---------------------------------------------------------------------
  // Perpetuals
  // ---------------------------------------------------------------------

  datatype PerpAsset = PerpAsset(name: string, isDelisted: bool)

  function PerpNormalized(name: string): string
  {
    Sanitize(name) + PERP_SUFFIX
  }

  /**
   * `extract_active_perp_symbols` from asset `i` on, with the symbols
   * pushed so far and the map as updated so far. The map is updated in
   * place, so a failure leaves the inserts made before it.
   */
  function PerpFrom(universe: seq<PerpAsset>, i: nat, acc: seq<Sym>, m: BiMap): (Result<seq<Sym>>, BiMap)
    requires i <= |universe|
    decreases |universe| - i
  {
    if i == |universe| then (Success(acc), m)
    else if universe[i].isDelisted then PerpFrom(universe, i + 1, acc, m)
    else
      // the normalised name always has its suffix, so only the exchange name can be empty
      var normalized := TradingSymbol(PerpNormalized(universe[i].name));
      match SymbolFromStr(universe[i].name)
      case Failure(e) => (Failure(e), m)
      case Success(native) => PerpFrom(universe, i + 1, acc + [normalized], Insert(m, normalized, native))
  }

  function ExtractPerp(universe: seq<PerpAsset>, m: BiMap): (Result<seq<Sym>>, BiMap)
  {
    PerpFrom(universe, 0, [], m)
  }

  /** The listed assets that are not delisted, in order. */
  function Active(universe: seq<PerpAsset>): seq<PerpAsset>
  {
    if universe == [] then []
    else (if universe[0].isDelisted then [] else [universe[0]]) + Active(universe[1..])
  }

  function PerpPairs(active: seq<PerpAsset>): (r: seq<Pair>)
    ensures |r| == |active|
  {
    if active == [] then []
    else [(TradingSymbol(PerpNormalized(active[0].name)), TradingSymbol(active[0].name))] + PerpPairs(active[1..])
  }

  function PairLefts(pairs: seq<Pair>): (r: seq<Sym>)
    ensures |r| == |pairs|
    ensures forall i :: 0 <= i < |r| ==> r[i] == pairs[i].0
  {
    if pairs == [] then [] else [pairs[0].0] + PairLefts(pairs[1..])
  }

  predicate AllNamed(assets: seq<PerpAsset>)
  {
    forall i :: 0 <= i < |assets| ==> assets[i].name != ""
  }

  lemma PairsAppend(a: seq<PerpAsset>, b: seq<PerpAsset>)
    ensures PerpPairs(a + b) == PerpPairs(a) + PerpPairs(b)
  {
    if a != [] {
      assert (a + b)[1..] == a[1..] + b;
      PairsAppend(a[1..], b);
    } else {
      assert a + b == b;
    }
  }

  lemma InsertAllAppend(m: BiMap, a: seq<Pair>, b: seq<Pair>)
    ensures InsertAll(m, a + b) == InsertAll(InsertAll(m, a), b)
    decreases |a|
  {
    if a != [] {
      assert (a + b)[1..] == a[1..] + b;
      InsertAllAppend(Insert(m, a[0].0, a[0].1), a[1..], b);
    } else {
      assert a + b == b;
    }
  }

  lemma AllNamedCons(a: PerpAsset, rest: seq<PerpAsset>)
    ensures AllNamed([a] + rest) <==> a.name != "" && AllNamed(rest)
  {
    if a.name != "" && AllNamed(rest) {
      forall j | 0 <= j < |rest| + 1 ensures ([a] + rest)[j].name != "" {
        if j > 0 { assert ([a] + rest)[j] == rest[j - 1]; }
      }
    }
    if AllNamed([a] + rest) {
      assert ([a] + rest)[0] == a;
      forall j | 0 <= j < |rest| ensures rest[j].name != "" {
        assert ([a] + rest)[j + 1] == rest[j];
      }
    }
  }

  /** How the active list unfolds at one listed asset. */
  lemma ActiveStep(universe: seq<PerpAsset>, i: nat)
    requires i < |universe|
    ensures universe[i].isDelisted ==> Active(universe[i..]) == Active(universe[i + 1..])
    ensures !universe[i].isDelisted ==> Active(universe[i..]) == [universe[i]] + Active(universe[i + 1..])
  {
    var tail := universe[i..];
    assert tail[0] == universe[i];
    assert tail[1..] == universe[i + 1..];
  }

  lemma PairsCons(a: PerpAsset, rest: seq<PerpAsset>)
    ensures PerpPairs([a] + rest) == [(TradingSymbol(PerpNormalized(a.name)), TradingSymbol(a.name))] + PerpPairs(rest)
  {
    assert ([a] + rest)[1..] == rest;
  }

  lemma PairLeftsCons(p: Pair, pairs: seq<Pair>)
    ensures PairLefts([p] + pairs) == [p.0] + PairLefts(pairs)
  {
    assert ([p] + pairs)[1..] == pairs;
  }

  /** Extraction fails exactly when an active asset has an empty name, and then says so. */
  lemma {:induction false} PerpFromSucceeds(universe: seq<PerpAsset>, i: nat, acc: seq<Sym>, m: BiMap)
    requires i <= |universe|
    ensures var r := PerpFrom(universe, i, acc, m).0;
      && (r.Success? <==> AllNamed(Active(universe[i..])))
      && (r.Failure? ==> r.error == "TradingSymbol cannot be empty")
    decreases |universe| - i
  {
    if i == |universe| {
      assert universe[i..] == [];
    } else {
      var a := universe[i];
      ActiveStep(universe, i);
      if a.isDelisted {
        PerpFromSucceeds(universe, i + 1, acc, m);
      } else {
        var n := TradingSymbol(PerpNormalized(a.name));
        PerpFromSucceeds(universe, i + 1, acc + [n], Insert(m, n, TradingSymbol(a.name)));
        AllNamedCons(a, Active(universe[i + 1..]));
      }
    }
  }

  /** One listed asset that extraction gets past: a non-empty name, one push and one insert. */
  lemma PerpFromListedStep(universe: seq<PerpAsset>, i: nat, acc: seq<Sym>, m: BiMap)
    requires i < |universe| && !universe[i].isDelisted
    requires PerpFrom(universe, i, acc, m).0.Success?
    ensures var a := universe[i];
      var n := TradingSymbol(PerpNormalized(a.name));
      PerpFrom(universe, i, acc, m) == PerpFrom(universe, i + 1, acc + [n], Insert(m, n, TradingSymbol(a.name)))
  {
    assert universe[i].name != "";
  }

  lemma PerpPairsListed(universe: seq<PerpAsset>, i: nat)
    requires i < |universe| && !universe[i].isDelisted
    ensures var a := universe[i];
      PerpPairs(Active(universe[i..]))
      == [(TradingSymbol(PerpNormalized(a.name)), TradingSymbol(a.name))] + PerpPairs(Active(universe[i + 1..]))
  {
    ActiveStep(universe, i);
    PairsCons(universe[i], Active(universe[i + 1..]));
  }

  /**
   * On success extraction returns "{sanitised name}_PERP" for each active
   * asset, in universe order ...
   */
  lemma {:induction false} PerpFromValue(universe: seq<PerpAsset>, i: nat, acc: seq<Sym>, m: BiMap)
    requires i <= |universe|
    requires PerpFrom(universe, i, acc, m).0.Success?
    ensures PerpFrom(universe, i, acc, m).0.value == acc + PairLefts(PerpPairs(Active(universe[i..])))
    decreases |universe| - i
  {
    if i == |universe| {
      assert universe[i..] == [];
    } else if universe[i].isDelisted {
      ActiveStep(universe, i);
      PerpFromValue(universe, i + 1, acc, m);
    } else {
      var a := universe[i];
      var n := TradingSymbol(PerpNormalized(a.name));
      var p := (n, TradingSymbol(a.name));
      PerpFromListedStep(universe, i, acc, m);
      PerpFromValue(universe, i + 1, acc + [n], Insert(m, p.0, p.1));
      var pairs := PerpPairs(Active(universe[i + 1..]));
      PerpPairsListed(universe, i);
      PairLeftsCons(p, pairs);
      var rest := PairLefts(pairs);
      calc {
        PerpFrom(universe, i, acc, m).0.value;
        PerpFrom(universe, i + 1, acc + [n], Insert(m, p.0, p.1)).0.value;
        acc + [n] + rest;
        { SeqAssoc(acc, [n], rest); }
        acc + ([n] + rest);
        acc + PairLefts([p] + pairs);
        acc + PairLefts(PerpPairs(Active(universe[i..])));
      }
    }
  }

  /** ... having inserted (normalised, exchange name) for each, in the same order. */
  lemma {:induction false} PerpFromMap(universe: seq<PerpAsset>, i: nat, acc: seq<Sym>, m: BiMap)
    requires i <= |universe|
    requires PerpFrom(universe, i, acc, m).0.Success?
    ensures PerpFrom(universe, i, acc, m).1 == InsertAll(m, PerpPairs(Active(universe[i..])))
    decreases |universe| - i
  {
    if i == |universe| {
      assert universe[i..] == [];
    } else if universe[i].isDelisted {
      ActiveStep(universe, i);
      PerpFromMap(universe, i + 1, acc, m);
    } else {
      var a := universe[i];
      var n := TradingSymbol(PerpNormalized(a.name));
      var p := (n, TradingSymbol(a.name));
      PerpFromListedStep(universe, i, acc, m);
      PerpFromMap(universe, i + 1, acc + [n], Insert(m, p.0, p.1));
      PerpPairsListed(universe, i);
      InsertAllCons(m, p, PerpPairs(Active(universe[i + 1..])));
    }
  }

  lemma ExtractPerpEffect(universe: seq<PerpAsset>, m: BiMap)
    ensures var (r, m') := ExtractPerp(universe, m);
      var pairs := PerpPairs(Active(universe));
      && (r.Success? <==> AllNamed(Active(universe)))
      && (r.Success? ==> r.value == PairLefts(pairs) && m' == InsertAll(m, pairs))
  {
    assert universe[0..] == universe;
    PerpFromSucceeds(universe, 0, [], m);
    if ExtractPerp(universe, m).0.Success? {
      PerpFromValue(universe, 0, [], m);
      PerpFromMap(universe, 0, [], m);
    }
  }

  /** Every perpetual symbol carries the "_PERP" suffix, so `TradingSymbol::from_str` accepts it. */
  lemma PerpSymbolsMarked(name: string)
    ensures EndsWith(PerpNormalized(name), PERP_SUFFIX)
    ensures SymbolFromStr(PerpNormalized(name)).Success?
  {
    StartsWithAppend(Sanitize(name), PERP_SUFFIX);
  }

  // ---------------------------------------------------------------------
  // Spot
  // ---------------------------------------------------------------------

  datatype SpotAsset = SpotAsset(name: string, token0: nat, token1: nat)
  datatype SpotToken = SpotToken(name: string, index: nat)

  /** The token index table, later tokens overwriting earlier ones with the same index. */
  function TokenNames(tokens: seq<SpotToken>): (t: map<nat, string>)
    ensures forall i :: i in t <==> exists k :: 0 <= k < |tokens| && tokens[k].index == i
  {
    if tokens == [] then map[]
    else
      var t := TokenNames(tokens[..|tokens| - 1]);
      var last := tokens[|tokens| - 1];
      assert forall k :: 0 <= k < |tokens| - 1 ==> tokens[..|tokens| - 1][k] == tokens[k];
      t[last.index := last.name]
  }

  function SpotNormalized(token0: string, token1: string): string
  {
    Sanitize(token0) + "-" + Sanitize(token1)
  }

  function MissingToken(index: nat): string
  {
    "Token index " + NatToString(index) + " not found in metadata"
  }

  /** One spot pair: both token names must be known and the exchange name non-empty. */
  function SpotPair(names: map<nat, string>, asset: SpotAsset): (r: Result<Pair>)
    ensures r.Success? <==> asset.token0 in names && asset.token1 in names && asset.name != ""
    ensures r.Success? ==>
      r.value == (TradingSymbol(SpotNormalized(names[asset.token0], names[asset.token1])), TradingSymbol(asset.name))
    ensures asset.token0 !in names ==> r == Failure(MissingToken(asset.token0))
  {
    if asset.token0 !in names then Failure(MissingToken(asset.token0))
    else if asset.token1 !in names then Failure(MissingToken(asset.token1))
    else
      // the normalised name always holds its '-', so only the exchange name can be empty
      var normalized := TradingSymbol(SpotNormalized(names[asset.token0], names[asset.token1]));
      match SymbolFromStr(asset.name)
      case Failure(e) => Failure(e)
      case Success(native) => Success((normalized, native))
  }

  /** `extract_active_spot_symbols` from pair `i` on: every pair is emitted, none is skipped. */
  function SpotFrom(names: map<nat, string>, universe: seq<SpotAsset>, i: nat, acc: seq<Sym>, m: BiMap): (Result<seq<Sym>>, BiMap)
    requires i <= |universe|
    decreases |universe| - i
  {
    if i == |universe| then (Success(acc), m)
    else
      match SpotPair(names, universe[i])
      case Failure(e) => (Failure(e), m)
      case Success(p) => SpotFrom(names, universe, i + 1, acc + [p.0], Insert(m, p.0, p.1))
  }

  function ExtractSpot(tokens: seq<SpotToken>, universe: seq<SpotAsset>, m: BiMap): (Result<seq<Sym>>, BiMap)
  {
    SpotFrom(TokenNames(tokens), universe, 0, [], m)
  }

  /** On success there is exactly one symbol per listed pair, "{token0}-{token1}" sanitised. */
  lemma {:induction false} SpotFromEffect(names: map<nat, string>, universe: seq<SpotAsset>, i: nat, acc: seq<Sym>, m: BiMap)
    requires i <= |universe|
    ensures var (r, _) := SpotFrom(names, universe, i, acc, m);
      && (r.Success? <==> forall k :: i <= k < |universe| ==> SpotPair(names, universe[k]).Success?)
      && (r.Success? ==>
            && |r.value| == |acc| + |universe| - i && r.value[..|acc|] == acc
            && forall k :: i <= k < |universe| ==>
                 r.value[|acc| + k - i] == TradingSymbol(SpotNormalized(names[universe[k].token0], names[universe[k].token1])))
    decreases |universe| - i
  {
    if i < |universe| {
      var p := SpotPair(names, universe[i]);
      if p.Success? {
        var acc' := acc + [p.value.0];
        var m' := Insert(m, p.value.0, p.value.1);
        SpotFromEffect(names, universe, i + 1, acc', m');
        var r := SpotFrom(names, universe, i + 1, acc', m').0;
        assert SpotFrom(names, universe, i, acc, m).0 == r;
        if r.Success? {
          assert r.value[..|acc'|][..|acc|] == r.value[..|acc|];
          assert r.value[|acc|] == acc'[|acc|];
          forall k | i < k < |universe|
            ensures r.value[|acc| + k - i] == TradingSymbol(SpotNormalized(names[universe[k].token0], names[universe[k].token1]))
          {
            assert |acc'| + k - (i + 1) == |acc| + k - i;
          }
        }
      } else {
        assert SpotFrom(names, universe, i, acc, m).0.Failure?;
      }
    }
  }

  /** A spot symbol always holds its '-', so `TradingSymbol::from_str` accepts it. */
  lemma SpotSymbolShape(t0: string, t1: string)
    ensures '-' in SpotNormalized(t0, t1)
    ensures SymbolFromStr(SpotNormalized(t0, t1)).Success?
  {
    assert SpotNormalized(t0, t1)[|Sanitize(t0)|] == '-';
  }

  // ---------------------------------------------------------------------
  // Refresh of the shared map
  // ---------------------------------------------------------------------

  predicate IsPerp(s: Sym)
  {
    EndsWith(s.name, PERP_SUFFIX)
  }

  predicate IsNotPerp(s: Sym)
  {
    !IsPerp(s)
  }

  /** The perpetual refresh: drop every "_PERP" entry, then insert the freshly extracted pairs. */
  function RefreshPerpMap(m: BiMap, fetched: seq<Pair>): BiMap
  {
    InsertAll(Retain(m, IsNotPerp), fetched)
  }

  /** The spot refresh: drop every other entry, then insert the fetched pairs. */
  function RefreshSpotMap(m: BiMap, fetched: seq<Pair>): BiMap
  {
    InsertAll(Retain(m, IsPerp), fetched)
  }

  /**
   * After a perpetual refresh every fetched pair is present, and an old
   * entry not re-inserted survives exactly when it is a spot entry whose
   * exchange name is not taken by a fetched pair.
   */
  lemma RefreshPerpEffect(m: BiMap, fetched: seq<Pair>)
    requires Valid(m) && Injective(fetched)
    ensures var m' := RefreshPerpMap(m, fetched);
      && Valid(m')
      && (forall i :: 0 <= i < |fetched| ==> GetByLeft(m', fetched[i].0) == Some(fetched[i].1))
      && (forall k :: k !in Lefts(fetched) ==>
            (k in m'.fwd <==> k in m.fwd && !IsPerp(k) && m.fwd[k] !in Rights(fetched)))
  {
    RetainEffect(m, IsNotPerp);
    InsertAllEffect(Retain(m, IsNotPerp), fetched);
  }

  /** The spot refresh mirrors it: only perpetual entries of the old map can survive. */
  lemma RefreshSpotEffect(m: BiMap, fetched: seq<Pair>)
    requires Valid(m) && Injective(fetched)
    ensures var m' := RefreshSpotMap(m, fetched);
      && Valid(m')
      && (forall i :: 0 <= i < |fetched| ==> GetByLeft(m', fetched[i].0) == Some(fetched[i].1))
      && (forall k :: k !in Lefts(fetched) ==>
            (k in m'.fwd <==> k in m.fwd && IsPerp(k) && m.fwd[k] !in Rights(fetched)))
  {
    RetainEffect(m, IsPerp);
    InsertAllEffect(Retain(m, IsPerp), fetched);
  }

  /** The pairs of a valid bimap, in some order. */
  predicate Enumerates(pairs: seq<Pair>, m: BiMap)
  {
    && Injective(pairs)
    && (forall i :: 0 <= i < |pairs| ==> pairs[i].0 in m.fwd && m.fwd[pairs[i].0] == pairs[i].1)
    && (forall l :: l in m.fwd ==> exists i :: 0 <= i < |pairs| && pairs[i].0 == l)
  }

  /**
   * The universe manager's shared state. The two polling tasks each
   * replace their universe and their half of the map; lookups translate
   * in either direction.
   */
  class UniverseManager {
    var perpUniverse: seq<Sym>
    var spotUniverse: seq<Sym>
    var symbolMap: BiMap

    /**
     * `UniverseManager::new` after both initial fetches: each successful
     * extraction replaces its universe, and the map keeps whatever
     * extraction inserted, even when it failed part-way.
     */
    constructor(perpMeta: Option<seq<PerpAsset>>, spotMeta: Option<(seq<SpotToken>, seq<SpotAsset>)>)
      ensures var m1 := if perpMeta.Some? then ExtractPerp(perpMeta.value, Empty()).1 else Empty();
        && symbolMap == (if spotMeta.Some? then ExtractSpot(spotMeta.value.0, spotMeta.value.1, m1).1 else m1)
        && perpUniverse == (if perpMeta.Some? && ExtractPerp(perpMeta.value, Empty()).0.Success?
                            then ExtractPerp(perpMeta.value, Empty()).0.value else [])
        && spotUniverse == (if spotMeta.Some? && ExtractSpot(spotMeta.value.0, spotMeta.value.1, m1).0.Success?
                            then ExtractSpot(spotMeta.value.0, spotMeta.value.1, m1).0.value else [])
    {
      perpUniverse := [];
      spotUniverse := [];
      symbolMap := Empty();
      new;
      if perpMeta.Some? {
        var (r, m) := ExtractPerp(perpMeta.value, symbolMap);
        symbolMap := m;
        if r.Success? {
          perpUniverse := r.value;
        }
      }
      if spotMeta.Some? {
        var (r, m) := ExtractSpot(spotMeta.value.0, spotMeta.value.1, symbolMap);
        symbolMap := m;
        if r.Success? {
          spotUniverse := r.value;
        }
      }
    }

    /**
     * One tick of the perpetual polling task: extract into a fetched map; on
     * success replace the universe, drop the "_PERP" entries and insert
     * the fetched pairs (`fetched` is the order the fetched map yields them in).
     */
    method RefreshPerp(universe: seq<PerpAsset>, fetched: seq<Pair>)
      requires Enumerates(fetched, ExtractPerp(universe, Empty()).1)
      modifies this
      ensures ExtractPerp(universe, Empty()).0.Failure? ==>
        perpUniverse == old(perpUniverse) && symbolMap == old(symbolMap)
      ensures ExtractPerp(universe, Empty()).0.Success? ==>
        perpUniverse == ExtractPerp(universe, Empty()).0.value
        && symbolMap == RefreshPerpMap(old(symbolMap), fetched)
      ensures spotUniverse == old(spotUniverse)
    {
      var (r, temp) := ExtractPerp(universe, Empty());
      if r.Success? {
        perpUniverse := r.value;
        symbolMap := Retain(symbolMap, IsNotPerp);
        var i := 0;
        assert fetched[0..] == fetched;
        while i < |fetched|
          invariant 0 <= i <= |fetched|
          invariant InsertAll(symbolMap, fetched[i..]) == RefreshPerpMap(old(symbolMap), fetched)
          invariant perpUniverse == r.value && spotUniverse == old(spotUniverse)
        {
          assert fetched[i..][1..] == fetched[i + 1..];
          symbolMap := Insert(symbolMap, fetched[i].0, fetched[i].1);
          i := i + 1;
        }
        assert fetched[i..] == [];
      }
    }

    /** One tick of the spot polling task. */
    method RefreshSpot(tokens: seq<SpotToken>, universe: seq<SpotAsset>, fetched: seq<Pair>)
      requires Enumerates(fetched, ExtractSpot(tokens, universe, Empty()).1)
      modifies this
      ensures ExtractSpot(tokens, universe, Empty()).0.Failure? ==>
        spotUniverse == old(spotUniverse) && symbolMap == old(symbolMap)
      ensures ExtractSpot(tokens, universe, Empty()).0.Success? ==>
        spotUniverse == ExtractSpot(tokens, universe, Empty()).0.value
        && symbolMap == RefreshSpotMap(old(symbolMap), fetched)
      ensures perpUniverse == old(perpUniverse)
    {
      var (r, temp) := ExtractSpot(tokens, universe, Empty());
      if r.Success? {
        spotUniverse := r.value;
        symbolMap := Retain(symbolMap, IsPerp);
        var i := 0;
        assert fetched[0..] == fetched;
        while i < |fetched|
          invariant 0 <= i <= |fetched|
          invariant InsertAll(symbolMap, fetched[i..]) == RefreshSpotMap(old(symbolMap), fetched)
          invariant spotUniverse == r.value && perpUniverse == old(perpUniverse)
        {
          assert fetched[i..][1..] == fetched[i + 1..];
          symbolMap := Insert(symbolMap, fetched[i].0, fetched[i].1);
          i := i + 1;
        }
        assert fetched[i..] == [];
      }
    }

    /** `translate_to_hyperliquid` is `get_by_left`. */
    function TranslateToHyperliquid(normalized: Sym): Option<Sym>
      reads this
    {
      GetByLeft(symbolMap, normalized)
    }

    /** `translate_to_normalized` is `get_by_right`. */
    function TranslateToNormalized(native: Sym): Option<Sym>
      reads this
    {
      GetByRight(symbolMap, native)
    }
  }

  /** While the map is a bijection, the two translations undo each other. */
  lemma TranslationsInverse(m: UniverseManager, normalized: Sym, native: Sym)
    requires Valid(m.symbolMap)
    ensures m.TranslateToHyperliquid(normalized) == Some(native) <==> m.TranslateToNormalized(native) == Some(normalized)
  {
    GetInverse(m.symbolMap, normalized, native);
  }
}
