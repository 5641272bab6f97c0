/**
 * The Hyperliquid publisher's bookkeeping. Webstream workers publish to
 * versioned staging paths ("argus/tmp/hyperliquid/perp_3/bbo/BTC_PERP");
 * relays copy each staging stream to a stable consumer path
 * ("{agora_path}/perp/bbo/BTC_PERP"). When the symbol universe changes the
 * version goes up by one, new workers start on the new staging prefix and
 * every relay is swapped onto it. Relay creation and `swapon` are network
 * calls; their outcomes are inputs.
 */
module HyperliquidPublisher {
  import opened Wrappers
  import opened Strings
  import opened ArgusTypes
  import opened BiMaps

  const RELAY_BATCH_SIZE: nat := 10

  // ---------------------------------------------------------------------
  // Staging prefixes
  // ---------------------------------------------------------------------

  function SpotPrefix(version: nat): string
  {
    "argus/tmp/hyperliquid/spot_" + NatToString(version)
  }

  function PerpPrefix(version: nat): string
  {
    "argus/tmp/hyperliquid/perp_" + NatToString(version)
  }

  /** A spot staging prefix is never a perpetual one, and each version has its own prefix. */
  lemma PrefixesDistinct(v: nat, w: nat)
    ensures SpotPrefix(v) != PerpPrefix(w)
    ensures SpotPrefix(v) == SpotPrefix(w) ==> v == w
    ensures PerpPrefix(v) == PerpPrefix(w) ==> v == w
  {
    assert SpotPrefix(v)[22] == 's' && PerpPrefix(w)[22] == 'p';
    assert SpotPrefix(v)[27..] == NatToString(v) && SpotPrefix(w)[27..] == NatToString(w);
    assert PerpPrefix(v)[27..] == NatToString(v) && PerpPrefix(w)[27..] == NatToString(w);
    if SpotPrefix(v) == SpotPrefix(w) || PerpPrefix(v) == PerpPrefix(w) {
      NatToStringInjective(v, w);
    }
  }

  /** The staging prefix a relay set reads from: the spot one exactly for the "spot" market. */
  function VersionedPrefix(marketType: string, version: nat): string
  {
    if marketType == "spot" then SpotPrefix(version) else PerpPrefix(version)
  }

  lemma SpotPrefixIffSpot(marketType: string, version: nat)
    ensures VersionedPrefix(marketType, version) == SpotPrefix(version) <==> marketType == "spot"
    ensures VersionedPrefix(marketType, version) == PerpPrefix(version) <==> marketType != "spot"
  {
    PrefixesDistinct(version, version);
  }

  // ---------------------------------------------------------------------
  // Translation for the workers
  // ---------------------------------------------------------------------

  /** `translate_normalized_to_hyperliquid`: each symbol through `get_by_left`, unmapped ones unchanged. */
  function ToHyperliquid(symbols: seq<Sym>, m: BiMap): (r: seq<Sym>)
    ensures |r| == |symbols|
    ensures forall i :: 0 <= i < |symbols| ==> r[i] == LeftOrSelf(m, symbols[i])
  {
    if symbols == [] then [] else [LeftOrSelf(m, symbols[0])] + ToHyperliquid(symbols[1..], m)
  }

  /**
   * The workers translate each exchange name back with `get_by_right`; for
   * mapped symbols this recovers the universe the publisher started from.
   */
  lemma ToHyperliquidRoundTrip(symbols: seq<Sym>, m: BiMap)
    requires Valid(m)
    requires forall i :: 0 <= i < |symbols| ==> symbols[i] in m.fwd
    ensures var h := ToHyperliquid(symbols, m);
      forall i :: 0 <= i < |symbols| ==> RightOrSelf(m, h[i]) == symbols[i]
  {
    forall i | 0 <= i < |symbols| ensures RightOrSelf(m, ToHyperliquid(symbols, m)[i]) == symbols[i] {
      FallbackRoundTrip(m, symbols[i]);
    }
  }

  // ---------------------------------------------------------------------
  // Universe difference and the version rule
  // ---------------------------------------------------------------------

  function Members(xs: seq<Sym>): set<Sym>
  {
    set x | x in xs
  }

  /** The elements of `xs` that are not in the set `other`, in the order of `xs`. */
  function Missing(xs: seq<Sym>, other: set<Sym>): (r: seq<Sym>)
    ensures |r| <= |xs|
    ensures forall s :: s in r <==> s in xs && s !in other
  {
    if xs == [] then []
    else (if xs[0] in other then [] else [xs[0]]) + Missing(xs[1..], other)
  }

  /** The filter keeps order: it distributes over concatenation. */
  lemma {:induction false} MissingAppend(a: seq<Sym>, b: seq<Sym>, other: set<Sym>)
    ensures Missing(a + b, other) == Missing(a, other) + Missing(b, other)
  {
    if a == [] {
      assert a + b == b;
    } else {
      assert (a + b)[1..] == a[1..] + b;
      MissingAppend(a[1..], b, other);
    }
  }

  /** A list that meets nothing of the set passes through whole. */
  lemma {:induction false} MissingDisjoint(xs: seq<Sym>, other: set<Sym>)
    requires forall i :: 0 <= i < |xs| ==> xs[i] !in other
    ensures Missing(xs, other) == xs
  {
    if xs != [] {
      MissingDisjoint(xs[1..], other);
    }
  }

  /**
   * `universe_difference(original, new)`: the added symbols in the new
   * universe's order and the removed ones in the original's order, each
   * filtered against the other side's set.
   */
  function UniverseDifference(original: seq<Sym>, updated: seq<Sym>): (seq<Sym>, seq<Sym>)
  {
    (Missing(updated, Members(original)), Missing(original, Members(updated)))
  }

  /** Comparing a universe with itself finds nothing. */
  lemma DifferenceSelf(u: seq<Sym>)
    ensures UniverseDifference(u, u) == ([], [])
  {
    MissingNone(u, Members(u));
  }

  lemma {:induction false} MissingNone(xs: seq<Sym>, other: set<Sym>)
    requires forall i :: 0 <= i < |xs| ==> xs[i] in other
    ensures Missing(xs, other) == []
  {
    if xs != [] {
      MissingNone(xs[1..], other);
    }
  }

  /** Both lists are empty exactly when the two universes hold the same symbols. */
  predicate Changed(original: seq<Sym>, updated: seq<Sym>)
  {
    var (added, removed) := UniverseDifference(original, updated);
    added != [] || removed != []
  }

  lemma ChangedIffMembersDiffer(original: seq<Sym>, updated: seq<Sym>)
    ensures Changed(original, updated) <==> Members(original) != Members(updated)
  {
    var (added, removed) := UniverseDifference(original, updated);
    if Members(original) != Members(updated) {
      if x :| x in Members(original) && x !in Members(updated) {
        assert x in removed;
      } else {
        var y :| y in Members(updated) && y !in Members(original);
        assert y in added;
      }
    }
    if added != [] {
      assert added[0] in added;
      assert added[0] in Members(updated) && added[0] !in Members(original);
    }
    if removed != [] {
      assert removed[0] in removed;
      assert removed[0] in Members(original) && removed[0] !in Members(updated);
    }
  }

  /**
   * The polling loop of `HyperliquidPublisher::new`: it remembers the last
   * universes it bumped to and the version; a check bumps the version by
   * one and adopts the new universes exactly when either market changed.
   * Relay errors during the bump are only logged, so they do not affect it.
   */
  class Supervisor {
    var version: nat
    var currentSpot: seq<Sym>
    var currentPerp: seq<Sym>

    constructor(spot: seq<Sym>, perp: seq<Sym>)
      ensures version == 0 && currentSpot == spot && currentPerp == perp
    {
      version := 0;
      currentSpot := spot;
      currentPerp := perp;
    }

    method Check(newSpot: seq<Sym>, newPerp: seq<Sym>) returns (changed: bool)
      modifies this
      ensures changed <==> Members(old(currentSpot)) != Members(newSpot) || Members(old(currentPerp)) != Members(newPerp)
      ensures changed ==> version == old(version) + 1 && currentSpot == newSpot && currentPerp == newPerp
      ensures !changed ==> version == old(version) && currentSpot == old(currentSpot) && currentPerp == old(currentPerp)
    {
      var (addedSpot, removedSpot) := UniverseDifference(currentSpot, newSpot);
      var (addedPerp, removedPerp) := UniverseDifference(currentPerp, newPerp);
      ChangedIffMembersDiffer(currentSpot, newSpot);
      ChangedIffMembersDiffer(currentPerp, newPerp);
      changed := addedSpot != [] || removedSpot != [] || addedPerp != [] || removedPerp != [];
      if changed {
        version := version + 1;
        currentPerp := newPerp;
        currentSpot := newSpot;
      }
    }
  }

  /** Polling the same universes again never bumps the version. */
  lemma SameUniverseNoBump(spot: seq<Sym>, perp: seq<Sym>)
    ensures !Changed(spot, spot) && !Changed(perp, perp)
  {
    DifferenceSelf(spot);
    DifferenceSelf(perp);
  }

  // ---------------------------------------------------------------------
  // Relay sets
  // ---------------------------------------------------------------------

  /** A relay: the symbol it carries, its fixed destination and its current source, if any. */
  datatype Relay = Relay(name: string, dest: string, source: Option<string>)

  /** "{prefix}/{market}/{payload}/{symbol}", the stable consumer path. */
  function DestPath(prefix: string, marketType: string, payload: string, s: Sym): string
  {
    prefix + "/" + marketType + "/" + payload + "/" + s.name
  }

  /** "{versioned prefix}/{payload}/{symbol}", where the current worker publishes. */
  function SourcePath(versioned: string, payload: string, s: Sym): string
  {
    versioned + "/" + payload + "/" + s.name
  }

  /** Different symbols get different consumer paths under the same prefix. */
  lemma DestPathInjective(prefix: string, marketType: string, payload: string, s: Sym, t: Sym)
    requires DestPath(prefix, marketType, payload, s) == DestPath(prefix, marketType, payload, t)
    ensures s == t
  {
    var head := prefix + "/" + marketType + "/" + payload + "/";
    assert DestPath(prefix, marketType, payload, s) == head + s.name;
    assert DestPath(prefix, marketType, payload, t) == head + t.name;
    assert s.name == (head + s.name)[|head|..];
    assert t.name == (head + t.name)[|head|..];
  }

  /** A relay as `Relay::new` leaves it: destination set, no source yet. */
  function NewRelay(prefix: string, marketType: string, payload: string, s: Sym): Relay
  {
    Relay(s.name, DestPath(prefix, marketType, payload, s), None)
  }

  /** The relays of a freshly built set: one per distinct symbol. */
  function InitialRelays(prefix: string, marketType: string, payload: string, symbols: seq<Sym>): map<Sym, Relay>
  {
    map s | s in symbols :: NewRelay(prefix, marketType, payload, s)
  }

  lemma InitialRelaysSnoc(prefix: string, marketType: string, payload: string, symbols: seq<Sym>, s: Sym)
    ensures InitialRelays(prefix, marketType, payload, symbols + [s])
         == InitialRelays(prefix, marketType, payload, symbols)[s := NewRelay(prefix, marketType, payload, s)]
  {
  }

  lemma WellFormedUpdate(relays: map<Sym, Relay>, prefix: string, marketType: string, payload: string, s: Sym, r: Relay)
    requires WellFormed(relays, prefix, marketType, payload)
    requires r.name == s.name && r.dest == DestPath(prefix, marketType, payload, s)
    ensures WellFormed(relays[s := r], prefix, marketType, payload)
  {
  }

  /** The number of batches of at most ten symbols. */
  function Batches(n: nat): nat
  {
    (n + RELAY_BATCH_SIZE - 1) / RELAY_BATCH_SIZE
  }

  /** The batches cover the symbols, and only the last one can be partial. */
  lemma BatchesCover(n: nat)
    ensures n <= Batches(n) * RELAY_BATCH_SIZE
    ensures n > 0 ==> (Batches(n) - 1) * RELAY_BATCH_SIZE < n
    ensures n == 0 <==> Batches(n) == 0
  {
  }

  /** The first refusal among the calls made for `symbols`, in order. */
  function FirstRefusal(symbols: seq<Sym>, outcome: Sym -> Result<Unit>): (r: Option<string>)
    ensures r.None? <==> forall i :: 0 <= i < |symbols| ==> outcome(symbols[i]).Success?
  {
    if symbols == [] then None
    else if outcome(symbols[0]).Failure? then Some(outcome(symbols[0]).error)
    else FirstRefusal(symbols[1..], outcome)
  }

  lemma FirstRefusalAppend(a: seq<Sym>, b: seq<Sym>, outcome: Sym -> Result<Unit>)
    requires FirstRefusal(a, outcome).None?
    ensures FirstRefusal(a + b, outcome) == FirstRefusal(b, outcome)
  {
    if a == [] {
      assert a + b == b;
    } else {
      assert (a + b)[1..] == a[1..] + b;
      FirstRefusalAppend(a[1..], b, outcome);
    }
  }

  /** The symbols taken in turn before the first refused one: all of them when none is refused. */
  function Accepted(symbols: seq<Sym>, outcome: Sym -> Result<Unit>): (r: seq<Sym>)
    ensures r <= symbols
    ensures FirstRefusal(r, outcome).None?
    ensures FirstRefusal(symbols, outcome).None? ==> r == symbols
    ensures FirstRefusal(symbols, outcome).Some? ==>
              |r| < |symbols| && outcome(symbols[|r|]).Failure?
              && FirstRefusal(symbols, outcome) == Some(outcome(symbols[|r|]).error)
  {
    if symbols == [] then []
    else if outcome(symbols[0]).Failure? then []
    else [symbols[0]] + Accepted(symbols[1..], outcome)
  }

  /** The prefix before a refusal that follows only successes is exactly the accepted one. */
  lemma {:induction false} AcceptedAt(symbols: seq<Sym>, j: nat, outcome: Sym -> Result<Unit>)
    requires j < |symbols| && FirstRefusal(symbols[..j], outcome).None? && outcome(symbols[j]).Failure?
    ensures Accepted(symbols, outcome) == symbols[..j]
  {
    if j > 0 {
      assert symbols[..j][0] == symbols[0];
      assert symbols[..j][1..] == symbols[1..][..j - 1];
      AcceptedAt(symbols[1..], j - 1, outcome);
      assert symbols[..j] == [symbols[0]] + symbols[1..][..j - 1];
    }
  }

  /** Every relay carries its own symbol to that symbol's consumer path. */
  predicate WellFormed(relays: map<Sym, Relay>, prefix: string, marketType: string, payload: string)
  {
    forall s :: s in relays ==> relays[s].name == s.name && relays[s].dest == DestPath(prefix, marketType, payload, s)
  }

  /**
   * How a bump ends: the first relay that cannot be created for an added
   * symbol, else the first relay of the new universe that cannot swap
   * sources, else success.
   */
  function BumpOutcome(relays: map<Sym, Relay>, universe: seq<Sym>,
                       create: Sym -> Result<Unit>, swap: Sym -> Result<Unit>): Result<Unit>
  {
    match FirstRefusal(Missing(universe, relays.Keys), create)
    case Some(e) => Failure(e)
    case None =>
      match FirstRefusal(universe, swap)
      case Some(e) => Failure(e)
      case None => Success(Unit)
  }

  /** The relays after a successful bump: exactly the new universe, every relay reading the new version. */
  function Bumped(relays: map<Sym, Relay>, universe: seq<Sym>, versioned: string, prefix: string,
                  marketType: string, payload: string): map<Sym, Relay>
  {
    map s | s in universe ::
      (if s in relays then relays[s] else NewRelay(prefix, marketType, payload, s))
        .(source := Some(SourcePath(versioned, payload, s)))
  }

  /** The relays after the swap step has reached the symbols `done`. */
  function Swapped(relays: map<Sym, Relay>, done: seq<Sym>, versioned: string, payload: string): map<Sym, Relay>
  {
    map s | s in relays :: if s in done then relays[s].(source := Some(SourcePath(versioned, payload, s))) else relays[s]
  }

  /** Creating, then swapping, then dropping yields the bumped relays. */
  lemma BumpComposes(relays: map<Sym, Relay>, universe: seq<Sym>, versioned: string, prefix: string,
                     marketType: string, payload: string, gone: set<Sym>)
    requires gone == relays.Keys - Members(universe)
    ensures var created := relays + InitialRelays(prefix, marketType, payload, Missing(universe, relays.Keys));
      Swapped(created, universe, versioned, payload) - gone == Bumped(relays, universe, versioned, prefix, marketType, payload)
  {
    var created := relays + InitialRelays(prefix, marketType, payload, Missing(universe, relays.Keys));
    var lhs := Swapped(created, universe, versioned, payload) - gone;
    var rhs := Bumped(relays, universe, versioned, prefix, marketType, payload);
    assert lhs.Keys == rhs.Keys;
    forall s | s in lhs
      ensures lhs[s] == rhs[s]
    {
    }
  }

  /**
   * After a bump the relays are keyed by exactly the new universe's
   * symbols, each still carrying its own symbol to its consumer path and
   * now reading from the new staging prefix.
   */
  lemma BumpedShape(relays: map<Sym, Relay>, universe: seq<Sym>, version: nat, prefix: string,
                    marketType: string, payload: string)
    requires WellFormed(relays, prefix, marketType, payload)
    ensures var b := Bumped(relays, universe, VersionedPrefix(marketType, version), prefix, marketType, payload);
      && b.Keys == Members(universe)
      && WellFormed(b, prefix, marketType, payload)
      && forall s :: s in b ==> b[s].source == Some(SourcePath(VersionedPrefix(marketType, version), payload, s))
  {
  }

  /** A relay of a symbol that stays keeps its destination; only its source moves. */
  lemma BumpedKeepsDest(relays: map<Sym, Relay>, universe: seq<Sym>, versioned: string, prefix: string,
                        marketType: string, payload: string, s: Sym)
    requires s in relays && s in universe
    ensures var b := Bumped(relays, universe, versioned, prefix, marketType, payload);
      b[s].name == relays[s].name && b[s].dest == relays[s].dest
  {
  }

  /** Bumping twice to the same universe and version is the same as bumping once. */
  lemma BumpedIdempotent(relays: map<Sym, Relay>, universe: seq<Sym>, versioned: string, prefix: string,
                         marketType: string, payload: string)
    ensures var b := Bumped(relays, universe, versioned, prefix, marketType, payload);
      Bumped(b, universe, versioned, prefix, marketType, payload) == b
  {
  }

  /**
   * `TypedRelaySet<T>`: the relays of one payload type (trades, bbo, …) of
   * one market, keyed by normalised symbol. The payload type's identifier
   * is a field here.
   */
  class TypedRelaySet {
    var relays: map<Sym, Relay>
    const marketType: string
    const agoraPrefix: string
    const payload: string

    predicate Valid()
      reads this
    {
      WellFormed(relays, agoraPrefix, marketType, payload)
    }

    constructor Empty(marketType: string, agoraPrefix: string, payload: string)
      ensures this.marketType == marketType && this.agoraPrefix == agoraPrefix && this.payload == payload
      ensures relays == map[] && Valid()
    {
      this.marketType := marketType;
      this.agoraPrefix := agoraPrefix;
      this.payload := payload;
      relays := map[];
    }

    /**
     * `TypedRelaySet::new`: one relay per symbol, created in batches of
     * ten with a pause between consecutive batches (counted in `pauses`);
     * the first relay that cannot be created aborts with its error.
     */
    static method New(marketType: string, symbols: seq<Sym>, agoraPrefix: string, payload: string,
                      connect: Sym -> Result<Unit>)
      returns (r: Result<TypedRelaySet>, pauses: nat)
      ensures r.Failure? <==> FirstRefusal(symbols, connect).Some?
      ensures r.Failure? ==> r.error == FirstRefusal(symbols, connect).value
      ensures r.Success? ==>
        && fresh(r.value) && r.value.Valid()
        && r.value.marketType == marketType && r.value.agoraPrefix == agoraPrefix && r.value.payload == payload
        && r.value.relays == InitialRelays(agoraPrefix, marketType, payload, symbols)
        && pauses == (if symbols == [] then 0 else Batches(|symbols|) - 1)
    {
      var rs := new TypedRelaySet.Empty(marketType, agoraPrefix, payload);
      var n := |symbols|;
      var batch, start := 0, 0;
      pauses := 0;
      while start < n
        invariant start <= n && batch <= Batches(n)
        invariant start < n ==> start == batch * RELAY_BATCH_SIZE && batch < Batches(n)
        invariant start == n ==> batch == Batches(n)
        invariant FirstRefusal(symbols[..start], connect).None?
        invariant rs.relays == InitialRelays(agoraPrefix, marketType, payload, symbols[..start])
        invariant pauses == (if batch == Batches(n) && batch > 0 then batch - 1 else batch)
        invariant rs.marketType == marketType && rs.agoraPrefix == agoraPrefix && rs.payload == payload
        invariant fresh(rs) && rs.Valid()
        decreases n - start
      {
        BatchStep(n, batch);
        var end := if start + RELAY_BATCH_SIZE < n then start + RELAY_BATCH_SIZE else n;
        var refusal := rs.AddRelays(symbols[start..end], connect);
        FirstRefusalSplit(symbols, start, end, connect);
        if refusal.Some? {
          return Failure(refusal.value), pauses;
        }
        InitialRelaysSplit(agoraPrefix, marketType, payload, symbols, start, end);
        if batch < (n + RELAY_BATCH_SIZE - 1) / RELAY_BATCH_SIZE - 1 {
          pauses := pauses + 1;
        }
        batch, start := batch + 1, end;
      }
      assert symbols[..n] == symbols;
      return Success(rs), pauses;
    }

    /**
     * A relay for each of `symbols`, in order (`Relay::new` then
     * `relays.insert`), stopping at the first refusal.
     */
    method AddRelays(symbols: seq<Sym>, connect: Sym -> Result<Unit>) returns (refusal: Option<string>)
      requires Valid()
      modifies this
      ensures Valid()
      ensures refusal == FirstRefusal(symbols, connect)
      ensures relays == old(relays) + InitialRelays(agoraPrefix, marketType, payload, Accepted(symbols, connect))
    {
      var j := 0;
      assert old(relays) + InitialRelays(agoraPrefix, marketType, payload, symbols[..0]) == old(relays);
      while j < |symbols|
        invariant j <= |symbols| && Valid()
        invariant FirstRefusal(symbols[..j], connect).None?
        invariant relays == old(relays) + InitialRelays(agoraPrefix, marketType, payload, symbols[..j])
      {
        var s := symbols[j];
        match connect(s)
        case Failure(e) =>
          RefusalAt(symbols, j, connect);
          AcceptedAt(symbols, j, connect);
          return Some(e);
        case Success(_) =>
        WellFormedUpdate(relays, agoraPrefix, marketType, payload, s, NewRelay(agoraPrefix, marketType, payload, s));
        AddRelayStep(old(relays), relays, agoraPrefix, marketType, payload, symbols, j, connect);
        relays := relays[s := NewRelay(agoraPrefix, marketType, payload, s)];
        j := j + 1;
      }
      assert symbols[..j] == symbols;
      return None;
    }

    /** The relay keys in the map's own iteration order, which the model leaves open. */
    method Keys() returns (keys: seq<Sym>)
      ensures Members(keys) == relays.Keys
    {
      keys := [];
      var rest := relays.Keys;
      while rest != {}
        invariant Members(keys) + rest == relays.Keys
        decreases rest
      {
        var k :| k in rest;
        keys := keys + [k];
        rest := rest - {k};
      }
    }

    /**
     * `bump(new_universe, version)`: create relays for the added symbols,
     * swap every relay of the new universe onto the new staging prefix,
     * then drop the relays of removed symbols. The first refused network
     * call ends the bump with its error, leaving the changes made so far.
     */
    method Bump(universe: seq<Sym>, version: nat, create: Sym -> Result<Unit>, swap: Sym -> Result<Unit>)
      returns (r: Result<Unit>)
      requires Valid()
      modifies this
      ensures Valid()
      ensures r == BumpOutcome(old(relays), universe, create, swap)
      ensures r.Success? ==>
        relays == Bumped(old(relays), universe, VersionedPrefix(marketType, version), agoraPrefix, marketType, payload)
      ensures FirstRefusal(Missing(universe, old(relays).Keys), create).Some? ==>
        relays == old(relays) + InitialRelays(agoraPrefix, marketType, payload, Accepted(Missing(universe, old(relays).Keys), create))
      ensures FirstRefusal(Missing(universe, old(relays).Keys), create).None? && FirstRefusal(universe, swap).Some? ==>
        relays == Swapped(old(relays) + InitialRelays(agoraPrefix, marketType, payload, Missing(universe, old(relays).Keys)),
                          Accepted(universe, swap), VersionedPrefix(marketType, version), payload)
    {
      var current := Keys();
      var (added, removed) := UniverseDifference(current, universe);
      assert added == Missing(universe, old(relays).Keys);
      var versioned := VersionedPrefix(marketType, version);

      var refusal := AddRelays(added, create);
      if refusal.Some? {
        return Failure(refusal.value);
      }
      refusal := SwapOn(universe, versioned, swap);
      if refusal.Some? {
        return Failure(refusal.value);
      }
      assert Members(removed) == old(relays).Keys - Members(universe);
      Drop(removed);
      BumpComposes(old(relays), universe, versioned, agoraPrefix, marketType, payload, Members(removed));
      return Success(Unit);
    }

    /** The `swapon` loop: each symbol of `universe` that has a relay is pointed at its staging path. */
    method SwapOn(universe: seq<Sym>, versioned: string, swap: Sym -> Result<Unit>) returns (refusal: Option<string>)
      requires Valid()
      requires forall i :: 0 <= i < |universe| ==> universe[i] in relays
      modifies this
      ensures Valid()
      ensures refusal == FirstRefusal(universe, swap)
      ensures relays == Swapped(old(relays), Accepted(universe, swap), versioned, payload)
    {
      var i := 0;
      assert Swapped(old(relays), universe[..0], versioned, payload) == old(relays);
      while i < |universe|
        invariant i <= |universe| && Valid()
        invariant FirstRefusal(universe[..i], swap).None?
        invariant relays == Swapped(old(relays), universe[..i], versioned, payload)
      {
        var s := universe[i];
        if s in relays {
          match swap(s)
          case Failure(e) =>
            RefusalAt(universe, i, swap);
            AcceptedAt(universe, i, swap);
            return Some(e);
          case Success(_) =>
          WellFormedUpdate(relays, agoraPrefix, marketType, payload, s, relays[s].(source := Some(SourcePath(versioned, payload, s))));
          relays := relays[s := relays[s].(source := Some(SourcePath(versioned, payload, s)))];
        }
        SwapStep(old(relays), universe, i, versioned, payload, swap);
        i := i + 1;
      }
      assert universe[..i] == universe;
      return None;
    }

    /** The removal loop: the relays of `removed` are dropped. */
    method Drop(removed: seq<Sym>)
      requires Valid()
      modifies this
      ensures Valid()
      ensures relays == old(relays) - Members(removed)
    {
      var i := 0;
      while i < |removed|
        invariant i <= |removed| && Valid()
        invariant relays == old(relays) - Members(removed[..i])
      {
        relays := relays - {removed[i]};
        assert removed[..i + 1] == removed[..i] + [removed[i]];
        i := i + 1;
      }
      assert removed[..i] == removed;
    }
  }

  /** Batch arithmetic: a batch starting before the end is not the last unless it reaches the end. */
  lemma BatchStep(n: nat, batch: nat)
    requires batch * RELAY_BATCH_SIZE < n
    ensures batch < Batches(n)
    ensures batch * RELAY_BATCH_SIZE + RELAY_BATCH_SIZE < n ==> batch + 1 < Batches(n)
    ensures batch * RELAY_BATCH_SIZE + RELAY_BATCH_SIZE >= n ==> batch + 1 == Batches(n)
  {
  }

  /** The first refusal over a slice, given none before it. */
  lemma FirstRefusalSplit(symbols: seq<Sym>, start: nat, end: nat, connect: Sym -> Result<Unit>)
    requires start <= end <= |symbols| && FirstRefusal(symbols[..start], connect).None?
    ensures FirstRefusal(symbols[start..end], connect).Some? ==>
      FirstRefusal(symbols, connect) == FirstRefusal(symbols[start..end], connect)
    ensures FirstRefusal(symbols[start..end], connect).None? ==> FirstRefusal(symbols[..end], connect).None?
  {
    assert symbols[..end] == symbols[..start] + symbols[start..end];
    FirstRefusalAppend(symbols[..start], symbols[start..end], connect);
    if FirstRefusal(symbols[start..end], connect).Some? {
      assert symbols == symbols[..end] + symbols[end..];
      FirstRefusalPrefix(symbols[..end], symbols[end..], connect);
    }
  }

  lemma FirstRefusalPrefix(a: seq<Sym>, b: seq<Sym>, outcome: Sym -> Result<Unit>)
    requires FirstRefusal(a, outcome).Some?
    ensures FirstRefusal(a + b, outcome) == FirstRefusal(a, outcome)
  {
    if outcome(a[0]).Success? {
      assert (a + b)[1..] == a[1..] + b;
      FirstRefusalPrefix(a[1..], b, outcome);
    }
  }

  lemma InitialRelaysSplit(prefix: string, marketType: string, payload: string, symbols: seq<Sym>, start: nat, end: nat)
    requires start <= end <= |symbols|
    ensures InitialRelays(prefix, marketType, payload, symbols[..start]) + InitialRelays(prefix, marketType, payload, symbols[start..end])
         == InitialRelays(prefix, marketType, payload, symbols[..end])
  {
    assert symbols[..end] == symbols[..start] + symbols[start..end];
  }

  /** A refusal at position `j`, after none before it, is the first refusal. */
  /** One more created relay extends the relays created so far by that symbol's relay. */
  lemma AddRelayStep(base: map<Sym, Relay>, current: map<Sym, Relay>, prefix: string, marketType: string,
                     payload: string, symbols: seq<Sym>, j: nat, connect: Sym -> Result<Unit>)
    requires j < |symbols| && current == base + InitialRelays(prefix, marketType, payload, symbols[..j])
    requires FirstRefusal(symbols[..j], connect).None? && connect(symbols[j]).Success?
    ensures current[symbols[j] := NewRelay(prefix, marketType, payload, symbols[j])]
         == base + InitialRelays(prefix, marketType, payload, symbols[..j + 1])
    ensures FirstRefusal(symbols[..j + 1], connect).None?
  {
    assert symbols[..j + 1] == symbols[..j] + [symbols[j]];
    InitialRelaysSnoc(prefix, marketType, payload, symbols[..j], symbols[j]);
  }

  /** One more symbol of the universe swapped, when it has a relay. */
  lemma SwapStep(base: map<Sym, Relay>, universe: seq<Sym>, i: nat, versioned: string, payload: string,
                 swap: Sym -> Result<Unit>)
    requires i < |universe|
    ensures var s := universe[i];
      var current := Swapped(base, universe[..i], versioned, payload);
      Swapped(base, universe[..i + 1], versioned, payload)
        == (if s in current then current[s := current[s].(source := Some(SourcePath(versioned, payload, s)))] else current)
    ensures FirstRefusal(universe[..i], swap).None? && swap(universe[i]).Success? ==>
      FirstRefusal(universe[..i + 1], swap).None?
  {
    assert universe[..i + 1] == universe[..i] + [universe[i]];
  }

  lemma RefusalAt(symbols: seq<Sym>, j: nat, connect: Sym -> Result<Unit>)
    requires j < |symbols| && FirstRefusal(symbols[..j], connect).None? && connect(symbols[j]).Failure?
    ensures FirstRefusal(symbols, connect) == Some(connect(symbols[j]).error)
  {
    assert symbols == symbols[..j] + symbols[j..];
    FirstRefusalAppend(symbols[..j], symbols[j..], connect);
  }
}
