/**
 * The Hyperliquid webstream worker: one publisher per subscribed coin on
 * "{prefix}/{payload}/{normalised symbol}", and the decision, for each
 * incoming text frame, whether it is dropped or which publisher gets it.
 * The WebSocket connection, heartbeats and reconnects are left out; the
 * JSON of a frame is reduced to the fields the decision reads.
 */
module HyperliquidWebstream {
  import opened Wrappers
  import opened ArgusTypes
  import opened BiMaps
  import HyperliquidPublisher
  import opened Converters

  const MAX_SYMBOLS_PER_WORKER: nat := 1024

  const EMPTY_SYMBOLS := "HyperliquidWebstreamWorker error: symbols list cannot be empty"
  const TOO_MANY_SYMBOLS := "HyperliquidWebstreamWorker error: don't pass in more than 1024 tasks per worker"

  /** Each exchange symbol through `get_by_right`, falling back to the symbol itself. */
  function Normalized(symbols: seq<Sym>, m: BiMap): (r: seq<Sym>)
    ensures |r| == |symbols|
    ensures forall i :: 0 <= i < |symbols| ==> r[i] == RightOrSelf(m, symbols[i])
  {
    if symbols == [] then [] else [RightOrSelf(m, symbols[0])] + Normalized(symbols[1..], m)
  }

  /** "{prefix}/{payload}/{normalised}" for each normalised symbol, in order. */
  function AgoraPaths(prefix: string, payload: string, normalized: seq<Sym>): (r: seq<string>)
    ensures |r| == |normalized|
    ensures forall i :: 0 <= i < |normalized| ==> r[i] == HyperliquidPublisher.SourcePath(prefix, payload, normalized[i])
  {
    if normalized == [] then []
    else [prefix + "/" + payload + "/" + normalized[0].name] + AgoraPaths(prefix, payload, normalized[1..])
  }

  /** The names of the normalised symbols, the keys of the dispatch table. */
  function Names(normalized: seq<Sym>): (r: seq<string>)
    ensures |r| == |normalized| && forall i :: 0 <= i < |normalized| ==> r[i] == normalized[i].name
  {
    seq(|normalized|, i requires 0 <= i < |normalized| => normalized[i].name)
  }

  /** The normalised-name-to-publisher table; a name listed twice keeps its last position. */
  function IndexMap(normalized: seq<Sym>): (t: map<string, nat>)
    ensures forall k :: k in t <==> exists i :: 0 <= i < |normalized| && normalized[i].name == k
    ensures forall k :: k in t ==>
      && t[k] < |normalized| && normalized[t[k]].name == k
      && forall j :: t[k] < j < |normalized| ==> normalized[j].name != k
  {
    PositionMap(Names(normalized))
  }

  /** A running worker: its paths, the publishers in the same order, and the dispatch table. */
  datatype Worker = Worker(agoraPaths: seq<string>, normalized: seq<Sym>, publishers: seq<PublisherEntry>,
                           index: map<string, nat>)

  /**
   * `HyperliquidWebstreamWorker::new`: rejects an empty list and more
   * than 1024 symbols; otherwise normalises every symbol, derives one path
   * per symbol and registers a publisher for each, stopping at the first
   * refusal (`register` stands for `Publisher::new` on a path).
   */
  function WorkerOf(symbols: seq<Sym>, prefix: string, payload: string, m: BiMap,
                    register: string -> Result<Unit>): Result<Worker>
  {
    if symbols == [] then Failure(EMPTY_SYMBOLS)
    else if |symbols| > MAX_SYMBOLS_PER_WORKER then Failure(TOO_MANY_SYMBOLS)
    else
      var norm := Normalized(symbols, m);
      var paths := AgoraPaths(prefix, payload, norm);
      var publishers :- Collect(Entries(Names(norm), paths), Register(register));
      Success(Worker(paths, norm, publishers, IndexMap(norm)))
  }

  /**
   * A worker starts exactly for 1 to 1024 symbols whose publishers all
   * register; it then has one path and one publisher per symbol, in order,
   * the i-th on "{prefix}/{payload}/{normalised i-th symbol}".
   */
  lemma WorkerShape(symbols: seq<Sym>, prefix: string, payload: string, m: BiMap, register: string -> Result<Unit>)
    ensures var r := WorkerOf(symbols, prefix, payload, m, register);
      && (r.Success? <==> (0 < |symbols| <= MAX_SYMBOLS_PER_WORKER
           && forall i :: 0 <= i < |symbols| ==>
                register(HyperliquidPublisher.SourcePath(prefix, payload, RightOrSelf(m, symbols[i]))).Success?))
      && (r.Success? ==>
           && |r.value.agoraPaths| == |symbols| && |r.value.publishers| == |symbols|
           && r.value.index == IndexMap(r.value.normalized)
           && forall i :: 0 <= i < |symbols| ==>
                && r.value.normalized[i] == RightOrSelf(m, symbols[i])
                && r.value.agoraPaths[i] == HyperliquidPublisher.SourcePath(prefix, payload, r.value.normalized[i])
                && r.value.publishers[i] == PublisherEntry(r.value.normalized[i].name, r.value.agoraPaths[i]))
  {
    if 0 < |symbols| <= MAX_SYMBOLS_PER_WORKER {
      var norm := Normalized(symbols, m);
      var paths := AgoraPaths(prefix, payload, norm);
      var entries := Entries(Names(norm), paths);
      var collected := Collect(entries, Register(register));
      assert forall i :: 0 <= i < |symbols| ==>
        paths[i] == HyperliquidPublisher.SourcePath(prefix, payload, RightOrSelf(m, symbols[i]));
      RegisterAllShape(Names(norm), paths, register);
      if collected.Success? {
        assert WorkerOf(symbols, prefix, payload, m, register) == Success(Worker(paths, norm, entries, IndexMap(norm)));
      } else {
        assert WorkerOf(symbols, prefix, payload, m, register).Failure?;
      }
    }
  }

  /** The normalising loop of the constructor. */
  method NormalizeAll(symbols: seq<Sym>, m: BiMap) returns (normalized: seq<Sym>)
    ensures normalized == Normalized(symbols, m)
  {
    normalized := [];
    var i := 0;
    while i < |symbols|
      invariant i <= |symbols|
      invariant |normalized| == i
      invariant forall k :: 0 <= k < i ==> normalized[k] == RightOrSelf(m, symbols[k])
    {
      var s := symbols[i];
      if s in m.bwd {
        normalized := normalized + [m.bwd[s]];
      } else {
        normalized := normalized + [s];
      }
      i := i + 1;
    }
  }

  /** The constructor as it runs: a normalising loop, the path list, then a registering loop. */
  method NewWorker(symbols: seq<Sym>, prefix: string, payload: string, m: BiMap, register: string -> Result<Unit>)
    returns (r: Result<Worker>)
    ensures r == WorkerOf(symbols, prefix, payload, m, register)
  {
    if |symbols| == 0 {
      return Failure(EMPTY_SYMBOLS);
    }
    if |symbols| > MAX_SYMBOLS_PER_WORKER {
      return Failure(TOO_MANY_SYMBOLS);
    }
    var normalized := NormalizeAll(symbols, m);
    var paths := AgoraPaths(prefix, payload, normalized);
    var registered := CollectLoop(Entries(Names(normalized), paths), Register(register));
    match registered
    case Failure(e) => return Failure(e);
    case Success(publishers) =>
      return Success(Worker(paths, normalized, publishers, IndexMap(normalized)));
  }

  // ---------------------------------------------------------------------
  // Dispatch
  // ---------------------------------------------------------------------

  /** The `coin` field of a frame's data: absent, not a string, or a string. */
  datatype Coin = NoCoin | NotText | Text(name: string)

  /** A text frame as `ChannelMessage`: its channel and, if present, its data. */
  datatype Frame = Frame(channel: string, data: Option<Coin>)

  /** What the read loop does with one text frame. */
  datatype Action<T> = Ignore | Unparsed(error: string) | Unrouted | Publish(index: nat, value: T)

  /** The coin as the dispatch table knows it: the exchange name mapped back, or itself. */
  function NormalizeCoin(m: BiMap, coin: string): string
  {
    match SymbolFromStr(coin)
    case Success(s) => RightOrSelf(m, s).name
    case Failure(_) => coin
  }

  /**
   * The decision for one text frame (`None` when it is not a
   * `ChannelMessage`). `parse` stands for `T::of_channel_data` on the
   * frame's data with the exchange coin name.
   */
  function Dispatch<T>(frame: Option<Frame>, subscriptionType: string, m: BiMap, index: map<string, nat>,
                       count: nat, parse: string -> Result<T>): Action<T>
  {
    match frame
    case None => Ignore
    case Some(f) =>
      if f.channel == "subscriptionResponse" || f.channel == "pong" || f.channel != subscriptionType then Ignore
      else
        match f.data
        case None => Ignore
        case Some(coin) =>
          match coin
          case NoCoin => Ignore
          case NotText => Ignore
          case Text(c) =>
            match parse(c)
            case Failure(e) => Unparsed(e)
            case Success(v) =>
              var key := NormalizeCoin(m, c);
              if key in index && index[key] < count then Publish(index[key], v) else Unrouted
  }

  /**
   * A frame is published exactly when it is on the subscribed channel
   * (which is neither the confirmation nor the pong channel), carries a
   * string coin that parses, and that coin's normalised name is in the table.
   */
  lemma DispatchPublishes<T>(frame: Option<Frame>, subscriptionType: string, m: BiMap, index: map<string, nat>,
                             count: nat, parse: string -> Result<T>)
    ensures var a := Dispatch(frame, subscriptionType, m, index, count, parse);
      (a.Publish? <==>
        && frame.Some? && frame.value.channel == subscriptionType
        && subscriptionType != "subscriptionResponse" && subscriptionType != "pong"
        && frame.value.data.Some? && frame.value.data.value.Text?
        && parse(frame.value.data.value.name).Success?
        && NormalizeCoin(m, frame.value.data.value.name) in index
        && index[NormalizeCoin(m, frame.value.data.value.name)] < count)
    ensures var a := Dispatch(frame, subscriptionType, m, index, count, parse);
      a.Publish? ==> a.value == parse(frame.value.data.value.name).value
                     && a.index == index[NormalizeCoin(m, frame.value.data.value.name)]
  {
  }

  /**
   * In a worker built by `NewWorker`, a published frame goes to the one
   * publisher whose normalised symbol is the frame's normalised coin, and
   * to the last one when a name is listed twice.
   */
  lemma DispatchReachesOwnPublisher<T>(w: Worker, frame: Option<Frame>, subscriptionType: string, m: BiMap,
                                       parse: string -> Result<T>)
    requires w.index == IndexMap(w.normalized)
    requires Dispatch(frame, subscriptionType, m, w.index, |w.normalized|, parse).Publish?
    ensures var i := Dispatch(frame, subscriptionType, m, w.index, |w.normalized|, parse).index;
      && i < |w.normalized|
      && w.normalized[i].name == NormalizeCoin(m, frame.value.data.value.name)
      && forall j :: i < j < |w.normalized| ==> w.normalized[j].name != w.normalized[i].name
  {
  }

  /**
   * A parsable frame on the subscribed channel for one of the worker's own
   * (non-empty) exchange symbols is always published, never unrouted.
   */
  lemma SubscribedCoinIsRouted<T>(symbols: seq<Sym>, m: BiMap, k: nat, subscriptionType: string,
                                  parse: string -> Result<T>)
    requires k < |symbols| && symbols[k].name != ""
    requires subscriptionType != "subscriptionResponse" && subscriptionType != "pong"
    requires parse(symbols[k].name).Success?
    ensures var norm := Normalized(symbols, m);
      var f := Some(Frame(subscriptionType, Some(Text(symbols[k].name))));
      var a := Dispatch(f, subscriptionType, m, IndexMap(norm), |norm|, parse);
      a.Publish? && norm[a.index].name == norm[k].name
  {
    var norm := Normalized(symbols, m);
    assert symbols[k] == TradingSymbol(symbols[k].name);
    var key := NormalizeCoin(m, symbols[k].name);
    assert key == norm[k].name;
    var t := IndexMap(norm);
    assert key in t && t[key] < |norm| && norm[t[key]].name == key;
    var f := Some(Frame(subscriptionType, Some(Text(symbols[k].name))));
    DispatchPublishes(f, subscriptionType, m, t, |norm|, parse);
  }

  /**
   * The path a worker publishes a symbol on is the source the relays are
   * swapped to: for a universe the publisher translated to exchange names,
   * the worker's i-th path is the i-th symbol's staging source.
   */
  lemma WorkerFeedsRelay(universe: seq<Sym>, m: BiMap, versioned: string, payload: string)
    requires Valid(m)
    requires forall i :: 0 <= i < |universe| ==> universe[i] in m.fwd
    ensures var paths := AgoraPaths(versioned, payload, Normalized(HyperliquidPublisher.ToHyperliquid(universe, m), m));
      && |paths| == |universe|
      && forall i :: 0 <= i < |universe| ==> paths[i] == HyperliquidPublisher.SourcePath(versioned, payload, universe[i])
  {
    HyperliquidPublisher.ToHyperliquidRoundTrip(universe, m);
  }
}
