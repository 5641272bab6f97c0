/**
 * The Binance webstream worker (`BinanceWebstreamWorker::new` and its
 * read loop): one publisher per symbol on "{prefix}/{payload}/{symbol}",
 * one combined WebSocket URL naming a stream per symbol, and the routing
 * of each parsed message to the publisher of its symbol, compared in
 * lower case. The connection, reconnect pauses and publishing are left out.
 */
module BinanceWebstream {
  import opened Wrappers
  import opened Strings
  import opened ArgusTypes
  import opened Converters

  const MAX_SYMBOLS_PER_WORKER: nat := 1024
  const WEBSTREAM_ENDPOINT := "wss://ws-api.binance.com:443/ws-api/v3"

  const EMPTY_SYMBOLS := "BinanceWebstreamWorker error: symbols list cannot be empty"
  const TOO_MANY_SYMBOLS := "BinanceWebstreamWorker error: don't pass in more than 1024 tasks per worker"

  /** "{prefix}/{payload}/{symbol}". */
  function AgoraPath(prefix: string, payload: string, s: TradingSymbol): string
  {
    prefix + "/" + payload + "/" + s.name
  }

  function AgoraPaths(prefix: string, payload: string, symbols: seq<TradingSymbol>): (r: seq<string>)
    ensures |r| == |symbols| && forall i :: 0 <= i < |symbols| ==> r[i] == AgoraPath(prefix, payload, symbols[i])
  {
    seq(|symbols|, i requires 0 <= i < |symbols| => AgoraPath(prefix, payload, symbols[i]))
  }

  /** Different symbols get different paths. */
  lemma AgoraPathInjective(prefix: string, payload: string, s: TradingSymbol, t: TradingSymbol)
    requires AgoraPath(prefix, payload, s) == AgoraPath(prefix, payload, t)
    ensures s == t
  {
    var p := prefix + "/" + payload + "/";
    assert AgoraPath(prefix, payload, s)[|p|..] == s.name;
    assert AgoraPath(prefix, payload, t)[|p|..] == t.name;
  }

  /** A stream name: the lower-cased symbol followed by the message type's suffix. */
  function StreamName(s: TradingSymbol, suffix: string): string
  {
    Lower(s.name) + suffix
  }

  function StreamNames(symbols: seq<TradingSymbol>, suffix: string): (r: seq<string>)
    ensures |r| == |symbols| && forall i :: 0 <= i < |symbols| ==> r[i] == StreamName(symbols[i], suffix)
  {
    seq(|symbols|, i requires 0 <= i < |symbols| => StreamName(symbols[i], suffix))
  }

  /** "{endpoint}/{name}/{name}/...". */
  function StreamUrl(symbols: seq<TradingSymbol>, suffix: string): string
  {
    WEBSTREAM_ENDPOINT + "/" + Join(StreamNames(symbols, suffix), '/')
  }

  /**
   * The URL names every stream, in symbol order: splitting what follows
   * the endpoint at '/' gives the stream names back, as long as no symbol
   * and not the suffix contains a '/'.
   */
  lemma StreamUrlRoundTrip(symbols: seq<TradingSymbol>, suffix: string)
    requires symbols != []
    requires '/' !in suffix && forall i :: 0 <= i < |symbols| ==> '/' !in symbols[i].name
    ensures StartsWith(StreamUrl(symbols, suffix), WEBSTREAM_ENDPOINT + "/")
    ensures Split(StreamUrl(symbols, suffix)[|WEBSTREAM_ENDPOINT| + 1..], '/') == StreamNames(symbols, suffix)
  {
    var names := StreamNames(symbols, suffix);
    forall i | 0 <= i < |names| ensures '/' !in names[i] {
      assert names[i] == Lower(symbols[i].name) + suffix;
    }
    SplitJoin(names, '/');
    var url := StreamUrl(symbols, suffix);
    assert url == (WEBSTREAM_ENDPOINT + "/") + Join(names, '/');
    assert url[|WEBSTREAM_ENDPOINT| + 1..] == Join(names, '/');
  }

  /** The symbols in lower case, the keys of the dispatch table. */
  function LowerNames(symbols: seq<TradingSymbol>): (r: seq<string>)
    ensures |r| == |symbols| && forall i :: 0 <= i < |symbols| ==> r[i] == Lower(symbols[i].name)
  {
    seq(|symbols|, i requires 0 <= i < |symbols| => Lower(symbols[i].name))
  }

  /** The dispatch table: lower-cased symbol to its position; a symbol listed twice keeps its last one. */
  function IndexMap(symbols: seq<TradingSymbol>): map<string, nat>
  {
    PositionMap(LowerNames(symbols))
  }

  /** The publishers are named after the symbols as given. */
  function SymbolNames(symbols: seq<TradingSymbol>): (r: seq<string>)
    ensures |r| == |symbols| && forall i :: 0 <= i < |symbols| ==> r[i] == symbols[i].name
  {
    seq(|symbols|, i requires 0 <= i < |symbols| => symbols[i].name)
  }

  datatype Worker = Worker(agoraPaths: seq<string>, publishers: seq<PublisherEntry>, index: map<string, nat>,
                           url: string)

  /**
   * `new`: the two length checks, the paths, one publisher per symbol
   * created in order and stopping at the first error, then the table and
   * the URL.
   */
  function WorkerOf(symbols: seq<TradingSymbol>, prefix: string, payload: string, suffix: string,
                    register: string -> Result<Unit>): Result<Worker>
  {
    if symbols == [] then Failure(EMPTY_SYMBOLS)
    else if |symbols| > MAX_SYMBOLS_PER_WORKER then Failure(TOO_MANY_SYMBOLS)
    else
      var paths := AgoraPaths(prefix, payload, symbols);
      var publishers :- Collect(Entries(SymbolNames(symbols), paths), Register(register));
      Success(Worker(paths, publishers, IndexMap(symbols), StreamUrl(symbols, suffix)))
  }

  /** The constructor as it runs, with its publisher loop. */
  method NewWorker(symbols: seq<TradingSymbol>, prefix: string, payload: string, suffix: string,
                   register: string -> Result<Unit>) returns (r: Result<Worker>)
    ensures r == WorkerOf(symbols, prefix, payload, suffix, register)
  {
    if |symbols| == 0 {
      return Failure(EMPTY_SYMBOLS);
    }
    if |symbols| > MAX_SYMBOLS_PER_WORKER {
      return Failure(TOO_MANY_SYMBOLS);
    }
    var paths := AgoraPaths(prefix, payload, symbols);
    var publishers := CollectLoop(Entries(SymbolNames(symbols), paths), Register(register));
    if publishers.Failure? {
      return Failure(publishers.error);
    }
    return Success(Worker(paths, publishers.value, IndexMap(symbols), StreamUrl(symbols, suffix)));
  }

  /**
   * A worker starts exactly for 1 to 1024 symbols whose paths all
   * register; it then has one path and one publisher per symbol, in order.
   */
  lemma WorkerShape(symbols: seq<TradingSymbol>, prefix: string, payload: string, suffix: string,
                    register: string -> Result<Unit>)
    ensures var r := WorkerOf(symbols, prefix, payload, suffix, register);
      && (r.Success? <==> (0 < |symbols| <= MAX_SYMBOLS_PER_WORKER
           && forall i :: 0 <= i < |symbols| ==> register(AgoraPath(prefix, payload, symbols[i])).Success?))
      && (r.Success? ==>
           && |r.value.agoraPaths| == |symbols| && |r.value.publishers| == |symbols|
           && r.value.index == IndexMap(symbols) && r.value.url == StreamUrl(symbols, suffix)
           && forall i :: 0 <= i < |symbols| ==>
                && r.value.agoraPaths[i] == AgoraPath(prefix, payload, symbols[i])
                && r.value.publishers[i] == PublisherEntry(symbols[i].name, r.value.agoraPaths[i]))
  {
    RegisterAllShape(SymbolNames(symbols), AgoraPaths(prefix, payload, symbols), register);
  }

  // ---------------------------------------------------------------------
  // The read loop
  // ---------------------------------------------------------------------

  /** A WebSocket read: a message of some kind, or a read error. */
  datatype Frame = Ping(data: seq<bv8>) | Text(text: string) | Close | OtherFrame | ReadError(error: string)

  /** What the loop does with one read. */
  datatype Action<T> =
    | Pong(data: seq<bv8>)
    | Publish(index: nat, value: T)
    | ParseError(error: string)
    | NoPublisher(symbol: string)
    | Ignore
    | Disconnect

  /**
   * One read: a ping is answered, a close or an error ends the
   * connection, text is parsed (`parse` is `T::of_json_bytes`, `symbolOf`
   * its `symbol()`) and goes to the publisher of its lower-cased symbol.
   */
  function Dispatch<T>(frame: Frame, index: map<string, nat>, count: nat, parse: string -> Result<T>,
                       symbolOf: T -> TradingSymbol): Action<T>
  {
    match frame
    case Ping(data) => Pong(data)
    case Close => Disconnect
    case ReadError(_) => Disconnect
    case OtherFrame => Ignore
    case Text(text) =>
      match parse(text)
      case Failure(e) => ParseError(e)
      case Success(v) =>
        var key := Lower(symbolOf(v).name);
        if key in index then (if index[key] < count then Publish(index[key], v) else Ignore)
        else NoPublisher(key)
  }

  /**
   * In a running worker every parsed message is published or reported as
   * having no publisher: it is published exactly when its symbol, in lower
   * case, is one of the worker's symbols in lower case, and then to the
   * last such symbol's publisher.
   */
  lemma DispatchRoutesBySymbol<T>(symbols: seq<TradingSymbol>, text: string, parse: string -> Result<T>,
                                  symbolOf: T -> TradingSymbol)
    requires parse(text).Success?
    ensures var a := Dispatch(Text(text), IndexMap(symbols), |symbols|, parse, symbolOf);
      var key := Lower(symbolOf(parse(text).value).name);
      && (a.Publish? || a == NoPublisher(key))
      && (a.Publish? <==> exists i :: 0 <= i < |symbols| && Lower(symbols[i].name) == key)
      && (a.Publish? ==>
            && a.index < |symbols| && Lower(symbols[a.index].name) == key && a.value == parse(text).value
            && forall j :: a.index < j < |symbols| ==> Lower(symbols[j].name) != key)
  {
  }

  /** A message on a symbol spelled in another case still reaches that symbol's publisher. */
  lemma CaseInsensitiveRouting<T>(symbols: seq<TradingSymbol>, k: nat, text: string, parse: string -> Result<T>,
                                  symbolOf: T -> TradingSymbol)
    requires k < |symbols| && parse(text).Success?
    requires Lower(symbolOf(parse(text).value).name) == Lower(symbols[k].name)
    ensures Dispatch(Text(text), IndexMap(symbols), |symbols|, parse, symbolOf).Publish?
  {
    DispatchRoutesBySymbol(symbols, text, parse, symbolOf);
  }

  /** Only a text frame that parses can publish; pings are answered with their own payload. */
  lemma OnlyTextPublishes<T>(frame: Frame, index: map<string, nat>, count: nat, parse: string -> Result<T>,
                             symbolOf: T -> TradingSymbol)
    ensures Dispatch(frame, index, count, parse, symbolOf).Publish? ==> frame.Text? && parse(frame.text).Success?
    ensures frame.Ping? ==> Dispatch(frame, index, count, parse, symbolOf) == Pong(frame.data)
    ensures frame.Close? || frame.ReadError? ==> Dispatch(frame, index, count, parse, symbolOf) == Disconnect
  {
  }
}
