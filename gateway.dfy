/**
 * The gateway's routing rule: the path of an incoming WebSocket request
 * names a service kind and an agora path, and the connection is piped to
 * the Unix socket the local publisher bound for that pair. Only the
 * routing is modelled; the byte forwarding is not.
 */
module Gateway {
  import opened Wrappers
  import opened Strings
  import AgoraCommon

  datatype Route = Route(service: string, agoraPath: string)

  /** Why a request is not piped anywhere. */
  datatype Refusal =
    | BadRequest(status: nat, body: string)
    | NoPath(message: string)

  const RAWSTREAM_PREFIX := "/rawstream/"
  const PING_PREFIX := "/ping/"

  /**
   * The handshake callback: "/rawstream/X" routes to the rawstream
   * service and "/ping/X" to the ping service, each with agora path X;
   * anything else is answered with status 400.
   */
  function Handshake(path: string): (r: Result<Route>)
    ensures r.Success? <==> StartsWith(path, RAWSTREAM_PREFIX) || StartsWith(path, PING_PREFIX)
    ensures StartsWith(path, RAWSTREAM_PREFIX) ==>
              r == Success(Route("rawstream", path[|RAWSTREAM_PREFIX|..]))
    ensures !StartsWith(path, RAWSTREAM_PREFIX) && StartsWith(path, PING_PREFIX) ==>
              r == Success(Route("ping", path[|PING_PREFIX|..]))
  {
    if StartsWith(path, RAWSTREAM_PREFIX) then Success(Route("rawstream", path[|RAWSTREAM_PREFIX|..]))
    else if StartsWith(path, PING_PREFIX) then Success(Route("ping", path[|PING_PREFIX|..]))
    else Failure("Invalid path: " + path)
  }

  /** `format!("/tmp/agora/{}/{}.sock", agora_path, service_type)`. */
  function SocketPath(agoraPath: string, service: string): string
  {
    "/tmp/agora/" + agoraPath + "/" + service + ".sock"
  }

  /**
   * `handle_connection` up to the socket connect: the Unix socket a
   * request is piped to, or why it is refused.
   */
  function Target(path: string): (r: Result<string>)
    ensures r.Success? <==> Handshake(path).Success? && Handshake(path).value.agoraPath != ""
    ensures r.Success? ==>
              r.value == SocketPath(Handshake(path).value.agoraPath, Handshake(path).value.service)
    ensures Handshake(path).Success? && Handshake(path).value.agoraPath == "" ==>
              r == Failure("Failed to extract path from request")
  {
    match Handshake(path)
    case Failure(e) => Failure(e)
    case Success(route) =>
      if route.agoraPath == "" || route.service == "" then Failure("Failed to extract path from request")
      else Success(SocketPath(route.agoraPath, route.service))
  }

  /** The status and body a refused request gets back. */
  function Refuse(path: string): (r: Option<Refusal>)
    ensures r.None? <==> Target(path).Success?
    ensures Handshake(path).Failure? ==> r == Some(BadRequest(400, "Invalid path: " + path))
  {
    match Handshake(path)
    case Failure(_) => Some(BadRequest(400, "Invalid path: " + path))
    case Success(route) =>
      if route.agoraPath == "" then Some(NoPath("Failed to extract path from request")) else None
  }

  // ---------------------------------------------------------------------
  // Both ends agree on the socket
  // ---------------------------------------------------------------------

  /** The request path a rawstream client sends for `socketPath` (`ws://{gateway}/rawstream/{socket_path}`). */
  function RawStreamRequest(socketPath: string): string
  {
    RAWSTREAM_PREFIX + socketPath
  }

  /** The request path a ping client sends for an agora path (`ws://{gateway}/ping/{path}`). */
  function PingRequest(agoraPath: string): string
  {
    PING_PREFIX + agoraPath
  }

  /** The socket a publisher binds for its binary stream. */
  function PublisherBytesSocket(normalized: string): string
  {
    "/tmp/agora/" + normalized + "/bytes/rawstream.sock"
  }

  /** The socket a publisher binds for its display stream. */
  function PublisherStringSocket(normalized: string): string
  {
    "/tmp/agora/" + normalized + "/string/rawstream.sock"
  }

  /** The socket a ping server binds. */
  function PingServerSocket(agoraPath: string): string
  {
    "/tmp/agora/" + agoraPath + "/ping.sock"
  }

  lemma PrefixRest(prefix: string, x: string)
    ensures StartsWith(prefix + x, prefix) && (prefix + x)[|prefix|..] == x
  {
    StartsWithAppend(prefix, x);
  }

  /** "/ping/..." never starts with "/rawstream/", so ping requests reach the second branch. */
  lemma PingIsNotRawStream(x: string)
    ensures !StartsWith(PING_PREFIX + x, RAWSTREAM_PREFIX)
  {
    if |PING_PREFIX + x| >= |RAWSTREAM_PREFIX| {
      assert (PING_PREFIX + x)[1] == 'p';
      assert RAWSTREAM_PREFIX[1] == 'r';
      assert (PING_PREFIX + x)[..|RAWSTREAM_PREFIX|][1] == 'p';
    }
  }

  /**
   * A subscriber's binary stream, requested as "rawstream/{p}/bytes",
   * lands on exactly the socket the publisher of `p` bound.
   */
  lemma SubscriberBytesReachPublisher(p: string)
    ensures Target(RawStreamRequest(p + "/bytes")) == Success(PublisherBytesSocket(p))
  {
    PrefixRest(RAWSTREAM_PREFIX, p + "/bytes");
    assert SocketPath(p + "/bytes", "rawstream") == PublisherBytesSocket(p) by {
      SeqAssoc("/tmp/agora/" + p, "/bytes", "/" + "rawstream" + ".sock");
      assert "/bytes" + ("/" + "rawstream" + ".sock") == "/bytes/rawstream.sock";
    }
  }

  /** The type-erased subscriber's display stream, "rawstream/{p}/string", does the same. */
  lemma SubscriberStringReachPublisher(p: string)
    ensures Target(RawStreamRequest(p + "/string")) == Success(PublisherStringSocket(p))
  {
    PrefixRest(RAWSTREAM_PREFIX, p + "/string");
    assert SocketPath(p + "/string", "rawstream") == PublisherStringSocket(p) by {
      SeqAssoc("/tmp/agora/" + p, "/string", "/" + "rawstream" + ".sock");
      assert "/string" + ("/" + "rawstream" + ".sock") == "/string/rawstream.sock";
    }
  }

  /** A ping client for a non-empty path reaches the ping server of that path. */
  lemma PingReachesServer(p: string)
    requires p != ""
    ensures Target(PingRequest(p)) == Success(PingServerSocket(p))
  {
    PingIsNotRawStream(p);
    PrefixRest(PING_PREFIX, p);
    assert SocketPath(p, "ping") == PingServerSocket(p) by {
      SeqAssoc("/tmp/agora/" + p, "/", "ping" + ".sock");
      assert "/" + ("ping" + ".sock") == "/ping.sock";
    }
  }

  /** "/ping/" alone is refused: the extracted path is empty. */
  lemma EmptyPingRefused()
    ensures Target(PING_PREFIX) == Failure("Failed to extract path from request")
  {
    PingIsNotRawStream("");
    assert PING_PREFIX + "" == PING_PREFIX;
    PrefixRest(PING_PREFIX, "");
  }

  /** Two different agora paths of the same service use different sockets. */
  lemma SocketPathInjective(a: string, b: string, service: string)
    requires SocketPath(a, service) == SocketPath(b, service)
    ensures a == b
  {
    var head := "/tmp/agora/";
    var tail := "/" + service + ".sock";
    assert SocketPath(a, service) == head + a + tail;
    assert SocketPath(b, service) == head + b + tail;
    assert |a| == |b|;
    assert a == SocketPath(a, service)[|head|..|head| + |a|];
    assert b == SocketPath(b, service)[|head|..|head| + |b|];
  }
}
