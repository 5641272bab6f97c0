/**
 * Agora's shared utilities: the uniform error-message format, the
 * `ip:port` rendering of a connection handle, and `strip_and_verify`,
 * the normaliser for user-supplied paths.
 */
module AgoraCommon {
  import opened Wrappers
  import opened Strings
  import opened BoundedInts

  // ---------------------------------------------------------------------
  // Error messages
  // ---------------------------------------------------------------------

  /** `agora_error_msg(component, meth, msg)`. */
  function AgoraError(component: string, meth: string, msg: string): (r: string)
    ensures EndsWith(r, msg)
  {
    StartsWithAppend("Agora " + component + "::" + meth + " Error: ", msg);
    "Agora " + component + "::" + meth + " Error: " + msg
  }

  /** Within one component and method, the message can be read back. */
  lemma AgoraErrorInjective(component: string, meth: string, x: string, y: string)
    requires AgoraError(component, meth, x) == AgoraError(component, meth, y)
    ensures x == y
  {
    var head := "Agora " + component + "::" + meth + " Error: ";
    assert x == AgoraError(component, meth, x)[|head|..];
    assert y == AgoraError(component, meth, y)[|head|..];
  }

  /** `agora_error_cause!(component, meth, msg, cause)`. */
  function AgoraErrorCause(component: string, meth: string, msg: string, cause: string): (r: string)
    ensures StartsWith(r, AgoraError(component, meth, msg))
    ensures EndsWith(r, cause)
  {
    var e := AgoraError(component, meth, msg);
    StartsWithAppend(e, ". Caused by -> " + cause);
    StartsWithAppend(e + ". Caused by -> ", cause);
    assert e + ". Caused by -> " + cause == e + (". Caused by -> " + cause);
    e + ". Caused by -> " + cause
  }

  // ---------------------------------------------------------------------
  // Connection handles
  // ---------------------------------------------------------------------

  /**
   * An IP address, kept as the text `IpAddr`'s own Display produces
   * (dotted quad for V4, RFC 5952 form for V6).
   */
  datatype IpAddr = V4(text: string) | V6(text: string)

  /** Address texts as `IpAddr` prints them: digits, dots, hex digits and colons only. */
  predicate WellFormedAddr(a: IpAddr)
  {
    match a
    case V4(t) => ':' !in t && '[' !in t
    case V6(t) => ']' !in t
  }

  datatype ConnectionHandle = ConnectionHandle(addr: IpAddr, port: u16)

  /** `Display for ConnectionHandle`: `[ip]:port` for V6, `ip:port` for V4. */
  function HandleToString(h: ConnectionHandle): (r: string)
    ensures EndsWith(r, ":" + NatToString(h.port))
    ensures (|r| > 0 && r[0] == '[') <==> (h.addr.V6? || (|h.addr.text| > 0 && h.addr.text[0] == '['))
  {
    var p := ":" + NatToString(h.port);
    match h.addr
    case V6(t) =>
      StartsWithAppend("[" + t + "]", p);
      "[" + t + "]" + p
    case V4(t) =>
      StartsWithAppend(t, p);
      t + p
  }

  /** Distinct well-formed handles display differently. */
  lemma {:induction false} HandleToStringInjective(h1: ConnectionHandle, h2: ConnectionHandle)
    requires WellFormedAddr(h1.addr) && WellFormedAddr(h2.addr)
    requires HandleToString(h1) == HandleToString(h2)
    ensures h1 == h2
  {
    var d1, d2 := NatToString(h1.port), NatToString(h2.port);
    var s := HandleToString(h1);
    assert h1.addr.V6? <==> h2.addr.V6? by {
      if h1.addr.V4? && |h1.addr.text| > 0 { assert s[0] == h1.addr.text[0]; }
      if h2.addr.V4? && |h2.addr.text| > 0 { assert s[0] == h2.addr.text[0]; }
    }
    if h1.addr.V6? {
      BracketedInjective(h1.addr.text, d1, h2.addr.text, d2);
    } else {
      ColonInjective(h1.addr.text, d1, h2.addr.text, d2);
    }
    NatToStringInjective(h1.port, h2.port);
  }

  lemma BracketedInjective(t1: string, d1: string, t2: string, d2: string)
    requires ']' !in t1 && ']' !in t2
    requires "[" + t1 + "]" + (":" + d1) == "[" + t2 + "]" + (":" + d2)
    ensures t1 == t2 && d1 == d2
  {
    var s := "[" + t1 + "]" + (":" + d1);
    assert s[1..] == t1 + [']'] + (":" + d1);
    assert s[1..] == t2 + [']'] + (":" + d2);
    CutAtFirst(t1, ":" + d1, t2, ":" + d2, ']');
    assert d1 == (":" + d1)[1..];
  }

  lemma ColonInjective(t1: string, d1: string, t2: string, d2: string)
    requires ':' !in t1 && ':' !in t2
    requires t1 + (":" + d1) == t2 + (":" + d2)
    ensures t1 == t2 && d1 == d2
  {
    assert t1 + (":" + d1) == t1 + [':'] + d1;
    assert t2 + (":" + d2) == t2 + [':'] + d2;
    CutAtFirst(t1, d1, t2, d2, ':');
  }

  // ---------------------------------------------------------------------
  // strip_and_verify
  // ---------------------------------------------------------------------

  /** The characters a stripped path may hold. */
  predicate PathChar(ch: char)
  {
    IsAlnum(ch) || ch == '-' || ch == '_' || ch == '/'
  }

  /** The first character of `s` that is not a path character, scanning left to right. */
  function FirstInvalidChar(s: string): (r: Option<nat>)
    ensures r.None? <==> forall i :: 0 <= i < |s| ==> PathChar(s[i])
    ensures r.Some? ==>
              r.value < |s| && !PathChar(s[r.value]) && forall i :: 0 <= i < r.value ==> PathChar(s[i])
  {
    if s == [] then None
    else if !PathChar(s[0]) then Some(0)
    else match FirstInvalidChar(s[1..])
      case None => None
      case Some(k) => Some(k + 1)
  }

  const STRIP_EMPTY := "path cannot be empty"
  const STRIP_EMPTY_AFTER := "path cannot be empty after stripping slashes"
  const STRIP_DOUBLE := "path cannot contain double slashes"
  const STRIP_TRAVERSAL := "path cannot contain '..' (directory traversal)"

  function StripError(msg: string): string
  {
    AgoraError("utils", "strip_and_verify", msg)
  }

  /** What `strip_and_verify` accepts once the slashes are trimmed. */
  predicate AcceptableStripped(s: string)
  {
    s != "" && !ContainsSub(s, "//") && !ContainsSub(s, "..")
    && forall i :: 0 <= i < |s| ==> PathChar(s[i])
  }

  /**
   * `strip_and_verify`: trims every leading and trailing '/', then rejects
   * an empty input, an empty result, "//", ".." and foreign characters, in
   * that order.
   */
  function StripAndVerify(path: string): (r: Result<string>)
    ensures r.Success? <==> path != "" && AcceptableStripped(TrimChar(path, '/'))
    ensures r.Success? ==>
              r.value == TrimChar(path, '/') && r.value[0] != '/' && r.value[|r.value| - 1] != '/'
    ensures path == "" ==> r == Failure(StripError(STRIP_EMPTY))
    ensures path != "" && TrimChar(path, '/') == "" ==> r == Failure(StripError(STRIP_EMPTY_AFTER))
  {
    if path == "" then Failure(StripError(STRIP_EMPTY))
    else
      var stripped := TrimChar(path, '/');
      if stripped == "" then Failure(StripError(STRIP_EMPTY_AFTER))
      else if ContainsSub(stripped, "//") then Failure(StripError(STRIP_DOUBLE))
      else if ContainsSub(stripped, "..") then Failure(StripError(STRIP_TRAVERSAL))
      else match FirstInvalidChar(stripped)
        case Some(k) =>
          Failure(StripError("path contains invalid character: '" + [stripped[k]] + "'"))
        case None =>
          TrimShape(path, Is('/'));
          Success(stripped)
  }

  /** A string of slashes only is rejected, whatever its length. */
  lemma {:induction false} StripAllSlashes(n: nat)
    requires n > 0
    ensures StripAndVerify(seq(n, _ => '/')) == Failure(StripError(STRIP_EMPTY_AFTER))
  {
    var s := seq(n, _ => '/');
    AllDroppedLeft(s, '/');
  }

  lemma {:induction false} AllDroppedLeft(s: string, c: char)
    requires forall i :: 0 <= i < |s| ==> s[i] == c
    ensures TrimLeft(s, Is(c)) == ""
    decreases |s|
  {
    if s != [] {
      AllDroppedLeft(s[1..], c);
    }
  }

  /** `strip_and_verify` is idempotent: its output passes through unchanged. */
  lemma StripIdempotent(path: string)
    requires StripAndVerify(path).Success?
    ensures StripAndVerify(StripAndVerify(path).value) == StripAndVerify(path)
  {
    var s := StripAndVerify(path).value;
    TrimUnchanged(s, Is('/'));
  }
}
