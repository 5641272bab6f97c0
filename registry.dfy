/**
 * The metaserver's registry, `ServerState`: the publisher registered at
 * each path, the paths whose publisher answered a ping after registering
 * (confirmed), and the directory tree of every registered path under the
 * root "agora". The transitions are functions on a `Registry` value; the
 * class `ServerState` holds the three fields and its methods are proved
 * to move them exactly as those functions say. Ping outcomes are inputs.
 */
module Registry {
  import opened Wrappers
  import opened Strings
  import opened Trees
  import opened RegistryPaths
  import PathTree
  import AgoraCommon

  /** `PublisherInfo`: what a registration stores and returns. */
  datatype PublisherInfo =
    PublisherInfo(name: string, hostConnection: AgoraCommon.ConnectionHandle, agoraPath: string)

  /**
   * The fields of `ServerState`; a confirmed path is represented by its
   * path alone, not by the ping client stored with it.
   */
  datatype Registry = Registry(tree: Tree, publishers: map<string, PublisherInfo>, confirmed: set<string>)

  const ROOT_NAME := "agora"
  const COMPONENT := "metaserver::ServerState"

  function StateError(meth: string, msg: string): string
  {
    AgoraCommon.AgoraError(COMPONENT, meth, msg)
  }

  // ---------------------------------------------------------------------
  // Messages
  // ---------------------------------------------------------------------

  function FormatMessage(path: string, f: PathFault): string
  {
    match f
    case EmptyPath => "path cannot be empty"
    case LeadingSlash => "path '" + path + "' cannot start with '/' - use relative paths only"
    case TrailingSlash => "path '" + path + "' cannot end with '/' - trailing slashes not allowed"
    case DoubleSlash => "path '" + path + "' contains double slashes '//' - not allowed"
    case EmptySegment(i) =>
      "path '" + path + "' has empty segment at position " + NatToString(i) + " - not allowed"
    case PaddedSegment(seg) =>
      "path segment '" + seg + "' has leading/trailing whitespace - not allowed"
  }

  /** `validate_path_format`, with its error text. */
  function FormatError(path: string): (r: Option<string>)
    ensures r.None? <==> ValidPath(path)
    ensures path == "" ==> r == Some(StateError("validate_path_format", "path cannot be empty"))
  {
    match PathFormatFault(path)
    case None => None
    case Some(f) => Some(StateError("validate_path_format", FormatMessage(path, f)))
  }

  /** Rust's `{:?}` of a string: quoted, with quotes, backslashes and tab/CR/LF escaped. */
  function DebugString(s: string): string
  {
    "\"" + DebugChars(s) + "\""
  }

  function DebugChars(s: string): string
  {
    if s == [] then ""
    else
      var c := s[0];
      var e := if c == '"' then "\\\"" else if c == '\\' then "\\\\" else if c == '\n' then "\\n"
               else if c == '\r' then "\\r" else if c == '\t' then "\\t" else [c];
      e + DebugChars(s[1..])
  }

  /** The derived `{:?}` of a `PublisherInfo`. */
  function DebugInfo(info: PublisherInfo): string
  {
    "PublisherInfo { name: " + DebugString(info.name)
    + ", host_connection: ConnectionHandle { addr: " + info.hostConnection.addr.text
    + ", port: " + NatToString(info.hostConnection.port) + " }, agora_path: "
    + DebugString(info.agoraPath) + " }"
  }

  function DuplicateMessage(info: PublisherInfo, path: string): string
  {
    "publisher " + DebugInfo(info) + " already registered at " + path
    + ". Check path or use `update` instead"
  }

  function ParentMessage(parent: string): string
  {
    "path parent should all be directories, but '" + parent
    + "' is associated with a publisher. Consider removing first"
  }

  function DirectoryMessage(path: string): string
  {
    "path '" + path + "' already exists as a directory in the tree. Publishers can only be registered at new paths"
  }

  function NotRegisteredMessage(path: string): string
  {
    "path '" + path + "' is not associated with any publishers"
  }

  function ConfirmUnregisteredMessage(path: string): string
  {
    "please register path " + path + " before confirming"
  }

  function ConfirmedTwiceMessage(path: string): string
  {
    "path " + path + " already registered and confirmed"
  }

  const NO_CLIENT_MESSAGE := "failed to create ping client. Are you running the gateway?"

  function StaleMessage(path: string): string
  {
    "cannot ping " + path + ". Publisher might be stale"
  }

  function UnconfirmedMessage(path: string): string
  {
    "publisher at " + path + " is registered but not confirmed"
  }

  function UnknownPublisherMessage(path: string): string
  {
    "publisher not registered at " + path
  }

  // ---------------------------------------------------------------------
  // The registry invariant
  // ---------------------------------------------------------------------

  /**
   * What every reachable registry satisfies: the root is "agora", only
   * registered paths are confirmed, and every registered path is valid,
   * is stored with its own path, and is a leaf of the tree.
   */
  predicate Consistent(s: Registry)
  {
    && s.tree.name == ROOT_NAME
    && s.confirmed <= s.publishers.Keys
    && forall p :: p in s.publishers ==>
         && s.publishers[p].agoraPath == p
         && ValidPath(p)
         && Has(s.tree, Split(p, '/'))
         && PathTree.IsLeaf(s.tree, Split(p, '/'))
  }

  /** The empty registry `ServerState::new` creates. */
  function Empty(): (r: Registry)
    ensures Consistent(r)
  {
    Registry(Node(ROOT_NAME, []), map[], {})
  }

  /** Where `register_publisher` succeeds: a valid new path below no publisher and not yet a directory. */
  predicate CanRegister(s: Registry, path: string)
  {
    && ValidPath(path)
    && path !in s.publishers
    && (forall q :: q in s.publishers ==> !(Split(q, '/') < Split(path, '/')))
    && !Has(s.tree, Split(path, '/'))
  }

  /** The prefix scan fails exactly when some key's segments are a proper prefix of the path's. */
  lemma {:induction false} PublisherAboveMeans(keys: set<string>, path: string)
    requires ValidPath(path)
    ensures PublisherAbove(keys, Split(path, '/'), 1).None? <==>
              forall q :: q in keys ==> !(Split(q, '/') < Split(path, '/'))
  {
    var parts := Split(path, '/');
    match PublisherAbove(keys, parts, 1)
    case None =>
      forall q | q in keys
        ensures !(Split(q, '/') < parts)
      {
        NoPublisherAbove(keys, path, q);
      }
    case Some(q) =>
      var j :| 1 <= j < |parts| && q == Prefix(parts, j);
      PrefixSegments(parts, j);
      assert Split(q, '/') < parts;
  }

  /** The publisher the scan reports has segments that are a proper prefix of the path's. */
  lemma PublisherAboveSegments(keys: set<string>, path: string)
    requires ValidPath(path)
    ensures var r := PublisherAbove(keys, Split(path, '/'), 1);
      r.Some? ==> Split(r.value, '/') < Split(path, '/')
  {
    var parts := Split(path, '/');
    if PublisherAbove(keys, parts, 1).Some? {
      var q := PublisherAbove(keys, parts, 1).value;
      var j :| 1 <= j < |parts| && q == Prefix(parts, j);
      PrefixSegments(parts, j);
    }
  }

  // ---------------------------------------------------------------------
  // Transitions
  // ---------------------------------------------------------------------

  /** Why `register_publisher` refuses a path. */
  datatype RegisterFault =
    | BadFormat(fault: PathFault)
    | AlreadyRegistered(info: PublisherInfo)
    | PublisherAt(parent: string)
    | ExistingDirectory

  /**
   * The checks of `register_publisher`: the format, a duplicate, a
   * publisher above the path, the path being a directory already, in
   * that order; None when it registers.
   */
  function RegisterRefusal(s: Registry, path: string): (r: Option<RegisterFault>)
    ensures r.None? <==> CanRegister(s, path)
    ensures r.Some? && r.value.AlreadyRegistered? ==> path in s.publishers
    ensures r.Some? && r.value.PublisherAt? ==>
              r.value.parent in s.publishers && Split(r.value.parent, '/') < Split(path, '/')
  {
    match PathFormatFault(path)
    case Some(f) => Some(BadFormat(f))
    case None =>
      if path in s.publishers then Some(AlreadyRegistered(s.publishers[path]))
      else
        PublisherAboveMeans(s.publishers.Keys, path);
        match PublisherAbove(s.publishers.Keys, Split(path, '/'), 1)
        case Some(p) =>
          PublisherAboveSegments(s.publishers.Keys, path);
          Some(PublisherAt(p))
        case None =>
          ValidSegments(path);
          if PathTree.GetChild(s.tree, path).Success? then Some(ExistingDirectory) else None
  }

  /** The error text of each refusal, with the method that raises it. */
  function RegisterMessage(path: string, f: RegisterFault): string
  {
    match f
    case BadFormat(pf) => StateError("validate_path_format", FormatMessage(path, pf))
    case AlreadyRegistered(info) => StateError("register_publisher", DuplicateMessage(info, path))
    case PublisherAt(p) => StateError("validate_parent_paths_are_directories", ParentMessage(p))
    case ExistingDirectory => StateError("register_publisher", DirectoryMessage(path))
  }

  /** `register_publisher`: on success the directory nodes of the path are created and the record stored. */
  function Register(s: Registry, name: string, path: string, conn: AgoraCommon.ConnectionHandle)
    : (r: (Registry, Result<PublisherInfo>))
    ensures r.1.Success? <==> CanRegister(s, path)
    ensures r.1.Failure? ==> r.0 == s
    ensures r.1.Success? ==>
              && r.1.value == PublisherInfo(name, conn, path)
              && r.0.publishers == s.publishers[path := r.1.value]
              && r.0.confirmed == s.confirmed
              && r.0.tree == Grown(s.tree, path)
  {
    match RegisterRefusal(s, path)
    case Some(f) => (s, Failure(RegisterMessage(path, f)))
    case None =>
      var info := PublisherInfo(name, conn, path);
      (Registry(Grown(s.tree, path), s.publishers[path := info], s.confirmed), Success(info))
  }

  /**
   * `remove_publisher`: the format check, then the record is taken out of
   * the map before the tree branch is cut; the confirmation goes last.
   */
  function Remove(s: Registry, path: string): (r: (Registry, Result<PublisherInfo>))
    ensures r.1.Success? ==>
              && path in s.publishers && r.1.value == s.publishers[path]
              && r.0.publishers == s.publishers - {path}
              && r.0.confirmed == s.confirmed - {path}
    ensures !(ValidPath(path) && path in s.publishers) ==> r.1.Failure? && r.0 == s
    ensures !ValidPath(path) ==> r.1 == Failure(FormatError(path).value)
    ensures ValidPath(path) && path !in s.publishers ==>
              r.1 == Failure(StateError("remove_publisher", NotRegisteredMessage(path)))
    ensures r.1.Success? ==> PathTree.RemoveChildAndBranch(s.tree, path) == Success(r.0.tree)
    ensures ValidPath(path) && path in s.publishers && PathTree.RemoveChildAndBranch(s.tree, path).Failure? ==>
              && r.1 == Failure(PathTree.RemoveChildAndBranch(s.tree, path).error)
              && r.0 == Registry(s.tree, s.publishers - {path}, s.confirmed)
  {
    match FormatError(path)
    case Some(e) => (s, Failure(e))
    case None =>
      if path !in s.publishers then
        (s, Failure(StateError("remove_publisher", NotRegisteredMessage(path))))
      else
        var info := s.publishers[path];
        var publishers := s.publishers - {path};
        match PathTree.RemoveChildAndBranch(s.tree, path)
        case Failure(e) => (Registry(s.tree, publishers, s.confirmed), Failure(e))
        case Success(t) => (Registry(t, publishers, s.confirmed - {path}), Success(info))
  }

  /**
   * `confirm_publisher`: `client` is the outcome of creating the ping
   * client and `ping` that of the first ping. Either failure removes the
   * registration again.
   */
  function Confirm(s: Registry, path: string, client: Result<Unit>, ping: Result<Unit>)
    : (r: (Registry, Result<Unit>))
    ensures r.1.Success? <==>
              path in s.publishers && path !in s.confirmed && client.Success? && ping.Success?
    ensures r.1.Success? ==> r.0 == Registry(s.tree, s.publishers, s.confirmed + {path})
    ensures path !in s.publishers || path in s.confirmed ==> r.0 == s
    ensures path in s.publishers && path !in s.confirmed && (client.Failure? || ping.Failure?) ==>
              r.0 == Remove(s, path).0
    ensures path in s.publishers && path !in s.confirmed && ping.Failure? && client.Success? ==>
              r.1 == Failure(ping.error)
  {
    if path !in s.publishers then
      (s, Failure(StateError("confirm_publisher", ConfirmUnregisteredMessage(path))))
    else if path in s.confirmed then
      (s, Failure(StateError("confirm_publisher", ConfirmedTwiceMessage(path))))
    else if client.Failure? then
      (Remove(s, path).0,
       Failure(AgoraCommon.AgoraErrorCause(COMPONENT, "confirm_publisher",
         NO_CLIENT_MESSAGE, client.error)))
    else if ping.Failure? then
      (Remove(s, path).0, Failure(ping.error))
    else
      (Registry(s.tree, s.publishers, s.confirmed + {path}), Success(Unit))
  }

  /** `get_publisher_info`: the stored record of a confirmed path whose ping answers. */
  function GetInfo(s: Registry, path: string, ping: Result<Unit>): (r: Result<PublisherInfo>)
    ensures r.Success? <==>
              ValidPath(path) && path in s.publishers && path in s.confirmed && ping.Success?
    ensures r.Success? ==> r.value == s.publishers[path]
    ensures ValidPath(path) && path !in s.publishers ==>
              r == Failure(StateError("get_publisher_info", UnknownPublisherMessage(path)))
    ensures ValidPath(path) && path in s.publishers && path !in s.confirmed ==>
              r == Failure(StateError("get_publisher_info", UnconfirmedMessage(path)))
  {
    match FormatError(path)
    case Some(e) => Failure(e)
    case None =>
      if path in s.publishers && path in s.confirmed then
        match ping
        case Failure(e) =>
          Failure(AgoraCommon.AgoraErrorCause(COMPONENT, "get_publisher_info",
            StaleMessage(path), e))
        case Success(_) => Success(s.publishers[path])
      else if path in s.publishers then
        Failure(StateError("get_publisher_info", UnconfirmedMessage(path)))
      else
        Failure(StateError("get_publisher_info", UnknownPublisherMessage(path)))
  }

  /** The confirmed paths whose ping failed, in the order they were pinged. */
  function Stale(order: seq<string>, alive: set<string>): (r: seq<string>)
    ensures forall p :: p in r <==> p in order && p !in alive
    ensures |r| <= |order|
  {
    if order == [] then []
    else
      var rest := Stale(order[..|order| - 1], alive);
      var p := order[|order| - 1];
      assert order == order[..|order| - 1] + [p];
      if p !in alive then rest + [p] else rest
  }

  /** `remove_publisher` applied to each path in turn, its errors ignored. */
  function RemoveAll(s: Registry, paths: seq<string>): Registry
  {
    if paths == [] then s
    else Remove(RemoveAll(s, paths[..|paths| - 1]), paths[|paths| - 1]).0
  }

  /** `order` lists the set `xs`, each element once: the snapshot of a map's keys. */
  ghost predicate Listing(order: seq<string>, xs: set<string>)
  {
    Distinct(order) && forall p :: p in xs <==> p in order
  }

  /** No element occurs twice. */
  predicate Distinct(xs: seq<string>)
  {
    forall i, j :: 0 <= i < j < |xs| ==> xs[i] != xs[j]
  }

  /** Dropping the last element keeps a sequence distinct, and that element occurs only there. */
  lemma DistinctInit(xs: seq<string>)
    requires xs != [] && Distinct(xs)
    ensures Distinct(xs[..|xs| - 1]) && xs[|xs| - 1] !in xs[..|xs| - 1]
  {
    var init := xs[..|xs| - 1];
    forall i, j | 0 <= i < j < |init| ensures init[i] != init[j] {
      assert init[i] == xs[i] && init[j] == xs[j];
    }
  }

  /** Appending a fresh element keeps a sequence distinct. */
  lemma DistinctSnoc(xs: seq<string>, x: string)
    requires Distinct(xs) && x !in xs
    ensures Distinct(xs + [x])
  {
    var r := xs + [x];
    forall i, j | 0 <= i < j < |r| ensures r[i] != r[j] {
      assert r[i] == xs[i];
      if j == |xs| {
        assert r[j] == x;
      } else {
        assert r[j] == xs[j];
      }
    }
  }

  // ---------------------------------------------------------------------
  // The invariant is kept
  // ---------------------------------------------------------------------

  /** A successful registration keeps the registry consistent. */
  lemma {:induction false} RegisterKeepsConsistent(
    s: Registry, name: string, path: string, conn: AgoraCommon.ConnectionHandle)
    requires Consistent(s)
    ensures Consistent(Register(s, name, path, conn).0)
  {
    var (s', r) := Register(s, name, path, conn);
    if r.Success? {
      var parts := Split(path, '/');
      assert parts[..0] == [];
      PublisherAboveMeans(s.publishers.Keys, path);
      forall p | p in s'.publishers
        ensures Has(s'.tree, Split(p, '/')) && PathTree.IsLeaf(s'.tree, Split(p, '/'))
      {
        if p == path {
          EnsureFromNewLeaf(s.tree, parts, 0);
        } else {
          EnsureFromLeaf(s.tree, parts, 0, Split(p, '/'));
        }
      }
    }
  }

  /** Distinct keys have distinct segments. */
  lemma SplitInjective(p: string, q: string)
    requires Split(p, '/') == Split(q, '/')
    ensures p == q
  {
    JoinSplit(p, '/');
    JoinSplit(q, '/');
  }

  /** On a consistent registry, removal fails only for an invalid or unregistered path. */
  lemma RemoveSucceeds(s: Registry, path: string)
    requires Consistent(s)
    ensures Remove(s, path).1.Success? <==> ValidPath(path) && path in s.publishers
  {
    if ValidPath(path) && path in s.publishers {
      ValidSegments(path);
    }
  }

  /** Removal keeps the registry consistent. */
  lemma {:induction false} RemoveKeepsConsistent(s: Registry, path: string)
    requires Consistent(s)
    ensures Consistent(Remove(s, path).0)
  {
    RemoveSucceeds(s, path);
    if ValidPath(path) && path in s.publishers {
      ValidSegments(path);
      var t := PathTree.RemoveChildAndBranch(s.tree, path).value;
      forall q | q in s.publishers && q != path
        ensures Has(t, Split(q, '/')) && PathTree.IsLeaf(t, Split(q, '/'))
      {
        if Split(q, '/') == Split(path, '/') {
          SplitInjective(q, path);
        }
        PathTree.BranchCutKeepsLeaf(s.tree, path, Split(q, '/'));
      }
    }
  }

  /**
   * A registered path of a consistent registry can be registered again
   * once it is removed: the record is gone, no publisher lies above it and
   * the branch cut took its node out of the tree.
   */
  lemma RemoveThenRegister(s: Registry, path: string)
    requires Consistent(s) && path in s.publishers
    ensures CanRegister(Remove(s, path).0, path)
    ensures RegisterRefusal(Remove(s, path).0, path) == None
  {
    var s' := Remove(s, path).0;
    RemoveStep(s, path);
    NothingAbove(s, path);
    CutDropsPath(s, path);
    assert CanRegister(s', path);
  }

  /** In a consistent registry no publisher lies above a registered path. */
  lemma NothingAbove(s: Registry, path: string)
    requires Consistent(s) && path in s.publishers
    ensures forall q :: q in s.publishers ==> !(Split(q, '/') < Split(path, '/'))
  {
    forall q | q in s.publishers
      ensures !(Split(q, '/') < Split(path, '/'))
    {
      if Split(q, '/') < Split(path, '/') {
        PathTree.ExtendsLeaf(s.tree, Split(q, '/'), Split(path, '/'));
      }
    }
  }

  /** Removing a registered path of a consistent registry takes its node out of the tree. */
  lemma CutDropsPath(s: Registry, path: string)
    requires Consistent(s) && path in s.publishers
    ensures !Has(Remove(s, path).0.tree, Split(path, '/'))
  {
    RemoveSucceeds(s, path);
    ValidSegments(path);
    PathTree.BranchCutDropsLeaf(s.tree, path);
  }

  /** Confirmation keeps the registry consistent, whatever the pings do. */
  lemma ConfirmKeepsConsistent(s: Registry, path: string, client: Result<Unit>, ping: Result<Unit>)
    requires Consistent(s)
    ensures Consistent(Confirm(s, path, client, ping).0)
  {
    RemoveKeepsConsistent(s, path);
  }

  /** One removal of a registered path on a consistent registry. */
  lemma RemoveStep(s: Registry, p: string)
    requires Consistent(s) && p in s.publishers
    ensures var s' := Remove(s, p).0;
      && Consistent(s')
      && s'.publishers == s.publishers - {p}
      && s'.confirmed == s.confirmed - {p}
  {
    RemoveSucceeds(s, p);
    RemoveKeepsConsistent(s, p);
  }

  /**
   * Removing distinct registered paths one after another removes exactly
   * them from the map and from the confirmed set, and each removal succeeds.
   */
  lemma {:induction false} RemoveAllEffect(s: Registry, paths: seq<string>)
    requires Consistent(s)
    requires Distinct(paths)
    requires forall p :: p in paths ==> p in s.publishers
    ensures var s' := RemoveAll(s, paths);
      && Consistent(s')
      && (forall q :: q in s'.publishers <==> q in s.publishers && q !in paths)
      && (forall q :: q in s'.publishers ==> s'.publishers[q] == s.publishers[q])
      && (forall q :: q in s'.confirmed <==> q in s.confirmed && q !in paths)
    decreases |paths|
  {
    if paths != [] {
      var init, p := paths[..|paths| - 1], paths[|paths| - 1];
      assert paths == init + [p];
      DistinctInit(paths);
      RemoveAllEffect(s, init);
      var m := RemoveAll(s, init);
      RemoveStep(m, p);
      assert RemoveAll(s, paths) == Remove(m, p).0;
    }
  }

  /**
   * `prune_stale_publishers` removes exactly the confirmed paths whose ping
   * failed and keeps every other registration and confirmation.
   */
  lemma PruneEffect(s: Registry, order: seq<string>, alive: set<string>)
    requires Consistent(s) && Listing(order, s.confirmed)
    ensures var s' := RemoveAll(s, Stale(order, alive));
      && Consistent(s')
      && (forall p :: p in s'.publishers <==> p in s.publishers && !(p in s.confirmed && p !in alive))
      && (forall p :: p in s'.publishers ==> s'.publishers[p] == s.publishers[p])
      && (forall p :: p in s'.confirmed <==> p in s.confirmed && p in alive)
  {
    var stale := Stale(order, alive);
    StaleDistinct(order, alive);
    assert forall p :: p in stale ==> p in s.publishers;
    RemoveAllEffect(s, stale);
  }

  lemma {:induction false} StaleDistinct(order: seq<string>, alive: set<string>)
    requires Distinct(order)
    ensures Distinct(Stale(order, alive))
    decreases |order|
  {
    if order != [] {
      var init, p := order[..|order| - 1], order[|order| - 1];
      DistinctInit(order);
      StaleDistinct(init, alive);
      var rest := Stale(init, alive);
      if p !in alive {
        assert Stale(order, alive) == rest + [p];
        DistinctSnoc(rest, p);
      }
    }
  }

  // ---------------------------------------------------------------------
  // The mutable registry
  // ---------------------------------------------------------------------

  /** `ServerState`, its maps and tree updated in place by each request. */
  class ServerState {
    var pathTree: Tree
    var publishers: map<string, PublisherInfo>
    var confirmed: set<string>

    function State(): Registry
      reads this
    {
      Registry(pathTree, publishers, confirmed)
    }

    ghost predicate Valid()
      reads this
    {
      Consistent(State())
    }

    /** `ServerState::new`: an empty registry under the root "agora". */
    constructor ()
      ensures Valid() && State() == Empty()
    {
      pathTree := Node(ROOT_NAME, []);
      publishers := map[];
      confirmed := {};
    }

    /** `register_publisher`. */
    method RegisterPublisher(name: string, path: string, conn: AgoraCommon.ConnectionHandle)
      returns (r: Result<PublisherInfo>)
      requires Valid()
      modifies this
      ensures State() == Register(old(State()), name, path, conn).0
      ensures r == Register(old(State()), name, path, conn).1
      ensures Valid()
    {
      RegisterKeepsConsistent(State(), name, path, conn);
      var fault := CheckPathFormat(path);
      if fault.Some? {
        return Failure(RegisterMessage(path, BadFormat(fault.value)));
      }
      if path in publishers {
        return Failure(RegisterMessage(path, AlreadyRegistered(publishers[path])));
      }
      var above := CheckParents(publishers.Keys, path);
      if above.Some? {
        return Failure(RegisterMessage(path, PublisherAt(above.value)));
      }
      if PathTree.GetChild(pathTree, path).Success? {
        return Failure(RegisterMessage(path, ExistingDirectory));
      }
      pathTree := EnsurePathExists(pathTree, path);
      var info := PublisherInfo(name, conn, path);
      publishers := publishers[path := info];
      return Success(info);
    }

    /** `remove_publisher`. */
    method RemovePublisher(path: string) returns (r: Result<PublisherInfo>)
      requires Valid()
      modifies this
      ensures State() == Remove(old(State()), path).0
      ensures r == Remove(old(State()), path).1
      ensures Valid()
    {
      RemoveKeepsConsistent(State(), path);
      var fault := CheckPathFormat(path);
      if fault.Some? {
        return Failure(StateError("validate_path_format", FormatMessage(path, fault.value)));
      }
      if path !in publishers {
        return Failure(StateError("remove_publisher", NotRegisteredMessage(path)));
      }
      var info := publishers[path];
      publishers := publishers - {path};
      var cut := PathTree.RemoveChildAndBranch(pathTree, path);
      if cut.Failure? {
        return Failure(cut.error);
      }
      pathTree := cut.value;
      confirmed := confirmed - {path};
      return Success(info);
    }

    /** `confirm_publisher`, with the outcomes of creating the ping client and of the ping as inputs. */
    method ConfirmPublisher(path: string, client: Result<Unit>, ping: Result<Unit>) returns (r: Result<Unit>)
      requires Valid()
      modifies this
      ensures State() == Confirm(old(State()), path, client, ping).0
      ensures r == Confirm(old(State()), path, client, ping).1
      ensures Valid()
    {
      if path !in publishers {
        return Failure(StateError("confirm_publisher", ConfirmUnregisteredMessage(path)));
      }
      if path in confirmed {
        return Failure(StateError("confirm_publisher", ConfirmedTwiceMessage(path)));
      }
      if client.Failure? {
        var _ := RemovePublisher(path);
        return Failure(AgoraCommon.AgoraErrorCause(COMPONENT, "confirm_publisher",
          NO_CLIENT_MESSAGE, client.error));
      }
      if ping.Failure? {
        var _ := RemovePublisher(path);
        return Failure(ping.error);
      }
      confirmed := confirmed + {path};
      return Success(Unit);
    }

    /** `get_publisher_info`, with the outcome of the ping as an input. */
    method GetPublisherInfo(path: string, ping: Result<Unit>) returns (r: Result<PublisherInfo>)
      ensures r == GetInfo(State(), path, ping)
    {
      var fault := CheckPathFormat(path);
      if fault.Some? {
        return Failure(StateError("validate_path_format", FormatMessage(path, fault.value)));
      }
      if path in publishers && path in confirmed {
        if ping.Failure? {
          return Failure(AgoraCommon.AgoraErrorCause(COMPONENT, "get_publisher_info",
            StaleMessage(path), ping.error));
        }
        return Success(publishers[path]);
      } else if path in publishers {
        return Failure(StateError("get_publisher_info", UnconfirmedMessage(path)));
      }
      return Failure(StateError("get_publisher_info", UnknownPublisherMessage(path)));
    }

    /**
     * `prune_stale_publishers`: `order` is the snapshot of the confirmed
     * paths and `alive` the paths whose ping answers. Pings every path,
     * then removes the stale ones and returns them.
     */
    method PruneStalePublishers(order: seq<string>, alive: set<string>) returns (stale: seq<string>)
      requires Valid() && Listing(order, confirmed)
      modifies this
      ensures stale == Stale(order, alive)
      ensures State() == RemoveAll(old(State()), stale)
      ensures Valid()
    {
      stale := CollectStale(order, alive);
      RemoveEach(stale);
    }

    /** The first loop of `prune_stale_publishers`: the snapshot paths whose ping fails. */
    method CollectStale(order: seq<string>, alive: set<string>) returns (stale: seq<string>)
      requires Listing(order, confirmed)
      ensures stale == Stale(order, alive)
    {
      stale := [];
      var i := 0;
      while i < |order|
        invariant 0 <= i <= |order|
        invariant stale == Stale(order[..i], alive)
      {
        assert order[..i + 1][..i] == order[..i];
        if order[i] in confirmed && order[i] !in alive {
          stale := stale + [order[i]];
        }
        i := i + 1;
      }
      assert order[..i] == order;
    }

    /** The second loop of `prune_stale_publishers`: removes each path, ignoring errors. */
    method RemoveEach(paths: seq<string>)
      requires Valid()
      modifies this
      ensures State() == RemoveAll(old(State()), paths)
      ensures Valid()
    {
      ghost var s0 := State();
      var j := 0;
      while j < |paths|
        invariant 0 <= j <= |paths|
        invariant State() == RemoveAll(s0, paths[..j]) && Valid()
      {
        assert paths[..j + 1][..j] == paths[..j];
        var _ := RemovePublisher(paths[j]);
        j := j + 1;
      }
      assert paths[..j] == paths;
    }
  }
}
