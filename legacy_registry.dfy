/**
 * The legacy metaserver's `ServerState`: a map from path to publisher and
 * the directory tree of the registered paths, mutated under one lock by
 * `register_publisher`, `update_publisher`, `remove_publisher` and read
 * by `publisher_info`. Unlike the later registry it has no confirmation
 * step, does not refuse a path that is already a directory, and leaves
 * the directories above a removed publisher in place.
 */
module LegacyRegistry {
  import opened Wrappers
  import opened Strings
  import opened Trees
  import opened RegistryPaths
  import PathTree
  import LegacyPathTree
  import Registry

  /** The legacy `PublisherInfo`: a name only. */
  datatype PublisherInfo = PublisherInfo(name: string)

  datatype LegacyState = LegacyState(tree: Tree, publishers: map<string, PublisherInfo>)

  /** `ServerState::new`: an empty map and a root named "agora". */
  function Empty(): (r: LegacyState)
    ensures Consistent(r) && r.publishers == map[]
  {
    LegacyState(Node("agora", []), map[])
  }

  /** Every registered path is a valid path whose node is in the tree. */
  predicate Consistent(s: LegacyState)
  {
    && s.tree.name == "agora"
    && forall p :: p in s.publishers ==> ValidPath(p) && Has(s.tree, Split(p, '/'))
  }

  // ---------------------------------------------------------------------
  // Messages
  // ---------------------------------------------------------------------

  function FormatMessage(path: string, f: PathFault): string
  {
    match f
    case EmptyPath => "Path cannot be empty"
    case LeadingSlash => "Path '" + path + "' cannot start with '/' - use relative paths only"
    case TrailingSlash => "Path '" + path + "' cannot end with '/' - trailing slashes not allowed"
    case DoubleSlash => "Path '" + path + "' contains double slashes '//' - not allowed"
    case EmptySegment(i) =>
      "Path '" + path + "' has empty segment at position " + NatToString(i) + " - not allowed"
    case PaddedSegment(seg) =>
      "Path segment '" + seg + "' has leading/trailing whitespace - not allowed"
  }

  /** The derived `{:?}` of a legacy `PublisherInfo`. */
  function DebugInfo(info: PublisherInfo): string
  {
    "PublisherInfo { name: " + Registry.DebugString(info.name) + " }"
  }

  function DuplicateMessage(info: PublisherInfo, path: string): string
  {
    "Publisher " + DebugInfo(info) + " already registered at " + path
    + ". Check path or use `update` instead."
  }

  function ParentMessage(parent: string): string
  {
    "Path parent should all be directories, but '" + parent
    + "' is associated with a publisher. Consider removing first."
  }

  function MissingPathMessage(path: string, tree: Tree): string
  {
    "Path " + path + " does not exist. Current tree:\n" + Display(tree)
    + ". Check path or use `register` instead."
  }

  function NotUpdatedMessage(info: PublisherInfo, path: string): string
  {
    "No publisher " + DebugInfo(info) + " registered at " + path
    + ". Check path or use `register` instead."
  }

  function NotRegisteredMessage(path: string): string
  {
    "Can only remove paths associated with publishers: path '" + path
    + "' is not associated with any publishers."
  }

  /** The refusal to remove a path with publishers below it; the listed children are left out. */
  function ChildPublishersMessage(path: string): string
  {
    "Cannot remove path '" + path + "' with child publishers"
  }

  function UnknownMessage(path: string): string
  {
    "Publisher not registered at " + path
  }

  /** `validate_path_format` with the legacy texts. */
  function FormatError(path: string): (r: Option<string>)
    ensures r.None? <==> ValidPath(path)
    ensures path == "" ==> r == Some("Path cannot be empty")
  {
    match PathFormatFault(path)
    case None => None
    case Some(f) => Some(FormatMessage(path, f))
  }

  // ---------------------------------------------------------------------
  // Transitions
  // ---------------------------------------------------------------------

  /** Where the legacy `register_publisher` succeeds: a valid, unused path below no publisher. */
  predicate CanRegister(s: LegacyState, path: string)
  {
    && ValidPath(path)
    && path !in s.publishers
    && forall q :: q in s.publishers ==> !(Split(q, '/') < Split(path, '/'))
  }

  /** `register_publisher`: format, duplicate, publisher above; then the nodes and the record. */
  function Register(s: LegacyState, info: PublisherInfo, path: string): (r: (LegacyState, Result<Unit>))
    ensures r.1.Success? <==> CanRegister(s, path)
    ensures r.1.Failure? ==> r.0 == s
    ensures r.1.Success? ==>
              r.0 == LegacyState(Grown(s.tree, path), s.publishers[path := info])
    ensures ValidPath(path) && path in s.publishers ==>
              r.1 == Failure(DuplicateMessage(info, path))
  {
    match FormatError(path)
    case Some(e) => (s, Failure(e))
    case None =>
      if path in s.publishers then (s, Failure(DuplicateMessage(info, path)))
      else
        Registry.PublisherAboveMeans(s.publishers.Keys, path);
        match PublisherAbove(s.publishers.Keys, Split(path, '/'), 1)
        case Some(p) => (s, Failure(ParentMessage(p)))
        case None => (LegacyState(Grown(s.tree, path), s.publishers[path := info]), Success(Unit))
  }

  /**
   * `update_publisher`: fails when the path is not a tree node; otherwise
   * the record is stored, and the call still reports an error when no
   * record was there before.
   */
  function Update(s: LegacyState, info: PublisherInfo, path: string): (r: (LegacyState, Result<Unit>))
    ensures !ValidPath(path) || !Has(s.tree, Split(path, '/')) ==> r.0 == s && r.1.Failure?
    ensures ValidPath(path) && Has(s.tree, Split(path, '/')) ==>
              && r.0 == LegacyState(s.tree, s.publishers[path := info])
              && (r.1.Success? <==> path in s.publishers)
    ensures ValidPath(path) && Has(s.tree, Split(path, '/')) && path !in s.publishers ==>
              r.1 == Failure(NotUpdatedMessage(info, path))
  {
    match FormatError(path)
    case Some(e) => (s, Failure(e))
    case None =>
      ValidSegments(path);
      if LegacyPathTree.GetChild(s.tree, path).Failure? then
        (s, Failure(MissingPathMessage(path, s.tree)))
      else
        var s' := LegacyState(s.tree, s.publishers[path := info]);
        if path in s.publishers then (s', Success(Unit))
        else (s', Failure(NotUpdatedMessage(info, path)))
  }

  /** The registered paths lying below `path`. */
  function ChildPublishers(keys: set<string>, path: string): (r: set<string>)
    ensures forall k :: k in r <==> k in keys && StartsWith(k, path + "/")
  {
    set k | k in keys && StartsWith(k, path + "/")
  }

  /**
   * `remove_publisher`: fails for an unregistered path or one with
   * publishers below it; otherwise drops the record and then, if the node
   * exists, its whole subtree, ignoring a failure of that removal.
   */
  function Remove(s: LegacyState, path: string): (r: (LegacyState, Result<Unit>))
    ensures r.1.Success? <==>
              ValidPath(path) && path in s.publishers && ChildPublishers(s.publishers.Keys, path) == {}
    ensures r.1.Failure? ==> r.0 == s
    ensures r.1.Success? ==> r.0.publishers == s.publishers - {path}
    ensures ValidPath(path) && path !in s.publishers ==> r.1 == Failure(NotRegisteredMessage(path))
  {
    match FormatError(path)
    case Some(e) => (s, Failure(e))
    case None =>
      if path !in s.publishers then (s, Failure(NotRegisteredMessage(path)))
      else if ChildPublishers(s.publishers.Keys, path) != {} then
        (s, Failure(ChildPublishersMessage(path)))
      else
        var publishers := s.publishers - {path};
        var tree :=
          if LegacyPathTree.GetChild(s.tree, path).Success? then
            match LegacyPathTree.RemoveChild(s.tree, path)
            case Success(t) => t
            case Failure(_) => s.tree
          else s.tree;
        (LegacyState(tree, publishers), Success(Unit))
  }

  /** `publisher_info`: the stored record, or "not registered". */
  function Info(s: LegacyState, path: string): (r: Result<PublisherInfo>)
    ensures r.Success? <==> ValidPath(path) && path in s.publishers
    ensures r.Success? ==> r.value == s.publishers[path]
    ensures ValidPath(path) && path !in s.publishers ==> r == Failure(UnknownMessage(path))
  {
    match FormatError(path)
    case Some(e) => Failure(e)
    case None =>
      if path in s.publishers then Success(s.publishers[path]) else Failure(UnknownMessage(path))
  }

  // ---------------------------------------------------------------------
  // The invariant is kept
  // ---------------------------------------------------------------------

  lemma {:induction false} RegisterKeepsConsistent(s: LegacyState, info: PublisherInfo, path: string)
    requires Consistent(s)
    ensures Consistent(Register(s, info, path).0)
  {
    var (s', r) := Register(s, info, path);
    if r.Success? {
      forall p | p in s'.publishers ensures Has(s'.tree, Split(p, '/')) {
        if p != path {
          GrownKeeps(s.tree, path, Split(p, '/'));
        }
      }
    }
  }

  /** Growing a path keeps every node already in the tree. */
  lemma GrownKeeps(t: Tree, path: string, q: seq<string>)
    requires Has(t, q)
    ensures Has(Grown(t, path), q)
  {
    assert Split(path, '/')[..0] == [];
    EnsureFromHas(t, Split(path, '/'), 0, q);
  }

  lemma UpdateKeepsConsistent(s: LegacyState, info: PublisherInfo, path: string)
    requires Consistent(s)
    ensures Consistent(Update(s, info, path).0)
  {
  }

  lemma {:induction false} RemoveKeepsConsistent(s: LegacyState, path: string)
    requires Consistent(s)
    ensures Consistent(Remove(s, path).0)
  {
    var (s', r) := Remove(s, path);
    if r.Success? {
      ValidSegments(path);
      var parts := Split(path, '/');
      forall q | q in s'.publishers ensures Has(s'.tree, Split(q, '/')) {
        assert q in s.publishers && q != path;
        assert !StartsWith(q, path + "/");
        if parts <= Split(q, '/') {
          if parts == Split(q, '/') {
            Registry.SplitInjective(q, path);
          } else {
            SegmentsBelow(path, q);
          }
        }
      }
    }
  }

  /** A path whose segments extend another's starts with that path and a slash. */
  lemma SegmentsBelow(p: string, q: string)
    requires ValidPath(p) && Split(p, '/') < Split(q, '/')
    ensures StartsWith(q, p + "/")
  {
    var ps, qs := Split(p, '/'), Split(q, '/');
    var rest := qs[|ps|..];
    assert qs == ps + rest;
    JoinSplit(p, '/');
    JoinSplit(q, '/');
    JoinConcat(ps, rest);
    StartsWithAppend(p + "/", Join(rest, '/'));
  }

  /** Joining two non-empty runs of pieces puts one separator between their joins. */
  lemma {:induction false} JoinConcat(a: seq<string>, b: seq<string>)
    requires a != [] && b != []
    ensures Join(a + b, '/') == Join(a, '/') + "/" + Join(b, '/')
    decreases |b|
  {
    var x := b[|b| - 1];
    if |b| == 1 {
      assert b == [x];
      JoinSnoc(a, x, '/');
    } else {
      var init := b[..|b| - 1];
      assert a + b == (a + init) + [x];
      assert b == init + [x];
      JoinSnoc(a + init, x, '/');
      JoinConcat(a, init);
      JoinSnoc(init, x, '/');
    }
  }

  /** On a consistent state the node removal cannot fail, so a removal cuts exactly the subtree. */
  lemma RemoveCutsSubtree(s: LegacyState, path: string)
    requires Consistent(s) && Remove(s, path).1.Success?
    ensures forall q :: Has(Remove(s, path).0.tree, q) <==>
              Has(s.tree, q) && !(Split(path, '/') <= q)
  {
    ValidSegments(path);
  }

  /**
   * Unlike the later registry, the legacy one registers a publisher at a
   * path that is already a directory: after "a/b", "a" is accepted too.
   */
  lemma DirectoryAccepted()
    ensures var s1 := Register(Empty(), PublisherInfo("x"), "a/b").0;
      && Register(Empty(), PublisherInfo("x"), "a/b").1.Success?
      && Has(s1.tree, ["a", "b"])
      && Register(s1, PublisherInfo("y"), "a").1.Success?
  {
    TwoSegments();
    var s1 := Register(Empty(), PublisherInfo("x"), "a/b").0;
    assert s1.publishers.Keys == {"a/b"};
    assert CanRegister(s1, "a");
  }

  lemma TwoSegments()
    ensures Split("a/b", '/') == ["a", "b"] && Split("a", '/') == ["a"]
    ensures ValidPath("a/b") && ValidPath("a")
    ensures !(["a", "b"] < ["a"])
  {
    SplitSingleSlash("a", "b");
    SplitPrefix("a", "", '/');
    SplitPrefix("b", "", '/');
    assert "a" + "" == "a" && "b" + "" == "b";
    TrimKeeps("a");
    TrimKeeps("b");
  }

  // ---------------------------------------------------------------------
  // The locked state
  // ---------------------------------------------------------------------

  /** The shared `ServerState` behind the legacy server's mutex. */
  class LegacyServerState {
    var pathTree: Tree
    var publishers: map<string, PublisherInfo>

    function State(): LegacyState
      reads this
    {
      LegacyState(pathTree, publishers)
    }

    ghost predicate Valid()
      reads this
    {
      Consistent(State())
    }

    constructor ()
      ensures Valid() && State() == Empty()
    {
      pathTree := Node("agora", []);
      publishers := map[];
    }

    method RegisterPublisher(info: PublisherInfo, path: string) returns (r: Result<Unit>)
      requires Valid()
      modifies this
      ensures State() == Register(old(State()), info, path).0
      ensures r == Register(old(State()), info, path).1
      ensures Valid()
    {
      RegisterKeepsConsistent(State(), info, path);
      var fault := CheckPathFormat(path);
      if fault.Some? {
        return Failure(FormatMessage(path, fault.value));
      }
      if path in publishers {
        return Failure(DuplicateMessage(info, path));
      }
      var above := CheckParents(publishers.Keys, path);
      if above.Some? {
        return Failure(ParentMessage(above.value));
      }
      pathTree := EnsurePathExists(pathTree, path);
      publishers := publishers[path := info];
      return Success(Unit);
    }

    method UpdatePublisher(info: PublisherInfo, path: string) returns (r: Result<Unit>)
      requires Valid()
      modifies this
      ensures State() == Update(old(State()), info, path).0
      ensures r == Update(old(State()), info, path).1
      ensures Valid()
    {
      UpdateKeepsConsistent(State(), info, path);
      var fault := CheckPathFormat(path);
      if fault.Some? {
        return Failure(FormatMessage(path, fault.value));
      }
      if LegacyPathTree.GetChild(pathTree, path).Failure? {
        return Failure(MissingPathMessage(path, pathTree));
      }
      var existed := path in publishers;
      publishers := publishers[path := info];
      if existed {
        return Success(Unit);
      }
      return Failure(NotUpdatedMessage(info, path));
    }

    method RemovePublisher(path: string) returns (r: Result<Unit>)
      requires Valid()
      modifies this
      ensures State() == Remove(old(State()), path).0
      ensures r == Remove(old(State()), path).1
      ensures Valid()
    {
      RemoveKeepsConsistent(State(), path);
      var fault := CheckPathFormat(path);
      if fault.Some? {
        return Failure(FormatMessage(path, fault.value));
      }
      if path !in publishers {
        return Failure(NotRegisteredMessage(path));
      }
      if ChildPublishers(publishers.Keys, path) != {} {
        return Failure(ChildPublishersMessage(path));
      }
      publishers := publishers - {path};
      if LegacyPathTree.GetChild(pathTree, path).Success? {
        var cut := LegacyPathTree.RemoveChild(pathTree, path);
        if cut.Success? {
          pathTree := cut.value;
        }
      }
      return Success(Unit);
    }

    method GetPublisherInfo(path: string) returns (r: Result<PublisherInfo>)
      ensures r == Info(State(), path)
    {
      var fault := CheckPathFormat(path);
      if fault.Some? {
        return Failure(FormatMessage(path, fault.value));
      }
      if path in publishers {
        return Success(publishers[path]);
      }
      return Failure(UnknownMessage(path));
    }
  }
}
