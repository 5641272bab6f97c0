/**
 * The path rules both metaserver registries share: the strict format
 * check on a publisher path (`validate_path_format`), the scan that
 * refuses a path lying below an existing publisher
 * (`validate_parent_paths_are_directories`, `validate_parent_paths`), and
 * the creation of the directory nodes along a new path
 * (`ensure_path_exists`). Each loop is a method proved against a
 * function over the path's segments.
 */
module RegistryPaths {
  import opened Wrappers
  import opened Strings
  import opened Trees
  import PathTree

  // ---------------------------------------------------------------------
  // Path format
  // ---------------------------------------------------------------------

  /** Why a path is refused; the checks run in this order. */
  datatype PathFault =
    | EmptyPath
    | LeadingSlash
    | TrailingSlash
    | DoubleSlash
    | EmptySegment(position: nat)
    | PaddedSegment(segment: string)

  /** A segment passes when it is non-empty and `trim` leaves it unchanged. */
  predicate GoodSegment(seg: string)
  {
    seg != "" && Trim(seg) == seg
  }

  /** A registry path: every piece of `path.split('/')` is a good segment. */
  predicate ValidPath(path: string)
  {
    var segs := Split(path, '/');
    forall i :: 0 <= i < |segs| ==> GoodSegment(segs[i])
  }

  /** A good segment is exactly a non-empty one that neither starts nor ends with whitespace. */
  lemma GoodSegmentEnds(seg: string)
    ensures GoodSegment(seg) <==>
              seg != "" && !IsWhitespace(seg[0]) && !IsWhitespace(seg[|seg| - 1])
  {
    if seg != "" {
      if !IsWhitespace(seg[0]) && !IsWhitespace(seg[|seg| - 1]) {
        TrimKeeps(seg);
      }
      TrimShape(seg, IsWhitespace);
    }
  }

  /** The first bad segment at or after position `i`, reported as `validate_path_format` reports it. */
  function FirstBadSegment(segs: seq<string>, i: nat): (r: Option<PathFault>)
    requires i <= |segs|
    ensures r.None? <==> forall k :: i <= k < |segs| ==> GoodSegment(segs[k])
    ensures r.Some? && r.value.EmptySegment? ==>
              i <= r.value.position < |segs| && segs[r.value.position] == ""
    ensures r.Some? ==> r.value.EmptySegment? || r.value.PaddedSegment?
    decreases |segs| - i
  {
    if i == |segs| then None
    else if segs[i] == "" then Some(EmptySegment(i))
    else if Trim(segs[i]) != segs[i] then Some(PaddedSegment(segs[i]))
    else FirstBadSegment(segs, i + 1)
  }

  /** `validate_path_format`: the fault it reports, or None when the path is accepted. */
  function PathFormatFault(path: string): (r: Option<PathFault>)
    ensures r.None? <==> ValidPath(path)
    ensures r == Some(EmptyPath) <==> path == ""
    ensures r == Some(LeadingSlash) ==> path[0] == '/'
    ensures r == Some(TrailingSlash) ==> path[|path| - 1] == '/'
    ensures r == Some(DoubleSlash) ==> ContainsSub(path, "//")
  {
    ValidPathShape(path);
    if path == "" then Some(EmptyPath)
    else if path[0] == '/' then Some(LeadingSlash)
    else if path[|path| - 1] == '/' then Some(TrailingSlash)
    else if ContainsSub(path, "//") then Some(DoubleSlash)
    else FirstBadSegment(Split(path, '/'), 0)
  }

  /** The four early checks can only refuse what the segment rule refuses too. */
  lemma ValidPathShape(path: string)
    ensures ValidPath(path) ==>
              path != "" && path[0] != '/' && path[|path| - 1] != '/' && !ContainsSub(path, "//")
  {
    LeadingSlashGivesEmpty(path);
    TrailingSlashGivesEmpty(path);
    if ContainsSub(path, "//") {
      var i :| 0 <= i <= |path| - 2 && OccursAt(path, "//", i);
      DoubleSlashGivesEmpty(path, i);
    }
  }

  lemma LeadingSlashGivesEmpty(path: string)
    ensures path != "" && path[0] == '/' ==> Split(path, '/')[0] == ""
  {
    if path != "" && path[0] == '/' {
      SplitAtSeparator("", path[1..], '/');
      assert path == "" + ['/'] + path[1..];
    }
  }

  lemma TrailingSlashGivesEmpty(path: string)
    ensures path != "" && path[|path| - 1] == '/' ==>
              Split(path, '/')[|Split(path, '/')| - 1] == ""
  {
    var n := |path|;
    if path != "" && path[n - 1] == '/' {
      SplitAtSeparator(path[..n - 1], "", '/');
      assert path == path[..n - 1] + ['/'] + "";
    }
  }

  lemma DoubleSlashGivesEmpty(path: string, i: nat)
    requires i + 2 <= |path| && path[i] == '/' && path[i + 1] == '/'
    ensures exists k :: 0 <= k < |Split(path, '/')| && Split(path, '/')[k] == ""
  {
    var a, b := path[..i], path[i + 2..];
    assert path == a + ['/'] + ([] + ['/'] + b);
    SplitAtSeparator(a, [] + ['/'] + b, '/');
    SplitAtSeparator([], b, '/');
    assert Split(path, '/')[|Split(a, '/')|] == "";
  }

  /** `validate_path_format` as the loop it is: four early checks, then a scan of the segments. */
  method CheckPathFormat(path: string) returns (r: Option<PathFault>)
    ensures r == PathFormatFault(path)
  {
    if path == "" {
      return Some(EmptyPath);
    }
    if path[0] == '/' {
      return Some(LeadingSlash);
    }
    if path[|path| - 1] == '/' {
      return Some(TrailingSlash);
    }
    if ContainsSub(path, "//") {
      return Some(DoubleSlash);
    }
    var segs := Split(path, '/');
    var i := 0;
    while i < |segs|
      invariant 0 <= i <= |segs|
      invariant FirstBadSegment(segs, i) == FirstBadSegment(segs, 0)
    {
      if segs[i] == "" {
        return Some(EmptySegment(i));
      }
      if Trim(segs[i]) != segs[i] {
        return Some(PaddedSegment(segs[i]));
      }
      i := i + 1;
    }
    return None;
  }

  // ---------------------------------------------------------------------
  // Prefixes of a path
  // ---------------------------------------------------------------------

  /** The path made of the first `k` segments: the `current_path` both loops build. */
  function Prefix(parts: seq<string>, k: nat): string
    requires k <= |parts|
  {
    Join(parts[..k], '/')
  }

  /** Extending `current_path` by one segment, as the loops do. */
  lemma PrefixStep(parts: seq<string>, k: nat)
    requires k < |parts|
    ensures Prefix(parts, k + 1) == if k == 0 then parts[0] else Prefix(parts, k) + "/" + parts[k]
  {
    assert parts[..k + 1] == parts[..k] + [parts[k]];
    if k > 0 {
      JoinSnoc(parts[..k], parts[k], '/');
    }
  }

  /** A valid path is the join of its segments, each of them good. */
  lemma PrefixWhole(path: string)
    ensures var parts := Split(path, '/'); Prefix(parts, |parts|) == path
  {
    var parts := Split(path, '/');
    assert parts[..|parts|] == parts;
    JoinSplit(path, '/');
  }

  /** The first `k` segments of a valid path are the segments of its `k`-prefix, for `k >= 1`. */
  lemma PrefixSegments(parts: seq<string>, k: nat)
    requires 1 <= k <= |parts|
    requires forall i :: 0 <= i < |parts| ==> GoodSegment(parts[i]) && '/' !in parts[i]
    ensures Split(Prefix(parts, k), '/') == parts[..k]
    ensures Segments(Prefix(parts, k)) == parts[..k]
    ensures ValidPath(Prefix(parts, k)) && Prefix(parts, k) != ""
  {
    SplitJoin(parts[..k], '/');
    NonEmptyAll(parts[..k]);
  }

  lemma {:induction false} NonEmptyAll(ps: seq<string>)
    requires forall i :: 0 <= i < |ps| ==> ps[i] != ""
    ensures NonEmpty(ps) == ps
    decreases |ps|
  {
    if ps != [] {
      NonEmptyAll(ps[1..]);
      assert ps == [ps[0]] + ps[1..];
    }
  }

  /** The segments of a valid path are its walk through the tree. */
  lemma ValidSegments(path: string)
    requires ValidPath(path)
    ensures Segments(path) == Split(path, '/') && Split(path, '/') != []
  {
    NonEmptyAll(Split(path, '/'));
  }

  // ---------------------------------------------------------------------
  // No publisher above a path
  // ---------------------------------------------------------------------

  /**
   * The first proper prefix of the path, at `k` segments or more, that is
   * a publisher key; `validate_parent_paths_are_directories` fails with it.
   */
  function PublisherAbove(keys: set<string>, parts: seq<string>, k: nat): (r: Option<string>)
    requires 1 <= k <= |parts|
    ensures r.None? <==> forall j :: k <= j < |parts| ==> Prefix(parts, j) !in keys
    ensures r.Some? ==> r.value in keys && exists j :: k <= j < |parts| && r.value == Prefix(parts, j)
    decreases |parts| - k
  {
    if k == |parts| then None
    else if Prefix(parts, k) in keys then Some(Prefix(parts, k))
    else PublisherAbove(keys, parts, k + 1)
  }

  /**
   * When the scan passes, no publisher key has segments that are a proper
   * prefix of the path's, so the new path lies below no publisher.
   */
  lemma NoPublisherAbove(keys: set<string>, path: string, q: string)
    requires PublisherAbove(keys, Split(path, '/'), 1).None?
    requires q in keys
    ensures !(Split(q, '/') < Split(path, '/'))
  {
    PrefixOfSegments(Split(path, '/'), q);
  }

  /** A path whose segments begin another's is that one's prefix. */
  lemma PrefixOfSegments(parts: seq<string>, q: string)
    ensures Split(q, '/') <= parts ==> Prefix(parts, |Split(q, '/')|) == q
  {
    var qs := Split(q, '/');
    if qs <= parts {
      PrefixWhole(q);
      assert parts[..|qs|] == qs[..|qs|];
    }
  }

  /** `validate_parent_paths_are_directories` as its loop over the path's segments. */
  method CheckParents(keys: set<string>, path: string) returns (r: Option<string>)
    requires ValidPath(path)
    ensures r == PublisherAbove(keys, Split(path, '/'), 1)
  {
    var parts := Split(path, '/');
    var current := "";
    var i := 0;
    while i < |parts| - 1
      invariant 0 <= i <= |parts| - 1
      invariant current == Prefix(parts, i)
      invariant PublisherAbove(keys, parts, i + 1) == PublisherAbove(keys, parts, 1)
    {
      PrefixStep(parts, i);
      if i > 0 {
        PrefixSegments(parts, i);
      }
      current := if current == "" then parts[i] else current + "/" + parts[i];
      if current in keys {
        return Some(current);
      }
      i := i + 1;
    }
    return None;
  }

  // ---------------------------------------------------------------------
  // Creating the directory nodes of a path
  // ---------------------------------------------------------------------

  /** One step of `ensure_path_exists`: the node of the first `i + 1` segments, added as a leaf if missing. */
  function EnsureStep(t: Tree, parts: seq<string>, i: nat): (r: Tree)
    requires i < |parts| && Has(t, parts[..i])
    ensures r.name == t.name && Has(r, parts[..i + 1])
  {
    assert parts[..i + 1] == parts[..i] + [parts[i]];
    if Has(t, parts[..i + 1]) then t
    else
      AddedLeafHas(t, parts[..i], parts[i]);
      AddChildAt(t, parts[..i], Node(parts[i], []))
  }

  lemma {:induction false} AddedLeafHas(t: Tree, h: seq<string>, x: string)
    requires Has(t, h)
    ensures Has(AddChildAt(t, h, Node(x, [])), h + [x])
  {
    var r := AddChildAt(t, h, Node(x, []));
    WalkSnoc(r, h, x);
    assert Names(Walk(r, h).node.children) == Names(Walk(t, h).node.children) + [x];
  }

  /** `ensure_path_exists` from segment `i` on. */
  function EnsureFrom(t: Tree, parts: seq<string>, i: nat): (r: Tree)
    requires i <= |parts| && Has(t, parts[..i])
    ensures r.name == t.name && Has(r, parts)
    decreases |parts| - i
  {
    if i == |parts| then
      assert parts[..i] == parts;
      t
    else EnsureFrom(EnsureStep(t, parts, i), parts, i + 1)
  }

  /** `ensure_path_exists(path)` on a whole tree. */
  function Grown(t: Tree, path: string): (r: Tree)
    ensures r.name == t.name && Has(r, Split(path, '/'))
  {
    assert Split(path, '/')[..0] == [];
    EnsureFrom(t, Split(path, '/'), 0)
  }

  /** A step adds exactly the node of the first `i + 1` segments. */
  lemma {:induction false} EnsureStepHas(t: Tree, parts: seq<string>, i: nat, s: seq<string>)
    requires i < |parts| && Has(t, parts[..i])
    ensures Has(EnsureStep(t, parts, i), s) <==> Has(t, s) || s == parts[..i + 1]
  {
    var h, x := parts[..i], parts[i];
    assert parts[..i + 1] == h + [x];
    if !Has(t, h + [x]) {
      WalkSnoc(t, h, x);
      AddChildHas(t, h, Node(x, []), s);
      if h + [x] <= s {
        assert Has(Node(x, []), s[|h| + 1..]) <==> s[|h| + 1..] == [];
      }
    }
  }

  /** A step leaves every leaf other than the node it extends a leaf. */
  lemma {:induction false} EnsureStepLeaf(t: Tree, parts: seq<string>, i: nat, q: seq<string>)
    requires i < |parts| && Has(t, parts[..i])
    requires Has(t, q) && PathTree.IsLeaf(t, q) && q != parts[..i]
    ensures Has(EnsureStep(t, parts, i), q) && PathTree.IsLeaf(EnsureStep(t, parts, i), q)
  {
    var h, x := parts[..i], parts[i];
    assert parts[..i + 1] == h + [x];
    EnsureStepHas(t, parts, i, q);
    if !Has(t, h + [x]) {
      WalkSnoc(t, h, x);
      AddChildHas(t, h, Node(x, []), q);
    }
  }

  /** The nodes after `ensure_path_exists`: the old ones and every prefix of the path. */
  lemma {:induction false} EnsureFromHas(t: Tree, parts: seq<string>, i: nat, s: seq<string>)
    requires i <= |parts| && Has(t, parts[..i])
    ensures Has(EnsureFrom(t, parts, i), s) <==> Has(t, s) || s <= parts
    decreases |parts| - i
  {
    if i == |parts| {
      assert parts[..i] == parts;
      if s <= parts {
        HasPrefix(t, parts, |s|);
        assert parts[..|s|] == s;
      }
    } else {
      var t1 := EnsureStep(t, parts, i);
      EnsureFromHas(t1, parts, i + 1, s);
      EnsureStepHas(t, parts, i, s);
      if s <= parts && |s| <= i {
        HasPrefix(t, parts[..i], |s|);
        assert parts[..i][..|s|] == s;
      }
      if s <= parts && |s| == i + 1 {
        assert s == parts[..i + 1];
      }
    }
  }

  /** Leaves that are not a proper prefix of the path stay leaves. */
  lemma {:induction false} EnsureFromLeaf(t: Tree, parts: seq<string>, i: nat, q: seq<string>)
    requires i <= |parts| && Has(t, parts[..i])
    requires Has(t, q) && PathTree.IsLeaf(t, q) && !(q < parts)
    ensures Has(EnsureFrom(t, parts, i), q) && PathTree.IsLeaf(EnsureFrom(t, parts, i), q)
    decreases |parts| - i
  {
    if i < |parts| {
      assert parts[..i] < parts;
      EnsureStepLeaf(t, parts, i, q);
      EnsureFromLeaf(EnsureStep(t, parts, i), parts, i + 1, q);
    }
  }

  /** A path that was not in the tree ends up as a leaf. */
  lemma {:induction false} EnsureFromNewLeaf(t: Tree, parts: seq<string>, i: nat)
    requires i < |parts| && Has(t, parts[..i])
    requires !Has(t, parts)
    ensures PathTree.IsLeaf(EnsureFrom(t, parts, i), parts)
    decreases |parts| - i
  {
    var t1 := EnsureStep(t, parts, i);
    EnsureStepHas(t, parts, i, parts);
    if i + 1 == |parts| {
      assert parts[..i + 1] == parts;
      var x := parts[i];
      assert parts == parts[..i] + [x];
      WalkSnoc(t, parts[..i], x);
      WalkSnoc(t1, parts[..i], x);
      assert EnsureFrom(t1, parts, i + 1) == t1;
    } else {
      assert parts != parts[..i + 1];
      EnsureFromNewLeaf(t1, parts, i + 1);
    }
  }

  /** The parent `ensure_path_exists` computes: everything before the last '/', or "" without one. */
  function ParentPath(current: string): (r: string)
    ensures |r| <= |current|
  {
    if '/' in current then current[..LastIndexOf(current, '/').value] else ""
  }

  /** The parent of the `i + 1`-prefix is the `i`-prefix, and it walks the first `i` segments. */
  lemma ParentOfPrefix(parts: seq<string>, i: nat)
    requires i < |parts|
    requires forall k :: 0 <= k < |parts| ==> GoodSegment(parts[k]) && '/' !in parts[k]
    ensures ParentPath(Prefix(parts, i + 1)) == Prefix(parts, i)
    ensures Segments(Prefix(parts, i)) == parts[..i]
  {
    PrefixStep(parts, i);
    if i > 0 {
      PrefixSegments(parts, i);
      ParentOfJoin(Prefix(parts, i), parts[i]);
    } else {
      assert parts[..1] == [parts[0]];
    }
  }

  lemma {:induction false} ParentOfJoin(a: string, b: string)
    requires '/' !in b
    ensures ParentPath(a + "/" + b) == a
  {
    var p := a + "/" + b;
    assert p[|a|] == '/';
    assert p[|a| + 1..] == b;
    LastIndexOfAt(p, '/', |a|);
    assert p[..|a|] == a;
  }

  /**
   * `ensure_path_exists`: walks the prefixes of the path, and wherever
   * `get_child` fails, finds the parent by the last '/' and adds a new
   * leaf named after the segment under it.
   */
  method EnsurePathExists(t: Tree, path: string) returns (r: Tree)
    requires ValidPath(path)
    ensures r == Grown(t, path)
  {
    var parts := Split(path, '/');
    ValidParts(path);
    assert parts[..0] == [];
    r := EnsureParts(t, parts);
  }

  /** The loop of `ensure_path_exists` over the segments of the path. */
  method EnsureParts(t: Tree, parts: seq<string>) returns (r: Tree)
    requires forall k :: 0 <= k < |parts| ==> GoodSegment(parts[k]) && '/' !in parts[k]
    requires Has(t, parts[..0])
    ensures r == EnsureFrom(t, parts, 0)
  {
    r := t;
    var current := "";
    var i := 0;
    assert parts[..0] == [];
    while i < |parts|
      invariant 0 <= i <= |parts| && Has(r, parts[..i])
      invariant current == Prefix(parts, i)
      invariant EnsureFrom(r, parts, i) == EnsureFrom(t, parts, 0)
    {
      NextCurrent(parts, i, current);
      current := if current == "" then parts[i] else current + "/" + parts[i];
      EnsureLoopStep(r, parts, i);
      ghost var step := EnsureStep(r, parts, i);
      if PathTree.GetChild(r, current).Failure? {
        var parent := ParentPath(current);
        match PathTree.GetChild(r, parent)
        case Success(_) =>
          r := AddChildAt(r, Segments(parent), Node(parts[i], []));
      }
      assert r == step;
      i := i + 1;
    }
    assert parts[..i] == parts;
  }

  /** The segments of a valid path are good and hold no '/'. */
  lemma ValidParts(path: string)
    requires ValidPath(path)
    ensures var parts := Split(path, '/');
      forall k :: 0 <= k < |parts| ==> GoodSegment(parts[k]) && '/' !in parts[k]
  {
  }

  /** `current_path` extended by the next segment is the next prefix. */
  lemma NextCurrent(parts: seq<string>, i: nat, current: string)
    requires i < |parts| && current == Prefix(parts, i)
    requires forall k :: 0 <= k < |parts| ==> GoodSegment(parts[k]) && '/' !in parts[k]
    ensures (if current == "" then parts[i] else current + "/" + parts[i]) == Prefix(parts, i + 1)
  {
    PrefixStep(parts, i);
    if i > 0 {
      PrefixSegments(parts, i);
    } else {
      assert parts[..0] == [];
    }
  }

  /** One turn of the `ensure_path_exists` loop is one `EnsureStep`. */
  lemma EnsureLoopStep(r: Tree, parts: seq<string>, i: nat)
    requires i < |parts| && Has(r, parts[..i])
    requires forall k :: 0 <= k < |parts| ==> GoodSegment(parts[k]) && '/' !in parts[k]
    ensures var current := Prefix(parts, i + 1);
      && (PathTree.GetChild(r, current).Failure? <==> !Has(r, parts[..i + 1]))
      && (PathTree.GetChild(r, current).Success? ==> EnsureStep(r, parts, i) == r)
      && (PathTree.GetChild(r, current).Failure? ==>
        && PathTree.GetChild(r, ParentPath(current)).Success?
        && AddChildAt(r, Segments(ParentPath(current)), Node(parts[i], [])) == EnsureStep(r, parts, i))
  {
    PrefixSegments(parts, i + 1);
    ParentOfPrefix(parts, i);
  }
}
