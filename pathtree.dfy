/**
 * Agora's `TreeNode` (the `Arc`/`Mutex` version behind the metaserver):
 * lookup by path, removal of a child, removal of a leaf together with the
 * chain of single-child directories above it, parent, path and leafness.
 * Every operation acts on the whole tree value and a node handle (see
 * module Trees); errors carry the `agora_error` message text.
 */
module PathTree {
  import opened Wrappers
  import opened Strings
  import opened Trees
  import AgoraCommon

  function TreeError(meth: string, msg: string): string
  {
    AgoraCommon.AgoraError("utils::TreeNode", meth, msg)
  }

  /** `TreeNode::new`: asserts that the name holds no '/'; the panic is a Failure here. */
  function NewNode(name: string): (r: Result<Tree>)
    ensures r.Success? <==> '/' !in name
    ensures r.Success? ==> r.value == Node(name, [])
  {
    if '/' in name then Failure("panicked: TreeNode name cannot contain slashes")
    else Success(Node(name, []))
  }

  function NotFoundMessage(segment: string, under: string): string
  {
    TreeError("get_immediate_child", "child '" + segment + "' not found under '" + under + "'")
  }

  /** `get_immediate_child(name)` on the node at `h`. */
  function GetImmediateChild(t: Tree, h: seq<string>, name: string): (r: Result<Tree>)
    requires Has(t, h)
    ensures r.Success? <==> name in Names(Walk(t, h).node.children)
    ensures r.Success? ==> r.value.name == name && Has(t, h + [name]) && Walk(t, h + [name]).node == r.value
    ensures r.Failure? ==> r.error == NotFoundMessage(name, Walk(t, h).node.name)
  {
    var m := Walk(t, h).node;
    WalkSnoc(t, h, name);
    match ChildIndex(m.children, name)
    case None => Failure(NotFoundMessage(name, m.name))
    case Some(i) => Success(m.children[i])
  }

  /** Leaf nodes, one per name, in order. */
  function Leaves(names: seq<string>): (r: seq<Tree>)
    ensures |r| == |names| && forall i :: 0 <= i < |names| ==> r[i] == Node(names[i], [])
  {
    seq(|names|, i requires 0 <= i < |names| => Node(names[i], []))
  }

  predicate SlashFree(names: seq<string>)
  {
    forall i :: 0 <= i < |names| ==> '/' !in names[i]
  }

  /** `add_children(names)`: appends a new leaf per name, in order; a name with '/' panics. */
  function AddChildren(t: Tree, h: seq<string>, names: seq<string>): (r: Result<Tree>)
    requires Has(t, h)
    ensures r.Success? <==> SlashFree(names)
    ensures r.Success? ==>
              r.value.name == t.name && Has(r.value, h)
              && Walk(r.value, h).node.children == Walk(t, h).node.children + Leaves(names)
    decreases |names|
  {
    if names == [] then
      assert Walk(t, h).node.children + Leaves(names) == Walk(t, h).node.children;
      Success(t)
    else match NewNode(names[0])
      case Failure(e) => Failure(e)
      case Success(c) =>
        var t' := AddChildAt(t, h, c);
        var r := AddChildren(t', h, names[1..]);
        SlashFreeCons(names);
        if r.Success? then
          var old_cs := Walk(t, h).node.children;
          var mid := Walk(t', h).node.children;
          assert mid == old_cs + [c];
          assert Walk(r.value, h).node.children == mid + Leaves(names[1..]);
          LeavesCons(names);
          assert old_cs + [c] + Leaves(names[1..]) == old_cs + Leaves(names);
          r
        else r
  }

  lemma LeavesCons(names: seq<string>)
    requires names != []
    ensures Leaves(names) == [Node(names[0], [])] + Leaves(names[1..])
  {
  }

  /** Appending the first leaf, then the leaves of the rest, appends all the leaves. */
  lemma AppendLeaves(cs: seq<Tree>, names: seq<string>)
    requires names != []
    ensures cs + [Node(names[0], [])] + Leaves(names[1..]) == cs + Leaves(names)
  {
    LeavesCons(names);
  }

  lemma SlashFreeCons(names: seq<string>)
    requires names != []
    ensures SlashFree(names) <==> '/' !in names[0] && SlashFree(names[1..])
  {
    if '/' !in names[0] && SlashFree(names[1..]) {
      forall i | 0 < i < |names| ensures '/' !in names[i] {
        assert names[i] == names[1..][i - 1];
      }
    }
  }

  /** `get_child(path)`: fails exactly when some segment has no child of that name. */
  function GetChild(t: Tree, path: string): (r: Result<Tree>)
    ensures r.Success? <==> Has(t, Segments(path))
    ensures r.Success? ==> r.value == Walk(t, Segments(path)).node
    ensures path == "" ==> r == Success(t)
  {
    GetChildIsWalk(t, path);
    match GetChildLookup(t, path)
    case Found(n) => Success(n)
    case Missing(seg, under) => Failure(NotFoundMessage(seg, under))
  }

  /** The handle of a non-root node ends with that node's own name. */
  lemma {:induction false} HandleEndsWithName(t: Tree, h: seq<string>)
    requires Has(t, h) && h != []
    ensures Walk(t, h).node.name == h[|h| - 1]
  {
    var p := h[..|h| - 1];
    assert h == p + [h[|h| - 1]];
    HasPrefix(t, h, |h| - 1);
    WalkSnoc(t, p, h[|h| - 1]);
  }

  predicate IsRoot(h: seq<string>)
  {
    h == []
  }

  predicate IsLeaf(t: Tree, h: seq<string>)
    requires Has(t, h)
  {
    Walk(t, h).node.children == []
  }

  /** `parent()`: an error exactly for the root. */
  function Parent(t: Tree, h: seq<string>): (r: Result<seq<string>>)
    requires Has(t, h)
    ensures r.Failure? <==> IsRoot(h)
    ensures r.Success? ==> r.value + [h[|h| - 1]] == h && Has(t, r.value)
    ensures r.Failure? ==> r.error == TreeError("parent", "parent not found for '" + t.name + "'")
  {
    if h == [] then Failure(TreeError("parent", "parent not found for '" + t.name + "'"))
    else
      HasPrefix(t, h, |h| - 1);
      Success(h[..|h| - 1])
  }

  /** `root()`: following parents from any node ends at the top node. */
  function Root(t: Tree, h: seq<string>): (r: seq<string>)
    requires Has(t, h)
    ensures r == [] && Walk(t, r) == Found(t)
    decreases |h|
  {
    match Parent(t, h)
    case Failure(_) => h
    case Success(p) => Root(t, p)
  }

  /** `path()`: "/root" for the root, the parent's path plus "/name" below it. */
  function NodePath(t: Tree, h: seq<string>): (r: string)
    requires Has(t, h)
    ensures StartsWith(r, "/" + t.name)
    decreases |h|
  {
    match Parent(t, h)
    case Failure(_) => "/" + t.name
    case Success(p) =>
      var r := NodePath(t, p) + "/" + Walk(t, h).node.name;
      StartsWithAppend(NodePath(t, p), "/" + Walk(t, h).node.name);
      assert r == NodePath(t, p) + ("/" + Walk(t, h).node.name);
      r
  }

  /** The path is the root name and the handle, each behind a '/'. */
  lemma {:induction false} NodePathIsJoin(t: Tree, h: seq<string>)
    requires Has(t, h)
    ensures NodePath(t, h) == "/" + Join([t.name] + h, '/')
    decreases |h|
  {
    if h != [] {
      var p, x := h[..|h| - 1], h[|h| - 1];
      HasPrefix(t, h, |h| - 1);
      NodePathStep(t, h);
      NodePathIsJoin(t, p);
      JoinSnoc([t.name] + p, x, '/');
      assert [t.name] + p + [x] == [t.name] + h;
      SeqAssoc("/", Join([t.name] + p, '/') + "/", x);
      SeqAssoc("/", Join([t.name] + p, '/'), "/");
    }
  }

  /** Below the root, the path is the parent's path, a slash and the last name of the handle. */
  lemma NodePathStep(t: Tree, h: seq<string>)
    requires Has(t, h) && h != []
    ensures Has(t, h[..|h| - 1])
    ensures NodePath(t, h) == NodePath(t, h[..|h| - 1]) + "/" + h[|h| - 1]
  {
    HasPrefix(t, h, |h| - 1);
    HandleEndsWithName(t, h);
  }

  /** With slash-free names, the handle can be read back from the path. */
  lemma NodePathRoundTrip(t: Tree, h: seq<string>)
    requires Has(t, h)
    requires '/' !in t.name && forall i :: 0 <= i < |h| ==> '/' !in h[i]
    ensures Split(NodePath(t, h)[1..], '/') == [t.name] + h
  {
    NodePathIsJoin(t, h);
    var parts := [t.name] + h;
    assert forall i :: 0 <= i < |parts| ==> '/' !in parts[i] by {
      forall i | 0 <= i < |parts| ensures '/' !in parts[i] {
        if i > 0 { assert parts[i] == h[i - 1]; }
      }
    }
    SplitJoin(parts, '/');
    assert NodePath(t, h)[1..] == Join(parts, '/');
  }

  /** `remove_immediate_child(name)` on the node at `h`: removes every child of that name, or fails. */
  function RemoveImmediateChild(t: Tree, h: seq<string>, name: string): (r: Result<Tree>)
    requires Has(t, h)
    ensures r.Failure? <==> name !in Names(Walk(t, h).node.children)
    ensures r.Success? ==>
              Has(r.value, h) && Walk(r.value, h).node.children == Without(Walk(t, h).node.children, name)
    ensures r.Failure? ==>
              r.error == TreeError("remove_immediate_child", "child '" + name + "' not found under '" + Walk(t, h).node.name + "'")
  {
    var m := Walk(t, h).node;
    if |Without(m.children, name)| == |m.children| then
      Failure(TreeError("remove_immediate_child", "child '" + name + "' not found under '" + m.name + "'"))
    else
      Success(RemoveNamedAt(t, h, name))
  }

  /** `remove_child(path)`: resolve the node, then remove it (and its namesakes) from its parent. */
  function RemoveChild(t: Tree, path: string): (r: Result<Tree>)
    ensures r.Success? <==> Has(t, Segments(path)) && Segments(path) != []
    ensures r.Success? ==> forall s :: Has(r.value, s) <==> Has(t, s) && !(Segments(path) <= s)
  {
    match GetChild(t, path)
    case Failure(e) => Failure(e)
    case Success(child) =>
      var h := Segments(path);
      match Parent(t, h)
      case Failure(e) => Failure(e)
      case Success(p) =>
        HandleEndsWithName(t, h);
        WalkSnoc(t, p, child.name);
        var r := RemoveImmediateChild(t, p, child.name);
        assert r.Success?;
        forall s ensures Has(r.value, s) <==> Has(t, s) && !(h <= s) {
          RemoveNamedHas(t, p, child.name, s);
        }
        r
  }

  // ---------------------------------------------------------------------
  // remove_child_and_branch
  // ---------------------------------------------------------------------

  function ChildCount(t: Tree, h: seq<string>): nat
    requires Has(t, h)
  {
    |Walk(t, h).node.children|
  }

  /**
   * `branching_ancestor`: walking up from the non-root node `h`, the first
   * ancestor that is the root or has more than one child, with the name of
   * its child on the way to `h`.
   */
  function BranchingAncestor(t: Tree, h: seq<string>): (r: (seq<string>, string))
    requires Has(t, h) && h != []
    ensures |r.0| < |h| && r.0 == h[..|r.0|] && r.1 == h[|r.0|]
    ensures Has(t, r.0)
    ensures r.0 == [] || ChildCount(t, r.0) > 1
    ensures forall k :: |r.0| < k < |h| ==> Has(t, h[..k]) && ChildCount(t, h[..k]) <= 1
    decreases |h|
  {
    var p := h[..|h| - 1];
    HasPrefix(t, h, |h| - 1);
    if p == [] || ChildCount(t, p) > 1 then
      (p, h[|h| - 1])
    else
      var r := BranchingAncestor(t, p);
      assert forall k :: |r.0| < k < |h| ==> h[..k] == p[..k] || k == |p|;
      r
  }

  const ROOT_REMOVAL := "cannot remove root node"
  const NON_LEAF_REMOVAL := "cannot remove non-leaf node"

  /**
   * `remove_child_and_branch(path)`: fails for a missing path, the root or
   * a node with children; otherwise removes the branch below the branching
   * ancestor, so exactly the handles through that branch disappear.
   */
  function RemoveChildAndBranch(t: Tree, path: string): (r: Result<Tree>)
    ensures r.Success? <==>
              Has(t, Segments(path)) && Segments(path) != [] && IsLeaf(t, Segments(path))
    ensures Has(t, Segments(path)) && Segments(path) == [] ==>
              r == Failure(TreeError("remove_child_and_branch", ROOT_REMOVAL))
    ensures Has(t, Segments(path)) && Segments(path) != [] && !IsLeaf(t, Segments(path)) ==>
              r == Failure(TreeError("remove_child_and_branch", NON_LEAF_REMOVAL))
    ensures r.Success? ==>
              var (a, x) := BranchingAncestor(t, Segments(path));
              forall s :: Has(r.value, s) <==> Has(t, s) && !(a + [x] <= s)
  {
    match GetChild(t, path)
    case Failure(e) => Failure(e)
    case Success(child) =>
      var h := Segments(path);
      if h == [] then Failure(TreeError("remove_child_and_branch", ROOT_REMOVAL))
      else if child.children != [] then Failure(TreeError("remove_child_and_branch", NON_LEAF_REMOVAL))
      else
        var (a, x) := BranchingAncestor(t, h);
        assert h[..|a| + 1] == a + [x];
        HasPrefix(t, h, |a| + 1);
        WalkSnoc(t, a, x);
        var r := RemoveImmediateChild(t, a, x);
        assert r.Success?;
        forall s ensures Has(r.value, s) <==> Has(t, s) && !(a + [x] <= s) {
          RemoveNamedHas(t, a, x, s);
        }
        r
  }

  /** The removed leaf itself is gone after `remove_child_and_branch`. */
  lemma BranchCutDropsLeaf(t: Tree, path: string)
    requires RemoveChildAndBranch(t, path).Success?
    ensures !Has(RemoveChildAndBranch(t, path).value, Segments(path))
  {
    var h := Segments(path);
    var (a, x) := BranchingAncestor(t, h);
    assert h[..|a| + 1] == a + [x];
    assert a + [x] <= h;
  }

  /** Every leaf other than the removed one survives `remove_child_and_branch`, still a leaf. */
  lemma {:induction false} BranchCutKeepsLeaf(t: Tree, path: string, q: seq<string>)
    requires RemoveChildAndBranch(t, path).Success?
    requires Has(t, q) && IsLeaf(t, q) && q != Segments(path)
    ensures var t' := RemoveChildAndBranch(t, path).value; Has(t', q) && IsLeaf(t', q)
  {
    var t' := RemoveChildAndBranch(t, path).value;
    var h := Segments(path);
    var (a, x) := BranchingAncestor(t, h);
    if a + [x] <= q {
      BranchHoldsOneLeaf(t, h, q);
    }
    var cs := Walk(t', q).node.children;
    if cs != [] {
      var y := cs[0].name;
      assert y in Names(cs);
      WalkSnoc(t', q, y);
      WalkSnoc(t, q, y);
    }
  }

  /** Length of the longest common prefix. */
  function CommonPrefixLength(p: seq<string>, q: seq<string>): (k: nat)
    ensures k <= |p| && k <= |q| && p[..k] == q[..k]
    ensures k < |p| && k < |q| ==> p[k] != q[k]
  {
    if p == [] || q == [] || p[0] != q[0] then 0
    else
      var k := CommonPrefixLength(p[1..], q[1..]);
      assert p[..k + 1] == [p[0]] + p[1..][..k];
      assert q[..k + 1] == [q[0]] + q[1..][..k];
      k + 1
  }

  /** A leaf that is a prefix of another handle is that handle. */
  lemma LeafPrefix(t: Tree, p: seq<string>, q: seq<string>)
    requires Has(t, p) && Has(t, q) && IsLeaf(t, p)
    requires |p| <= |q| && q[..|p|] == p
    ensures p == q
  {
    if p != q {
      ExtendsLeaf(t, p, q);
    }
  }

  lemma ExtendsLeaf(t: Tree, h: seq<string>, q: seq<string>)
    requires Has(t, h) && Has(t, q) && h < q
    ensures !IsLeaf(t, h)
  {
    HasPrefix(t, q, |h| + 1);
    assert q[..|h| + 1] == h + [q[|h|]];
    WalkSnoc(t, h, q[|h|]);
  }

  /**
   * The branch `remove_child_and_branch` cuts off holds no other leaf: below
   * the branching ancestor every node on the way to the removed leaf has a
   * single child, so any leaf through that branch is the removed one.
   */
  lemma {:induction false} BranchHoldsOneLeaf(t: Tree, h: seq<string>, q: seq<string>)
    requires Has(t, h) && h != [] && IsLeaf(t, h)
    requires Has(t, q) && IsLeaf(t, q)
    requires var (a, x) := BranchingAncestor(t, h); a + [x] <= q
    ensures q == h
  {
    var (a, x) := BranchingAncestor(t, h);
    var k := CommonPrefixLength(h, q);
    assert h[..|a| + 1] == a + [x] == q[..|a| + 1];
    if k == |q| {
      LeafPrefix(t, q, h);
    } else if k == |h| {
      LeafPrefix(t, h, q);
    } else {
      assert k > |a|;
      assert Has(t, h[..k]) && ChildCount(t, h[..k]) <= 1;
      TwoChildrenAt(t, h, q, k);
    }
  }

  /** Two handles that part ways after their first `k` segments leave two children at that node. */
  lemma TwoChildrenAt(t: Tree, h: seq<string>, q: seq<string>, k: nat)
    requires Has(t, h) && Has(t, q) && k < |h| && k < |q|
    requires h[..k] == q[..k] && h[k] != q[k]
    ensures Has(t, h[..k]) && ChildCount(t, h[..k]) > 1
  {
    var m := h[..k];
    HasPrefix(t, h, k);
    HasPrefix(t, h, k + 1);
    HasPrefix(t, q, k + 1);
    assert h[..k + 1] == m + [h[k]];
    assert q[..k + 1] == m + [q[k]];
    WalkSnoc(t, m, h[k]);
    WalkSnoc(t, m, q[k]);
    var ns := Names(Walk(t, m).node.children);
    var i :| 0 <= i < |ns| && ns[i] == h[k];
    var j :| 0 <= j < |ns| && ns[j] == q[k];
    assert i != j;
  }
}
