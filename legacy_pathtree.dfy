/**
 * The first `TreeNode` (the `Rc`/`RefCell` version behind the legacy
 * metaserver). It shares its shape with the later tree (module Trees):
 * first-match lookup by name, a path walked one non-empty segment at a
 * time, `parent`, `root` and `path` by following parent links. It differs
 * in its error texts, in `new`, which accepts any name, and in having no
 * branch removal.
 */
module LegacyPathTree {
  import opened Wrappers
  import opened Strings
  import opened Trees
  import PathTree

  /** `TreeNode::new`: any name, no children. */
  function NewNode(name: string): (r: Tree)
    ensures r.name == name && r.children == []
  {
    Node(name, [])
  }

  function NotFoundMessage(segment: string, under: string): string
  {
    "Cannot get immediate child: '" + segment + "' not found under '" + under + "'"
  }

  /** `add_children(names)`: one new leaf per name appended in order, names unchecked. */
  function AddChildren(t: Tree, h: seq<string>, names: seq<string>): (r: Tree)
    requires Has(t, h)
    ensures r.name == t.name && Has(r, h)
    ensures Walk(r, h).node.children == Walk(t, h).node.children + PathTree.Leaves(names)
    decreases |names|
  {
    if names == [] then
      assert Walk(t, h).node.children + PathTree.Leaves(names) == Walk(t, h).node.children;
      t
    else
      var c := NewNode(names[0]);
      var t' := AddChildAt(t, h, c);
      var r := AddChildren(t', h, names[1..]);
      PathTree.AppendLeaves(Walk(t, h).node.children, names);
      r
  }

  /** Adding `n` children grows the child count by exactly `n`. */
  lemma AddChildrenCount(t: Tree, h: seq<string>, names: seq<string>)
    requires Has(t, h)
    ensures PathTree.ChildCount(AddChildren(t, h, names), h) == PathTree.ChildCount(t, h) + |names|
  {
  }

  /** `get_child(path)`, with the legacy error text. */
  function GetChild(t: Tree, path: string): (r: Result<Tree>)
    ensures r.Success? <==> Has(t, Segments(path))
    ensures r.Success? ==> r.value == Walk(t, Segments(path)).node
    ensures path == "" ==> r == Success(t)
    ensures r.Failure? ==> exists seg, under :: r.error == NotFoundMessage(seg, under)
  {
    GetChildIsWalk(t, path);
    match GetChildLookup(t, path)
    case Found(n) => Success(n)
    case Missing(seg, under) => Failure(NotFoundMessage(seg, under))
  }

  /** `parent()`: an error exactly for the root. */
  function Parent(t: Tree, h: seq<string>): (r: Result<seq<string>>)
    requires Has(t, h)
    ensures r.Failure? <==> h == []
    ensures r.Success? ==> r.value + [h[|h| - 1]] == h && Has(t, r.value)
    ensures r.Failure? ==> r.error == "Parent not found for '" + t.name + "'"
  {
    if h == [] then Failure("Parent not found for '" + t.name + "'")
    else
      HasPrefix(t, h, |h| - 1);
      Success(h[..|h| - 1])
  }

  /**
   * `remove_child(path)`: resolves the node, then removes every child of
   * its name from its parent, so the whole subtree goes; fails for a
   * missing path and for the root.
   */
  function RemoveChild(t: Tree, path: string): (r: Result<Tree>)
    ensures r.Success? <==> Has(t, Segments(path)) && Segments(path) != []
    ensures r.Success? ==> r.value.name == t.name
    ensures r.Success? ==> forall s :: Has(r.value, s) <==> Has(t, s) && !(Segments(path) <= s)
    ensures Has(t, Segments(path)) && Segments(path) == [] ==> r == Failure("Parent not found for '" + t.name + "'")
  {
    match GetChild(t, path)
    case Failure(e) => Failure(e)
    case Success(child) =>
      var h := Segments(path);
      match Parent(t, h)
      case Failure(e) => Failure(e)
      case Success(p) =>
        PathTree.HandleEndsWithName(t, h);
        WalkSnoc(t, p, child.name);
        var r := RemoveNamedAt(t, p, child.name);
        forall s ensures Has(r, s) <==> Has(t, s) && !(h <= s) {
          RemoveNamedHas(t, p, child.name, s);
        }
        assert r.name == t.name by {
          assert Has(r, []);
        }
        Success(r)
  }

  /** After removing a node, its parent has one child fewer when names under it are distinct. */
  lemma RemoveChildCount(t: Tree, path: string)
    requires RemoveChild(t, path).Success?
    requires var h := Segments(path); Distinct(Names(Walk(t, h[..|h| - 1]).node.children))
    ensures var h := Segments(path);
      Has(RemoveChild(t, path).value, h[..|h| - 1])
      && PathTree.ChildCount(RemoveChild(t, path).value, h[..|h| - 1]) + 1
         == PathTree.ChildCount(t, h[..|h| - 1])
  {
    var h := Segments(path);
    var p, x := h[..|h| - 1], h[|h| - 1];
    var r := RemoveChild(t, path).value;
    HasPrefix(t, h, |h| - 1);
    PathTree.HandleEndsWithName(t, h);
    assert h == p + [x];
    WalkSnoc(t, p, x);
    RemoveNamedHas(t, p, x, p);
    var cs := Walk(t, p).node.children;
    assert r == RemoveNamedAt(t, p, x);
    WithoutDistinct(cs, x);
  }

  predicate Distinct(xs: seq<string>)
  {
    forall i, j :: 0 <= i < j < |xs| ==> xs[i] != xs[j]
  }

  /** Among distinct names, removing one present name drops exactly one child. */
  lemma {:induction false} WithoutDistinct(cs: seq<Tree>, x: string)
    requires Distinct(Names(cs)) && x in Names(cs)
    ensures |Without(cs, x)| + 1 == |cs|
  {
    assert Names(cs) == [cs[0].name] + Names(cs[1..]);
    assert Distinct(Names(cs[1..])) by {
      forall i, j | 0 <= i < j < |cs| - 1 ensures Names(cs[1..])[i] != Names(cs[1..])[j] {
        assert Names(cs)[i + 1] != Names(cs)[j + 1];
      }
    }
    if cs[0].name == x {
      assert x !in Names(cs[1..]) by {
        forall j | 0 <= j < |cs| - 1 ensures Names(cs[1..])[j] != x {
          assert Names(cs)[0] != Names(cs)[j + 1];
        }
      }
    } else {
      WithoutDistinct(cs[1..], x);
    }
  }

  /** `is_leaf` / `is_root` of the node at `h`. */
  predicate IsLeaf(t: Tree, h: seq<string>)
    requires Has(t, h)
  {
    Walk(t, h).node.children == []
  }

  /** `root()` from any node reaches the top node, the one whose parent fails. */
  lemma RootIsTop(t: Tree, h: seq<string>)
    requires Has(t, h)
    ensures Parent(t, PathTree.Root(t, h)).Failure?
    ensures Walk(t, PathTree.Root(t, h)).node == t
  {
  }

  /** `path()` below the root: the test's "/project/src/main.rs". */
  lemma PathOfNested(t: Tree)
    requires t.name == "project" && Has(t, ["src", "main.rs"])
    ensures PathTree.NodePath(t, ["src", "main.rs"]) == "/" + "project" + "/" + "src" + "/" + "main.rs"
  {
    NodePathTwo(t, "src", "main.rs");
  }

  /** `path()` two levels down: the root's name and both names, each behind a '/'. */
  lemma NodePathTwo(t: Tree, x: string, y: string)
    requires Has(t, [x, y])
    ensures PathTree.NodePath(t, [x, y]) == "/" + t.name + "/" + x + "/" + y
  {
    PathTree.NodePathStep(t, [x, y]);
    assert [x, y][..1] == [x];
    PathTree.NodePathStep(t, [x]);
    assert [x][..0] == [];
  }

  /** One line of `to_string_helper`: the prefix, the connector, the name and a newline. */
  function Line(prefix: string, connector: string, name: string): string
  {
    prefix + connector + name + "\n"
  }

  /** `display_tree` of a root with three leaves, as `Display` prints it: four lines, the last newline trimmed. */
  lemma DisplayThreeLeaves(r: string, x: string, y: string, z: string)
    requires z != [] && !IsWhitespace(z[|z| - 1])
    ensures Display(Node(r, [Node(x, []), Node(y, []), Node(z, [])]))
      == Line("", LAST_CONNECTOR, r) + Line(LAST_INDENT, MID_CONNECTOR, x) + Line(LAST_INDENT, MID_CONNECTOR, y)
         + (LAST_INDENT + LAST_CONNECTOR + z)
  {
    var front := Line("", LAST_CONNECTOR, r) + Line(LAST_INDENT, MID_CONNECTOR, x) + Line(LAST_INDENT, MID_CONNECTOR, y);
    var last := LAST_INDENT + LAST_CONNECTOR + z;
    RenderThreeLeaves(r, x, y, z);
    assert Line(LAST_INDENT, LAST_CONNECTOR, z) == last + "\n";
    assert front + (last + "\n") == (front + last) + "\n";
    assert (front + last)[|front + last| - 1] == z[|z| - 1];
    TrimNewline(front + last);
  }

  /** The rendering before `Display` trims it: one line per node, the last child with the closing connector. */
  lemma {:induction false} RenderThreeLeaves(r: string, x: string, y: string, z: string)
    ensures Render(Node(r, [Node(x, []), Node(y, []), Node(z, [])]), "", true)
      == Line("", LAST_CONNECTOR, r) + Line(LAST_INDENT, MID_CONNECTOR, x) + Line(LAST_INDENT, MID_CONNECTOR, y)
         + Line(LAST_INDENT, LAST_CONNECTOR, z)
  {
    var t := Node(r, [Node(x, []), Node(y, []), Node(z, [])]);
    var a := Line(LAST_INDENT, MID_CONNECTOR, x);
    var b := Line(LAST_INDENT, MID_CONNECTOR, y);
    var c := Line(LAST_INDENT, LAST_CONNECTOR, z);
    RenderLeaf(x, LAST_INDENT, false);
    RenderLeaf(y, LAST_INDENT, false);
    RenderLeaf(z, LAST_INDENT, true);
    assert RenderChildren(t, LAST_INDENT, 3) == "";
    assert RenderChildren(t, LAST_INDENT, 2) == c;
    assert RenderChildren(t, LAST_INDENT, 1) == b + c;
    assert RenderChildren(t, LAST_INDENT, 0) == a + (b + c);
    assert "" + LAST_INDENT == LAST_INDENT;
    var w := Line("", LAST_CONNECTOR, r);
    assert Render(t, "", true) == w + (a + (b + c));
    assert w + (a + (b + c)) == w + a + b + c;
  }

  /** The test's tree: "project" over "src", "docs" and "tests". */
  lemma DisplayProjectExample()
    ensures Display(Node("project", [Node("src", []), Node("docs", []), Node("tests", [])]))
      == Line("", LAST_CONNECTOR, "project") + Line(LAST_INDENT, MID_CONNECTOR, "src")
         + Line(LAST_INDENT, MID_CONNECTOR, "docs") + (LAST_INDENT + LAST_CONNECTOR + "tests")
  {
    DisplayThreeLeaves("project", "src", "docs", "tests");
  }

  lemma RenderLeaf(name: string, prefix: string, isLast: bool)
    ensures Render(Node(name, []), prefix, isLast) == Line(prefix, if isLast then LAST_CONNECTOR else MID_CONNECTOR, name)
  {
  }

  lemma TrimNewline(body: string)
    requires |body| > 0 && !IsWhitespace(body[|body| - 1])
    ensures TrimEnd(body + "\n") == body
  {
    var s := body + "\n";
    assert s[|s| - 1] == '\n' && s[..|s| - 1] == body;
    assert TrimRight(s, IsWhitespace) == TrimRight(body, IsWhitespace);
    assert !IsWhitespace(body[|body| - 1]);
  }
}
