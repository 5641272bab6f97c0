/**
 * The named tree both `TreeNode` implementations share: a node has a name
 * and an ordered list of children, a child is looked up by name taking the
 * first match (`iter().find`), and a slash-separated path is walked one
 * non-empty segment at a time.
 *
 * The Rust nodes are shared, mutable objects linked by parent pointers.
 * Here a tree is a value, a node is designated by its HANDLE (the names on
 * the way down from the root), and an in-place update of one node is the
 * new whole tree `SetAt(t, h, n)`.
 */
module Trees {
  import opened Wrappers
  import opened Strings

  datatype Tree = Node(name: string, children: seq<Tree>)

  /** The outcome of walking a path: the node reached, or the first segment with no child of that name. */
  datatype Lookup = Found(node: Tree) | Missing(segment: string, under: string)

  function Names(cs: seq<Tree>): (r: seq<string>)
    ensures |r| == |cs| && forall i :: 0 <= i < |cs| ==> r[i] == cs[i].name
  {
    seq(|cs|, i requires 0 <= i < |cs| => cs[i].name)
  }

  /** `children.iter().find(|c| c.name == name)`, as an index. */
  function ChildIndex(cs: seq<Tree>, name: string): (r: Option<nat>)
    ensures r.None? <==> name !in Names(cs)
    ensures r.Some? ==>
              r.value < |cs| && cs[r.value].name == name && name !in Names(cs[..r.value])
  {
    if cs == [] then None
    else if cs[0].name == name then Some(0)
    else
      NamesCons(cs, |cs|);
      match ChildIndex(cs[1..], name)
      case None => None
      case Some(k) =>
        NamesCons(cs, k + 1);
        Some(k + 1)
  }

  /** The names of a non-empty prefix: the first name, then the names of the rest of it. */
  lemma NamesCons(cs: seq<Tree>, k: nat)
    requires 0 < k <= |cs|
    ensures Names(cs[..k]) == [cs[0].name] + Names(cs[1..][..k - 1])
  {
    assert cs[1..][..k - 1] == cs[1..k];
  }

  /** The first match is determined by the names alone. */
  lemma ChildIndexByNames(cs1: seq<Tree>, cs2: seq<Tree>, name: string)
    requires Names(cs1) == Names(cs2)
    ensures ChildIndex(cs1, name) == ChildIndex(cs2, name)
  {
    match ChildIndex(cs1, name)
    case None =>
    case Some(k) =>
      NamesPrefix(cs1, k);
      NamesPrefix(cs2, k);
      assert cs2[k].name == Names(cs1)[k];
      ChildIndexAt(cs2, name, k);
  }

  lemma NamesPrefix(cs: seq<Tree>, k: nat)
    requires k <= |cs|
    ensures Names(cs[..k]) == Names(cs)[..k]
  {
  }

  /** The first match is the child of that name with no earlier one. */
  lemma {:induction false} ChildIndexAt(cs: seq<Tree>, name: string, k: nat)
    requires k < |cs| && cs[k].name == name && name !in Names(cs[..k])
    ensures ChildIndex(cs, name) == Some(k)
    decreases k
  {
    if k > 0 {
      assert Names(cs[..k])[0] == cs[0].name;
      assert Names(cs[1..][..k - 1]) == Names(cs[..k])[1..];
      ChildIndexAt(cs[1..], name, k - 1);
    }
  }

  /** Walks the segments from `t`, taking the first child of each name. */
  function Walk(t: Tree, segs: seq<string>): Lookup
    decreases |segs|
  {
    if segs == [] then Found(t)
    else match ChildIndex(t.children, segs[0])
      case None => Missing(segs[0], t.name)
      case Some(i) => Walk(t.children[i], segs[1..])
  }

  predicate Has(t: Tree, h: seq<string>)
  {
    Walk(t, h).Found?
  }

  /** Walking one more segment looks among the children of the node reached. */
  lemma {:induction false} WalkSnoc(t: Tree, h: seq<string>, x: string)
    requires Has(t, h)
    ensures Has(t, h + [x]) <==> x in Names(Walk(t, h).node.children)
    ensures Has(t, h + [x]) ==>
              Walk(t, h + [x]).node == Walk(t, h).node.children[ChildIndex(Walk(t, h).node.children, x).value]
    decreases |h|
  {
    if h == [] {
      assert h + [x] == [x];
      assert [x][1..] == [];
      match ChildIndex(t.children, x)
      case None =>
      case Some(i) =>
        assert Walk(t.children[i], []) == Found(t.children[i]);
    } else {
      var i := ChildIndex(t.children, h[0]).value;
      assert (h + [x])[1..] == h[1..] + [x];
      WalkSnoc(t.children[i], h[1..], x);
    }
  }

  /** Every prefix of a handle that resolves also resolves. */
  lemma {:induction false} HasPrefix(t: Tree, h: seq<string>, k: nat)
    requires Has(t, h) && k <= |h|
    ensures Has(t, h[..k])
    decreases |h|
  {
    if k > 0 {
      var i := ChildIndex(t.children, h[0]).value;
      HasPrefix(t.children[i], h[1..], k - 1);
      assert h[..k][1..] == h[1..][..k - 1];
    }
  }

  /** Walking a concatenation walks the second part from where the first ends. */
  lemma {:induction false} WalkAppend(t: Tree, a: seq<string>, b: seq<string>)
    requires Has(t, a)
    ensures Walk(t, a + b) == Walk(Walk(t, a).node, b)
    decreases |a|
  {
    if a == [] {
      assert a + b == b;
    } else {
      var i := ChildIndex(t.children, a[0]).value;
      assert (a + b)[1..] == a[1..] + b;
      WalkAppend(t.children[i], a[1..], b);
    }
  }

  // ---------------------------------------------------------------------
  // Paths as strings
  // ---------------------------------------------------------------------

  /** The segments `get_child` visits: the non-empty pieces of `path.split('/')`. */
  function Segments(path: string): seq<string>
  {
    NonEmpty(Split(path, '/'))
  }

  /** `get_child(path)` on the values: "" gives the node itself, otherwise walk the segments. */
  function GetChildLookup(t: Tree, path: string): Lookup
  {
    if path == "" then Found(t) else Walk(t, Segments(path))
  }

  /** The early return for "" agrees with walking no segments. */
  lemma GetChildIsWalk(t: Tree, path: string)
    ensures GetChildLookup(t, path) == Walk(t, Segments(path))
  {
    if path == "" {
      assert Split(path, '/') == [""];
    }
  }

  /** A doubled slash resolves like a single one. */
  lemma DoubleSlashSkipped(t: Tree, a: string, b: string)
    ensures GetChildLookup(t, a + "//" + b) == GetChildLookup(t, a + "/" + b)
  {
    GetChildIsWalk(t, a + "//" + b);
    GetChildIsWalk(t, a + "/" + b);
    DoubleSlashSegments(a, b);
  }

  lemma DoubleSlashSegments(a: string, b: string)
    ensures Segments(a + "//" + b) == Segments(a + "/" + b)
  {
    var x, y := Split(a, '/'), Split(b, '/');
    SplitDoubleSlash(a, b);
    SplitSingleSlash(a, b);
    NonEmptyBlank(x, y);
  }

  lemma SplitSingleSlash(a: string, b: string)
    ensures Split(a + "/" + b, '/') == Split(a, '/') + Split(b, '/')
  {
    assert a + "/" + b == a + ['/'] + b;
    SplitAtSeparator(a, b, '/');
  }

  lemma SplitDoubleSlash(a: string, b: string)
    ensures Split(a + "//" + b, '/') == Split(a, '/') + [""] + Split(b, '/')
  {
    assert a + "//" + b == a + ['/'] + ("/" + b);
    SplitAtSeparator(a, "/" + b, '/');
    SplitLeadingSlash(b);
    SeqAssoc(Split(a, '/'), [""], Split(b, '/'));
  }

  lemma SplitLeadingSlash(b: string)
    ensures Split("/" + b, '/') == [""] + Split(b, '/')
  {
    assert "/" + b == "" + ['/'] + b;
    SplitAtSeparator("", b, '/');
  }

  /** A trailing slash is ignored. */
  lemma TrailingSlashSkipped(t: Tree, a: string)
    ensures GetChildLookup(t, a + "/") == GetChildLookup(t, a)
  {
    GetChildIsWalk(t, a + "/");
    GetChildIsWalk(t, a);
    assert a + "/" == a + ['/'] + "";
    SplitAtSeparator(a, "", '/');
    NonEmptyAppend(Split(a, '/'), Split("", '/'));
    assert NonEmpty(Split(a, '/')) + [] == NonEmpty(Split(a, '/'));
  }

  /** A leading slash is ignored. */
  lemma LeadingSlashSkipped(t: Tree, a: string)
    ensures GetChildLookup(t, "/" + a) == GetChildLookup(t, a)
  {
    GetChildIsWalk(t, "/" + a);
    GetChildIsWalk(t, a);
    SplitLeadingSlash(a);
    NonEmptyAppend([""], Split(a, '/'));
  }

  /** The `get_child` loop: skips empty pieces and descends one child per segment. */
  method GetChildLoop(t: Tree, path: string) returns (r: Lookup)
    ensures r == GetChildLookup(t, path)
  {
    if path == "" {
      return Found(t);
    }
    var parts := Split(path, '/');
    var current := t;
    var i := 0;
    while i < |parts|
      invariant 0 <= i <= |parts|
      invariant Walk(t, Segments(path)) == Walk(current, NonEmpty(parts[i..]))
    {
      assert parts[i..][1..] == parts[i + 1..];
      if parts[i] != "" {
        match ChildIndex(current.children, parts[i]) {
          case None =>
            return Missing(parts[i], current.name);
          case Some(k) =>
            current := current.children[k];
        }
      }
      i := i + 1;
    }
    return Found(current);
  }

  // ---------------------------------------------------------------------
  // Updating one node
  // ---------------------------------------------------------------------

  /** The tree with the node at handle `h` replaced by `n`. */
  function SetAt(t: Tree, h: seq<string>, n: Tree): (r: Tree)
    requires Has(t, h) && n.name == Walk(t, h).node.name
    ensures r.name == t.name
    ensures Walk(r, h) == Found(n)
    decreases |h|
  {
    if h == [] then n
    else
      var i := ChildIndex(t.children, h[0]).value;
      var c := SetAt(t.children[i], h[1..], n);
      var r := Node(t.name, t.children[i := c]);
      assert Names(r.children) == Names(t.children);
      ChildIndexByNames(r.children, t.children, h[0]);
      r
  }

  /**
   * Replacing the node at `h` by one of the same name changes what lies at
   * or below `h`, keeps the child names of every ancestor of `h`, and
   * leaves every other node as it was.
   */
  lemma SetAtWalk(t: Tree, h: seq<string>, n: Tree, s: seq<string>)
    requires Has(t, h) && n.name == Walk(t, h).node.name
    ensures h <= s ==> Walk(SetAt(t, h, n), s) == Walk(n, s[|h|..])
    ensures s < h ==>
              Has(t, s) && Has(SetAt(t, h, n), s)
              && Names(Walk(SetAt(t, h, n), s).node.children) == Names(Walk(t, s).node.children)
              && Walk(SetAt(t, h, n), s).node.name == Walk(t, s).node.name
    ensures !(h <= s) && !(s <= h) ==> Walk(SetAt(t, h, n), s) == Walk(t, s)
  {
    if h <= s {
      SetAtBelow(t, h, n, s);
    } else if s < h {
      SetAtAbove(t, h, n, s);
    } else if !(s <= h) {
      SetAtAside(t, h, n, s);
    }
  }

  /** One level of `SetAt`: the root keeps its name and its children's names, and only child `i` changes. */
  lemma SetAtRoot(t: Tree, h: seq<string>, n: Tree, i: nat)
    requires Has(t, h) && n.name == Walk(t, h).node.name && h != []
    requires ChildIndex(t.children, h[0]) == Some(i)
    ensures SetAt(t, h, n).children == t.children[i := SetAt(t.children[i], h[1..], n)]
    ensures Names(SetAt(t, h, n).children) == Names(t.children)
  {
    var r := SetAt(t, h, n);
    assert Names(r.children) == Names(t.children);
  }

  /** At and below the replaced node, the walk continues in the new node. */
  lemma {:induction false} SetAtBelow(t: Tree, h: seq<string>, n: Tree, s: seq<string>)
    requires Has(t, h) && n.name == Walk(t, h).node.name && h <= s
    ensures Walk(SetAt(t, h, n), s) == Walk(n, s[|h|..])
    decreases |h|
  {
    if h == [] {
      assert s[0..] == s;
    } else {
      var r := SetAt(t, h, n);
      var i := ChildIndex(t.children, h[0]).value;
      SetAtRoot(t, h, n, i);
      ChildIndexByNames(r.children, t.children, s[0]);
      assert h[1..] <= s[1..];
      SetAtBelow(t.children[i], h[1..], n, s[1..]);
      DropAfterHead(s, |h|);
    }
  }

  /** Strictly above the replaced node, names and child names stay. */
  lemma {:induction false} SetAtAbove(t: Tree, h: seq<string>, n: Tree, s: seq<string>)
    requires Has(t, h) && n.name == Walk(t, h).node.name && s < h
    ensures Has(t, s) && Has(SetAt(t, h, n), s)
    ensures Names(Walk(SetAt(t, h, n), s).node.children) == Names(Walk(t, s).node.children)
    ensures Walk(SetAt(t, h, n), s).node.name == Walk(t, s).node.name
    decreases |h|
  {
    var r := SetAt(t, h, n);
    var i := ChildIndex(t.children, h[0]).value;
    SetAtRoot(t, h, n, i);
    if s != [] {
      ChildIndexByNames(r.children, t.children, s[0]);
      assert s[1..] < h[1..];
      SetAtAbove(t.children[i], h[1..], n, s[1..]);
    }
  }

  /** Off the path to the replaced node, every walk is unchanged. */
  lemma {:induction false} SetAtAside(t: Tree, h: seq<string>, n: Tree, s: seq<string>)
    requires Has(t, h) && n.name == Walk(t, h).node.name && !(h <= s) && !(s <= h)
    ensures Walk(SetAt(t, h, n), s) == Walk(t, s)
    decreases |h|
  {
    var r := SetAt(t, h, n);
    var i := ChildIndex(t.children, h[0]).value;
    SetAtRoot(t, h, n, i);
    ChildIndexByNames(r.children, t.children, s[0]);
    match ChildIndex(t.children, s[0])
    case None =>
    case Some(j) =>
      if j == i {
        assert !(h[1..] <= s[1..]) && !(s[1..] <= h[1..]);
        SetAtAside(t.children[i], h[1..], n, s[1..]);
      }
  }

  lemma DropAfterHead(s: seq<string>, k: nat)
    requires 1 <= k <= |s|
    ensures s[k..] == s[1..][k - 1..]
  {
  }

  /** `add_child`: the node at `h` gets `c` appended to its children. */
  function AddChildAt(t: Tree, h: seq<string>, c: Tree): (r: Tree)
    requires Has(t, h)
    ensures r.name == t.name && Walk(r, h).Found?
    ensures Walk(r, h).node.children == Walk(t, h).node.children + [c]
  {
    var m := Walk(t, h).node;
    SetAt(t, h, Node(m.name, m.children + [c]))
  }

  /** Adding a child under a name not yet used there creates exactly one new handle. */
  lemma {:induction false} AddChildHas(t: Tree, h: seq<string>, c: Tree, s: seq<string>)
    requires Has(t, h) && c.name !in Names(Walk(t, h).node.children)
    ensures Has(AddChildAt(t, h, c), s) <==> Has(t, s) || (h + [c.name] <= s && Has(c, s[|h| + 1..]))
    ensures Has(t, s) ==>
              Names(Walk(AddChildAt(t, h, c), s).node.children)
              == Names(Walk(t, s).node.children) + (if s == h then [c.name] else [])
  {
    var m := Walk(t, h).node;
    var m' := Node(m.name, m.children + [c]);
    SetAtWalk(t, h, m', s);
    if h <= s {
      var rest := s[|h|..];
      WalkAppend(t, h, rest);
      assert h + rest == s;
      assert h + [c.name] <= s <==> [c.name] <= rest;
      if |s| > |h| {
        assert s[|h| + 1..] == rest[1..];
      }
      AddChildBelow(m, c, rest);
    } else {
      assert !(h + [c.name] <= s);
      if s < h {
        HasPrefix(t, h, |s|);
        assert h[..|s|] == s;
      }
    }
  }

  /** Seen from the node itself: appending a child of a fresh name adds exactly the handles through it. */
  lemma AddChildBelow(m: Tree, c: Tree, rest: seq<string>)
    requires c.name !in Names(m.children)
    ensures var m' := Node(m.name, m.children + [c]);
      && (Has(m', rest) <==> Has(m, rest) || ([c.name] <= rest && Has(c, rest[1..])))
      && (Has(m, rest) ==>
            Names(Walk(m', rest).node.children)
            == Names(Walk(m, rest).node.children) + (if rest == [] then [c.name] else []))
  {
    var m' := Node(m.name, m.children + [c]);
    assert Names(m'.children) == Names(m.children) + [c.name];
    if rest != [] {
      var x := rest[0];
      assert [c.name] <= rest <==> x == c.name;
      ChildIndexAppend(m.children, c, x);
      if x == c.name {
        assert Walk(m', rest) == Walk(c, rest[1..]);
      } else {
        match ChildIndex(m.children, x)
        case None =>
        case Some(k) =>
          assert Walk(m', rest) == Walk(m.children[k], rest[1..]);
      }
    }
  }

  lemma ChildIndexAppend(cs: seq<Tree>, c: Tree, x: string)
    ensures x in Names(cs) ==> ChildIndex(cs + [c], x) == ChildIndex(cs, x)
    ensures x !in Names(cs) && x == c.name ==> ChildIndex(cs + [c], x) == Some(|cs|)
    ensures x !in Names(cs) && x != c.name ==> ChildIndex(cs + [c], x).None?
  {
    var ext := cs + [c];
    assert Names(ext) == Names(cs) + [c.name];
    match ChildIndex(cs, x)
    case Some(k) =>
      assert ext[..k] == cs[..k];
      ChildIndexAt(ext, x, k);
    case None =>
      if x == c.name {
        assert ext[..|cs|] == cs;
        ChildIndexAt(ext, x, |cs|);
      }
  }

  /** `children.retain(|c| c.name != name)`. */
  function Without(cs: seq<Tree>, name: string): (r: seq<Tree>)
    ensures |r| <= |cs|
    ensures |r| == |cs| <==> name !in Names(cs)
    ensures name !in Names(r)
    ensures forall x :: x in Names(r) <==> x in Names(cs) && x != name
  {
    if cs == [] then []
    else
      assert Names(cs) == [cs[0].name] + Names(cs[1..]);
      var rest := Without(cs[1..], name);
      if cs[0].name == name then rest
      else
        assert Names([cs[0]] + rest) == [cs[0].name] + Names(rest);
        [cs[0]] + rest
  }

  /** Removing one name keeps, for every other name, the same first match. */
  lemma {:induction false} WithoutChildIndex(cs: seq<Tree>, name: string, x: string)
    requires x != name
    ensures ChildIndex(Without(cs, name), x).None? <==> ChildIndex(cs, x).None?
    ensures ChildIndex(cs, x).Some? ==>
              Without(cs, name)[ChildIndex(Without(cs, name), x).value] == cs[ChildIndex(cs, x).value]
  {
    if cs != [] {
      var w := Without(cs, name);
      var rest := Without(cs[1..], name);
      WithoutChildIndex(cs[1..], name, x);
      if cs[0].name == x {
        assert w == [cs[0]] + rest;
        assert ChildIndex(w, x) == Some(0);
      } else {
        ChildIndexTail(cs, x);
        if cs[0].name != name {
          assert w == [cs[0]] + rest;
          assert w[1..] == rest;
          ChildIndexTail(w, x);
        }
      }
    }
  }

  /** Past a first child of another name, the first match is one further on. */
  lemma ChildIndexTail(cs: seq<Tree>, x: string)
    requires cs != [] && cs[0].name != x
    ensures ChildIndex(cs, x).None? <==> ChildIndex(cs[1..], x).None?
    ensures ChildIndex(cs, x).Some? ==> ChildIndex(cs, x).value == ChildIndex(cs[1..], x).value + 1
  {
  }

  /** `remove_immediate_child` on the node at `h`. */
  function RemoveNamedAt(t: Tree, h: seq<string>, name: string): (r: Tree)
    requires Has(t, h)
    ensures Has(r, h)
    ensures Walk(r, h).node.children == Without(Walk(t, h).node.children, name)
  {
    var m := Walk(t, h).node;
    SetAt(t, h, Node(m.name, Without(m.children, name)))
  }

  /**
   * Removing the children named `x` under `h` removes every handle through
   * `h + [x]` and nothing else; child names change only at `h`.
   */
  lemma {:induction false} RemoveNamedHas(t: Tree, h: seq<string>, x: string, s: seq<string>)
    requires Has(t, h)
    ensures Has(RemoveNamedAt(t, h, x), s) <==> Has(t, s) && !(h + [x] <= s)
    ensures Has(t, s) && !(h + [x] <= s) ==>
              Names(Walk(RemoveNamedAt(t, h, x), s).node.children)
              == (if s == h then Names(Without(Walk(t, s).node.children, x)) else Names(Walk(t, s).node.children))
  {
    var m := Walk(t, h).node;
    var m' := Node(m.name, Without(m.children, x));
    SetAtWalk(t, h, m', s);
    if h <= s {
      var rest := s[|h|..];
      WalkAppend(t, h, rest);
      assert h + rest == s;
      assert h + [x] <= s <==> [x] <= rest;
      RemoveNamedBelow(m, x, rest);
    } else {
      assert !(h + [x] <= s);
      if s < h {
        HasPrefix(t, h, |s|);
        assert h[..|s|] == s;
      }
    }
  }

  /** Seen from the node itself: removing the children named `x` cuts exactly the handles through `x`. */
  lemma RemoveNamedBelow(m: Tree, x: string, rest: seq<string>)
    ensures var m' := Node(m.name, Without(m.children, x));
      && (Has(m', rest) <==> Has(m, rest) && !([x] <= rest))
      && (Has(m, rest) && !([x] <= rest) ==>
            Names(Walk(m', rest).node.children)
            == (if rest == [] then Names(Without(m.children, x)) else Names(Walk(m, rest).node.children)))
  {
    var m' := Node(m.name, Without(m.children, x));
    if rest != [] {
      var y := rest[0];
      assert [x] <= rest <==> y == x;
      if y != x {
        WithoutChildIndex(m.children, x, y);
        match ChildIndex(m.children, y)
        case None =>
        case Some(k) =>
          assert Walk(m', rest) == Walk(m.children[k], rest[1..]);
      }
    }
  }

  // ---------------------------------------------------------------------
  // Rendering (`to_string_helper`, `Display`)
  // ---------------------------------------------------------------------

  const LAST_CONNECTOR := "\U{2514}\U{2500}\U{2500} "
  const MID_CONNECTOR := "\U{251C}\U{2500}\U{2500} "
  const LAST_INDENT := "    "
  const MID_INDENT := "\U{2502}   "

  /** `to_string_helper(prefix, is_last)`: one line per node, children indented below. */
  function Render(t: Tree, prefix: string, isLast: bool): string
    decreases t, 1
  {
    var connector := if isLast then LAST_CONNECTOR else MID_CONNECTOR;
    var childPrefix := prefix + (if isLast then LAST_INDENT else MID_INDENT);
    prefix + connector + t.name + "\n" + RenderChildren(t, childPrefix, 0)
  }

  /** The children from index `i` on, the last one drawn with the closing connector. */
  function RenderChildren(t: Tree, prefix: string, i: nat): string
    requires i <= |t.children|
    decreases t, 0, |t.children| - i
  {
    if i == |t.children| then ""
    else Render(t.children[i], prefix, i == |t.children| - 1) + RenderChildren(t, prefix, i + 1)
  }

  /** `Display for TreeNode`: the rendering with its trailing newline trimmed. */
  function Display(t: Tree): string
  {
    TrimEnd(Render(t, "", true))
  }

  /** Number of nodes. */
  function Size(t: Tree): nat
    decreases t, 1
  {
    1 + SizeFrom(t, 0)
  }

  function SizeFrom(t: Tree, i: nat): nat
    requires i <= |t.children|
    decreases t, 0, |t.children| - i
  {
    if i == |t.children| then 0 else Size(t.children[i]) + SizeFrom(t, i + 1)
  }

  function CountNewlines(s: string): nat
  {
    if s == [] then 0 else (if s[0] == '\n' then 1 else 0) + CountNewlines(s[1..])
  }

  lemma CountNewlinesAppend(a: string, b: string)
    ensures CountNewlines(a + b) == CountNewlines(a) + CountNewlines(b)
  {
    if a == [] {
      assert a + b == b;
    } else {
      assert (a + b)[1..] == a[1..] + b;
    }
  }

  /** The rendering has one line per node, whatever the names (when names hold no newline). */
  lemma {:induction false} RenderLines(t: Tree, prefix: string, isLast: bool)
    requires NoNewlines(t) && '\n' !in prefix
    ensures CountNewlines(Render(t, prefix, isLast)) == Size(t)
    decreases t, 1
  {
    var connector := if isLast then LAST_CONNECTOR else MID_CONNECTOR;
    var childPrefix := prefix + (if isLast then LAST_INDENT else MID_INDENT);
    var head := prefix + connector + t.name;
    assert '\n' !in head;
    NoNewlineCount(head);
    RenderChildrenLines(t, childPrefix, 0);
    CountNewlinesAppend(head, "\n");
    CountNewlinesAppend(head + "\n", RenderChildren(t, childPrefix, 0));
  }

  lemma {:induction false} RenderChildrenLines(t: Tree, prefix: string, i: nat)
    requires i <= |t.children| && NoNewlines(t) && '\n' !in prefix
    ensures CountNewlines(RenderChildren(t, prefix, i)) == SizeFrom(t, i)
    decreases t, 0, |t.children| - i
  {
    if i < |t.children| {
      RenderLines(t.children[i], prefix, i == |t.children| - 1);
      RenderChildrenLines(t, prefix, i + 1);
      CountNewlinesAppend(Render(t.children[i], prefix, i == |t.children| - 1), RenderChildren(t, prefix, i + 1));
    }
  }

  lemma NoNewlineCount(s: string)
    requires '\n' !in s
    ensures CountNewlines(s) == 0
  {
    if s != [] {
      NoNewlineCount(s[1..]);
    }
  }

  predicate NoNewlines(t: Tree)
    decreases t
  {
    '\n' !in t.name && forall i :: 0 <= i < |t.children| ==> NoNewlines(t.children[i])
  }
}
