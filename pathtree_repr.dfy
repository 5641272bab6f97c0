/**
 * The JSON-like text form of a `TreeNode`: `"leaf"` for a leaf and
 * `{"name":[child,child,...]}` for an inner node, the comma splitter that
 * respects nesting and quotes, the parser, and the round trip between them.
 */
module PathTreeRepr {
  import opened Wrappers
  import opened Strings
  import opened Trees
  import PathTree
  import AgoraCommon

  // ---------------------------------------------------------------------
  // to_repr
  // ---------------------------------------------------------------------

  function Quote(name: string): (r: string)
    ensures |r| == |name| + 2 && r[0] == '"' && r[|r| - 1] == '"' && r[1..|r| - 1] == name
  {
    "\"" + name + "\""
  }

  /** `to_repr_helper`. */
  function Repr(t: Tree): (r: string)
    decreases t, 1
  {
    if t.children == [] then Quote(t.name)
    else Braced(t.name, Join(ChildReprs(t, 0), ','))
  }

  /** An inner node's text around the joined children `j`. */
  function Braced(name: string, j: string): (r: string)
    ensures |r| == |j| + |name| + 7 && r[0] == '{' && r[|r| - 1] == '}'
  {
    "{" + Quote(name) + ":[" + j + "]}"
  }

  /** Between its braces lie the quoted name, a colon and the bracketed children. */
  lemma BracedInner(name: string, j: string)
    ensures var r := Braced(name, j); r[1..|r| - 1] == Quote(name) + (":[" + j + "]")
  {
    var r := Braced(name, j);
    var m := Quote(name) + (":[" + j + "]");
    assert r == "{" + m + "}";
  }

  /** A representation is quoted for a leaf and braced otherwise. */
  lemma ReprEnds(t: Tree)
    ensures |Repr(t)| >= 2
    ensures t.children == [] ==> Repr(t)[0] == '"' && Repr(t)[|Repr(t)| - 1] == '"'
    ensures t.children != [] ==> Repr(t)[0] == '{' && Repr(t)[|Repr(t)| - 1] == '}'
  {
  }

  /** The representations of `t.children[i..]`, in order. */
  function ChildReprs(t: Tree, i: nat): (r: seq<string>)
    requires i <= |t.children|
    ensures |r| == |t.children| - i
    decreases t, 0, |t.children| - i
  {
    if i == |t.children| then []
    else [Repr(t.children[i])] + ChildReprs(t, i + 1)
  }

  /** Entry `k` of `ChildReprs(t, i)` represents child `i + k`. */
  lemma {:induction false} ChildReprsAt(t: Tree, i: nat, k: nat)
    requires i + k < |t.children|
    ensures ChildReprs(t, i)[k] == Repr(t.children[i + k])
    decreases k
  {
    if k > 0 {
      ChildReprsAt(t, i + 1, k - 1);
    }
  }

  lemma ChildReprsAll(t: Tree, i: nat)
    requires i <= |t.children|
    ensures forall k :: 0 <= k < |ChildReprs(t, i)| ==> ChildReprs(t, i)[k] == Repr(t.children[i + k])
  {
    forall k | 0 <= k < |ChildReprs(t, i)| {
      ChildReprsAt(t, i, k);
    }
  }

  // ---------------------------------------------------------------------
  // split_repr_array
  // ---------------------------------------------------------------------

  /** The variables of the `split_repr_array` loop. */
  datatype ScanState = ScanState(result: seq<string>, current: string, depth: int, inQuotes: bool, escapeNext: bool)

  const START := ScanState([], "", 0, false, false)

  /** One iteration of the loop body, for character `ch`. */
  function Step(st: ScanState, ch: char): ScanState
  {
    if st.escapeNext then st.(current := st.current + [ch], escapeNext := false)
    else if ch == '\\' then st.(current := st.current + [ch], escapeNext := true)
    else if ch == '"' then st.(current := st.current + [ch], inQuotes := !st.inQuotes)
    else if (ch == '{' || ch == '[') && !st.inQuotes then st.(current := st.current + [ch], depth := st.depth + 1)
    else if (ch == '}' || ch == ']') && !st.inQuotes then st.(current := st.current + [ch], depth := st.depth - 1)
    else if ch == ',' && !st.inQuotes && st.depth == 0 then st.(result := st.result + [Trim(st.current)], current := "")
    else st.(current := st.current + [ch])
  }

  /** The loop run over all of `s` from state `st`. */
  function ScanFrom(st: ScanState, s: string): ScanState
    decreases |s|
  {
    if s == [] then st else ScanFrom(Step(st, s[0]), s[1..])
  }

  lemma {:induction false} ScanFromAppend(st: ScanState, a: string, b: string)
    ensures ScanFrom(st, a + b) == ScanFrom(ScanFrom(st, a), b)
    decreases |a|
  {
    if a == [] {
      assert a + b == b;
    } else {
      assert (a + b)[1..] == a[1..] + b;
      ScanFromAppend(Step(st, a[0]), a[1..], b);
    }
  }

  /** No piece held by the state is longer than `n`. */
  predicate Bounded(st: ScanState, n: nat)
  {
    |st.current| <= n && forall k :: 0 <= k < |st.result| ==> |st.result[k]| <= n
  }

  lemma {:induction false} ScanBounded(st: ScanState, s: string, n: nat)
    requires Bounded(st, n)
    ensures Bounded(ScanFrom(st, s), n + |s|)
    decreases |s|
  {
    if s != [] {
      ScanBounded(Step(st, s[0]), s[1..], n + 1);
    }
  }

  function Finish(st: ScanState): seq<string>
  {
    if Trim(st.current) != "" then st.result + [Trim(st.current)] else st.result
  }

  /**
   * `split_repr_array(s)`: the trimmed pieces between the commas met at
   * depth 0 outside quotes, the last one dropped when blank. No piece is
   * longer than the input.
   */
  function SplitReprArray(s: string): (r: seq<string>)
    ensures forall k :: 0 <= k < |r| ==> |r[k]| <= |s|
  {
    ScanBounded(START, s, 0);
    Finish(ScanFrom(START, s))
  }

  /** The `split_repr_array` loop, one character at a time. */
  method SplitReprArrayLoop(s: string) returns (r: seq<string>)
    ensures r == SplitReprArray(s)
  {
    var result: seq<string> := [];
    var current := "";
    var depth := 0;
    var inQuotes := false;
    var escapeNext := false;
    var i := 0;
    while i < |s|
      invariant 0 <= i <= |s|
      invariant ScanState(result, current, depth, inQuotes, escapeNext) == ScanFrom(START, s[..i])
    {
      var ch := s[i];
      ScanFromAppend(START, s[..i], [ch]);
      assert s[..i + 1] == s[..i] + [ch];
      if escapeNext {
        current := current + [ch];
        escapeNext := false;
      } else if ch == '\\' {
        escapeNext := true;
        current := current + [ch];
      } else if ch == '"' {
        inQuotes := !inQuotes;
        current := current + [ch];
      } else if (ch == '{' || ch == '[') && !inQuotes {
        depth := depth + 1;
        current := current + [ch];
      } else if (ch == '}' || ch == ']') && !inQuotes {
        depth := depth - 1;
        current := current + [ch];
      } else if ch == ',' && !inQuotes && depth == 0 {
        result := result + [Trim(current)];
        current := "";
      } else {
        current := current + [ch];
      }
      i := i + 1;
    }
    assert s[..i] == s;
    if Trim(current) != "" {
      result := result + [Trim(current)];
    }
    return result;
  }

  // ---------------------------------------------------------------------
  // from_repr
  // ---------------------------------------------------------------------

  function ReprError(msg: string): string
  {
    AgoraCommon.AgoraError("utils::TreeNode", "from_repr", msg)
  }

  const SLICE_PANIC := "panicked: begin <= end (1 <= 0) when slicing a one-character string"

  /**
   * `from_repr_helper`: trims its input, then reads a quoted leaf or a
   * braced name, colon and bracketed children array; each failure with
   * its own message, the first failing child's error propagated.
   */
  function FromRepr(text: string): (r: Result<Tree>)
    decreases |text|, 6
  {
    ParseTrimmed(Trim(text), |text|)
  }

  /**
   * `from_repr_helper` after the trim. `bound` is the length of the text
   * before trimming: every text parsed below it is shorter.
   */
  function ParseTrimmed(repr: string, bound: nat): (r: Result<Tree>)
    requires |repr| <= bound
    decreases bound, 5
  {
    if StartsWithChar(repr, '"') && EndsWithChar(repr, '"') && '[' !in repr then
      if |repr| < 2 then Failure(SLICE_PANIC)
      else PathTree.NewNode(repr[1..|repr| - 1])
    else if !StartsWithChar(repr, '{') || !EndsWithChar(repr, '}') then
      Failure(ReprError("invalid format: expected {...} or \"...\", got: " + repr))
    else
      ParseInner(repr[1..|repr| - 1], bound)
  }

  /** The text between the braces: a name part, the first colon, a children part. */
  function ParseInner(inner: string, bound: nat): (r: Result<Tree>)
    requires |inner| < bound
    decreases bound, 4
  {
    match IndexOf(inner, ':')
    case None => Failure(ReprError("invalid format: no colon found in " + inner))
    case Some(colon) => ParseNamed(Trim(inner[..colon]), inner[colon + 1..], bound)
  }

  /** The trimmed name part must be quoted; `rest` follows the colon. */
  function ParseNamed(namePart: string, rest: string, bound: nat): (r: Result<Tree>)
    requires |rest| < bound
    decreases bound, 3
  {
    if !StartsWithChar(namePart, '"') || !EndsWithChar(namePart, '"') then
      Failure(ReprError("invalid name format: " + namePart))
    else if |namePart| < 2 then Failure(SLICE_PANIC)
    else ParseBracketed(namePart[1..|namePart| - 1], Trim(rest), bound)
  }

  /** The trimmed children part must be bracketed; the node is made before its children. */
  function ParseBracketed(name: string, childrenPart: string, bound: nat): (r: Result<Tree>)
    requires |childrenPart| < bound
    decreases bound, 2
  {
    if !StartsWithChar(childrenPart, '[') || !EndsWithChar(childrenPart, ']') then
      Failure(ReprError("invalid children format: " + childrenPart))
    else match PathTree.NewNode(name)
      case Failure(e) => Failure(e)
      case Success(node) => ParseList(name, Trim(childrenPart[1..|childrenPart| - 1]), bound)
  }

  /** The trimmed text between the brackets: empty, or the comma-separated children. */
  function ParseList(name: string, childrenInner: string, bound: nat): (r: Result<Tree>)
    requires |childrenInner| < bound
    decreases bound, 1
  {
    if childrenInner == "" then Success(Node(name, []))
    else match ParseChildren(SplitReprArray(childrenInner), bound)
      case Failure(e) => Failure(e)
      case Success(cs) => Success(Node(name, cs))
  }

  /** The child loop: parse each piece in order, stopping at the first error. */
  function ParseChildren(pieces: seq<string>, bound: nat): (r: Result<seq<Tree>>)
    requires forall k :: 0 <= k < |pieces| ==> |pieces[k]| < bound
    ensures r.Success? ==> |r.value| == |pieces|
    decreases bound, 0, |pieces|
  {
    if pieces == [] then Success([])
    else match FromRepr(pieces[0])
      case Failure(e) => Failure(e)
      case Success(c) =>
        match ParseChildren(pieces[1..], bound)
        case Failure(e) => Failure(e)
        case Success(cs) => Success([c] + cs)
  }

  // ---------------------------------------------------------------------
  // The round trip
  // ---------------------------------------------------------------------

  /** Characters a name must avoid for its representation to parse back. */
  predicate SafeChar(ch: char)
  {
    ch != '"' && ch != '\\' && ch != '[' && ch != ':' && ch != '/'
  }

  predicate SafeName(name: string)
  {
    forall i :: 0 <= i < |name| ==> SafeChar(name[i])
  }

  predicate SafeTree(t: Tree)
    decreases t
  {
    SafeName(t.name) && forall i :: 0 <= i < |t.children| ==> SafeTree(t.children[i])
  }

  /** Inside quotes, characters other than quote and backslash are only collected. */
  lemma {:induction false} ScanPlain(st: ScanState, s: string)
    requires st.inQuotes && !st.escapeNext
    requires forall i :: 0 <= i < |s| ==> s[i] != '"' && s[i] != '\\'
    ensures ScanFrom(st, s) == st.(current := st.current + s)
    decreases |s|
  {
    if s != [] {
      var st' := Step(st, s[0]);
      assert st' == st.(current := st.current + [s[0]]);
      ScanPlain(st', s[1..]);
      assert st.current + [s[0]] + s[1..] == st.current + s;
    }
  }

  /** A quoted safe name is collected whole and leaves the quote state as it was. */
  lemma ScanQuote(st: ScanState, name: string)
    requires !st.inQuotes && !st.escapeNext && SafeName(name)
    ensures ScanFrom(st, Quote(name)) == st.(current := st.current + Quote(name))
  {
    var s1 := st.(current := st.current + "\"", inQuotes := true);
    assert ScanFrom(st, "\"") == s1;
    ScanPlain(s1, name);
    var s2 := s1.(current := s1.current + name);
    assert ScanFrom(s2, "\"") == st.(current := st.current + Quote(name));
    ScanFromAppend(st, "\"", name);
    ScanFromAppend(st, "\"" + name, "\"");
  }

  lemma ScanOne(st: ScanState, s: string)
    requires |s| == 1
    ensures ScanFrom(st, s) == Step(st, s[0])
  {
    assert s[1..] == [];
  }

  lemma ScanTwo(st: ScanState, s: string)
    requires |s| == 2
    ensures ScanFrom(st, s) == Step(Step(st, s[0]), s[1])
  {
    ScanOne(Step(st, s[0]), s[1..]);
  }

  /**
   * Outside quotes and at a non-negative depth, the representation of a
   * safe tree is collected whole: no comma in it splits, and depth and
   * quote state come back to what they were.
   */
  lemma {:induction false} ScanRepr(t: Tree, st: ScanState)
    requires SafeTree(t) && !st.inQuotes && !st.escapeNext && st.depth >= 0
    ensures ScanFrom(st, Repr(t)) == st.(current := st.current + Repr(t))
    decreases t, 1
  {
    if t.children == [] {
      assert Repr(t) == Quote(t.name);
      ScanQuote(st, t.name);
    } else {
      ScanInner(t, st);
    }
  }

  lemma {:induction false} ScanInner(t: Tree, st: ScanState)
    requires SafeTree(t) && !st.inQuotes && !st.escapeNext && st.depth >= 0 && t.children != []
    ensures ScanFrom(st, Repr(t)) == st.(current := st.current + Repr(t))
    decreases t, 0, |t.children| + 1
  {
    var opening := "{" + Quote(t.name) + ":[";
    var j := Join(ChildReprs(t, 0), ',');
    var d := st.depth;
    ScanOpening(st, t.name);
    var s3 := st.(current := st.current + opening, depth := d + 2);
    ScanChildReprs(t, 0, s3);
    var s4 := s3.(current := s3.current + j);
    Compose(st, opening, j, s3, s4);
    var s5 := s4.(current := s4.current + "]}", depth := d);
    ScanTwo(s4, "]}");
    AppendTwo(s4.current, ']', '}');
    assert Step(Step(s4, ']'), '}') == s5;
    Compose(st, opening + j, "]}", s4, s5);
    Assoc(st.current, opening, j, "]}");
  }

  /** `{"name":[` opens two levels and is collected whole. */
  lemma ScanOpening(st: ScanState, name: string)
    requires SafeName(name) && !st.inQuotes && !st.escapeNext
    ensures ScanFrom(st, "{" + Quote(name) + ":[")
         == st.(current := st.current + ("{" + Quote(name) + ":["), depth := st.depth + 2)
  {
    var q := Quote(name);
    ScanBraceQuote(st, name);
    var s2 := st.(current := st.current + ("{" + q), depth := st.depth + 1);
    var s3 := s2.(current := s2.current + ":[", depth := st.depth + 2);
    ScanColonBracket(s2);
    Compose(st, "{" + q, ":[", s2, s3);
    Assoc3(st.current, "{" + q, ":[");
  }

  /** `{"name"` opens one level and is collected whole. */
  lemma ScanBraceQuote(st: ScanState, name: string)
    requires SafeName(name) && !st.inQuotes && !st.escapeNext
    ensures ScanFrom(st, "{" + Quote(name))
         == st.(current := st.current + ("{" + Quote(name)), depth := st.depth + 1)
  {
    var q := Quote(name);
    var s1 := st.(current := st.current + "{", depth := st.depth + 1);
    ScanOne(st, "{");
    assert Step(st, '{') == s1;
    ScanQuote(s1, name);
    var s2 := s1.(current := s1.current + q);
    Compose(st, "{", q, s1, s2);
    Assoc3(st.current, "{", q);
  }

  /** `:[` outside quotes opens one level. */
  lemma ScanColonBracket(st: ScanState)
    requires !st.inQuotes && !st.escapeNext
    ensures ScanFrom(st, ":[") == st.(current := st.current + ":[", depth := st.depth + 1)
  {
    ScanTwo(st, ":[");
    AppendTwo(st.current, ':', '[');
  }

  lemma Assoc3(w: string, a: string, b: string)
    ensures w + a + b == w + (a + b)
  {
  }

  lemma Assoc(w: string, a: string, b: string, c: string)
    ensures w + a + b + c == w + (a + b + c)
  {
  }

  lemma AppendTwo(x: string, a: char, b: char)
    ensures x + [a] + [b] == x + [a, b]
  {
  }

  lemma Compose(st: ScanState, a: string, b: string, m: ScanState, e: ScanState)
    requires ScanFrom(st, a) == m && ScanFrom(m, b) == e
    ensures ScanFrom(st, a + b) == e
  {
    ScanFromAppend(st, a, b);
  }

  /** The joined children, scanned at depth at least one, are collected whole. */
  lemma {:induction false} ScanChildReprs(t: Tree, i: nat, st: ScanState)
    requires i <= |t.children| && SafeTree(t)
    requires !st.inQuotes && !st.escapeNext && st.depth >= 1
    ensures ScanFrom(st, Join(ChildReprs(t, i), ',')) == st.(current := st.current + Join(ChildReprs(t, i), ','))
    decreases t, 0, |t.children| - i
  {
    var ps := ChildReprs(t, i);
    if |ps| == 1 {
      ScanRepr(t.children[i], st);
    } else if |ps| > 1 {
      var c := t.children[i];
      assert ps[1..] == ChildReprs(t, i + 1);
      var rest := Join(ps[1..], ',');
      ScanRepr(c, st);
      var s1 := st.(current := st.current + Repr(c));
      ScanOne(s1, [',']);
      StepNestedComma(s1);
      var s2 := s1.(current := s1.current + [',']);
      Compose(st, Repr(c), [','], s1, s2);
      ScanChildReprs(t, i + 1, s2);
      var s3 := s2.(current := s2.current + rest);
      Compose(st, Repr(c) + [','], rest, s2, s3);
      assert Join(ps, ',') == Repr(c) + [','] + rest;
      Assoc(st.current, Repr(c), [','], rest);
    }
  }

  /** Below depth 0 a comma is only collected. */
  lemma StepNestedComma(st: ScanState)
    requires !st.inQuotes && !st.escapeNext && st.depth != 0
    ensures Step(st, ',') == st.(current := st.current + [','])
  {
  }

  /** A representation has no whitespace at either end, so trimming keeps it. */
  lemma ReprTrimmed(t: Tree)
    ensures Trim(Repr(t)) == Repr(t)
  {
    TrimKeeps(Repr(t));
  }

  /** A comma at depth 0 closes a piece holding one representation. */
  lemma StepCommaRepr(st: ScanState, c: Tree)
    requires !st.inQuotes && !st.escapeNext && st.depth == 0 && st.current == Repr(c)
    ensures Step(st, ',') == st.(result := st.result + [Repr(c)], current := "")
  {
    ReprTrimmed(c);
    StepComma(st);
  }

  /** A comma at depth 0 outside quotes closes a piece that trimming keeps. */
  lemma StepComma(st: ScanState)
    requires !st.inQuotes && !st.escapeNext && st.depth == 0 && Trim(st.current) == st.current
    ensures Step(st, ',') == st.(result := st.result + [st.current], current := "")
  {
  }

  /** The end of the input closes a last piece holding one representation. */
  lemma FinishRepr(st: ScanState, c: Tree)
    requires st.current == Repr(c)
    ensures Finish(st) == st.result + [Repr(c)]
  {
    ReprTrimmed(c);
  }

  /**
   * At depth 0, the joined representations of `t.children[i..]` split at
   * each joining comma: every one but the last lands in the result, the
   * last is left in `current`.
   */
  lemma {:induction false} ScanChildrenTop(t: Tree, i: nat, st: ScanState)
    requires i < |t.children| && SafeTree(t)
    requires !st.inQuotes && !st.escapeNext && st.depth == 0 && st.current == ""
    ensures var ps := ChildReprs(t, i);
      ScanFrom(st, Join(ps, ',')) == st.(result := st.result + ps[..|ps| - 1], current := ps[|ps| - 1])
    decreases |t.children| - i
  {
    var ps := ChildReprs(t, i);
    var c := t.children[i];
    if |ps| == 1 {
      ScanRepr(c, st);
      assert st.current + Repr(c) == Repr(c);
      assert st.result + ps[..0] == st.result;
    } else {
      var tail := ChildReprs(t, i + 1);
      assert ps[1..] == tail;
      var rest := Join(tail, ',');
      var s2 := st.(result := st.result + [Repr(c)]);
      ScanReprComma(c, st);
      ScanChildrenTop(t, i + 1, s2);
      var s3 := s2.(result := s2.result + tail[..|tail| - 1], current := tail[|tail| - 1]);
      Compose(st, Repr(c) + [','], rest, s2, s3);
      assert Join(ps, ',') == Repr(c) + [','] + rest;
      ResultsSnoc(st.result, ps);
    }
  }

  /** At depth 0, a representation followed by a comma becomes one piece. */
  lemma ScanReprComma(c: Tree, st: ScanState)
    requires SafeTree(c) && !st.inQuotes && !st.escapeNext && st.depth == 0 && st.current == ""
    ensures ScanFrom(st, Repr(c) + [',']) == st.(result := st.result + [Repr(c)])
  {
    ScanRepr(c, st);
    var s1 := st.(current := Repr(c));
    assert st.current + Repr(c) == Repr(c);
    ScanOne(s1, [',']);
    StepCommaRepr(s1, c);
    Compose(st, Repr(c), [','], s1, st.(result := st.result + [Repr(c)]));
  }

  lemma ResultsSnoc(r: seq<string>, ps: seq<string>)
    requires |ps| > 1
    ensures r + [ps[0]] + ps[1..][..|ps| - 2] == r + ps[..|ps| - 1]
  {
    assert [ps[0]] + ps[1..][..|ps| - 2] == ps[..|ps| - 1];
  }

  /** Splitting the joined children gives back exactly their representations. */
  lemma {:induction false} SplitJoinedReprs(t: Tree)
    requires SafeTree(t) && t.children != []
    ensures SplitReprArray(Join(ChildReprs(t, 0), ',')) == ChildReprs(t, 0)
  {
    var ps := ChildReprs(t, 0);
    var n := |ps|;
    var c := t.children[n - 1];
    var j := Join(ps, ',');
    ScanChildrenTop(t, 0, START);
    ChildReprsAt(t, 0, n - 1);
    assert ScanFrom(START, j) == ScanState(ps[..n - 1], Repr(c), 0, false, false);
    ReprTrimmed(c);
    ReprEnds(c);
    SplitLastPiece(j, ps[..n - 1], Repr(c));
    ButLastThenLast(ps);
    assert SplitReprArray(j) == ps[..n - 1] + [ps[n - 1]];
  }

  /** A scan that ends holding a trimmed, non-empty last piece yields it after the others. */
  lemma SplitLastPiece(s: string, init: seq<string>, last: string)
    requires ScanFrom(START, s) == ScanState(init, last, 0, false, false)
    requires Trim(last) == last && last != ""
    ensures SplitReprArray(s) == init + [last]
  {
  }

  lemma ButLastThenLast(ps: seq<string>)
    requires ps != []
    ensures ps[..|ps| - 1] + [ps[|ps| - 1]] == ps
  {
  }

  lemma QuoteTrimmed(name: string)
    ensures Trim(Quote(name)) == Quote(name)
  {
    TrimKeeps(Quote(name));
  }

  /** The first colon after a quoted safe name is the one right behind it. */
  lemma ColonAfterName(name: string, rest: string)
    requires SafeName(name) && |rest| > 0 && rest[0] == ':'
    ensures IndexOf(Quote(name) + rest, ':') == Some(|Quote(name)|)
  {
    var q := Quote(name);
    var s := q + rest;
    assert s[|q|] == ':';
    QuoteSafe(name);
    assert s[..|q|] == q;
    IndexOfAt(s, ':', |q|);
  }

  /** `from_repr` of a quoted safe name builds a leaf of that name. */
  lemma FromReprQuoted(name: string)
    requires SafeName(name)
    ensures FromRepr(Quote(name)) == Success(Node(name, []))
  {
    var repr := Quote(name);
    QuoteTrimmed(name);
    FromReprUntrimmed(repr);
    QuoteSafe(name);
    assert StartsWithChar(repr, '"') && EndsWithChar(repr, '"');
    assert repr[1..|repr| - 1] == name;
  }

  /** A safe leaf reads back as itself. */
  lemma LeafRoundTrip(t: Tree)
    requires SafeTree(t) && t.children == []
    ensures FromRepr(Repr(t)) == Success(t)
  {
    assert Repr(t) == Quote(t.name);
    FromReprQuoted(t.name);
  }

  /** A quoted safe name holds no bracket, no colon and no slash. */
  lemma QuoteSafe(name: string)
    requires SafeName(name)
    ensures '[' !in Quote(name) && ':' !in Quote(name) && '/' !in name
  {
    var q := Quote(name);
    forall k | 0 <= k < |q| ensures q[k] != '[' && q[k] != ':' {
      if 0 < k < |q| - 1 { assert q[k] == name[k - 1]; }
    }
  }

  /** A text with no whitespace at either end is parsed as it stands. */
  lemma FromReprUntrimmed(text: string)
    requires Trim(text) == text
    ensures FromRepr(text) == ParseTrimmed(text, |text|)
  {
  }

  /** A braced text is parsed by what lies between the braces. */
  lemma ParseTrimmedBraced(repr: string, bound: nat)
    requires |repr| >= 2 && repr[0] == '{' && repr[|repr| - 1] == '}' && |repr| <= bound
    ensures ParseTrimmed(repr, bound) == ParseInner(repr[1..|repr| - 1], bound)
  {
  }

  /** A quoted safe name followed by a colon is split at that colon. */
  lemma ParseInnerQuoted(name: string, rest: string, bound: nat)
    requires SafeName(name) && |rest| > 0 && rest[0] == ':' && |Quote(name) + rest| < bound
    ensures ParseInner(Quote(name) + rest, bound) == ParseNamed(Quote(name), rest[1..], bound)
  {
    var q := Quote(name);
    var inner := q + rest;
    ColonAfterName(name, rest);
    assert inner[..|q|] == q;
    assert inner[|q| + 1..] == rest[1..];
    QuoteTrimmed(name);
  }

  /** A quoted name part yields its name; the part after the colon is taken as it stands. */
  lemma ParseNamedQuoted(name: string, rest: string, bound: nat)
    requires |rest| < bound && Trim(rest) == rest
    ensures ParseNamed(Quote(name), rest, bound) == ParseBracketed(name, rest, bound)
  {
  }

  /** A bracketed text has no whitespace at either end. */
  lemma BracketedTrimmed(j: string)
    ensures Trim("[" + j + "]") == "[" + j + "]"
  {
    TrimKeeps("[" + j + "]");
  }

  /** Nor have the joined representations of a node's children. */
  lemma JoinedReprsTrimmed(t: Tree)
    requires t.children != []
    ensures Trim(Join(ChildReprs(t, 0), ',')) == Join(ChildReprs(t, 0), ',')
  {
    JoinedSolid(t);
    TrimKeeps(Join(ChildReprs(t, 0), ','));
  }

  /** A non-empty string with no whitespace at either end. */
  predicate Solid(s: string)
  {
    s != [] && !IsWhitespace(s[0]) && !IsWhitespace(s[|s| - 1])
  }

  /** Every representation in `ChildReprs(t, i)` is solid. */
  lemma {:induction false} ChildReprsSolid(t: Tree, i: nat)
    requires i <= |t.children|
    ensures forall k :: 0 <= k < |ChildReprs(t, i)| ==> Solid(ChildReprs(t, i)[k])
    decreases |t.children| - i
  {
    if i < |t.children| {
      ChildReprsSolid(t, i + 1);
      ReprEnds(t.children[i]);
      var ps := ChildReprs(t, i);
      var tail := ChildReprs(t, i + 1);
      assert ps == [Repr(t.children[i])] + tail;
      forall k | 0 < k < |ps| ensures Solid(ps[k]) {
        assert ps[k] == tail[k - 1];
      }
    }
  }

  /** The joined children are solid, and no single one is longer. */
  lemma JoinedSolid(t: Tree)
    requires t.children != []
    ensures Solid(Join(ChildReprs(t, 0), ','))
    ensures forall k :: 0 <= k < |ChildReprs(t, 0)| ==> |ChildReprs(t, 0)[k]| <= |Join(ChildReprs(t, 0), ',')|
  {
    var ps := ChildReprs(t, 0);
    ChildReprsSolid(t, 0);
    JoinEnds(ps, ',');
  }

  /** A bracketed list behind a slash-free name is parsed as the node's children. */
  lemma ParseBracketedList(name: string, j: string, bound: nat)
    requires '/' !in name && |j| + 2 < bound
    requires Trim(j) == j
    ensures ParseBracketed(name, "[" + j + "]", bound) == ParseList(name, j, bound)
  {
    var cp := "[" + j + "]";
    assert cp[1..|cp| - 1] == j;
  }

  /**
   * Every safe tree reads back from its representation with the same
   * names and the same order of children.
   */
  lemma {:induction false} FromReprRoundTrip(t: Tree)
    requires SafeTree(t)
    ensures FromRepr(Repr(t)) == Success(t)
    decreases t, 2
  {
    if t.children == [] {
      LeafRoundTrip(t);
    } else {
      InnerRoundTrip(t);
    }
  }

  lemma {:induction false} InnerRoundTrip(t: Tree)
    requires SafeTree(t) && t.children != []
    ensures FromRepr(Repr(t)) == Success(t)
    decreases t, 1
  {
    var r := Repr(t);
    var ps := ChildReprs(t, 0);
    var j := Join(ps, ',');
    ReprParsesAsList(t);
    JoinedSolid(t);
    SplitJoinedReprs(t);
    ParseChildrenRoundTrip(t, 0, |r|);
    assert t.children[0..] == t.children;
  }

  /** The representation of an inner node is parsed as the list of its joined children. */
  lemma ReprParsesAsList(t: Tree)
    requires SafeName(t.name) && t.children != []
    ensures FromRepr(Repr(t)) == ParseList(t.name, Join(ChildReprs(t, 0), ','), |Repr(t)|)
  {
    var r := Repr(t);
    var j := Join(ChildReprs(t, 0), ',');
    ReprParsesAsInner(t);
    InnerParsesAsBracketed(t.name, j, |r|);
    QuoteSafe(t.name);
    JoinedReprsTrimmed(t);
    ParseBracketedList(t.name, j, |r|);
  }

  /** The representation of an inner node is parsed by what lies between its braces. */
  lemma ReprParsesAsInner(t: Tree)
    requires t.children != []
    ensures var j := Join(ChildReprs(t, 0), ',');
      FromRepr(Repr(t)) == ParseInner(Quote(t.name) + (":[" + j + "]"), |Repr(t)|)
  {
    var j := Join(ChildReprs(t, 0), ',');
    FromReprOfRepr(t);
    assert Repr(t) == Braced(t.name, j);
    ParseBraced(t.name, j, |Repr(t)|);
  }

  /** A braced text is parsed by what lies between its braces. */
  lemma ParseBraced(name: string, j: string, bound: nat)
    requires |Braced(name, j)| <= bound
    ensures ParseTrimmed(Braced(name, j), bound) == ParseInner(Quote(name) + (":[" + j + "]"), bound)
  {
    var r := Braced(name, j);
    BracedInner(name, j);
    ParseTrimmedBraced(r, bound);
    assert ParseTrimmed(r, bound) == ParseInner(r[1..|r| - 1], bound);
  }

  /** A representation is parsed as it stands, with no trimming. */
  lemma FromReprOfRepr(t: Tree)
    ensures FromRepr(Repr(t)) == ParseTrimmed(Repr(t), |Repr(t)|)
  {
    ReprTrimmed(t);
    FromReprUntrimmed(Repr(t));
  }

  /** Between the braces, the quoted safe name is read and the bracketed list is kept. */
  lemma {:induction false} InnerParsesAsBracketed(name: string, j: string, bound: nat)
    requires SafeName(name) && |Quote(name) + (":[" + j + "]")| < bound
    ensures ParseInner(Quote(name) + (":[" + j + "]"), bound) == ParseBracketed(name, "[" + j + "]", bound)
  {
    var rest := ":[" + j + "]";
    ParseInnerQuoted(name, rest, bound);
    assert rest[1..] == "[" + j + "]";
    BracketedTrimmed(j);
    ParseNamedQuoted(name, "[" + j + "]", bound);
  }

  lemma {:induction false} ParseChildrenRoundTrip(t: Tree, i: nat, bound: nat)
    requires SafeTree(t) && i <= |t.children|
    requires forall k :: 0 <= k < |ChildReprs(t, i)| ==> |ChildReprs(t, i)[k]| < bound
    ensures ParseChildren(ChildReprs(t, i), bound) == Success(t.children[i..])
    decreases t, 0, |t.children| - i
  {
    var ps := ChildReprs(t, i);
    if i < |t.children| {
      var c := t.children[i];
      FromReprRoundTrip(c);
      var tail := ChildReprs(t, i + 1);
      assert ps == [Repr(c)] + tail;
      assert ps[0] == Repr(c) && ps[1..] == tail;
      assert FromRepr(ps[0]) == Success(c);
      ParseChildrenRoundTrip(t, i + 1, bound);
      assert ParseChildren(ps[1..], bound) == Success(t.children[i + 1..]);
      assert ParseChildren(ps, bound) == Success([c] + t.children[i + 1..]);
      assert t.children[i..] == [c] + t.children[i + 1..];
    } else {
      assert ps == [] && t.children[i..] == [];
    }
  }
}
