/**
 * The einops-pattern helpers of the feature pipeline: the compatibility
 * check between two patterns, the split of an input/output pattern pair
 * into kept and reduced axes, the dimension index of a named axis, and
 * the two-axis "conjugate" pattern built from a pair. A pattern is read
 * through Python `str.split()` (`Words`).
 */
module Indexing {
  import opened Wrappers
  import opened Strings

  const ELLIPSIS := "..."
  const REDUCED := "()"

  // ---------------------------------------------------------------------
  // Splitting on a multi-character separator
  // ---------------------------------------------------------------------

  /** Python `s.split(sep)` for a non-empty separator: the pieces between its non-overlapping occurrences. */
  function SplitOnText(s: string, sep: string): (parts: seq<string>)
    requires |sep| > 0
    ensures |parts| >= 1
    decreases |s|
  {
    if |s| < |sep| then [s]
    else if s[..|sep|] == sep then [""] + SplitOnText(s[|sep|..], sep)
    else
      var rest := SplitOnText(s[1..], sep);
      [[s[0]] + rest[0]] + rest[1..]
  }

  /** Python `sep.join(parts)`. */
  function JoinText(parts: seq<string>, sep: string): string
    requires |parts| >= 1
  {
    if |parts| == 1 then parts[0] else parts[0] + sep + JoinText(parts[1..], sep)
  }

  /** Prepending a character to the first piece prepends it to the joined text. */
  lemma JoinConsHead(c: char, x: string, ys: seq<string>, sep: string)
    ensures JoinText([[c] + x] + ys, sep) == [c] + JoinText([x] + ys, sep)
  {
    if ys != [] {
      assert ([[c] + x] + ys)[1..] == ys && ([x] + ys)[1..] == ys;
    }
  }

  /** Joining the pieces with the separator gives back the text. */
  lemma {:induction false} SplitOnTextJoin(s: string, sep: string)
    requires |sep| > 0
    ensures JoinText(SplitOnText(s, sep), sep) == s
    decreases |s|
  {
    if |s| < |sep| {
    } else if s[..|sep|] == sep {
      var tail := s[|sep|..];
      var rest := SplitOnText(tail, sep);
      SplitOnTextJoin(tail, sep);
      assert SplitOnText(s, sep) == [""] + rest;
      assert ([""] + rest)[1..] == rest;
      assert JoinText([""] + rest, sep) == "" + sep + JoinText(rest, sep);
      assert s == sep + tail;
    } else {
      var rest := SplitOnText(s[1..], sep);
      SplitOnTextJoin(s[1..], sep);
      assert SplitOnText(s, sep) == [[s[0]] + rest[0]] + rest[1..];
      assert rest == [rest[0]] + rest[1..];
      JoinConsHead(s[0], rest[0], rest[1..], sep);
      assert s == [s[0]] + s[1..];
    }
  }

  /** A second piece means the separator occurs, right after the first piece. */
  lemma SplitOnTextFound(s: string, sep: string)
    requires |sep| > 0 && |SplitOnText(s, sep)| > 1
    ensures ContainsSub(s, sep)
  {
    var parts := SplitOnText(s, sep);
    SplitOnTextJoin(s, sep);
    var tail := JoinText(parts[1..], sep);
    assert s == parts[0] + sep + tail;
    assert s[|parts[0]|..|parts[0]| + |sep|] == sep;
    ContainsSubAt(s, sep, |parts[0]|);
  }

  // ---------------------------------------------------------------------
  // assert_not_incompatible
  // ---------------------------------------------------------------------

  predicate Wildcard(t: string)
  {
    t == REDUCED || t == "*" || t == ELLIPSIS
  }

  /** Two tokens at the same place conflict only when they differ and neither is a wildcard. */
  predicate TokensAgree(ta: string, tb: string)
  {
    ta == tb || Wildcard(ta) || Wildcard(tb)
  }

  /** The aligned leading tokens agree. */
  predicate PrefixAgree(la: seq<string>, lb: seq<string>)
  {
    forall i :: 0 <= i < |la| && i < |lb| ==> TokensAgree(la[i], lb[i])
  }

  /** The aligned trailing tokens agree, counted from the end. */
  predicate SuffixAgree(ra: seq<string>, rb: seq<string>)
  {
    forall d :: 0 <= d < |ra| && d < |rb| ==> TokensAgree(FromEnd(ra, d), FromEnd(rb, d))
  }

  /** The token `d` places before the last one. */
  function FromEnd(ts: seq<string>, d: nat): string
    requires d < |ts|
  {
    ts[|ts| - 1 - d]
  }

  /** The tokens before the first ellipsis. */
  function LeftOf(p: string): seq<string>
  {
    Words(SplitOnText(p, ELLIPSIS)[0])
  }

  /** The tokens between the first and the second ellipsis; none without an ellipsis. */
  function RightOf(p: string): seq<string>
  {
    var parts := SplitOnText(p, ELLIPSIS);
    if |parts| > 1 then Words(parts[1]) else []
  }

  /**
   * When neither pattern has an ellipsis they must have as many tokens,
   * agreeing place by place; otherwise only the tokens before the ellipsis,
   * aligned from the start, and those after it, aligned from the end, are
   * compared.
   */
  predicate Compatible(a: string, b: string)
  {
    if !ContainsSub(a, ELLIPSIS) && !ContainsSub(b, ELLIPSIS) then
      |Words(a)| == |Words(b)| && PrefixAgree(Words(a), Words(b))
    else
      PrefixAgree(LeftOf(a), LeftOf(b)) && SuffixAgree(RightOf(a), RightOf(b))
  }

  function NotCompatible(a: string, b: string): string
  {
    a + " is not compatible with " + b
  }

  /** `assert_not_incompatible`: raises exactly when the patterns conflict. */
  method AssertNotIncompatible(a: string, b: string) returns (r: Result<Unit>)
    ensures r.Success? <==> Compatible(a, b)
    ensures r.Failure? ==> r.error == NotCompatible(a, b)
  {
    var hasEllipsisA := ContainsSub(a, ELLIPSIS);
    var hasEllipsisB := ContainsSub(b, ELLIPSIS);
    var ok: bool;
    if !hasEllipsisA && !hasEllipsisB {
      var tokensA, tokensB := Words(a), Words(b);
      if |tokensA| != |tokensB| {
        return Failure(NotCompatible(a, b));
      }
      ok := LeadingAgree(tokensA, tokensB);
    } else {
      ok := LeadingAgree(LeftOf(a), LeftOf(b));
      if ok {
        ok := TrailingAgree(RightOf(a), RightOf(b));
      }
    }
    if !ok {
      return Failure(NotCompatible(a, b));
    }
    return Success(Unit);
  }

  /** The forward loop of `assert_not_incompatible`: walks the aligned leading tokens until one pair clashes. */
  method LeadingAgree(la: seq<string>, lb: seq<string>) returns (ok: bool)
    ensures ok <==> PrefixAgree(la, lb)
  {
    var i := 0;
    while i < |la| && i < |lb|
      invariant 0 <= i <= |la| && i <= |lb|
      invariant forall k :: 0 <= k < i ==> TokensAgree(la[k], lb[k])
    {
      if !TokensAgree(la[i], lb[i]) {
        return false;
      }
      i := i + 1;
    }
    return true;
  }

  /** The backward loop of `assert_not_incompatible`: walks the aligned trailing tokens from the end until one pair clashes. */
  method TrailingAgree(ra: seq<string>, rb: seq<string>) returns (ok: bool)
    ensures ok <==> SuffixAgree(ra, rb)
  {
    var i := 0;
    while i < |ra| && i < |rb|
      invariant 0 <= i <= |ra| && i <= |rb|
      invariant forall d :: 0 <= d < i ==> TokensAgree(FromEnd(ra, d), FromEnd(rb, d))
    {
      if !TokensAgree(FromEnd(ra, i), FromEnd(rb, i)) {
        return false;
      }
      i := i + 1;
    }
    return true;
  }

  /** Compatibility does not depend on the order of the two patterns, and every pattern is compatible with itself. */
  lemma CompatibleSymmetric(a: string, b: string)
    ensures Compatible(a, b) <==> Compatible(b, a)
    ensures Compatible(a, a)
  {
    if Compatible(a, b) {
      if !ContainsSub(a, ELLIPSIS) && !ContainsSub(b, ELLIPSIS) {
        assert PrefixAgree(Words(b), Words(a));
      } else {
        assert PrefixAgree(LeftOf(b), LeftOf(a));
        assert SuffixAgree(RightOf(b), RightOf(a));
      }
    }
    if Compatible(b, a) {
      if !ContainsSub(a, ELLIPSIS) && !ContainsSub(b, ELLIPSIS) {
        assert PrefixAgree(Words(a), Words(b));
      } else {
        assert PrefixAgree(LeftOf(a), LeftOf(b));
        assert SuffixAgree(RightOf(a), RightOf(b));
      }
    }
  }

  // ---------------------------------------------------------------------
  // parse_einops_axes
  // ---------------------------------------------------------------------

  /** The input axes whose output is not `()`, in order. */
  function Kept(inputs: seq<string>, outputs: seq<string>): (r: seq<string>)
    requires |inputs| == |outputs|
    ensures |r| <= |inputs|
  {
    if inputs == [] then []
    else (if outputs[0] != REDUCED then [inputs[0]] else []) + Kept(inputs[1..], outputs[1..])
  }

  /** The input axes whose output is `()`, in order. */
  function Reduced(inputs: seq<string>, outputs: seq<string>): (r: seq<string>)
    requires |inputs| == |outputs|
    ensures |r| <= |inputs|
  {
    if inputs == [] then []
    else (if outputs[0] == REDUCED then [inputs[0]] else []) + Reduced(inputs[1..], outputs[1..])
  }

  /** Deals kept and reduced axes back out in the order the output pattern dictates. */
  function Merge(outputs: seq<string>, kept: seq<string>, reduced: seq<string>): seq<string>
  {
    if outputs == [] then []
    else if outputs[0] == REDUCED then
      if reduced == [] then [] else [reduced[0]] + Merge(outputs[1..], kept, reduced[1..])
    else
      if kept == [] then [] else [kept[0]] + Merge(outputs[1..], kept[1..], reduced)
  }

  /** `parse_einops_axes`: the kept and the reduced axes of an input/output pair of the same length. */
  function ParseEinopsAxes(inputShape: string, outputShape: string): Result<(seq<string>, seq<string>)>
  {
    var inputs, outputs := Words(inputShape), Words(outputShape);
    if |inputs| != |outputs| then
      Failure("Shapes must have same length: " + inputShape + " vs " + outputShape)
    else
      Success((Kept(inputs, outputs), Reduced(inputs, outputs)))
  }

  /**
   * The kept and reduced axes split the input axes between them: their
   * counts add up, and dealing them back out by the output pattern gives
   * the input axes in their order.
   */
  lemma {:induction false} KeptReducedPartition(inputs: seq<string>, outputs: seq<string>)
    requires |inputs| == |outputs|
    ensures |Kept(inputs, outputs)| + |Reduced(inputs, outputs)| == |inputs|
    ensures Merge(outputs, Kept(inputs, outputs), Reduced(inputs, outputs)) == inputs
  {
    if inputs != [] {
      KeptReducedPartition(inputs[1..], outputs[1..]);
      var k, r := Kept(inputs[1..], outputs[1..]), Reduced(inputs[1..], outputs[1..]);
      if outputs[0] == REDUCED {
        assert Reduced(inputs, outputs) == [inputs[0]] + r;
        assert Kept(inputs, outputs) == k;
      } else {
        assert Kept(inputs, outputs) == [inputs[0]] + k;
        assert Reduced(inputs, outputs) == r;
      }
      assert inputs == [inputs[0]] + inputs[1..];
    }
  }

  /** `parse_einops_axes` fails exactly on patterns of different lengths and otherwise partitions the input axes. */
  lemma ParseEinopsAxesSpec(inputShape: string, outputShape: string)
    ensures ParseEinopsAxes(inputShape, outputShape).Failure? <==> |Words(inputShape)| != |Words(outputShape)|
    ensures ParseEinopsAxes(inputShape, outputShape).Success? ==>
      var (kept, reduced) := ParseEinopsAxes(inputShape, outputShape).value;
      && |kept| + |reduced| == |Words(inputShape)|
      && Merge(Words(outputShape), kept, reduced) == Words(inputShape)
  {
    if |Words(inputShape)| == |Words(outputShape)| {
      KeptReducedPartition(Words(inputShape), Words(outputShape));
    }
  }

  // ---------------------------------------------------------------------
  // find_dim
  // ---------------------------------------------------------------------

  predicate Bracket(t: string)
  {
    t == "(" || t == ")"
  }

  /** The tokens that stand for any number of axes. */
  predicate Variadic(t: string)
  {
    t == ELLIPSIS || t == "*"
  }

  /** A token that is a dimension of its own. */
  predicate Plain(t: string)
  {
    !Bracket(t) && !Variadic(t)
  }

  /** The first variadic token. */
  function FirstVariadic(ts: seq<string>): (r: Option<nat>)
    ensures r.Some? ==> r.value < |ts| && Variadic(ts[r.value]) && forall k :: 0 <= k < r.value ==> !Variadic(ts[k])
    ensures r.None? ==> forall k :: 0 <= k < |ts| ==> !Variadic(ts[k])
  {
    if ts == [] then None
    else if Variadic(ts[0]) then Some(0)
    else
      var rest := FirstVariadic(ts[1..]);
      if rest.Some? then Some(rest.value + 1) else None
  }

  /** The tokens other than brackets. */
  function Unbracketed(ts: seq<string>): seq<string>
  {
    if ts == [] then [] else (if Bracket(ts[0]) then [] else [ts[0]]) + Unbracketed(ts[1..])
  }

  /** The plain tokens: the dimensions a positive index counts. */
  function PlainTokens(ts: seq<string>): seq<string>
  {
    if ts == [] then [] else (if Plain(ts[0]) then [ts[0]] else []) + PlainTokens(ts[1..])
  }

  /** Python `list.index`: the first place of `x`. */
  function First(ts: seq<string>, x: string): (r: nat)
    requires x in ts
    ensures r < |ts| && ts[r] == x && forall k :: 0 <= k < r ==> ts[k] != x
  {
    if ts[0] == x then 0
    else
      assert x in ts[1..];
      First(ts[1..], x) + 1
  }

  function AxisNotFound(axis: string, pattern: string): string
  {
    "Axis '" + axis + "' not found in pattern '" + pattern + "'"
  }

  /**
   * The index of `axis` among the tokens: negative, counted from the end
   * of the unbracketed tokens after the first variadic one, when the axis
   * is among them; otherwise the number of plain tokens before its first
   * occurrence.
   */
  function FindDimTokens(tokens: seq<string>, axis: string, pattern: string): Result<int>
  {
    if axis !in tokens then Failure(AxisNotFound(axis, pattern))
    else
      var after := AfterVariadic(tokens);
      if axis in after then Success(-(|after| - First(after, axis)))
      else Success(|PlainTokens(tokens[..First(tokens, axis)])|)
  }

  /** The unbracketed tokens after the first variadic one; none without a variadic token. */
  function AfterVariadic(tokens: seq<string>): (after: seq<string>)
  {
    var e := FirstVariadic(tokens);
    if e.Some? then Unbracketed(tokens[e.value + 1..]) else []
  }

  function FindDim(pattern: string, axis: string): Result<int>
  {
    FindDimTokens(Words(pattern), axis, pattern)
  }

  /** `find_dim`, with its two scans. */
  method FindDimLoop(pattern: string, axis: string) returns (r: Result<int>)
    ensures r == FindDim(pattern, axis)
  {
    var tokens := Words(pattern);
    r := FindDimScan(tokens, axis, pattern);
  }

  /** The two scans of `find_dim` over the pattern's tokens. */
  method FindDimScan(tokens: seq<string>, axis: string, pattern: string) returns (r: Result<int>)
    ensures r == FindDimTokens(tokens, axis, pattern)
  {
    if axis !in tokens {
      return Failure(AxisNotFound(axis, pattern));
    }
    ghost var after := AfterVariadic(tokens);
    var ellipsisIdx := FindVariadic(tokens);
    if ellipsisIdx >= 0 {
      var afterTokens := Unbracketed(tokens[ellipsisIdx + 1..]);
      assert afterTokens == after;
      if axis in afterTokens {
        var posInAfter := First(afterTokens, axis);
        return Success(-(|afterTokens| - posInAfter));
      }
    } else {
      assert after == [];
    }
    assert axis !in after;
    var count := CountPlainBefore(tokens, axis);
    return Success(count);
  }

  /** The first scan of `find_dim`: the index of the first `...` or `*`, or -1. */
  method FindVariadic(tokens: seq<string>) returns (idx: int)
    ensures idx < 0 ==> FirstVariadic(tokens).None?
    ensures idx >= 0 ==> FirstVariadic(tokens) == Some(idx as nat)
  {
    idx := -1;
    var i := 0;
    while i < |tokens| && idx < 0
      invariant 0 <= i <= |tokens|
      invariant idx < 0 ==> forall k :: 0 <= k < i ==> !Variadic(tokens[k])
      invariant idx >= 0 ==> FirstVariadic(tokens) == Some(idx as nat)
    {
      if Variadic(tokens[i]) {
        idx := i;
      }
      i := i + 1;
    }
  }

  /** The second scan of `find_dim`: the plain tokens before the axis's first place. */
  method CountPlainBefore(tokens: seq<string>, axis: string) returns (count: nat)
    requires axis in tokens
    ensures count == |PlainTokens(tokens[..First(tokens, axis)])|
  {
    count := 0;
    var i := 0;
    while tokens[i] != axis
      invariant 0 <= i <= First(tokens, axis)
      invariant count == |PlainTokens(tokens[..i])|
      decreases First(tokens, axis) - i
    {
      PlainTokensStep(tokens, i);
      if Plain(tokens[i]) {
        count := count + 1;
      }
      i := i + 1;
    }
  }

  /** Counting one more token counts it when it is plain. */
  lemma PlainTokensStep(tokens: seq<string>, i: nat)
    requires i < |tokens|
    ensures |PlainTokens(tokens[..i + 1])| == |PlainTokens(tokens[..i])| + (if Plain(tokens[i]) then 1 else 0)
  {
    PlainTokensSnoc(tokens[..i], tokens[i]);
    assert tokens[..i + 1] == tokens[..i] + [tokens[i]];
  }

  lemma {:induction false} PlainTokensSnoc(ts: seq<string>, t: string)
    ensures PlainTokens(ts + [t]) == PlainTokens(ts) + (if Plain(t) then [t] else [])
  {
    if ts != [] {
      assert (ts + [t])[1..] == ts[1..] + [t];
      PlainTokensSnoc(ts[1..], t);
    } else {
      assert [t][1..] == [];
    }
  }

  /** The plain tokens before a plain token's place: its index among the plain tokens. */
  lemma {:induction false} PlainIndex(ts: seq<string>, p: nat)
    requires p < |ts| && Plain(ts[p])
    ensures |PlainTokens(ts[..p])| < |PlainTokens(ts)| && PlainTokens(ts)[|PlainTokens(ts[..p])|] == ts[p]
  {
    if p == 0 {
      assert ts[..0] == [];
    } else {
      PlainIndex(ts[1..], p - 1);
      assert ts[1..][..p - 1] == ts[..p][1..];
      assert ts[1..][p - 1] == ts[p];
    }
  }

  /**
   * `find_dim` on the whitespace tokens of a pattern (`FindDim` is
   * `FindDimTokens` on `Words(pattern)`) fails exactly when the axis is
   * not a token. A negative
   * result, used as a Python index into the unbracketed tokens after the
   * first `...` or `*`, lands on the axis; a non-negative one, used on the
   * plain dimensions, lands on the axis when the axis is plain.
   */
  lemma FindDimMeaning(tokens: seq<string>, axis: string, pattern: string)
    ensures var r := FindDimTokens(tokens, axis, pattern);
      && (r.Failure? <==> axis !in tokens)
      && (r.Success? && r.value < 0 ==>
        var e := FirstVariadic(tokens);
        && e.Some?
        && var after := Unbracketed(tokens[e.value + 1..]);
        && |after| + r.value >= 0
        && after[|after| + r.value] == axis)
      && (r.Success? && r.value >= 0 && Plain(axis) ==>
        r.value < |PlainTokens(tokens)| && PlainTokens(tokens)[r.value] == axis)
  {
    var r := FindDimTokens(tokens, axis, pattern);
    if axis !in tokens {
      assert r.Failure?;
    } else if axis in AfterVariadic(tokens) {
      FindDimFromEnd(tokens, axis, pattern);
      assert r.Success? && r.value < 0;
    } else {
      FindDimFromFront(tokens, axis, pattern);
      assert r.Success? && r.value >= 0;
    }
  }

  /** An axis after the first variadic token is counted from the end of the tokens after it. */
  lemma FindDimFromEnd(tokens: seq<string>, axis: string, pattern: string)
    requires axis in tokens && axis in AfterVariadic(tokens)
    ensures var after := AfterVariadic(tokens);
      var r := FindDimTokens(tokens, axis, pattern);
      && FirstVariadic(tokens).Some?
      && after == Unbracketed(tokens[FirstVariadic(tokens).value + 1..])
      && r.Success? && r.value < 0
      && |after| + r.value >= 0 && after[|after| + r.value] == axis
  {
    var after := AfterVariadic(tokens);
    var r := FindDimTokens(tokens, axis, pattern);
    var k := First(after, axis);
    assert r == Success(-(|after| - k));
  }

  /** Otherwise an axis is counted among the plain tokens before it. */
  lemma FindDimFromFront(tokens: seq<string>, axis: string, pattern: string)
    requires axis in tokens && axis !in AfterVariadic(tokens)
    ensures var r := FindDimTokens(tokens, axis, pattern);
      && r.Success? && r.value >= 0
      && (Plain(axis) ==> r.value < |PlainTokens(tokens)| && PlainTokens(tokens)[r.value] == axis)
  {
    var p := First(tokens, axis);
    if Plain(axis) {
      PlainIndex(tokens, p);
    }
  }

  /** The documentation's examples without a leading `...`: counting from the front, and from the end past a `*`. */
  lemma FindDimExamples()
    ensures FindDimTokens(["batch", "feature"], "feature", "batch feature") == Success(1)
    ensures FindDimTokens(["*", "feature"], "feature", "* feature") == Success(-1)
  {
    var t1 := ["batch", "feature"];
    assert t1[..1] == ["batch"] && t1[0] != "feature";
    assert First(t1, "feature") == 1;
    assert PlainTokens(["batch"]) == ["batch"];
    var t2 := ["*", "feature"];
    assert t2[1..] == ["feature"] && Unbracketed(["feature"]) == ["feature"];
  }

  /** The variadic examples: counting from the end past a leading `...`. */
  lemma FindDimVariadicExamples()
    ensures FindDimTokens(["...", "last_2", "last_1"], "last_1", "... last_2 last_1") == Success(-1)
    ensures FindDimTokens(["...", "last_2", "last_1"], "last_2", "... last_2 last_1") == Success(-2)
  {
    var t3 := ["...", "last_2", "last_1"];
    assert t3[1..] == ["last_2", "last_1"];
    assert Unbracketed(["last_2", "last_1"]) == ["last_2", "last_1"] by {
      assert ["last_2", "last_1"][1..] == ["last_1"];
    }
    assert First(["last_2", "last_1"], "last_1") == 1 by {
      assert ["last_2", "last_1"][1..] == ["last_1"];
    }
  }


  // ---------------------------------------------------------------------
  // build_conj_shape
  // ---------------------------------------------------------------------

  const NO_REDUCED_AXIS := "normalize_shape must have at least one reduced dimension ()"

  /** `"(" + " ".join(axes) + ")"`. */
  function Group(axes: seq<string>): (r: string)
    ensures |r| >= 2 && r[0] == '(' && r[|r| - 1] == ')'
  {
    "(" + Join(axes, ' ') + ")"
  }

  /**
   * `build_conj_shape`: the kept axes grouped as the first axis (`1` when
   * there are none) and the reduced axes grouped as the second.
   */
  function BuildConjShape(inputShape: string, normalizeShape: string): Result<string>
  {
    var parsed := ParseEinopsAxes(inputShape, normalizeShape);
    if parsed.Failure? then Failure(parsed.error)
    else
      var (kept, reduced) := parsed.value;
      if reduced == [] then Failure(NO_REDUCED_AXIS)
      else
        var keptPart := if kept != [] then Group(kept) else "1";
        Success(PyStrip(keptPart + " " + Group(reduced)))
  }

  /** A text that starts and ends with something other than whitespace is left alone by `strip`. */
  lemma StripKeeps(s: string)
    requires |s| > 0 && !IsPySpace(s[0]) && !IsPySpace(s[|s| - 1])
    ensures PyStrip(s) == s
  {
    TrimUnchanged(s, IsPySpace);
  }

  /**
   * `build_conj_shape` fails when the shapes differ in length or nothing
   * is reduced; otherwise it is the two groups joined by a space, with `1`
   * in front when nothing is kept, and the final `strip` changes nothing.
   */
  lemma BuildConjShapeSpec(inputShape: string, normalizeShape: string)
    ensures var parsed := ParseEinopsAxes(inputShape, normalizeShape);
      BuildConjShape(inputShape, normalizeShape).Failure? <==> parsed.Failure? || parsed.value.1 == []
    ensures var parsed := ParseEinopsAxes(inputShape, normalizeShape);
      parsed.Success? && parsed.value.1 != [] ==>
        BuildConjShape(inputShape, normalizeShape).value ==
          (if parsed.value.0 == [] then "1" else Group(parsed.value.0)) + " " + Group(parsed.value.1)
  {
    var parsed := ParseEinopsAxes(inputShape, normalizeShape);
    if parsed.Success? && parsed.value.1 != [] {
      var keptPart := if parsed.value.0 != [] then Group(parsed.value.0) else "1";
      var s := keptPart + " " + Group(parsed.value.1);
      assert s[0] == keptPart[0] && s[|s| - 1] == ')';
      StripKeeps(s);
    }
  }

  /** The first documented example, on its token lists. */
  lemma BuildConjShapeExample()
    ensures Kept(["batch", "feature"], ["()", "feature"]) == ["feature"]
    ensures Reduced(["batch", "feature"], ["()", "feature"]) == ["batch"]
    ensures Group(["feature"]) + " " + Group(["batch"]) == "(feature) (batch)"
  {
    KeptReducedFirstReduced("batch", "feature", "feature");
    GroupsOfOne("feature", "batch");
  }

  /** A pair whose first output is `()` keeps the second axis and reduces the first. */
  lemma KeptReducedFirstReduced(a: string, b: string, out: string)
    requires out != REDUCED
    ensures Kept([a, b], [REDUCED, out]) == [b]
    ensures Reduced([a, b], [REDUCED, out]) == [a]
  {
    assert [a, b][1..] == [b] && [REDUCED, out][1..] == [out];
  }

  /** Two one-axis groups joined by a space. */
  lemma GroupsOfOne(x: string, y: string)
    ensures Group([x]) + " " + Group([y]) == "(" + x + ") (" + y + ")"
  {
    assert Join([x], ' ') == x && Join([y], ' ') == y;
  }
}
