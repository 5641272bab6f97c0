/**
 * What the exchange-message converters share: parsing a list element by
 * element where the first failing element fails the whole list (a `for`
 * loop with `?` inside), and the symbol of a Hyperliquid message, which is
 * its coin mapped back through the symbol table.
 */
module Converters {
  import opened Wrappers
  import opened ArgusTypes
  import opened BiMaps

  /** The list of converted elements, or the error of the first element that fails. */
  function Collect<A, B>(xs: seq<A>, f: A -> Result<B>): (r: Result<seq<B>>)
    ensures r.Success? <==> forall i :: 0 <= i < |xs| ==> f(xs[i]).Success?
    ensures r.Success? ==> |r.value| == |xs| && forall i :: 0 <= i < |xs| ==> r.value[i] == f(xs[i]).value
    ensures r.Failure? ==> exists i :: FirstFailure(xs, f, i) && r.error == f(xs[i]).error
  {
    if xs == [] then Success([])
    else
      match f(xs[0])
      case Failure(e) =>
        assert FirstFailure(xs, f, 0);
        Failure(e)
      case Success(y) =>
        match Collect(xs[1..], f)
        case Failure(e) =>
          var i :| FirstFailure(xs[1..], f, i) && e == f(xs[1..][i]).error;
          assert FirstFailure(xs, f, i + 1);
          Failure(e)
        case Success(ys) => Success([y] + ys)
  }

  /** Element `i` is the first one `f` refuses. */
  predicate FirstFailure<A, B>(xs: seq<A>, f: A -> Result<B>, i: int)
  {
    0 <= i < |xs| && f(xs[i]).Failure? && forall j :: 0 <= j < i ==> f(xs[j]).Success?
  }

  /** A failure at `i` after successes before it is the failure of the whole list. */
  lemma {:induction false} CollectFailsAt<A, B>(xs: seq<A>, f: A -> Result<B>, i: nat)
    requires i < |xs| && f(xs[i]).Failure?
    requires forall j :: 0 <= j < i ==> f(xs[j]).Success?
    ensures Collect(xs, f) == Failure(f(xs[i]).error)
    decreases i
  {
    if i > 0 {
      CollectFailsAt(xs[1..], f, i - 1);
    }
  }

  /** The `for` loop that converts each element in turn and returns at the first error. */
  method CollectLoop<A, B>(xs: seq<A>, f: A -> Result<B>) returns (r: Result<seq<B>>)
    ensures r == Collect(xs, f)
  {
    var out: seq<B> := [];
    var i := 0;
    while i < |xs|
      invariant i <= |xs| && |out| == i
      invariant forall k :: 0 <= k < i ==> f(xs[k]).Success? && out[k] == f(xs[k]).value
    {
      var y := f(xs[i]);
      if y.Failure? {
        CollectFailsAt(xs, f, i);
        return Failure(y.error);
      }
      out := out + [y.value];
      i := i + 1;
    }
    assert out == Collect(xs, f).value;
    return Success(out);
  }

  /** A loop that pushes what `pick` makes of each element it accepts, in order, and skips the rest. */
  function Pick<A, B>(xs: seq<A>, pick: A -> Option<B>): seq<B>
  {
    if xs == [] then []
    else
      var rest := Pick(xs[..|xs| - 1], pick);
      match pick(xs[|xs| - 1])
      case Some(y) => rest + [y]
      case None => rest
  }

  /** Exactly the accepted elements' images are kept, and never more than there are elements. */
  lemma {:induction false} PickExactly<A, B>(xs: seq<A>, pick: A -> Option<B>)
    ensures |Pick(xs, pick)| <= |xs|
    ensures forall y :: y in Pick(xs, pick) <==> exists i :: 0 <= i < |xs| && pick(xs[i]) == Some(y)
    decreases |xs|
  {
    if xs != [] {
      var init := xs[..|xs| - 1];
      PickExactly(init, pick);
      forall y ensures y in Pick(xs, pick) <==> exists i :: 0 <= i < |xs| && pick(xs[i]) == Some(y) {
        if y in Pick(init, pick) {
          var i :| 0 <= i < |init| && pick(init[i]) == Some(y);
          assert xs[i] == init[i];
        }
        if exists i :: 0 <= i < |xs| && pick(xs[i]) == Some(y) {
          var i :| 0 <= i < |xs| && pick(xs[i]) == Some(y);
          if i < |init| {
            assert init[i] == xs[i];
          }
        }
      }
    }
  }

  /** The element-by-element loop behind `Pick`. */
  method PickLoop<A, B>(xs: seq<A>, pick: A -> Option<B>) returns (out: seq<B>)
    ensures out == Pick(xs, pick)
  {
    out := [];
    var i := 0;
    while i < |xs|
      invariant i <= |xs|
      invariant out == Pick(xs[..i], pick)
    {
      assert xs[..i + 1][..i] == xs[..i];
      var y := pick(xs[i]);
      if y.Some? {
        out := out + [y.value];
      }
      i := i + 1;
    }
    assert xs[..i] == xs;
  }

  /** Each key to its position in `keys`; a key listed twice keeps its last position. */
  function PositionMap<K(==,!new)>(keys: seq<K>): (t: map<K, nat>)
    ensures forall k :: k in t <==> k in keys
    ensures forall k :: k in t ==>
      && t[k] < |keys| && keys[t[k]] == k
      && forall j :: t[k] < j < |keys| ==> keys[j] != k
  {
    if keys == [] then map[]
    else
      var n := |keys| - 1;
      var front := keys[..n];
      assert forall i :: 0 <= i < n ==> front[i] == keys[i];
      assert forall k :: k in keys <==> k in front || k == keys[n];
      PositionMap(front)[keys[n] := n]
  }

  /** A publisher a webstream worker creates: its name and the path it registers. */
  datatype PublisherEntry = PublisherEntry(name: string, path: string)

  /** `Publisher::new` for an entry; `register` stands for the metaserver's answer on the path. */
  function Register(register: string -> Result<Unit>): PublisherEntry -> Result<PublisherEntry>
  {
    (e: PublisherEntry) => match register(e.path)
                           case Success(_) => Success(e)
                           case Failure(err) => Failure(err)
  }

  /** One entry per name, on the path at the same position. */
  function Entries(names: seq<string>, paths: seq<string>): (r: seq<PublisherEntry>)
    requires |names| == |paths|
    ensures |r| == |names| && forall i :: 0 <= i < |names| ==> r[i] == PublisherEntry(names[i], paths[i])
  {
    seq(|names|, i requires 0 <= i < |names| => PublisherEntry(names[i], paths[i]))
  }

  /**
   * Creating the publishers in order: all of them exactly when every path
   * registers, each unchanged; otherwise the first refusal.
   */
  lemma RegisterAllShape(names: seq<string>, paths: seq<string>, register: string -> Result<Unit>)
    requires |names| == |paths|
    ensures var r := Collect(Entries(names, paths), Register(register));
      && (r.Success? <==> forall i :: 0 <= i < |paths| ==> register(paths[i]).Success?)
      && (r.Success? ==> r.value == Entries(names, paths))
  {
    var entries := Entries(names, paths);
    assert forall i :: 0 <= i < |entries| ==>
      (Register(register)(entries[i]).Success? <==> register(paths[i]).Success?);
    if Collect(entries, Register(register)).Success? {
      assert forall i :: 0 <= i < |entries| ==> Register(register)(entries[i]).value == entries[i];
    }
  }

  /**
   * The symbol of a Hyperliquid message: `TradingSymbol::from_str` on the
   * coin, then `get_by_right` with the coin itself as the fallback.
   */
  function NormalizedSymbol(m: BiMap, coin: string): (r: Result<Sym>)
    ensures r.Success? <==> coin != ""
    ensures r.Success? ==> r.value == RightOrSelf(m, TradingSymbol(coin))
    ensures r.Failure? ==> r == Failure("TradingSymbol cannot be empty")
  {
    var c :- SymbolFromStr(coin);
    Success(RightOrSelf(m, c))
  }

  /** A coin the table knows comes back as its normalised symbol, which maps forward to the coin again. */
  lemma NormalizedSymbolRoundTrip(m: BiMap, coin: string)
    requires Valid(m) && coin != "" && TradingSymbol(coin) in m.bwd
    ensures NormalizedSymbol(m, coin).Success?
    ensures LeftOrSelf(m, NormalizedSymbol(m, coin).value) == TradingSymbol(coin)
  {
    FallbackRoundTrip(m, TradingSymbol(coin));
  }
}
