/**
 * Listing the Binance public-data bucket (the Rust `s3_helpers` module
 * and its Python counterpart): the prefix both send, the keys of a listing
 * gathered page by page, the Python pagination rule, and the trade pairs
 * read from the "directories" under a prefix. The HTTP requests and the
 * XML parsing become the pages they produce.
 */
module BinanceS3 {
  import opened Wrappers
  import opened Strings
  import opened Converters

  const BUCKET := "data.binance.vision"
  const REGION := "ap-northeast-1"

  /** A page without `IsTruncated` text: Python's `None.lower()`. */
  const NO_TRUNCATED_TEXT := "AttributeError: 'NoneType' object has no attribute 'lower'"
  /** The model's bound on the number of pages a Python listing follows. */
  const PAGE_LIMIT := "page limit reached"

  // ---------------------------------------------------------------------
  // The listing prefix
  // ---------------------------------------------------------------------

  /**
   * `normalize_s3_prefix` (and the same two steps in Python's
   * `s3_list_pages`): "data/" in front unless already there, then a
   * trailing '/' unless already there.
   */
  function NormalizeS3Prefix(prefix: string): (r: string)
    ensures StartsWith(r, "data/") && EndsWithChar(r, '/')
    ensures StartsWith(prefix, "data/") ==> StartsWith(r, prefix) && |r| <= |prefix| + 1
    ensures !StartsWith(prefix, "data/") ==> StartsWith(r, "data/" + prefix) && |r| <= |prefix| + 6
    ensures r == prefix <==> StartsWith(prefix, "data/") && EndsWithChar(prefix, '/')
  {
    var withData := if !StartsWith(prefix, "data/") then "data/" + prefix else prefix;
    var r := if !EndsWithChar(withData, '/') then withData + "/" else withData;
    assert r[..|withData|] == withData;
    assert withData[..5] == "data/";
    r
  }

  /** A normalized prefix is left alone. */
  lemma NormalizeIdempotent(prefix: string)
    ensures NormalizeS3Prefix(NormalizeS3Prefix(prefix)) == NormalizeS3Prefix(prefix)
  {
  }

  /** "data/" is never put in front of a prefix that already has it. */
  lemma NormalizeKeepsData(rest: string)
    ensures NormalizeS3Prefix("data/" + rest) == (if EndsWithChar("data/" + rest, '/') then "data/" + rest
                                                  else "data/" + rest + "/")
  {
    assert ("data/" + rest)[..5] == "data/";
  }

  // ---------------------------------------------------------------------
  // Rust: keys and trade pairs over the paginator
  // ---------------------------------------------------------------------

  /** One page of `list_objects_v2`: the objects' keys and the common prefixes, each possibly unset. */
  datatype S3Page = S3Page(keys: seq<Option<string>>, commonPrefixes: seq<Option<string>>)

  function Present(o: Option<string>): Option<string>
  {
    o
  }

  /**
   * `get_all_keys`: the paginator yields each page or an error, and `?`
   * ends the listing at the first error; otherwise every set key of every
   * page, in page order.
   */
  function AllKeys(pages: seq<Result<S3Page>>): Result<seq<string>>
    decreases |pages|
  {
    if pages == [] then Success([])
    else
      var before :- AllKeys(pages[..|pages| - 1]);
      var page :- pages[|pages| - 1];
      Success(before + Pick(page.keys, Present))
  }

  /** Page `i` is the first that failed. */
  predicate FirstPageError<T>(pages: seq<Result<T>>, i: int)
  {
    0 <= i < |pages| && pages[i].Failure? && forall j :: 0 <= j < i ==> pages[j].Success?
  }

  /**
   * The listing fails exactly when a page does, with the first failing
   * page's error; otherwise it holds exactly the keys set on some page.
   */
  lemma {:induction false} AllKeysShape(pages: seq<Result<S3Page>>)
    ensures var r := AllKeys(pages);
      && (r.Success? <==> forall i :: 0 <= i < |pages| ==> pages[i].Success?)
      && (r.Failure? ==> exists i :: FirstPageError(pages, i) && r.error == pages[i].error)
      && (r.Success? ==> forall k :: k in r.value <==> exists i :: 0 <= i < |pages| && Some(k) in pages[i].value.keys)
    decreases |pages|
  {
    if pages != [] {
      var init := pages[..|pages| - 1];
      var last := pages[|pages| - 1];
      AllKeysShape(init);
      var r := AllKeys(pages);
      assert forall i :: 0 <= i < |init| ==> init[i] == pages[i];
      if AllKeys(init).Failure? {
        var i :| FirstPageError(init, i) && AllKeys(init).error == init[i].error;
        assert FirstPageError(pages, i);
      } else if last.Failure? {
        assert FirstPageError(pages, |pages| - 1);
      } else {
        PickExactly(last.value.keys, Present);
        forall k ensures k in r.value <==> exists i :: 0 <= i < |pages| && Some(k) in pages[i].value.keys {
          if k in Pick(last.value.keys, Present) {
            var j :| 0 <= j < |last.value.keys| && Present(last.value.keys[j]) == Some(k);
            assert Some(k) in pages[|pages| - 1].value.keys;
          }
          if Some(k) in last.value.keys {
            var j :| 0 <= j < |last.value.keys| && last.value.keys[j] == Some(k);
            assert Present(last.value.keys[j]) == Some(k);
          }
        }
      }
    }
  }

  /** The `while let` loop over the paginator with its inner `for` over the objects. */
  method GetAllKeys(pages: seq<Result<S3Page>>) returns (r: Result<seq<string>>)
    ensures r == AllKeys(pages)
  {
    var allKeys: seq<string> := [];
    var i := 0;
    while i < |pages|
      invariant i <= |pages|
      invariant AllKeys(pages[..i]) == Success(allKeys)
    {
      assert pages[..i + 1][..i] == pages[..i];
      if pages[i].Failure? {
        FirstErrorStops(pages, i);
        return Failure(pages[i].error);
      }
      var keys := PickLoop(pages[i].value.keys, Present);
      allKeys := allKeys + keys;
      i := i + 1;
    }
    assert pages[..i] == pages;
    return Success(allKeys);
  }

  /** An error after pages that all succeeded ends the listing with that error. */
  lemma {:induction false} FirstErrorStops(pages: seq<Result<S3Page>>, i: nat)
    requires i < |pages| && pages[i].Failure? && AllKeys(pages[..i]).Success?
    ensures AllKeys(pages) == Failure(pages[i].error)
    decreases |pages|
  {
    if i < |pages| - 1 {
      assert pages[..|pages| - 1][..i] == pages[..i];
      FirstErrorStops(pages[..|pages| - 1], i);
    } else {
      assert pages[..|pages| - 1] == pages[..i];
    }
  }

  /**
   * The trade pair in a common prefix: the text after the normalized
   * prefix with its one trailing '/' stripped, kept only when non-empty.
   */
  function PairOf(fixed: string, cp: string): (r: Option<string>)
    ensures forall p :: r == Some(p) <==> cp == fixed + p + "/" && p != ""
  {
    if StartsWith(cp, fixed) then
      var rest := cp[|fixed|..];
      assert cp == fixed + rest;
      if EndsWithChar(rest, '/') then
        var pair := rest[..|rest| - 1];
        assert rest == pair + "/";
        assert forall p :: cp == fixed + p + "/" ==> p == pair by {
          forall p | cp == fixed + p + "/" ensures p == pair {
            assert rest == p + "/";
          }
        }
        if pair != "" then Some(pair) else None
      else None
    else
      None
  }

  function PairOfPrefix(fixed: string): Option<string> -> Option<string>
  {
    (o: Option<string>) => if o.Some? then PairOf(fixed, o.value) else None
  }

  /** The pairs read from one page's common prefixes. */
  function PagePairs(fixed: string, page: S3Page): set<string>
  {
    set p | p in Pick(page.commonPrefixes, PairOfPrefix(fixed))
  }

  /** `get_all_trade_pairs` once the prefix is normalized: the pairs of every page, or the first page error. */
  function TradePairs(fixed: string, pages: seq<Result<S3Page>>): Result<set<string>>
    decreases |pages|
  {
    if pages == [] then Success({})
    else
      var before :- TradePairs(fixed, pages[..|pages| - 1]);
      var page :- pages[|pages| - 1];
      Success(before + PagePairs(fixed, page))
  }

  /** A page yields exactly the non-empty names `p` it lists a common prefix "{fixed}{p}/" for. */
  lemma PagePairsExactly(fixed: string, page: S3Page)
    ensures forall p :: p in PagePairs(fixed, page) <==> p != "" && Some(fixed + p + "/") in page.commonPrefixes
  {
    var cps := page.commonPrefixes;
    PickExactly(cps, PairOfPrefix(fixed));
    forall p ensures p in PagePairs(fixed, page) <==> p != "" && Some(fixed + p + "/") in cps {
      if p in PagePairs(fixed, page) {
        var j :| 0 <= j < |cps| && PairOfPrefix(fixed)(cps[j]) == Some(p);
        assert cps[j] == Some(fixed + p + "/");
      }
      if p != "" && Some(fixed + p + "/") in cps {
        var j :| 0 <= j < |cps| && cps[j] == Some(fixed + p + "/");
        assert PairOfPrefix(fixed)(cps[j]) == Some(p);
      }
    }
  }

  /** Some page lists the common prefix "{fixed}{p}/". */
  predicate Listed(fixed: string, p: string, pages: seq<Result<S3Page>>)
  {
    exists i :: 0 <= i < |pages| && pages[i].Success? && Some(fixed + p + "/") in pages[i].value.commonPrefixes
  }

  lemma ListedSnoc(fixed: string, p: string, pages: seq<Result<S3Page>>)
    requires pages != [] && pages[|pages| - 1].Success?
    ensures Listed(fixed, p, pages) <==>
      Listed(fixed, p, pages[..|pages| - 1]) || Some(fixed + p + "/") in pages[|pages| - 1].value.commonPrefixes
  {
    var init := pages[..|pages| - 1];
    if Listed(fixed, p, pages) {
      var i :| 0 <= i < |pages| && pages[i].Success? && Some(fixed + p + "/") in pages[i].value.commonPrefixes;
      if i < |init| {
        assert init[i] == pages[i];
      }
    }
    if Listed(fixed, p, init) {
      var i :| 0 <= i < |init| && init[i].Success? && Some(fixed + p + "/") in init[i].value.commonPrefixes;
      assert init[i] == pages[i];
    }
  }

  /** Reading the pairs fails exactly when a page failed. */
  lemma {:induction false} TradePairsSucceed(fixed: string, pages: seq<Result<S3Page>>)
    ensures TradePairs(fixed, pages).Success? <==> forall i :: 0 <= i < |pages| ==> pages[i].Success?
    decreases |pages|
  {
    if pages != [] {
      var init := pages[..|pages| - 1];
      TradePairsSucceed(fixed, init);
      assert forall i :: 0 <= i < |init| ==> init[i] == pages[i];
    }
  }

  /**
   * With every page read, the pairs are exactly the non-empty names `p`
   * with a common prefix "{fixed}{p}/" on some page, each once.
   */
  lemma {:induction false} TradePairsExactly(fixed: string, pages: seq<Result<S3Page>>)
    requires forall i :: 0 <= i < |pages| ==> pages[i].Success?
    ensures TradePairs(fixed, pages).Success?
    ensures forall p :: p in TradePairs(fixed, pages).value <==> p != "" && Listed(fixed, p, pages)
    decreases |pages|
  {
    TradePairsSucceed(fixed, pages);
    if pages != [] {
      var init := pages[..|pages| - 1];
      var last := pages[|pages| - 1].value;
      assert forall i :: 0 <= i < |init| ==> init[i] == pages[i];
      TradePairsExactly(fixed, init);
      PagePairsExactly(fixed, last);
      assert TradePairs(fixed, pages).value == TradePairs(fixed, init).value + PagePairs(fixed, last);
      forall p ensures Listed(fixed, p, pages) <==> Listed(fixed, p, init) || Some(fixed + p + "/") in last.commonPrefixes {
        ListedSnoc(fixed, p, pages);
      }
    }
  }

  /** The `while let` loop of `get_all_trade_pairs`, inserting each pair into the set. */
  method GetAllTradePairs(prefix: string, pages: seq<Result<S3Page>>) returns (r: Result<set<string>>)
    ensures r == TradePairs(NormalizeS3Prefix(prefix), pages)
  {
    var fixed := NormalizeS3Prefix(prefix);
    var tradePairs: set<string> := {};
    var i := 0;
    while i < |pages|
      invariant i <= |pages|
      invariant TradePairs(fixed, pages[..i]) == Success(tradePairs)
    {
      assert pages[..i + 1][..i] == pages[..i];
      if pages[i].Failure? {
        PairsErrorStops(fixed, pages, i);
        return Failure(pages[i].error);
      }
      var cps := pages[i].value.commonPrefixes;
      var j := 0;
      var found: set<string> := {};
      while j < |cps|
        invariant j <= |cps|
        invariant found == set p | p in Pick(cps[..j], PairOfPrefix(fixed))
      {
        assert cps[..j + 1][..j] == cps[..j];
        if cps[j].Some? {
          var pair := PairOf(fixed, cps[j].value);
          if pair.Some? {
            found := found + {pair.value};
          }
        }
        j := j + 1;
      }
      assert cps[..j] == cps;
      tradePairs := tradePairs + found;
      i := i + 1;
    }
    assert pages[..i] == pages;
    return Success(tradePairs);
  }

  lemma {:induction false} PairsErrorStops(fixed: string, pages: seq<Result<S3Page>>, i: nat)
    requires i < |pages| && pages[i].Failure? && TradePairs(fixed, pages[..i]).Success?
    ensures TradePairs(fixed, pages) == Failure(pages[i].error)
    decreases |pages|
  {
    if i < |pages| - 1 {
      assert pages[..|pages| - 1][..i] == pages[..i];
      PairsErrorStops(fixed, pages[..|pages| - 1], i);
    } else {
      assert pages[..|pages| - 1] == pages[..i];
    }
  }

  // ---------------------------------------------------------------------
  // Python: pagination over the XML listing
  // ---------------------------------------------------------------------

  /** An XML element looked up by `find`: missing, present without text, or with text. */
  datatype Element = Absent | Bare | Text(text: string)

  /**
   * One parsed listing page: `IsTruncated`, `NextMarker`, the text of each
   * `Key` (None when empty), and the `Prefix` of each `CommonPrefixes`.
   */
  datatype XmlPage = XmlPage(isTruncated: Element, nextMarker: Element, keys: seq<Option<string>>,
                             commonPrefixes: seq<Option<string>>)

  /** "{base_url}?prefix={prefix}&delimiter={delimiter}" with the normalized prefix. */
  function ListingUrl(baseUrl: string, prefix: string, delimiter: string): string
  {
    baseUrl + "?prefix=" + NormalizeS3Prefix(prefix) + "&delimiter=" + delimiter
  }

  /** The URL of one page: "&marker={marker}" is added for a non-empty marker. */
  function PagedUrl(url: string, marker: Option<string>): string
  {
    if marker.Some? && marker.value != "" then url + "&marker=" + marker.value else url
  }

  /**
   * What follows a page: another page from the marker when `IsTruncated`
   * reads "true" in any case and `NextMarker` has text; otherwise the end.
   * An `IsTruncated` without text raises.
   */
  function Continuation(page: XmlPage): (r: Result<Option<string>>)
    ensures r.Failure? <==> page.isTruncated.Bare?
    ensures forall m :: r == Success(Some(m)) <==>
      page.isTruncated.Text? && Lower(page.isTruncated.text) == "true" && page.nextMarker == Text(m) && m != ""
  {
    match page.isTruncated
    case Absent => Success(None)
    case Bare => Failure(NO_TRUNCATED_TEXT)
    case Text(t) =>
      if Lower(t) == "true" then
        match page.nextMarker
        case Text(m) => if m != "" then Success(Some(m)) else Success(None)
        case _ => Success(None)
      else Success(None)
  }

  /**
   * `s3_list_pages`: fetch a page (`fetch` stands for the request and the
   * XML parse, either of which may raise), hand it on, then follow its
   * marker. `fuel` bounds the number of pages.
   */
  function Pages(fetch: string -> Result<XmlPage>, url: string, marker: Option<string>, fuel: nat)
    : Result<seq<XmlPage>>
    decreases fuel
  {
    if fuel == 0 then Failure(PAGE_LIMIT)
    else
      var page :- fetch(PagedUrl(url, marker));
      var next :- Continuation(page);
      match next
      case None => Success([page])
      case Some(m) =>
        var rest :- Pages(fetch, url, next, fuel - 1);
        Success([page] + rest)
  }

  /**
   * A complete listing is a chain: the first page comes from the start
   * marker, each later page from the marker its predecessor continues
   * with, and the last page ends the listing.
   */
  lemma {:induction false} PagesChain(fetch: string -> Result<XmlPage>, url: string, marker: Option<string>, fuel: nat)
    ensures var r := Pages(fetch, url, marker, fuel);
      r.Success? ==>
        && 1 <= |r.value| <= fuel
        && fetch(PagedUrl(url, marker)) == Success(r.value[0])
        && Continuation(r.value[|r.value| - 1]) == Success(None)
        && forall i :: 0 <= i < |r.value| - 1 ==>
             && Continuation(r.value[i]).Success? && Continuation(r.value[i]).value.Some?
             && fetch(PagedUrl(url, Continuation(r.value[i]).value)) == Success(r.value[i + 1])
    decreases fuel
  {
    var r := Pages(fetch, url, marker, fuel);
    if fuel > 0 && r.Success? {
      var page := fetch(PagedUrl(url, marker)).value;
      var next := Continuation(page).value;
      if next.Some? {
        PagesChain(fetch, url, next, fuel - 1);
        var rest := Pages(fetch, url, next, fuel - 1).value;
        assert r.value == [page] + rest;
        forall i | 0 <= i < |r.value| - 1
          ensures Continuation(r.value[i]).Success? && Continuation(r.value[i]).value.Some?
          ensures fetch(PagedUrl(url, Continuation(r.value[i]).value)) == Success(r.value[i + 1])
        {
          if i > 0 {
            assert r.value[i] == rest[i - 1] && r.value[i + 1] == rest[i];
          }
        }
      }
    }
  }

  /** The keys of the pages, in page order. */
  function KeysOf(pages: seq<XmlPage>): seq<Option<string>>
    decreases |pages|
  {
    if pages == [] then [] else KeysOf(pages[..|pages| - 1]) + pages[|pages| - 1].keys
  }

  /** Gathering keys distributes over a split of the pages, so every page's keys appear in its place. */
  lemma {:induction false} KeysOfAppend(a: seq<XmlPage>, b: seq<XmlPage>)
    ensures KeysOf(a + b) == KeysOf(a) + KeysOf(b)
    decreases |b|
  {
    if b == [] {
      assert a + b == a;
    } else {
      var b' := b[..|b| - 1];
      KeysOfAppend(a, b');
      assert (a + b)[..|a + b| - 1] == a + b';
      assert (a + b)[|a + b| - 1] == b[|b| - 1];
    }
  }

  /** A key is gathered exactly when some page lists it. */
  lemma {:induction false} KeysOfExactly(pages: seq<XmlPage>)
    ensures forall k :: k in KeysOf(pages) <==> exists i :: 0 <= i < |pages| && k in pages[i].keys
    decreases |pages|
  {
    if pages != [] {
      var init := pages[..|pages| - 1];
      KeysOfExactly(init);
      assert forall i :: 0 <= i < |init| ==> init[i] == pages[i];
    }
  }

  /** The `for` loop of `get_all_keys`, extending the list with each page's keys. */
  method CollectKeys(pages: seq<XmlPage>) returns (allKeys: seq<Option<string>>)
    ensures allKeys == KeysOf(pages)
  {
    allKeys := [];
    var i := 0;
    while i < |pages|
      invariant i <= |pages|
      invariant allKeys == KeysOf(pages[..i])
    {
      assert pages[..i + 1][..i] == pages[..i];
      allKeys := allKeys + pages[i].keys;
      i := i + 1;
    }
    assert pages[..i] == pages;
  }

  /** Python's `get_all_keys`: the keys of every page of the listing, or what the listing raised. */
  function PyAllKeys(fetch: string -> Result<XmlPage>, baseUrl: string, prefix: string, fuel: nat)
    : Result<seq<Option<string>>>
  {
    var pages :- Pages(fetch, ListingUrl(baseUrl, prefix, "/"), None, fuel);
    Success(KeysOf(pages))
  }

  // ---------------------------------------------------------------------
  // Python: trade pairs
  // ---------------------------------------------------------------------

  /** Python `s.replace(pat, sub)`: every non-overlapping occurrence, left to right. */
  function Replace(s: string, pat: string, sub: string): string
    requires pat != ""
    decreases |s|
  {
    if |s| < |pat| then s
    else if s[..|pat|] == pat then sub + Replace(s[|pat|..], pat, sub)
    else [s[0]] + Replace(s[1..], pat, sub)
  }

  /** Replacing a text that does not occur changes nothing. */
  lemma {:induction false} ReplaceAbsent(s: string, pat: string, sub: string)
    requires pat != "" && !ContainsSub(s, pat)
    ensures Replace(s, pat, sub) == s
    decreases |s|
  {
    if |s| >= |pat| {
      assert !OccursAt(s, pat, 0);
      assert !ContainsSub(s[1..], pat) by {
        forall i | 0 <= i <= |s[1..]| - |pat| ensures !OccursAt(s[1..], pat, i) {
          assert !OccursAt(s, pat, i + 1);
          assert s[1..][i..i + |pat|] == s[i + 1..i + 1 + |pat|];
        }
      }
      ReplaceAbsent(s[1..], pat, sub);
    }
  }

  /** No two '/' in a row. */
  predicate NoDoubleSlash(s: string)
  {
    forall k :: 0 <= k < |s| - 1 ==> !(s[k] == '/' && s[k + 1] == '/')
  }

  /**
   * The pair Python reads from a common prefix: drop every occurrence of
   * the prefix followed by another '/', strip '/' at both ends, and keep
   * the last '/'-separated piece of what is left, if anything is.
   */
  function PyPairOf(fixed: string, text: string): Option<string>
  {
    var t := TrimChar(Replace(text, fixed + "/", ""), '/');
    if t == "" then None else var parts := Split(t, '/'); Some(parts[|parts| - 1])
  }

  function PyPairOfPrefix(fixed: string): Option<string> -> Option<string>
  {
    (o: Option<string>) => if o.Some? then PyPairOf(fixed, o.value) else None
  }

  /** The pairs Python collects from the pages of a listing. */
  function PyPairs(fixed: string, pages: seq<XmlPage>): set<string>
    decreases |pages|
  {
    if pages == [] then {} else PyPairs(fixed, pages[..|pages| - 1]) + PyPagePairs(fixed, pages[|pages| - 1])
  }

  function PyPagePairs(fixed: string, page: XmlPage): set<string>
  {
    set p | p in Pick(page.commonPrefixes, PyPairOfPrefix(fixed))
  }

  /** Python's `get_all_trade_pairs`. */
  function PyTradePairs(fetch: string -> Result<XmlPage>, baseUrl: string, prefix: string, fuel: nat)
    : Result<set<string>>
  {
    var pages :- Pages(fetch, ListingUrl(baseUrl, prefix, "/"), None, fuel);
    Success(PyPairs(NormalizeS3Prefix(prefix), pages))
  }

  /** "{fixed}{pair}/" has no "//" when the prefix has none and the pair has no '/'. */
  lemma CommonPrefixNoDoubleSlash(fixed: string, pair: string)
    requires |fixed| >= 1 && NoDoubleSlash(fixed) && pair != "" && '/' !in pair
    ensures NoDoubleSlash(fixed + pair + "/")
  {
    var cp := fixed + pair + "/";
    forall k | 0 <= k < |cp| - 1 ensures !(cp[k] == '/' && cp[k + 1] == '/') {
      if k < |fixed| - 1 {
        assert cp[k] == fixed[k] && cp[k + 1] == fixed[k + 1];
      } else if k == |fixed| - 1 {
        assert cp[k + 1] == pair[0];
        assert pair[0] in pair;
      } else if k < |fixed| + |pair| - 1 {
        assert cp[k] == pair[k - |fixed|];
        assert pair[k - |fixed|] in pair;
      } else {
        assert cp[k] == pair[|pair| - 1];
        assert pair[|pair| - 1] in pair;
      }
    }
  }

  /** A text ending in '/' does not occur in a text without "//" whenever it ends in "//". */
  lemma DoubleSlashAbsent(cp: string, pat: string)
    requires NoDoubleSlash(cp) && |pat| >= 2 && pat[|pat| - 2] == '/' && pat[|pat| - 1] == '/'
    ensures !ContainsSub(cp, pat)
  {
    forall i | 0 <= i <= |cp| - |pat| ensures !OccursAt(cp, pat, i) {
      var j := i + |pat| - 2;
      assert cp[j] != '/' || cp[j + 1] != '/';
      assert cp[i..i + |pat|][|pat| - 2] == cp[j];
      assert cp[i..i + |pat|][|pat| - 1] == cp[j + 1];
    }
  }

  /** Stripping '/' from "{fixed}{pair}/" removes just the final '/'. */
  lemma StripCommonPrefix(fixed: string, pair: string)
    requires StartsWith(fixed, "data/") && pair != "" && '/' !in pair
    ensures TrimChar(fixed + pair + "/", '/') == fixed + pair
  {
    var cp := fixed + pair + "/";
    var body := fixed + pair;
    assert pair[|pair| - 1] in pair;
    assert cp[0] == fixed[0] == 'd';
    assert TrimLeft(cp, Is('/')) == cp;
    assert cp[..|cp| - 1] == body;
    assert body[|body| - 1] == pair[|pair| - 1];
    assert TrimRight(body, Is('/')) == body;
  }

  /** The last '/'-separated piece of "{fixed}{pair}" is the pair. */
  lemma LastPiece(fixed: string, pair: string)
    requires EndsWithChar(fixed, '/') && '/' !in pair
    ensures var parts := Split(fixed + pair, '/'); parts[|parts| - 1] == pair
  {
    var head := fixed[..|fixed| - 1];
    assert fixed + pair == head + ['/'] + pair;
    SplitAtSeparator(head, pair, '/');
    SplitJoin([pair], '/');
  }

  /**
   * On a common prefix as the bucket returns it, "{fixed}{pair}/" with no
   * '/' in the pair and no "//" in the prefix, the `replace` finds nothing
   * (its pattern ends in "//"), and Python reads the same pair as Rust.
   */
  lemma PyPairAgrees(fixed: string, pair: string)
    requires StartsWith(fixed, "data/") && EndsWithChar(fixed, '/') && NoDoubleSlash(fixed)
    requires pair != "" && '/' !in pair
    ensures PyPairOf(fixed, fixed + pair + "/") == Some(pair)
    ensures PairOf(fixed, fixed + pair + "/") == Some(pair)
  {
    var cp := fixed + pair + "/";
    CommonPrefixNoDoubleSlash(fixed, pair);
    DoubleSlashAbsent(cp, fixed + "/");
    ReplaceAbsent(cp, fixed + "/", "");
    StripCommonPrefix(fixed, pair);
    LastPiece(fixed, pair);
  }
}
