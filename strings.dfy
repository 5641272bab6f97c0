/**
 * The string primitives the Rust and Python code relies on: `str::split`
 * with a single-character separator, `join`, `trim`/`strip`, prefix and
 * suffix tests, substring search, decimal rendering of integers, ASCII
 * lower-casing and the character classes used by the validators.
 */
module Strings {
  import opened Wrappers

  // ---------------------------------------------------------------------
  // Prefixes, suffixes, substrings
  // ---------------------------------------------------------------------

  predicate StartsWith(s: string, p: string)
  {
    |p| <= |s| && s[..|p|] == p
  }

  predicate EndsWith(s: string, p: string)
  {
    |p| <= |s| && s[|s| - |p|..] == p
  }

  /** Rust `s.starts_with(c)` for a `char` pattern. */
  predicate StartsWithChar(s: string, c: char)
  {
    |s| > 0 && s[0] == c
  }

  /** Rust `s.ends_with(c)` for a `char` pattern. */
  predicate EndsWithChar(s: string, c: char)
  {
    |s| > 0 && s[|s| - 1] == c
  }

  /** `t` occurs somewhere inside `s` (Rust `contains(&str)`, Python `in`). */
  predicate ContainsSub(s: string, t: string)
  {
    exists i :: 0 <= i <= |s| - |t| && OccursAt(s, t, i)
  }

  /** `t` occurs in `s` starting at index `i`. */
  predicate OccursAt(s: string, t: string, i: int)
  {
    0 <= i <= |s| - |t| && s[i..i + |t|] == t
  }

  lemma StartsWithAppend(p: string, q: string)
    ensures StartsWith(p + q, p)
    ensures EndsWith(p + q, q)
  {
    assert (p + q)[..|p|] == p;
    assert (p + q)[|p + q| - |q|..] == q;
  }

  lemma ContainsSubAt(s: string, t: string, i: int)
    requires 0 <= i <= |s| - |t| && s[i..i + |t|] == t
    ensures ContainsSub(s, t)
  {
    assert OccursAt(s, t, i);
  }

  lemma ContainsSubConcat(a: string, b: string, t: string)
    requires ContainsSub(a, t) || ContainsSub(b, t)
    ensures ContainsSub(a + b, t)
  {
    if ContainsSub(a, t) {
      var i :| 0 <= i <= |a| - |t| && OccursAt(a, t, i);
      assert (a + b)[i..i + |t|] == a[i..i + |t|];
      assert OccursAt(a + b, t, i);
    } else {
      var i :| 0 <= i <= |b| - |t| && OccursAt(b, t, i);
      assert (a + b)[|a| + i..|a| + i + |t|] == b[i..i + |t|];
      assert OccursAt(a + b, t, |a| + i);
    }
  }

  /** A one-character needle occurs exactly when the character does. */
  lemma ContainsSubChar(s: string, c: char)
    ensures ContainsSub(s, [c]) <==> c in s
  {
    if c in s {
      var i :| 0 <= i < |s| && s[i] == c;
      assert s[i..i + 1] == [c];
      assert OccursAt(s, [c], i);
    }
    if ContainsSub(s, [c]) {
      var i :| 0 <= i <= |s| - 1 && OccursAt(s, [c], i);
      assert s[i..i + 1][0] == s[i];
    }
  }

  /**
   * Cutting at the first occurrence of a separator is unambiguous: two
   * strings that agree, each read as a separator-free head, the separator
   * and a tail, have the same head and the same tail.
   */
  lemma CutAtFirst(a: string, b: string, a': string, b': string, c: char)
    requires c !in a && c !in a'
    requires a + [c] + b == a' + [c] + b'
    ensures a == a' && b == b'
  {
    var x := a + [c] + b;
    assert |a| == |a'| by {
      assert x[|a|] == c;
      assert x[|a'|] == c;
    }
    assert a == x[..|a|] == a';
    assert b == x[|a| + 1..] == b';
  }

  /** `s.find(c)`: the index of the first occurrence of `c`. */
  function IndexOf(s: string, c: char): (r: Option<nat>)
    ensures r.None? <==> c !in s
    ensures r.Some? ==> r.value < |s| && s[r.value] == c && c !in s[..r.value]
  {
    if s == [] then None
    else if s[0] == c then Some(0)
    else match IndexOf(s[1..], c)
      case None => None
      case Some(k) =>
        assert s[..k + 1] == [s[0]] + s[1..][..k];
        Some(k + 1)
  }
  /** The first occurrence is where `c` stands with no earlier `c`. */
  lemma {:induction false} IndexOfAt(s: string, c: char, p: nat)
    requires p < |s| && s[p] == c && c !in s[..p]
    ensures IndexOf(s, c) == Some(p)
    decreases p
  {
    if p > 0 {
      assert s[0] == s[..p][0];
      assert s[1..][..p - 1] == s[..p][1..];
      IndexOfAt(s[1..], c, p - 1);
    }
  }


  /** `s.rfind(c)`: the index of the last occurrence of `c`. */
  function LastIndexOf(s: string, c: char): (r: Option<nat>)
    ensures r.None? <==> c !in s
    ensures r.Some? ==> r.value < |s| && s[r.value] == c && c !in s[r.value + 1..]
  {
    if s == [] then None
    else if s[|s| - 1] == c then Some(|s| - 1)
    else
      var r := LastIndexOf(s[..|s| - 1], c);
      assert s == s[..|s| - 1] + [s[|s| - 1]];
      match r
      case None => None
      case Some(k) =>
        assert s[k + 1..] == s[..|s| - 1][k + 1..] + [s[|s| - 1]];
        Some(k)
  }

  /** The last occurrence is where `c` stands with no later `c`. */
  lemma LastIndexOfAt(s: string, c: char, p: nat)
    requires p < |s| && s[p] == c && c !in s[p + 1..]
    ensures LastIndexOf(s, c) == Some(p)
  {
  }

  // ---------------------------------------------------------------------
  // Splitting on one character and joining
  // ---------------------------------------------------------------------

  /**
   * Rust `s.split(c)` / Python `s.split(c)`: the pieces between separators,
   * empty pieces included, so there is always at least one piece.
   */
  function Split(s: string, c: char): (parts: seq<string>)
    ensures |parts| >= 1
    ensures forall i :: 0 <= i < |parts| ==> c !in parts[i]
    decreases |s|
  {
    if s == [] then [""]
    else
      var rest := Split(s[1..], c);
      if s[0] == c then [""] + rest
      else [[s[0]] + rest[0]] + rest[1..]
  }

  /** `parts.join(c)`. */
  function Join(parts: seq<string>, c: char): string
  {
    if |parts| == 0 then ""
    else if |parts| == 1 then parts[0]
    else parts[0] + [c] + Join(parts[1..], c)
  }

  /** A join of non-empty pieces starts with the first piece and ends with the last, and is no shorter than any piece. */
  lemma {:induction false} JoinEnds(parts: seq<string>, c: char)
    requires |parts| > 0 && forall k :: 0 <= k < |parts| ==> |parts[k]| > 0
    ensures var j := Join(parts, c);
      |j| > 0 && j[0] == parts[0][0] && j[|j| - 1] == parts[|parts| - 1][|parts[|parts| - 1]| - 1]
      && forall k :: 0 <= k < |parts| ==> |parts[k]| <= |j|
    decreases |parts|
  {
    if |parts| > 1 {
      var rest := parts[1..];
      JoinEnds(rest, c);
      var j := Join(parts, c);
      assert j == parts[0] + [c] + Join(rest, c);
      assert parts[|parts| - 1] == rest[|rest| - 1];
      forall k | 0 < k < |parts| ensures |parts[k]| <= |j| {
        assert parts[k] == rest[k - 1];
      }
    }
  }

  /** Joining one more piece adds a separator and that piece. */
  lemma {:induction false} JoinSnoc(parts: seq<string>, x: string, c: char)
    requires parts != []
    ensures Join(parts + [x], c) == Join(parts, c) + [c] + x
    decreases |parts|
  {
    if |parts| == 1 {
      assert (parts + [x])[1..] == [x];
    } else {
      JoinSnoc(parts[1..], x, c);
      assert (parts + [x])[1..] == parts[1..] + [x];
    }
  }

  /** Joining the pieces of a split gives the string back. */
  lemma {:induction false} JoinSplit(s: string, c: char)
    ensures Join(Split(s, c), c) == s
    decreases |s|
  {
    if s != [] {
      JoinSplit(s[1..], c);
      var rest := Split(s[1..], c);
      if s[0] == c {
        assert Split(s, c) == [""] + rest;
        assert s == [c] + s[1..];
      } else {
        assert Split(s, c) == [[s[0]] + rest[0]] + rest[1..];
        if |rest| == 1 {
          assert s == [s[0]] + rest[0];
        } else {
          assert Join(rest, c) == rest[0] + [c] + Join(rest[1..], c);
          assert ([[s[0]] + rest[0]] + rest[1..])[1..] == rest[1..];
          assert s == [s[0]] + s[1..];
        }
      }
    }
  }

  /** A piece free of the separator, followed by more text, stays one piece's prefix. */
  lemma {:induction false} SplitPrefix(p: string, s: string, c: char)
    requires c !in p
    ensures Split(p + s, c) == [p + Split(s, c)[0]] + Split(s, c)[1..]
    decreases |p|
  {
    if p != [] {
      SplitPrefix(p[1..], s, c);
      assert (p + s)[1..] == p[1..] + s;
      assert (p + s)[0] == p[0];
      var r := Split(p[1..] + s, c);
      assert r[0] == p[1..] + Split(s, c)[0];
      assert r[1..] == Split(s, c)[1..];
      assert Split(p + s, c) == [[p[0]] + r[0]] + r[1..];
      assert [p[0]] + (p[1..] + Split(s, c)[0]) == p + Split(s, c)[0];
    } else {
      assert p + s == s;
      assert p + Split(s, c)[0] == Split(s, c)[0];
      assert Split(s, c) == [Split(s, c)[0]] + Split(s, c)[1..];
    }
  }

  /** Splitting joined pieces gives the pieces back when none holds the separator. */
  lemma {:induction false} SplitJoin(parts: seq<string>, c: char)
    requires |parts| >= 1
    requires forall i :: 0 <= i < |parts| ==> c !in parts[i]
    ensures Split(Join(parts, c), c) == parts
    decreases |parts|
  {
    if |parts| == 1 {
      SplitPrefix(parts[0], "", c);
      assert parts[0] + "" == parts[0];
    } else {
      var tail := parts[1..];
      SplitJoin(tail, c);
      var j := Join(tail, c);
      assert Join(parts, c) == parts[0] + ([c] + j);
      SplitPrefix(parts[0], [c] + j, c);
      assert ([c] + j)[1..] == j;
      assert ([c] + j)[0] == c;
      assert Split([c] + j, c) == [""] + Split(j, c);
      assert Split([c] + j, c)[0] == "";
      assert Split([c] + j, c)[1..] == tail;
      assert parts[0] + "" == parts[0];
      assert parts == [parts[0]] + tail;
    }
  }

  /** A separator between two strings splits them apart. */
  lemma {:induction false} SplitAtSeparator(a: string, b: string, c: char)
    ensures Split(a + [c] + b, c) == Split(a, c) + Split(b, c)
    decreases |a|
  {
    var s := a + [c] + b;
    var rb := Split(b, c);
    if a == [] {
      assert s == [c] + b;
      assert s[1..] == b;
    } else {
      var ra := Split(a[1..], c);
      SplitAtSeparator(a[1..], b, c);
      assert s[1..] == a[1..] + [c] + b;
      assert s[0] == a[0];
      if a[0] == c {
        assert Split(s, c) == [""] + (ra + rb);
        assert Split(a, c) == [""] + ra;
        SeqAssoc([""], ra, rb);
      } else {
        var rest := ra + rb;
        var first := [a[0]] + ra[0];
        assert rest[0] == ra[0];
        DropAppend(ra, rb);
        assert Split(s, c) == [first] + (ra[1..] + rb);
        assert Split(a, c) == [first] + ra[1..];
        SeqAssoc([first], ra[1..], rb);
      }
    }
  }

  /** Two texts without a '/' make one. */
  lemma NoSlashAfter(prefix: string, x: string)
    requires '/' !in prefix && '/' !in x
    ensures '/' !in prefix + x
  {
    forall i | 0 <= i < |prefix + x| ensures (prefix + x)[i] != '/' {
      if i >= |prefix| {
        assert (prefix + x)[i] == x[i - |prefix|];
      } else {
        assert (prefix + x)[i] == prefix[i];
      }
    }
  }

  lemma DropAppend<T>(x: seq<T>, y: seq<T>)
    requires |x| >= 1
    ensures (x + y)[1..] == x[1..] + y
  {
  }

  lemma SeqAssoc<T>(x: seq<T>, y: seq<T>, z: seq<T>)
    ensures x + (y + z) == x + y + z
  {
  }

  /** The pieces that are not empty, in order (what a path walk visits). */
  function NonEmpty(parts: seq<string>): (r: seq<string>)
    ensures |r| <= |parts|
    ensures forall i :: 0 <= i < |r| ==> r[i] != "" && r[i] in parts
    ensures forall i :: 0 <= i < |parts| && parts[i] != "" ==> parts[i] in r
  {
    if parts == [] then []
    else if parts[0] == "" then NonEmpty(parts[1..])
    else [parts[0]] + NonEmpty(parts[1..])
  }

  lemma NonEmptyAppend(a: seq<string>, b: seq<string>)
    ensures NonEmpty(a + b) == NonEmpty(a) + NonEmpty(b)
  {
    if a != [] {
      assert (a + b)[1..] == a[1..] + b;
    } else {
      assert a + b == b;
    }
  }

  /** An empty piece between two runs of pieces is skipped. */
  lemma NonEmptyBlank(a: seq<string>, b: seq<string>)
    ensures NonEmpty(a + [""] + b) == NonEmpty(a + b)
  {
    NonEmptyAppend(a + [""], b);
    NonEmptyAppend(a, [""]);
    var na := NonEmpty(a);
    assert NonEmpty([""]) == [];
    assert na + [] == na;
    NonEmptyAppend(a, b);
  }

  // ---------------------------------------------------------------------
  // Character classes
  // ---------------------------------------------------------------------

  predicate IsAsciiDigit(ch: char)
  {
    '0' <= ch <= '9'
  }

  predicate IsAsciiUpper(ch: char)
  {
    'A' <= ch <= 'Z'
  }

  predicate IsAsciiLower(ch: char)
  {
    'a' <= ch <= 'z'
  }

  /** `char::is_alphanumeric` restricted to ASCII. */
  predicate IsAlnum(ch: char)
  {
    IsAsciiDigit(ch) || IsAsciiUpper(ch) || IsAsciiLower(ch)
  }

  /** Rust `char::is_whitespace`: the Unicode White_Space property. */
  predicate IsWhitespace(ch: char)
  {
    ch == '\t' || ch == '\n' || ch == '\U{0B}' || ch == '\U{0C}' || ch == '\r' || ch == ' '
    || ch == '\U{85}' || ch == '\U{A0}' || ch == '\U{1680}'
    || ('\U{2000}' <= ch <= '\U{200A}')
    || ch == '\U{2028}' || ch == '\U{2029}' || ch == '\U{202F}' || ch == '\U{205F}'
    || ch == '\U{3000}'
  }

  /** Python `str.isspace`: White_Space plus the four ASCII separators 0x1C-0x1F. */
  predicate IsPySpace(ch: char)
  {
    IsWhitespace(ch) || ('\U{1C}' <= ch <= '\U{1F}')
  }

  // ---------------------------------------------------------------------
  // Trimming
  // ---------------------------------------------------------------------

  /** Drops the longest prefix whose characters all satisfy `drop`. */
  function TrimLeft(s: string, drop: char -> bool): (r: string)
    ensures |r| <= |s|
    ensures r == [] || !drop(r[0])
    decreases |s|
  {
    if s != [] && drop(s[0]) then TrimLeft(s[1..], drop) else s
  }

  /** Drops the longest suffix whose characters all satisfy `drop`. */
  function TrimRight(s: string, drop: char -> bool): (r: string)
    ensures |r| <= |s|
    ensures r == [] || !drop(r[|r| - 1])
    decreases |s|
  {
    if s != [] && drop(s[|s| - 1]) then TrimRight(s[..|s| - 1], drop) else s
  }

  /** `TrimLeft` keeps a suffix of its input, and every character it drops satisfies `drop`. */
  lemma {:induction false} TrimLeftSuffix(s: string, drop: char -> bool)
    ensures var r := TrimLeft(s, drop);
      r == s[|s| - |r|..] && forall i :: 0 <= i < |s| - |r| ==> drop(s[i])
    decreases |s|
  {
    if s != [] && drop(s[0]) {
      TrimLeftSuffix(s[1..], drop);
      var r := TrimLeft(s, drop);
      forall i | 0 < i < |s| - |r| ensures drop(s[i]) {
        assert s[i] == s[1..][i - 1];
      }
    }
  }

  /** `TrimRight` keeps a prefix of its input, and every character it drops satisfies `drop`. */
  lemma {:induction false} TrimRightPrefix(s: string, drop: char -> bool)
    ensures var r := TrimRight(s, drop);
      r == s[..|r|] && forall i :: |r| <= i < |s| ==> drop(s[i])
    decreases |s|
  {
    if s != [] && drop(s[|s| - 1]) {
      TrimRightPrefix(s[..|s| - 1], drop);
    }
  }

  /** Rust `str::trim`. */
  function Trim(s: string): (r: string)
    ensures |r| <= |s|
  {
    TrimRight(TrimLeft(s, IsWhitespace), IsWhitespace)
  }

  /** Rust `str::trim_end`. */
  function TrimEnd(s: string): string
  {
    TrimRight(s, IsWhitespace)
  }

  /** Python `str.strip()`. */
  function PyStrip(s: string): string
  {
    TrimRight(TrimLeft(s, IsPySpace), IsPySpace)
  }

  /** The class holding the one character `c`. */
  function Is(c: char): char -> bool
  {
    ch => ch == c
  }

  /** Rust `trim_matches(c)` / Python `strip(c)` for one character. */
  function TrimChar(s: string, c: char): string
  {
    TrimRight(TrimLeft(s, Is(c)), Is(c))
  }

  /** Characters satisfying `drop` at neither end survive trimming unchanged. */
  lemma TrimUnchanged(s: string, drop: char -> bool)
    requires s == [] || (!drop(s[0]) && !drop(s[|s| - 1]))
    ensures TrimRight(TrimLeft(s, drop), drop) == s
  {
  }

  /** A trimmed string has neither end in the trimmed class, and is a slice of the input. */
  lemma TrimShape(s: string, drop: char -> bool)
    ensures var r := TrimRight(TrimLeft(s, drop), drop);
      (r == [] || (!drop(r[0]) && !drop(r[|r| - 1])))
      && exists i :: OccursAt(s, r, i)
  {
    var l := TrimLeft(s, drop);
    var r := TrimRight(l, drop);
    TrimLeftSuffix(s, drop);
    TrimRightPrefix(l, drop);
    var i := |s| - |l|;
    assert s[i..i + |r|] == l[..|r|];
    assert OccursAt(s, r, i);
  }

  /** `Trim` keeps a string with no whitespace at either end. */
  lemma TrimKeeps(s: string)
    requires s == [] || (!IsWhitespace(s[0]) && !IsWhitespace(s[|s| - 1]))
    ensures Trim(s) == s
  {
    TrimUnchanged(s, IsWhitespace);
  }

  /** A trimmed string has no whitespace at either end. */
  lemma TrimIdempotent(s: string)
    ensures Trim(Trim(s)) == Trim(s)
  {
    TrimShape(s, IsWhitespace);
    TrimUnchanged(Trim(s), IsWhitespace);
  }

  // ---------------------------------------------------------------------
  // Python `str.split()` with no argument
  // ---------------------------------------------------------------------

  /** The longest prefix of `s` with no Python whitespace. */
  function Word(s: string): (w: string)
    ensures |w| <= |s| && w == s[..|w|]
    ensures s != [] && !IsPySpace(s[0]) ==> |w| >= 1
    ensures forall i :: 0 <= i < |w| ==> !IsPySpace(w[i])
    ensures |w| == |s| || IsPySpace(s[|w|])
  {
    if s == [] || IsPySpace(s[0]) then "" else [s[0]] + Word(s[1..])
  }

  /** Python `s.split()`: the maximal runs of non-whitespace, in order. */
  function Words(s: string): (ws: seq<string>)
    ensures forall i :: 0 <= i < |ws| ==> ws[i] != ""
    decreases |s|
  {
    if s == [] then []
    else if IsPySpace(s[0]) then Words(s[1..])
    else
      var w := Word(s);
      [w] + Words(s[|w|..])
  }

  // ---------------------------------------------------------------------
  // Decimal rendering
  // ---------------------------------------------------------------------

  function DigitChar(d: nat): (ch: char)
    requires d < 10
    ensures IsAsciiDigit(ch)
  {
    "0123456789"[d]
  }

  function DigitValue(ch: char): nat
  {
    if IsAsciiDigit(ch) then (ch as int - '0' as int) as nat else 0
  }

  /** The value of a string of decimal digits. */
  function DecimalValue(s: string): nat
  {
    if s == [] then 0 else DecimalValue(s[..|s| - 1]) * 10 + DigitValue(s[|s| - 1])
  }

  /** `format!("{}", n)` for a non-negative integer. */
  function NatToString(n: nat): (r: string)
    ensures |r| >= 1
    ensures forall i :: 0 <= i < |r| ==> IsAsciiDigit(r[i])
    ensures |r| > 1 ==> r[0] != '0'
  {
    if n < 10 then [DigitChar(n)] else NatToString(n / 10) + [DigitChar(n % 10)]
  }

  /** Rendering can be read back, so distinct numbers render differently. */
  lemma {:induction false} NatToStringValue(n: nat)
    ensures DecimalValue(NatToString(n)) == n
  {
    var r := NatToString(n);
    if n < 10 {
      assert r[..|r| - 1] == "";
    } else {
      NatToStringValue(n / 10);
      assert r[..|r| - 1] == NatToString(n / 10);
    }
  }

  lemma NatToStringInjective(m: nat, n: nat)
    requires NatToString(m) == NatToString(n)
    ensures m == n
  {
    NatToStringValue(m);
    NatToStringValue(n);
  }

  /** `format!("{:0w}", n)`: at least `w` digits, left-padded with '0'. */
  function PadNat(n: nat, w: nat): (r: string)
    ensures |r| >= w
    ensures forall i :: 0 <= i < |r| ==> IsAsciiDigit(r[i])
  {
    var d := NatToString(n);
    if |d| >= w then d else seq(w - |d|, _ => '0') + d
  }

  function Pow10(w: nat): (r: nat)
    ensures r >= 1
  {
    if w == 0 then 1 else 10 * Pow10(w - 1)
  }

  /** A number below 10^w takes at most `w` digits (and always at least one). */
  lemma {:induction false} NatToStringShort(n: nat, w: nat)
    requires n < Pow10(w) && w >= 1
    ensures |NatToString(n)| <= w
    decreases w
  {
    if n >= 10 {
      assert w >= 2;
      NatToStringShort(n / 10, w - 1);
    }
  }

  /** Padding a number below 10^w gives exactly `w` digits. */
  /** Leading zeros do not change the value of a digit string. */
  lemma {:induction false} LeadingZerosValue(z: string, d: string)
    requires forall i :: 0 <= i < |z| ==> z[i] == '0'
    ensures DecimalValue(z + d) == DecimalValue(d)
    decreases |d|
  {
    if d == [] {
      assert z + d == z;
      ZerosValue(z);
    } else {
      assert (z + d)[..|z + d| - 1] == z + d[..|d| - 1];
      LeadingZerosValue(z, d[..|d| - 1]);
    }
  }

  lemma {:induction false} ZerosValue(z: string)
    requires forall i :: 0 <= i < |z| ==> z[i] == '0'
    ensures DecimalValue(z) == 0
    decreases |z|
  {
    if z != [] {
      ZerosValue(z[..|z| - 1]);
    }
  }

  /** A padded number reads back as the number. */
  lemma PadNatValue(n: nat, w: nat)
    ensures DecimalValue(PadNat(n, w)) == n
  {
    var d := NatToString(n);
    NatToStringValue(n);
    if |d| < w {
      LeadingZerosValue(seq(w - |d|, _ => '0'), d);
    }
  }

  lemma PadNatWidth(n: nat, w: nat)
    requires n < Pow10(w) && w >= 1
    ensures |PadNat(n, w)| == w
  {
    NatToStringShort(n, w);
  }

  // ---------------------------------------------------------------------
  // Case
  // ---------------------------------------------------------------------

  function LowerChar(ch: char): (r: char)
    ensures !IsAsciiUpper(r)
    ensures !IsAsciiUpper(ch) ==> r == ch
  {
    if IsAsciiUpper(ch) then (ch as int - 'A' as int + 'a' as int) as char else ch
  }

  /** `to_lowercase`/`lower()` on ASCII text. */
  function Lower(s: string): (r: string)
    ensures |r| == |s|
    ensures forall i :: 0 <= i < |s| ==> r[i] == LowerChar(s[i])
  {
    seq(|s|, i requires 0 <= i < |s| => LowerChar(s[i]))
  }
}
