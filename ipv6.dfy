/**
 * IPv6 addresses as their eight 16-bit segments, and the text form the
 * Rust standard library prints for them (lower-case hexadecimal groups,
 * the first longest run of two or more zero groups written "::", and the
 * IPv4-mapped form "::ffff:a.b.c.d").
 */
module Ipv6 {
  import opened BoundedInts
  import opened Strings

  type Addr = s: seq<u16> | |s| == 8 witness [0, 0, 0, 0, 0, 0, 0, 0]

  function HexDigit(d: nat): (ch: char)
    requires d < 16
  {
    "0123456789abcdef"[d]
  }

  /** `{:x}` of a number: lower-case hexadecimal without leading zeros. */
  function Hex(n: nat): (r: string)
    ensures 1 <= |r|
    ensures n < 16 <==> |r| == 1
  {
    if n < 16 then [HexDigit(n)] else Hex(n / 16) + [HexDigit(n % 16)]
  }

  /** Segments joined by ':', each in hexadecimal. */
  function Groups(s: seq<u16>): string
  {
    if |s| == 0 then ""
    else if |s| == 1 then Hex(s[0])
    else Hex(s[0]) + ":" + Groups(s[1..])
  }

  datatype Span = Span(start: nat, len: nat)

  /**
   * The scan for the longest run of zero segments: the current run grows
   * on a zero and is reset otherwise, and it replaces the longest one only
   * when strictly longer, so the first of equally long runs wins.
   */
  function ZeroScan(s: seq<u16>, i: nat, current: Span, longest: Span): (r: Span)
    requires i <= |s|
    requires current.len > 0 ==> current.start + current.len == i
    requires forall k :: current.start <= k < current.start + current.len ==> s[k] == 0
    requires longest.start + longest.len <= |s|
    requires forall k :: longest.start <= k < longest.start + longest.len ==> s[k] == 0
    ensures r.start + r.len <= |s| && r.len >= longest.len
    ensures forall k :: r.start <= k < r.start + r.len ==> s[k] == 0
    decreases |s| - i
  {
    if i == |s| then longest
    else if s[i] == 0 then
      var c := if current.len == 0 then Span(i, 1) else Span(current.start, current.len + 1);
      ZeroScan(s, i + 1, c, if c.len > longest.len then c else longest)
    else ZeroScan(s, i + 1, Span(0, 0), longest)
  }

  function LongestZeroRun(a: Addr): Span
  {
    ZeroScan(a, 0, Span(0, 0), Span(0, 0))
  }

  predicate IsIpv4Mapped(a: Addr)
  {
    a[..6] == [0, 0, 0, 0, 0, 0xffff]
  }

  /** `Display for Ipv6Addr`. */
  function Show(a: Addr): string
  {
    if IsIpv4Mapped(a) then
      "::ffff:" + NatToString(a[6] / 256) + "." + NatToString(a[6] % 256) + "."
        + NatToString(a[7] / 256) + "." + NatToString(a[7] % 256)
    else
      var z := LongestZeroRun(a);
      if z.len > 1 then Groups(a[..z.start]) + "::" + Groups(a[z.start + z.len..])
      else Groups(a)
  }
}
