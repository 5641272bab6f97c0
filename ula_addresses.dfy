/**
 * The random-suffix `PublisherAddressManager` of the gateway-era agora
 * crate: publisher addresses are unique-local addresses
 * fde5:402f:ab0a:1:<uid>:<48-bit suffix>, the manager records the suffixes
 * it handed out, draws random suffixes until one is unused (at most 1000
 * draws) and frees them again on request. The random generator is an
 * input: the sequence of 64-bit values it would produce.
 *
 * Shifts, masks and the `|` of disjoint bit fields are written as division,
 * remainder and addition on naturals.
 */
module UlaAddresses {
  import opened Wrappers
  import opened BoundedInts
  import opened Strings
  import opened Ipv6

  /** The four prefix segments fde5:402f:ab0a:1 of the managed range. */
  const ULA_PREFIX: seq<u16> := [0xfde5, 0x402f, 0xab0a, 0x0001]
  /** `for _attempt in 1..=1000`. */
  const ATTEMPTS: nat := 1000

  type Suffix = x: int | 0 <= x < TWO_TO_THE_48

  /** `suffix_to_address`: segments 5, 6 and 7 are the suffix's 16-bit groups, each cast to `u16`. */
  function SuffixToAddress(uid: u16, suffix: u64): (a: Addr)
    ensures a[..4] == ULA_PREFIX && a[4] == uid
  {
    [ULA_PREFIX[0], ULA_PREFIX[1], ULA_PREFIX[2], ULA_PREFIX[3], uid,
     (suffix / TWO_TO_THE_32) % TWO_TO_THE_16, (suffix / TWO_TO_THE_16) % TWO_TO_THE_16, suffix % TWO_TO_THE_16]
  }

  /**
   * `address_to_suffix`: the 48-bit suffix of an address in this
   * manager's range, and nothing for any other address.
   */
  function AddressToSuffix(uid: u16, a: Addr): (r: Option<Suffix>)
    ensures r.Some? <==> a[..4] == ULA_PREFIX && a[4] == uid
  {
    if a[0] == ULA_PREFIX[0] && a[1] == ULA_PREFIX[1] && a[2] == ULA_PREFIX[2]
       && a[3] == ULA_PREFIX[3] && a[4] == uid
    then
      assert a[..4] == ULA_PREFIX;
      Some(a[5] * TWO_TO_THE_32 + a[6] * TWO_TO_THE_16 + a[7])
    else None
  }

  /** `verify_address`. */
  predicate VerifyAddress(uid: u16, a: Addr)
  {
    AddressToSuffix(uid, a).Some?
  }

  /** Division by 2^16 has one answer. */
  lemma Div16(x: int, q: int, r: int)
    requires x == q * TWO_TO_THE_16 + r && 0 <= r < TWO_TO_THE_16
    ensures x / TWO_TO_THE_16 == q && x % TWO_TO_THE_16 == r
  {
  }

  /** Division by 2^32 has one answer. */
  lemma Div32(x: int, q: int, r: int)
    requires x == q * TWO_TO_THE_32 + r && 0 <= r < TWO_TO_THE_32
    ensures x / TWO_TO_THE_32 == q && x % TWO_TO_THE_32 == r
  {
  }

  /** Every 48-bit suffix comes back from its address. */
  lemma SuffixRoundTrip(uid: u16, s: Suffix)
    ensures AddressToSuffix(uid, SuffixToAddress(uid, s)) == Some(s)
  {
    var q, lo := s / TWO_TO_THE_16, s % TWO_TO_THE_16;
    var hi, mid := q / TWO_TO_THE_16, q % TWO_TO_THE_16;
    assert s == hi * TWO_TO_THE_32 + (mid * TWO_TO_THE_16 + lo);
    Div32(s, hi, mid * TWO_TO_THE_16 + lo);
  }

  /** Every address in range is the address of the suffix read from it. */
  lemma AddressRoundTrip(uid: u16, a: Addr)
    requires AddressToSuffix(uid, a).Some?
    ensures SuffixToAddress(uid, AddressToSuffix(uid, a).value) == a
  {
    var s := AddressToSuffix(uid, a).value;
    Div32(s, a[5], a[6] * TWO_TO_THE_16 + a[7]);
    Div16(s, a[5] * TWO_TO_THE_16 + a[6], a[7]);
    Div16(a[5] * TWO_TO_THE_16 + a[6], a[5], a[6]);
    assert a[..4] == ULA_PREFIX;
    var b := SuffixToAddress(uid, s);
    assert b[..4] == a[..4];
    assert forall i :: 0 <= i < 8 ==> b[i] == a[i];
  }

  /** Two suffixes with the same address are equal. */
  lemma SuffixToAddressInjective(uid: u16, s: Suffix, t: Suffix)
    requires SuffixToAddress(uid, s) == SuffixToAddress(uid, t)
    ensures s == t
  {
    SuffixRoundTrip(uid, s);
    SuffixRoundTrip(uid, t);
  }

  /** `rng.random::<u64>() & 0x0000_FFFF_FFFF_FFFF`. */
  function Mask48(x: u64): Suffix
  {
    x % TWO_TO_THE_48
  }

  /**
   * `new_address` from the given attempt on, with `draws[i]` the value the
   * generator yields on attempt i + 1: skip suffixes in use, take the first
   * free one.
   */
  function NewAddressFrom(uid: u16, inUse: set<Suffix>, draws: seq<u64>, i: nat): (r: (Result<Addr>, set<Suffix>))
    requires |draws| >= ATTEMPTS
    decreases ATTEMPTS - i
  {
    if i >= ATTEMPTS then (Failure("Failed to allocate address after 1000 attempts"), inUse)
    else
      var suffix := Mask48(draws[i]);
      if suffix in inUse then NewAddressFrom(uid, inUse, draws, i + 1)
      else (Success(SuffixToAddress(uid, suffix)), inUse + {suffix})
  }

  function NewAddress(uid: u16, inUse: set<Suffix>, draws: seq<u64>): (Result<Addr>, set<Suffix>)
    requires |draws| >= ATTEMPTS
  {
    NewAddressFrom(uid, inUse, draws, 0)
  }

  /** Every masked draw from attempt `i` up to `j` collided. */
  predicate AllTaken(inUse: set<Suffix>, draws: seq<u64>, i: nat, j: nat)
    requires i <= j <= |draws|
  {
    forall k :: i <= k < j ==> Mask48(draws[k]) in inUse
  }

  /** The first attempt from `i` on whose masked draw is free, or 1000 if none is. */
  function FirstFree(inUse: set<Suffix>, draws: seq<u64>, i: nat): (k: nat)
    requires |draws| >= ATTEMPTS && i <= ATTEMPTS
    ensures i <= k <= ATTEMPTS && AllTaken(inUse, draws, i, k)
    ensures k < ATTEMPTS ==> Mask48(draws[k]) !in inUse
    decreases ATTEMPTS - i
  {
    if i == ATTEMPTS || Mask48(draws[i]) !in inUse then i
    else FirstFree(inUse, draws, i + 1)
  }

  /**
   * The outcome of the draws from attempt `i` on: the first free masked
   * draw is taken, its address returned and exactly that suffix recorded;
   * when every draw collides nothing changes.
   */
  lemma {:induction false} NewAddressFromEffect(uid: u16, inUse: set<Suffix>, draws: seq<u64>, i: nat)
    requires |draws| >= ATTEMPTS && i <= ATTEMPTS
    ensures var k := FirstFree(inUse, draws, i);
      NewAddressFrom(uid, inUse, draws, i)
        == if k == ATTEMPTS then (Failure("Failed to allocate address after 1000 attempts"), inUse)
           else (Success(SuffixToAddress(uid, Mask48(draws[k]))), inUse + {Mask48(draws[k])})
    decreases ATTEMPTS - i
  {
    if i < ATTEMPTS && Mask48(draws[i]) in inUse {
      NewAddressFromEffect(uid, inUse, draws, i + 1);
    }
  }

  /**
   * A successful allocation records exactly one new suffix, below 2^48,
   * and returns an address that verifies and reads back as that suffix.
   */
  lemma NewAddressFresh(uid: u16, inUse: set<Suffix>, draws: seq<u64>)
    requires |draws| >= ATTEMPTS
    requires NewAddress(uid, inUse, draws).0.Success?
    ensures var (r, inUse') := NewAddress(uid, inUse, draws);
      && VerifyAddress(uid, r.value)
      && AddressToSuffix(uid, r.value).value !in inUse
      && inUse' == inUse + {AddressToSuffix(uid, r.value).value}
  {
    NewAddressFromEffect(uid, inUse, draws, 0);
    var k := FirstFree(inUse, draws, 0);
    SuffixRoundTrip(uid, Mask48(draws[k]));
  }

  /** When all 1000 draws collide, allocation fails and the set is unchanged. */
  lemma NewAddressExhausted(uid: u16, inUse: set<Suffix>, draws: seq<u64>)
    requires |draws| >= ATTEMPTS
    requires forall k :: 0 <= k < ATTEMPTS ==> Mask48(draws[k]) in inUse
    ensures NewAddress(uid, inUse, draws) == (Failure("Failed to allocate address after 1000 attempts"), inUse)
  {
    NewAddressFromEffect(uid, inUse, draws, 0);
  }

  /**
   * `free_address`: out-of-range addresses and unallocated suffixes are
   * errors; otherwise the suffix is removed.
   */
  function Free(uid: u16, inUse: set<Suffix>, a: Addr): (r: (Result<Unit>, set<Suffix>))
    ensures r.0.Success? <==> AddressToSuffix(uid, a).Some? && AddressToSuffix(uid, a).value in inUse
    ensures r.0.Success? ==> r.1 == inUse - {AddressToSuffix(uid, a).value}
    ensures r.0.Failure? ==> r.1 == inUse
  {
    match AddressToSuffix(uid, a)
    case Some(suffix) =>
      if suffix in inUse then (Success(Unit), inUse - {suffix})
      else (Failure("Address " + Show(a) + " was not allocated by this manager"), inUse)
    case None =>
      (Failure("Address " + Show(a) + " is not in the managed ULA range for UID " + NatToString(uid)), inUse)
  }

  /** Freeing the address just allocated succeeds and restores the previous set. */
  lemma FreeAfterNew(uid: u16, inUse: set<Suffix>, draws: seq<u64>)
    requires |draws| >= ATTEMPTS
    requires NewAddress(uid, inUse, draws).0.Success?
    ensures var (r, inUse') := NewAddress(uid, inUse, draws);
      Free(uid, inUse', r.value) == (Success(Unit), inUse)
  {
    NewAddressFresh(uid, inUse, draws);
  }

  /** A second free of the same address is refused as not allocated. */
  lemma FreeTwice(uid: u16, inUse: set<Suffix>, a: Addr)
    requires Free(uid, inUse, a).0.Success?
    ensures Free(uid, Free(uid, inUse, a).1, a).0 == Failure("Address " + Show(a) + " was not allocated by this manager")
  {
  }

  /** An address whose uid segment differs is never freed. */
  lemma FreeForeignUid(uid: u16, other: u16, s: Suffix, inUse: set<Suffix>)
    requires uid != other
    ensures Free(uid, inUse, SuffixToAddress(other, s)).0.Failure?
  {
  }

  function Info(uid: u16, inUse: set<Suffix>): string
  {
    "AddressManager (UID " + NatToString(uid) + "): " + NatToString(|inUse|)
      + " addresses allocated from 48-bit suffix space"
  }

  class PublisherAddressManager {
    var inUse: set<Suffix>
    const uid: u16

    constructor(uid: u16)
      ensures this.uid == uid && inUse == {}
    {
      this.uid := uid;
      inUse := {};
    }

    /** `new_address` / `allocate_publisher_address`, with the generator's draws given. */
    method AllocatePublisherAddress(draws: seq<u64>) returns (r: Result<Addr>)
      requires |draws| >= ATTEMPTS
      modifies this
      ensures (r, inUse) == NewAddress(uid, old(inUse), draws)
    {
      for attempt := 0 to ATTEMPTS
        invariant inUse == old(inUse)
        invariant NewAddressFrom(uid, inUse, draws, attempt) == NewAddress(uid, old(inUse), draws)
      {
        var suffix := draws[attempt] % TWO_TO_THE_48;
        if suffix in inUse {
          continue;
        }
        var proposed := SuffixToAddress(uid, suffix);
        inUse := inUse + {suffix};
        return Success(proposed);
      }
      r := Failure("Failed to allocate address after 1000 attempts");
    }

    method FreeAddress(a: Addr) returns (r: Result<Unit>)
      modifies this
      ensures (r, inUse) == Free(uid, old(inUse), a)
    {
      var s := AddressToSuffix(uid, a);
      if s.Some? {
        if s.value in inUse {
          inUse := inUse - {s.value};
          r := Success(Unit);
        } else {
          r := Failure("Address " + Show(a) + " was not allocated by this manager");
        }
      } else {
        r := Failure("Address " + Show(a) + " is not in the managed ULA range for UID " + NatToString(uid));
      }
    }

    function AllocationInfo(): (s: string)
      reads this
      ensures s == Info(uid, inUse)
    {
      "AddressManager (UID " + NatToString(uid) + "): " + NatToString(|inUse|)
        + " addresses allocated from 48-bit suffix space"
    }
  }
}
