/**
 * The counter-based `PublisherAddressManager` of the legacy agora crate:
 * publisher k receives the link-local address fe80::1000:k, the counter
 * only moves forward, and a released address is forgotten but never
 * handed out again.
 */
module LinkLocalAddresses {
  import opened Wrappers
  import opened BoundedInts
  import opened Strings
  import opened Ipv6

  /** `u16::MAX`: the number of addresses the manager will hand out. */
  const MAX_ADDRESSES: nat := 65535
  /** `for _attempt in 1..=10`. */
  const ATTEMPTS: nat := 10

  /** `Ipv6Addr::new(0xfe80, 0, 0, 0, 0, 0, 0x1000, index)`. */
  function LinkLocal(index: u16): (a: Addr)
    ensures a[0] == 0xfe80 && a[7] == index
  {
    [0xfe80, 0, 0, 0, 0, 0, 0x1000, index]
  }

  /** `verify_address`: the first segment lies in fe80::/10. */
  predicate VerifyAddress(a: Addr)
  {
    0xfe80 <= a[0] <= 0xfebf
  }

  /** The manager's fields. */
  datatype Counter = Counter(nextIndex: nat, inUse: set<Addr>)

  /** `PublisherAddressManager::new()`. */
  function Fresh(): Counter
  {
    Counter(1, {})
  }

  /** Every address a counter at `next` has proposed so far. */
  function Issued(next: nat): set<Addr>
  {
    set k: u16 | 1 <= k < next :: LinkLocal(k)
  }

  /** What the manager keeps true: allocated addresses were all proposed before. */
  predicate Valid(c: Counter)
  {
    1 <= c.nextIndex <= MAX_ADDRESSES + 1 && c.inUse <= Issued(c.nextIndex)
  }

  function ExhaustedMessage(c: Counter): string
  {
    "Exhausted address space! Used " + NatToString(|c.inUse|) + "/"
      + NatToString(MAX_ADDRESSES) + " addresses"
  }

  /** `propose_new_address`: the next index's address, or exhaustion. */
  function Propose(c: Counter): (r: Result<(Addr, Counter)>)
    ensures r.Success? <==> c.nextIndex <= MAX_ADDRESSES
    ensures r.Success? ==> r.value.1 == c.(nextIndex := c.nextIndex + 1)
  {
    if c.nextIndex > MAX_ADDRESSES then Failure(ExhaustedMessage(c))
    else Success((LinkLocal(c.nextIndex), c.(nextIndex := c.nextIndex + 1)))
  }

  /**
   * `new_address` from the given attempt on: skip a proposal already
   * allocated, refuse one that does not verify, otherwise record it.
   */
  function AllocateFrom(c: Counter, attempt: nat): (r: (Result<Addr>, Counter))
    decreases ATTEMPTS + 1 - attempt
  {
    if attempt > ATTEMPTS then (Failure("Failed to allocate address after 10 attempts"), c)
    else
      match Propose(c)
      case Failure(e) => (Failure(e), c)
      case Success((a, c1)) =>
        if a in c1.inUse then AllocateFrom(c1, attempt + 1)
        else if !VerifyAddress(a) then (Failure("Proposed address " + Show(a) + " failed verification"), c1)
        else (Success(a), c1.(inUse := c1.inUse + {a}))
  }

  /** `allocate_publisher_address`. */
  function Allocate(c: Counter): (Result<Addr>, Counter)
  {
    AllocateFrom(c, 1)
  }

  /** `release_address`: whether the address was allocated; it is not afterwards. */
  function Release(c: Counter, a: Addr): (r: (bool, Counter))
    ensures r.0 <==> a in c.inUse
    ensures r.1.inUse == c.inUse - {a} && r.1.nextIndex == c.nextIndex
  {
    (a in c.inUse, c.(inUse := c.inUse - {a}))
  }

  /** `allocation_info`. */
  function Info(c: Counter): string
  {
    "AddressManager: " + (NatToString(|c.inUse|) + "/" + NatToString(MAX_ADDRESSES) + " addresses allocated")
      + ", next_index: " + NatToString(c.nextIndex)
  }

  // ---------------------------------------------------------------------
  // Properties
  // ---------------------------------------------------------------------

  lemma LinkLocalInjective(j: u16, k: u16)
    requires LinkLocal(j) == LinkLocal(k)
    ensures j == k
  {
    assert LinkLocal(j)[7] == j;
  }

  lemma FreshValid()
    ensures Valid(Fresh()) && Fresh().inUse == {}
  {
  }

  /** The address proposed at `next` is not among those proposed before it. */
  lemma NotYetIssued(next: u16)
    ensures LinkLocal(next) !in Issued(next)
  {
  }

  lemma IssuedGrows(next: u16)
    requires 1 <= next
    ensures Issued(next + 1) == Issued(next) + {LinkLocal(next)}
  {
    forall a | a in Issued(next + 1) ensures a in Issued(next) + {LinkLocal(next)} {
      var k: u16 :| 1 <= k < next + 1 && LinkLocal(k) == a;
    }
  }

  /**
   * On a valid counter the first proposal is never a collision: allocation
   * succeeds exactly while indices remain, returns fe80::1000:next, records
   * exactly that address, and keeps the counter valid.
   */
  lemma AllocateEffect(c: Counter)
    requires Valid(c)
    ensures var (r, c') := Allocate(c);
      && (r.Success? <==> c.nextIndex <= MAX_ADDRESSES)
      && (r.Success? ==>
            && r.value == LinkLocal(c.nextIndex)
            && r.value !in c.inUse
            && VerifyAddress(r.value)
            && c' == Counter(c.nextIndex + 1, c.inUse + {r.value})
            && Valid(c'))
      && (r.Failure? ==> c' == c && r.error == ExhaustedMessage(c))
  {
    if c.nextIndex <= MAX_ADDRESSES {
      NotYetIssued(c.nextIndex);
      IssuedGrows(c.nextIndex);
    }
  }

  /** A released (or any earlier) address is never handed out again. */
  lemma NeverReissued(c: Counter, a: Addr)
    requires Valid(c) && a in Issued(c.nextIndex)
    ensures Allocate(c).0 != Success(a)
    ensures Allocate(c).0.Success? ==> a in Issued(Allocate(c).1.nextIndex)
  {
    AllocateEffect(c);
    if c.nextIndex <= MAX_ADDRESSES {
      NotYetIssued(c.nextIndex);
      IssuedGrows(c.nextIndex);
    }
  }

  /** `n` allocations in a row from a fresh manager. */
  function AllocateTimes(n: nat): (r: (seq<Result<Addr>>, Counter))
    ensures |r.0| == n
  {
    if n == 0 then ([], Fresh())
    else
      var (rs, c) := AllocateTimes(n - 1);
      var (x, c') := Allocate(c);
      (rs + [x], c')
  }

  /**
   * The i-th of the first 65535 allocations returns fe80::1000:i, so they
   * are pairwise distinct; afterwards the counter is at n + 1 and holds
   * exactly those addresses.
   */
  lemma AllocateTimesEffect(n: nat)
    requires n <= MAX_ADDRESSES
    ensures var (rs, c) := AllocateTimes(n);
      && Valid(c) && c.nextIndex == n + 1 && c.inUse == Issued(n + 1)
      && forall i :: 0 <= i < n ==> rs[i] == Success(LinkLocal(i + 1))
  {
    AllocateTimesCounter(n);
    AllocateTimesResults(n);
  }

  /** After `n` allocations the counter is at n + 1 and holds the addresses issued so far. */
  lemma {:induction false} AllocateTimesCounter(n: nat)
    requires n <= MAX_ADDRESSES
    ensures var c := AllocateTimes(n).1;
      Valid(c) && c.nextIndex == n + 1 && c.inUse == Issued(n + 1)
  {
    if n == 0 {
      assert Issued(1) == {};
    } else {
      AllocateTimesCounter(n - 1);
      var c := AllocateTimes(n - 1).1;
      AllocateRecordsNext(c);
      var c' := Allocate(c).1;
      assert AllocateTimes(n).1 == c';
      IssuedGrows(n);
      assert c'.inUse == Issued(n) + {LinkLocal(n)};
    }
  }

  /** The i-th of the first `n` allocations returns fe80::1000:i. */
  lemma AllocateTimesResults(n: nat)
    requires n <= MAX_ADDRESSES
    ensures var rs := AllocateTimes(n).0;
      forall i :: 0 <= i < n ==> rs[i] == Success(LinkLocal(i + 1))
  {
    forall i | 0 <= i < n ensures AllocateTimes(n).0[i] == Success(LinkLocal(i + 1)) {
      AllocateTimesAt(n, i);
    }
  }

  lemma {:induction false} AllocateTimesAt(n: nat, i: nat)
    requires i < n <= MAX_ADDRESSES
    ensures AllocateTimes(n).0[i] == Success(LinkLocal(i + 1))
  {
    if i == n - 1 {
      AllocateTimesLast(n);
    } else {
      AllocateTimesAt(n - 1, i);
      AllocateTimesKeeps(n, i);
    }
  }

  /** One more allocation leaves the earlier results as they were. */
  lemma AllocateTimesKeeps(n: nat, i: nat)
    requires i < n - 1
    ensures AllocateTimes(n).0[i] == AllocateTimes(n - 1).0[i]
  {
    var (rs, c) := AllocateTimes(n - 1);
    assert AllocateTimes(n).0 == rs + [Allocate(c).0];
  }

  /** The n-th allocation returns fe80::1000:n. */
  lemma AllocateTimesLast(n: nat)
    requires 0 < n <= MAX_ADDRESSES
    ensures AllocateTimes(n).0[n - 1] == Success(LinkLocal(n))
  {
    var (rs, c) := AllocateTimes(n - 1);
    AllocateTimesCounter(n - 1);
    AllocateProposesNext(c);
    assert AllocateTimes(n).0 == rs + [Allocate(c).0];
  }

  /** With indices left, allocation hands out the address of the next index. */
  lemma AllocateProposesNext(c: Counter)
    requires Valid(c) && c.nextIndex <= MAX_ADDRESSES
    ensures Allocate(c).0 == Success(LinkLocal(c.nextIndex))
  {
    AllocateEffect(c);
  }

  /** With indices left, allocation moves the counter on and records the next index's address. */
  lemma AllocateRecordsNext(c: Counter)
    requires Valid(c) && c.nextIndex <= MAX_ADDRESSES
    ensures Allocate(c).1 == Counter(c.nextIndex + 1, c.inUse + {LinkLocal(c.nextIndex)})
    ensures Valid(Allocate(c).1)
  {
    AllocateEffect(c);
  }

  /** Once all 65535 indices are used, allocation fails with the exhaustion message. */
  lemma ExhaustedAfterAll()
    ensures var (_, c) := AllocateTimes(MAX_ADDRESSES);
      Allocate(c).0 == Failure(ExhaustedMessage(c))
  {
    AllocateTimesEffect(MAX_ADDRESSES);
    var (_, c) := AllocateTimes(MAX_ADDRESSES);
    AllocateEffect(c);
  }

  /** Releasing twice: the first release succeeds, the second reports false. */
  lemma ReleaseTwice(c: Counter, a: Addr)
    requires a in c.inUse
    ensures Release(c, a).0 && !Release(Release(c, a).1, a).0
  {
  }

  lemma Digits65535()
    ensures NatToString(MAX_ADDRESSES) == "65535"
  {
    assert NatToString(6553) == "6553" by {
      assert NatToString(655) == "655" by {
        assert NatToString(65) == "65";
      }
    }
  }

  lemma CountText(n: string)
    ensures n + "/" + NatToString(MAX_ADDRESSES) + " addresses allocated" == n + "/" + "65535" + " addresses allocated"
  {
    Digits65535();
  }

  /** The report names "{allocated}/65535 addresses allocated". */
  lemma InfoReportsCount(c: Counter)
    ensures ContainsSub(Info(c), NatToString(|c.inUse|) + "/" + "65535" + " addresses allocated")
  {
    var pre := "AddressManager: ";
    var n := NatToString(|c.inUse|);
    var mid := n + "/" + "65535" + " addresses allocated";
    var rest := ", next_index: " + NatToString(c.nextIndex);
    CountText(n);
    assert Info(c) == pre + mid + rest;
    ContainsSubAt(pre + mid + rest, mid, |pre|);
  }

  /** The longest zero run of fe80::1000:k is segments 1 to 5. */
  lemma LinkLocalZeroRun(k: u16)
    requires 1 <= k
    ensures LongestZeroRun(LinkLocal(k)) == Span(1, 5)
  {
    ZeroRunHead(k);
    ZeroRunTail(k);
  }

  /** The scan over fe80::1000:k up to segment 4: a run of three zeros from segment 1. */
  lemma ZeroRunHead(k: u16)
    requires 1 <= k
    ensures LongestZeroRun(LinkLocal(k)) == ZeroScan(LinkLocal(k), 4, Span(1, 3), Span(1, 3))
  {
    var a := LinkLocal(k);
    var z0 := Span(0, 0);
    calc {
      LongestZeroRun(a);
      ZeroScan(a, 0, z0, z0);
      ZeroScan(a, 1, z0, z0);
      ZeroScan(a, 2, Span(1, 1), Span(1, 1));
      ZeroScan(a, 3, Span(1, 2), Span(1, 2));
      ZeroScan(a, 4, Span(1, 3), Span(1, 3));
    }
  }

  /** The rest of the scan: the run reaches five zeros and the last two segments end it. */
  lemma ZeroRunTail(k: u16)
    requires 1 <= k
    ensures ZeroScan(LinkLocal(k), 4, Span(1, 3), Span(1, 3)) == Span(1, 5)
  {
    var a := LinkLocal(k);
    var z0 := Span(0, 0);
    calc {
      ZeroScan(a, 4, Span(1, 3), Span(1, 3));
      ZeroScan(a, 5, Span(1, 4), Span(1, 4));
      ZeroScan(a, 6, Span(1, 5), Span(1, 5));
      ZeroScan(a, 7, z0, Span(1, 5));
      ZeroScan(a, 8, z0, Span(1, 5));
    }
  }

  lemma HexFe80()
    ensures Hex(0xfe80) == "fe80"
  {
    assert Hex(0xfe8) == "fe8" by {
      assert Hex(0xfe) == "fe";
    }
  }

  lemma Hex1000()
    ensures Hex(0x1000) == "1000"
  {
    assert Hex(0x100) == "100" by {
      assert Hex(0x10) == "10";
    }
  }

  lemma ShowLinkLocalGroups(k: u16)
    requires 1 <= k
    ensures Show(LinkLocal(k)) == Groups([0xfe80]) + "::" + Groups([0x1000, k])
  {
    var a := LinkLocal(k);
    assert !IsIpv4Mapped(a) by { assert a[..6][0] == 0xfe80; }
    LinkLocalZeroRun(k);
    assert a[..1] == [0xfe80];
    assert a[6..] == [0x1000, k];
  }

  lemma LinkLocalHead()
    ensures Groups([0xfe80]) == "fe80"
  {
    HexFe80();
  }

  lemma LinkLocalTail(k: u16)
    ensures Groups([0x1000, k]) == "1000:" + Hex(k)
  {
    Hex1000();
    assert [0x1000, k][1..] == [k];
  }

  lemma LiteralJoin(h: string)
    ensures "fe80" + "::" + ("1000:" + h) == "fe80::" + ("1000:" + h) == "fe80::1000:" + h
  {
  }

  /** The address of index k prints as "fe80::1000:" followed by k in hexadecimal. */
  lemma ShowLinkLocal(k: u16)
    requires 1 <= k
    ensures Show(LinkLocal(k)) == "fe80::1000:" + Hex(k)
    ensures StartsWith(Show(LinkLocal(k)), "fe80::")
  {
    var h := Hex(k);
    var x := Show(LinkLocal(k));
    assert x == "fe80" + "::" + ("1000:" + h) by {
      ShowLinkLocalGroups(k);
      LinkLocalHead();
      LinkLocalTail(k);
    }
    LiteralJoin(h);
    StartsWithAppend("fe80::", "1000:" + h);
  }

  /**
   * The manager object. `allocated_addresses` is a set field; the retry
   * loop of `new_address` runs at most ten proposals.
   */
  class PublisherAddressManager {
    var nextIndex: nat
    var inUse: set<Addr>

    function State(): Counter
      reads this
    {
      Counter(nextIndex, inUse)
    }

    constructor()
      ensures State() == Fresh()
    {
      nextIndex := 1;
      inUse := {};
    }

    method ProposeNewAddress() returns (r: Result<Addr>)
      modifies this
      ensures Propose(old(State())).Success? ==>
                r == Success(Propose(old(State())).value.0) && State() == Propose(old(State())).value.1
      ensures Propose(old(State())).Failure? ==>
                r == Failure(Propose(old(State())).error) && State() == old(State())
    {
      if nextIndex > MAX_ADDRESSES {
        return Failure(ExhaustedMessage(State()));
      }
      r := Success(LinkLocal(nextIndex));
      nextIndex := nextIndex + 1;
    }

    /** `new_address` / `allocate_publisher_address`. */
    method AllocatePublisherAddress() returns (r: Result<Addr>)
      modifies this
      ensures (r, State()) == Allocate(old(State()))
    {
      var attempt := 1;
      while attempt <= ATTEMPTS
        invariant 1 <= attempt <= ATTEMPTS + 1
        invariant AllocateFrom(State(), attempt) == Allocate(old(State()))
        decreases ATTEMPTS + 1 - attempt
      {
        var proposed := ProposeNewAddress();
        if proposed.Failure? {
          return proposed;
        }
        if proposed.value in inUse {
          attempt := attempt + 1;
          continue;
        }
        if !VerifyAddress(proposed.value) {
          return Failure("Proposed address " + Show(proposed.value) + " failed verification");
        }
        inUse := inUse + {proposed.value};
        return proposed;
      }
      r := Failure("Failed to allocate address after 10 attempts");
    }

    function AllocationInfo(): (s: string)
      reads this
      ensures s == Info(State())
    {
      "AddressManager: " + (NatToString(|inUse|) + "/" + NatToString(MAX_ADDRESSES) + " addresses allocated")
        + ", next_index: " + NatToString(nextIndex)
    }

    method ReleaseAddress(a: Addr) returns (removed: bool)
      modifies this
      ensures (removed, State()) == Release(old(State()), a)
    {
      removed := a in inUse;
      inUse := inUse - {a};
    }
  }
}
