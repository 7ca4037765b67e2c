/**
 * Scan: the discovery sweep over an IPv4 block. The candidates run from the
 * address after the network address through the broadcast address, each is
 * probed on the daemon's port, and the endpoints that accept a connection
 * are collected in no particular order.
 */
module Scanner {
  import opened Bits
  import opened Wrappers

  const TwoTo32: nat := 0x1_0000_0000

  type Uint32 = a: nat | a < 0x1_0000_0000

  /** A prefix length of an IPv4 block. */
  type Prefix = n: nat | n <= 32

  /** What net.ParseCIDR makes of the network string. */
  datatype Network =
    | Unparseable
      /** A block whose mask is not four bytes long. */
    | NotIPv4
      /** The address written before the slash, and the prefix length. */
    | IPv4(ip: Uint32, ones: Prefix)

  /** An `address:port` string the scan reports. */
  datatype Endpoint = Endpoint(addr: Uint32, port: nat)

  /** APCUPSDPort's initial value. */
  const DefaultPort: nat := 3551

  lemma Pow2Is32()
    ensures Pow2(32) == TwoTo32
  {
    assert Pow2(8) == 256;
    Pow2Add(8, 8);
    Pow2Add(16, 16);
  }

  /** net.CIDRMask(ones, 32) read as a big-endian uint32: ones one-bits, then zero-bits. */
  function CidrMask(ones: Prefix): (m: Uint32)
    ensures m == Pow2(32) - Pow2(32 - ones)
  {
    Pow2Is32();
    HighMask(32, 32 - ones)
  }

  /** The size of a block of prefix length ones: 2^(32 - ones) addresses. */
  function BlockSize(ones: Prefix): nat {
    Pow2(32 - ones)
  }

  /** The block's network address in arithmetic terms: the IP rounded down to a multiple of the size. */
  function NetworkAddress(ip: Uint32, ones: Prefix): nat {
    ModAtMost(ip, BlockSize(ones));
    ip - ip % BlockSize(ones)
  }

  /** The block's network address, which is the IP that ParseCIDR's IPNet holds: `ip & mask`. */
  function First(ip: Uint32, ones: Prefix): Uint32 {
    Pow2Is32();
    And(ip, CidrMask(ones), 32)
  }

  /** `last := (first & mask) | ^mask`. */
  function Last(first: Uint32, ones: Prefix): Uint32 {
    Pow2Is32();
    var mask := CidrMask(ones);
    Or(And(first, mask, 32), Not(mask, 32), 32)
  }

  /** The network address is the IP with its 32 - ones low bits cleared. */
  lemma FirstIsNetworkAddress(ip: Uint32, ones: Prefix)
    ensures First(ip, ones) == NetworkAddress(ip, ones)
    ensures First(ip, ones) % BlockSize(ones) == 0
  {
    Pow2Is32();
    NetworkPart(ip, 32, 32 - ones);
  }

  /** From an aligned network address, `last` has all 32 - ones low bits set. */
  lemma LastIsBroadcast(first: Uint32, ones: Prefix)
    requires first % BlockSize(ones) == 0
    ensures Last(first, ones) == first + BlockSize(ones) - 1
  {
    Pow2Is32();
    BroadcastPart(first, 32, 32 - ones);
  }

  /**
   * The block's bounds: the network address is the IP with its 32 - ones low
   * bits cleared, and `last` is the broadcast address, with all of them set.
   */
  lemma HostRange(ip: Uint32, ones: Prefix)
    ensures First(ip, ones) == NetworkAddress(ip, ones) && First(ip, ones) % BlockSize(ones) == 0
    ensures Last(First(ip, ones), ones) == First(ip, ones) + BlockSize(ones) - 1
  {
    FirstIsNetworkAddress(ip, ones);
    LastIsBroadcast(First(ip, ones), ones);
  }

  /** A /32 block is its own network and broadcast address. */
  lemma SingleAddress(ip: Uint32)
    ensures First(ip, 32) == ip == Last(First(ip, 32), 32)
  {
    assert BlockSize(32) == 1;
    HostRange(ip, 32);
  }

  /** The addresses the loop `for n := first + 1; n <= last; n++` visits. */
  function Candidates(first: Uint32, last: Uint32): (c: seq<Uint32>)
    requires first <= last
    ensures |c| == last - first
    ensures forall i :: 0 <= i < |c| ==> c[i] == first + 1 + i
  {
    seq(last - first, i requires 0 <= i < last - first => first + 1 + i)
  }

  /** A candidate is exactly an address after the network address, up to the broadcast address. */
  lemma CandidateMembership(first: Uint32, last: Uint32, a: Uint32)
    requires first <= last
    ensures a in Candidates(first, last) <==> first < a <= last
  {
    if first < a <= last {
      assert Candidates(first, last)[a - first - 1] == a;
    }
  }

  /** `^mask` is one less than the block size: the number of candidates below. */
  lemma InvertedMask(ones: Prefix)
    ensures Not(CidrMask(ones), 32) == BlockSize(ones) - 1
  {
    Pow2Is32();
    NotValue(CidrMask(ones), 32);
  }

  /**
   * A block of prefix length ones has 2^(32 - ones) - 1 candidates, all
   * different; the broadcast address is one of them unless the block is a
   * single /32 address, which has none.
   */
  lemma CandidateCount(ip: Uint32, ones: Prefix, first: Uint32, last: Uint32)
    requires first == NetworkAddress(ip, ones) && (last as nat) + 1 == first + BlockSize(ones)
    ensures |Candidates(first, last)| == BlockSize(ones) - 1
    ensures forall i, j :: 0 <= i < j < |Candidates(first, last)| ==> Candidates(first, last)[i] != Candidates(first, last)[j]
    ensures last in Candidates(first, last) <==> ones < 32
  {
    if ones < 32 {
      Pow2Monotone(1, 32 - ones);
    }
    CandidateMembership(first, last, last);
  }

  /**
   * The endpoints the probes of addresses lo .. hi - 1 report, in the order
   * the loop collects them.
   */
  function Responders(port: nat, responsive: Endpoint -> bool, lo: nat, hi: nat): seq<Endpoint>
    requires hi <= TwoTo32
    decreases hi
  {
    if hi <= lo then []
    else
      var e := Endpoint(hi - 1, port);
      Responders(port, responsive, lo, hi - 1) + if responsive(e) then [e] else []
  }

  /** Each responsive endpoint of the range is reported exactly once, and nothing else is. */
  lemma {:induction false} RespondersExactlyOnce(port: nat, responsive: Endpoint -> bool, lo: nat, hi: nat)
    requires hi <= TwoTo32
    ensures forall e :: multiset(Responders(port, responsive, lo, hi))[e] ==
                        if e.port == port && lo <= e.addr < hi && responsive(e) then 1 else 0
    decreases hi
  {
    if lo < hi {
      RespondersExactlyOnce(port, responsive, lo, hi - 1);
    }
  }

  /**
   * The endpoints the scan reports for a responsiveness predicate: each
   * address after the network address, up to the last one of the block, that
   * answers on the port.
   */
  predicate Reported(net: Network, port: nat, responsive: Endpoint -> bool, e: Endpoint) {
    && net.IPv4?
    && e.port == port
    && NetworkAddress(net.ip, net.ones) < e.addr < NetworkAddress(net.ip, net.ones) + BlockSize(net.ones)
    && responsive(e)
  }

  /** A result that holds each reported endpoint exactly once, and nothing else. */
  ghost predicate ReportsExactly(net: Network, port: nat, responsive: Endpoint -> bool, found: seq<Endpoint>) {
    forall e :: multiset(found)[e] == if Reported(net, port, responsive, e) then 1 else 0
  }

  /** The endpoints that answer are reported in ascending address order, first address first. */
  lemma {:induction false} RespondersFront(port: nat, responsive: Endpoint -> bool, lo: nat, hi: nat)
    requires lo < hi <= TwoTo32
    ensures Responders(port, responsive, lo, hi) ==
      (if responsive(Endpoint(lo, port)) then [Endpoint(lo, port)] else []) + Responders(port, responsive, lo + 1, hi)
    decreases hi
  {
    if lo + 1 < hi {
      RespondersFront(port, responsive, lo, hi - 1);
    }
  }

  /**
   * The probing loop of Scan, `for n := first + 1; n <= last; n++`, one probe
   * per address, collecting the endpoints that answer. The counter is wide
   * enough not to wrap past the broadcast address 255.255.255.255; see
   * ProbeAsWritten for the 32-bit counter.
   */
  method Probe(first: Uint32, last: Uint32, port: nat, responsive: Endpoint -> bool)
    returns (found: seq<Endpoint>)
    requires first <= last
    ensures found == Responders(port, responsive, (first as nat) + 1, (last as nat) + 1)
  {
    found := [];
    var n: nat := (first as nat) + 1;
    while n <= last
      invariant first < n <= (last as nat) + 1
      invariant found == Responders(port, responsive, (first as nat) + 1, n)
      decreases (last as nat) + 1 - n
    {
      var target := Endpoint(n, port);
      if responsive(target) {
        found := found + [target];
      }
      n := n + 1;
    }
  }

  /**
   * Scan. Every candidate is probed on the port; `responsive` stands for the
   * dial succeeding within the timeout. The result holds each responsive
   * candidate's endpoint exactly once and nothing else; the order, which the
   * source leaves to goroutine timing, is not part of the contract. A string
   * that does not parse, or is not IPv4, gives an empty result.
   */
  method Scan(net: Network, port: nat, responsive: Endpoint -> bool) returns (found: seq<Endpoint>)
    ensures !net.IPv4? ==> found == []
    ensures ReportsExactly(net, port, responsive, found)
  {
    if !net.IPv4? {
      return [];
    }
    var first, last := Bounds(net.ip, net.ones);
    found := Probe(first, last, port, responsive);
    ReportedExactlyOnce(net, port, responsive, (first as nat) + 1, (last as nat) + 1);
  }

  /**
   * Scan's `mask`, `first` and `last`: the network address and the broadcast
   * address of the block, as the bit operations compute them.
   */
  method Bounds(ip: Uint32, ones: Prefix) returns (first: Uint32, last: Uint32)
    ensures first == NetworkAddress(ip, ones)
    ensures first <= last && (last as nat) + 1 == first + BlockSize(ones) <= TwoTo32
  {
    first := First(ip, ones);
    last := Last(first, ones);
    HostRange(ip, ones);
  }

  /** The responders of a block's candidates are exactly its reported endpoints, each once. */
  lemma ReportedExactlyOnce(net: Network, port: nat, responsive: Endpoint -> bool, lo: nat, hi: nat)
    requires net.IPv4?
    requires lo == NetworkAddress(net.ip, net.ones) + 1
    requires hi == NetworkAddress(net.ip, net.ones) + BlockSize(net.ones) <= TwoTo32
    ensures ReportsExactly(net, port, responsive, Responders(port, responsive, lo, hi))
  {
    RespondersExactlyOnce(port, responsive, lo, hi);
  }

  /**
   * The scan's result, read as a set, is the candidates that answer on the
   * port: the pure enumeration filtered by the responsiveness predicate.
   */
  lemma FoundAreRespondingCandidates(net: Network, port: nat, responsive: Endpoint -> bool,
                                     found: seq<Endpoint>, first: Uint32, last: Uint32)
    requires net.IPv4? && ReportsExactly(net, port, responsive, found)
    requires first == NetworkAddress(net.ip, net.ones) && (last as nat) + 1 == first + BlockSize(net.ones)
    ensures forall e :: e in found <==> e.port == port && e.addr in Candidates(first, last) && responsive(e)
  {
    forall e
      ensures e in found <==> e.port == port && e.addr in Candidates(first, last) && responsive(e)
    {
      CandidateMembership(first, last, e.addr);
      assert e in found <==> multiset(found)[e] > 0;
    }
  }

  /** `n++` on the loop's uint32 counter. */
  function Increment(n: Uint32): (m: Uint32)
    ensures n < TwoTo32 - 1 ==> m == n + 1
    ensures n == TwoTo32 - 1 ==> m == 0
  {
    (n + 1) % TwoTo32
  }

  /**
   * The probing loop as written, with its uint32 counter, starting from the
   * counter value n: None when `fuel` iterations pass without `n <= last`
   * failing.
   */
  function ProbeAsWritten(n: Uint32, last: Uint32, port: nat, responsive: Endpoint -> bool, fuel: nat)
    : Option<seq<Endpoint>>
    decreases fuel
  {
    if n > last then Some([])
    else if fuel == 0 then None
    else
      var e := Endpoint(n, port);
      match ProbeAsWritten(Increment(n), last, port, responsive, fuel - 1)
      case None => None
      case Some(rest) => Some((if responsive(e) then [e] else []) + rest)
  }

  /**
   * A block that holds the broadcast address 255.255.255.255 never ends its
   * loop as written: every uint32 counter satisfies `n <= last`, and `n++`
   * wraps from 255.255.255.255 to 0.0.0.0.
   */
  lemma {:induction false} TopBlockNeverEndsAsWritten(n: Uint32, port: nat, responsive: Endpoint -> bool, fuel: nat)
    ensures ProbeAsWritten(n, TwoTo32 - 1, port, responsive, fuel) == None
    decreases fuel
  {
    if fuel > 0 {
      TopBlockNeverEndsAsWritten(Increment(n), port, responsive, fuel - 1);
    }
  }

  /** 255.255.255.0/24 is such a block: its last candidate is the top address. */
  lemma TopBlockExample(ip: Uint32)
    requires ip == 0xFFFF_FF00
    ensures First(ip, 24) == ip
    ensures Last(First(ip, 24), 24) == TwoTo32 - 1
  {
    assert BlockSize(24) == 256 by {
      assert Pow2(8) == 256;
    }
    assert NetworkAddress(ip, 24) == ip;
    HostRange(ip, 24);
  }

  /** Below the top address the loop as written ends and probes exactly what Probe does. */
  lemma {:induction false} AsWrittenAgreesBelowTop(n: Uint32, last: Uint32, port: nat, responsive: Endpoint -> bool, fuel: nat)
    requires 0 < n <= last + 1 && last < TwoTo32 - 1
    requires fuel >= last + 1 - n
    ensures ProbeAsWritten(n, last, port, responsive, fuel) == Some(Responders(port, responsive, n, last + 1))
    decreases last + 1 - n
  {
    if n <= last {
      AsWrittenAgreesBelowTop(n + 1, last, port, responsive, fuel - 1);
      RespondersFront(port, responsive, n, last + 1);
    }
  }
}
