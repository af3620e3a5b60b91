/** The directed discovery sweep: which addresses of each interface's subnet are probed. Addresses are
    32-bit unsigned numbers in host byte order; a mask of leading ones is applied by taking the
    remainder off. */
module Sweep {
  const U32 := 0x1_0000_0000

  type Address = x: int | 0 <= x < U32

  /** The result of 32-bit unsigned arithmetic. */
  function Wrap(x: int): Address { x % U32 }

  datatype Interface = Interface(address: Address, prefix: nat)

  /** Only subnets from /22 to /30 are swept. */
  predicate Swept(i: Interface) {
    22 <= i.prefix <= 30
  }

  function Pow2(n: nat): (p: nat)
    ensures p > 0
  {
    if n == 0 then 1 else 2 * Pow2(n - 1)
  }

  /** The number of addresses of a subnet. */
  function Size(prefix: nat): (n: nat)
    requires prefix <= 32
    ensures n > 0
  {
    Pow2(32 - prefix)
  }

  lemma SizeIs(prefix: nat)
    requires 22 <= prefix <= 30
    ensures Size(prefix) == if prefix == 30 then 4 else if prefix == 29 then 8 else if prefix == 28 then 16
                            else if prefix == 27 then 32 else if prefix == 26 then 64 else if prefix == 25 then 128
                            else if prefix == 24 then 256 else if prefix == 23 then 512 else 1024
  {
    var n := 32 - prefix;
    assert Pow2(2) == 4 && Pow2(3) == 8 && Pow2(4) == 16 && Pow2(5) == 32 && Pow2(6) == 64;
    assert Pow2(7) == 128 && Pow2(8) == 256 && Pow2(9) == 512 && Pow2(10) == 1024;
  }

  /** The network address: the lowest of the subnet. */
  function Network(i: Interface): Address
    requires Swept(i)
  {
    SizeIs(i.prefix);
    i.address - i.address % Size(i.prefix)
  }

  /** The network address is the multiple of the size at or below the interface's own. */
  lemma NetworkIs(i: Interface)
    requires Swept(i)
    ensures var size := Size(i.prefix);
            Network(i) == i.address / size * size && Network(i) <= i.address < Network(i) + size
  {
    hide Size;
    var size := Size(i.prefix);
    assert i.address == i.address / size * size + i.address % size;
  }

  /** The broadcast address: the highest of the subnet. */
  function Broadcast(i: Interface): int
    requires Swept(i)
  {
    Network(i) + Size(i.prefix) - 1
  }

  /** How many host numbers are probed: all but network and broadcast address, at most 254. */
  function HostCount(prefix: nat): nat
    requires 22 <= prefix <= 30
  {
    SizeIs(prefix);
    if Size(prefix) - 2 > 254 then 254 else Size(prefix) - 2
  }

  /** The subnet does not reach past the end of the address space. */
  lemma NoWrap(i: Interface)
    requires Swept(i)
    ensures Broadcast(i) < U32 && 1 <= HostCount(i.prefix) <= Size(i.prefix) - 2
    ensures i.address <= Broadcast(i)
  {
    SizeIs(i.prefix);
    assert U32 % Size(i.prefix) == 0;
    assert i.address / Size(i.prefix) < U32 / Size(i.prefix);
  }

  datatype Payload = ProbeV11 | ProbeAny

  datatype Send = Send(ip: Address, payload: Payload)

  /** `ip` is to be probed: its host number is 1 to the last, and it is not the interface's own. */
  predicate Target(i: Interface, ip: Address)
    requires Swept(i)
  {
    1 <= ip - Network(i) <= HostCount(i.prefix) && ip != i.address
  }

  function ToHost(i: Interface, h: nat): seq<Send>
    requires Swept(i)
  {
    var ip := Wrap(Network(i) + h);
    if ip == i.address then [] else [Send(ip, ProbeV11), Send(ip, ProbeAny)]
  }

  /** The datagrams to the hosts 1 to `h`. */
  function ToHosts(i: Interface, h: nat): seq<Send>
    requires Swept(i)
  {
    if h == 0 then [] else ToHosts(i, h - 1) + ToHost(i, h)
  }

  function ToInterface(i: Interface): seq<Send> {
    if Swept(i) then ToHosts(i, HostCount(i.prefix)) else []
  }

  function ToAll(ifaces: seq<Interface>): seq<Send> {
    if ifaces == [] then [] else ToAll(ifaces[..|ifaces| - 1]) + ToInterface(ifaces[|ifaces| - 1])
  }

  lemma ToHostIs(i: Interface, h: nat, s: Send)
    requires Swept(i) && Network(i) + h < U32
    ensures s in ToHost(i, h) <==> s.ip == Network(i) + h && s.ip != i.address
  {
    var ip := Wrap(Network(i) + h);
    assert ip == Network(i) + h;
    if s.payload == ProbeV11 { assert s == Send(s.ip, ProbeV11); } else { assert s == Send(s.ip, ProbeAny); }
  }

  lemma {:induction false} ToHostsAre(i: Interface, h: nat)
    requires Swept(i) && Network(i) + h < U32
    ensures forall s :: s in ToHosts(i, h) <==> 1 <= s.ip - Network(i) <= h && s.ip != i.address
    ensures forall a, b :: 0 <= a < b < |ToHosts(i, h)| ==> ToHosts(i, h)[a] != ToHosts(i, h)[b]
  {
    hide Network;
    if h != 0 {
      ToHostsAre(i, h - 1);
      forall s ensures s in ToHost(i, h) <==> s.ip == Network(i) + h && s.ip != i.address {
        ToHostIs(i, h, s);
      }
      var front, last := ToHosts(i, h - 1), ToHost(i, h);
      forall a, b | 0 <= a < b < |front + last| ensures (front + last)[a] != (front + last)[b] {
        if a < |front| <= b {
          assert front[a] in front && last[b - |front|] in last;
        }
      }
    }
  }

  /** Each interface's sweep probes exactly the hosts 1 to min(size - 2, 254) but the interface's own address,
      each with either payload once, in increasing order and the 1.1 payload first; and no address probed is
      the network or broadcast address or outside the subnet. */
  lemma SweepExact(i: Interface)
    requires Swept(i)
    ensures forall s :: s in ToInterface(i) <==>
              && 1 <= s.ip - Network(i) <= (if Size(i.prefix) - 2 > 254 then 254 else Size(i.prefix) - 2)
              && s.ip != i.address
    ensures forall a, b :: 0 <= a < b < |ToInterface(i)| ==>
              var x, y := ToInterface(i)[a], ToInterface(i)[b];
              x.ip < y.ip || (x.ip == y.ip && x.payload == ProbeV11 && y.payload == ProbeAny)
    ensures forall ip: Address :: Target(i, ip) ==> Network(i) < ip < Network(i) + Size(i.prefix) - 1
  {
    NoWrap(i);
    CountIs(i.prefix);
    hide Network, Size, HostCount, Wrap;
    ToHostsAre(i, HostCount(i.prefix));
    ToHostsInOrder(i, HostCount(i.prefix));
  }

  lemma CountIs(prefix: nat)
    requires 22 <= prefix <= 30
    ensures HostCount(prefix) == if Size(prefix) - 2 > 254 then 254 else Size(prefix) - 2
  {
  }

  ghost predicate Before(x: Send, y: Send) {
    x.ip < y.ip || (x.ip == y.ip && x.payload == ProbeV11 && y.payload == ProbeAny)
  }

  lemma {:induction false} ToHostsInOrder(i: Interface, h: nat)
    requires Swept(i) && Network(i) + h < U32
    ensures forall a, b :: 0 <= a < b < |ToHosts(i, h)| ==> Before(ToHosts(i, h)[a], ToHosts(i, h)[b])
  {
    hide Network;
    if h != 0 {
      ToHostsInOrder(i, h - 1);
      ToHostsAre(i, h - 1);
      var front, last := ToHosts(i, h - 1), ToHost(i, h);
      assert Wrap(Network(i) + h) == Network(i) + h;
      forall a, b | 0 <= a < b < |front + last| ensures Before((front + last)[a], (front + last)[b]) {
        if a < |front| <= b {
          assert front[a] in front;
        }
      }
    }
  }

  /** An interface is skipped exactly when its prefix is unknown (zero), below 22 or above 30. */
  lemma SweepSkips(i: Interface)
    ensures ToInterface(i) == [] <==> i.prefix < 22 || i.prefix > 30
  {
    if Swept(i) {
      NoWrap(i);
      SizeIs(i.prefix);
      SweepExact(i);
      hide Network, Size, HostCount, ToHosts;
      var ip := if Network(i) + 1 == i.address then Network(i) + 2 else Network(i) + 1;
      assert Send(ip, ProbeV11) in ToInterface(i);
    }
  }

  /** The sweep reaches every other usable host exactly when the subnet is no larger than a /24. */
  lemma SweepComplete(i: Interface)
    requires Swept(i)
    ensures (forall ip: Address :: Network(i) < ip < Network(i) + Size(i.prefix) - 1 && ip != i.address ==>
               Send(ip, ProbeV11) in ToInterface(i) && Send(ip, ProbeAny) in ToInterface(i))
        <==> i.prefix >= 24
  {
    NoWrap(i);
    SizeIs(i.prefix);
    SweepExact(i);
    hide Network, Size, ToInterface;
    if i.prefix < 24 {
      var ip := if Network(i) + 255 == i.address then Network(i) + 256 else Network(i) + 255;
      assert Send(ip, ProbeV11) !in ToInterface(i);
    }
  }

  /** All interfaces are swept, one after the other. */
  lemma {:induction false} SweepAll(a: seq<Interface>, b: seq<Interface>)
    ensures ToAll(a + b) == ToAll(a) + ToAll(b)
    ensures forall i :: ToAll([i]) == ToInterface(i)
  {
    hide ToInterface;
    assert forall i: Interface :: [i][..0] == [];
    if b == [] {
      assert a + b == a;
    } else {
      assert (a + b)[..|a + b| - 1] == a + b[..|b| - 1];
      SweepAll(a, b[..|b| - 1]);
    }
  }

  /** What the sends returned, the failed ones (zero or less) left out. */
  function Gained(results: seq<int>): int {
    if results == [] then 0
    else
      var last := results[|results| - 1];
      Gained(results[..|results| - 1]) + if last > 0 then last else 0
  }

  /** The sum is that of the parts, and one send counts what it returned if that is positive. */
  lemma {:induction false} GainedAppend(a: seq<int>, b: seq<int>)
    ensures Gained(a + b) == Gained(a) + Gained(b)
    ensures forall x :: Gained([x]) == if x > 0 then x else 0
  {
    assert forall x: int :: [x][..0] == [];
    if b == [] {
      assert a + b == a;
    } else {
      assert (a + b)[..|a + b| - 1] == a + b[..|b| - 1];
      GainedAppend(a, b[..|b| - 1]);
    }
  }

  /** The total never falls below what any one send returned. */
  lemma {:induction false} GainedCounts(results: seq<int>)
    ensures Gained(results) >= 0
    ensures forall k :: 0 <= k < |results| ==> results[k] <= Gained(results)
  {
    if results != [] { GainedCounts(results[..|results| - 1]); }
  }

  /** The sweep: `results` is what the sends returned, one for each, and is left open. */
  method SendProbeDirected(ifaces: seq<Interface>) returns (sends: seq<Send>, results: seq<int>, total: int)
    ensures sends == ToAll(ifaces)
    ensures |results| == |sends| && total == Gained(results)
    ensures total >= 0 && forall k :: 0 <= k < |results| ==> results[k] <= total
  {
    sends, results, total := [], [], 0;
    for n := 0 to |ifaces|
      invariant sends == ToAll(ifaces[..n])
      invariant |results| == |sends| && total == Gained(results)
    {
      var iface := ifaces[n];
      assert ifaces[..n + 1][..n] == ifaces[..n];
      if iface.prefix == 0 || iface.prefix > 30 {
        continue;
      }
      if iface.prefix < 22 {
        continue;
      }
      sends, results, total := SweepInterface(iface, sends, results, total);
    }
    assert ifaces[..|ifaces|] == ifaces;
    GainedCounts(results);
  }

  /** One datagram, whose send returns anything, added to the total when positive. */
  method SendUdp(sends: seq<Send>, results: seq<int>, total: int, datagram: Send)
    returns (sends': seq<Send>, results': seq<int>, total': int)
    requires |results| == |sends| && total == Gained(results)
    ensures sends' == sends + [datagram] && |results'| == |sends'| && total' == Gained(results')
  {
    var s: int := *;
    sends', results', total' := sends + [datagram], results + [s], total;
    assert results'[..|results|] == results;
    if s > 0 {
      total' := total' + s;
    }
  }

  lemma SendsGrow(i: Interface, before: seq<Send>, h: nat)
    requires Swept(i) && h > 0
    ensures var ip, sends := Wrap(Network(i) + h), before + ToHosts(i, h - 1);
            before + ToHosts(i, h) == if ip == i.address then sends
                                      else sends + [Send(ip, ProbeV11)] + [Send(ip, ProbeAny)]
  {
    hide Network, Wrap;
  }

  lemma SweepBounds(i: Interface)
    requires Swept(i)
    ensures i.address - i.address % Size(i.prefix) == Network(i)
    ensures var hosts := Wrap(Size(i.prefix) - 1 - 1); HostCount(i.prefix) == if hosts > 254 then 254 else hosts
  {
    SizeIs(i.prefix);
  }

  /** The inner loop: both payloads to each host. */
  method SweepInterface(iface: Interface, before: seq<Send>, resultsBefore: seq<int>, totalBefore: int)
    returns (sends: seq<Send>, results: seq<int>, total: int)
    requires Swept(iface) && |resultsBefore| == |before| && totalBefore == Gained(resultsBefore)
    ensures sends == before + ToInterface(iface)
    ensures |results| == |sends| && total == Gained(results)
  {
    hide Size, HostCount, Network, Wrap, Gained;
    var hostBits := Size(iface.prefix) - 1;                         // the complement of the mask
    var base := iface.address - iface.address % Size(iface.prefix);
    var hosts := Wrap(hostBits - 1);
    if hosts > 254 {
      hosts := 254;
    }
    SweepBounds(iface);
    assert before + ToHosts(iface, 0) == before;
    hide ToHosts;
    sends, results, total := before, resultsBefore, totalBefore;
    var h := 1;
    while h <= hosts
      invariant 1 <= h <= hosts + 1
      invariant sends == before + ToHosts(iface, h - 1)
      invariant |results| == |sends| && total == Gained(results)
    {
      SendsGrow(iface, before, h);
      var ip := Wrap(base + h);
      if ip != iface.address {
        sends, results, total := SendUdp(sends, results, total, Send(ip, ProbeV11));
        sends, results, total := SendUdp(sends, results, total, Send(ip, ProbeAny));
      }
      h := h + 1;
    }
  }
}
