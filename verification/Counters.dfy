/** Saturating traffic counters: the value kept in map slots, and the counters
    updated in place field by field. */
module Counters {
  import Bits
  import opened Wrappers
  import opened Net
  import opened Sums

  datatype Protocol = Icmp | Tcp | Udp | Icmpv6 | OtherProtocol(number: U8)

  /** The parts of a normalized flow the aggregator reads. */
  datatype Flow = Flow(
    source: IpAddr, destination: IpAddr, exporter: IpAddr,
    protocol: Option<Protocol>, tcpFlags: Option<U8>,
    bytes: U64, packets: U64,
    inputInterface: Option<U32>, outputInterface: Option<U32>,
    sourceAsn: Option<U32>, destinationAsn: Option<U32>,
    fragmented: bool, dropped: bool, forwardingStatusKnown: bool)
  {
    /** TCP with the SYN bit (0b10) set. */
    predicate IsTcpSyn() {
      protocol == Some(Tcp) && tcpFlags.Some? && tcpFlags.value / 2 % 2 == 1
    }
  }

  datatype TrafficCounters = TrafficCounters(
    bytes: U64, packets: U64, flows: U64,
    tcpBytes: U64, tcpPackets: U64, udpBytes: U64, udpPackets: U64, icmpBytes: U64, icmpPackets: U64,
    tcpSynPackets: U64, fragmentedPackets: U64, droppedPackets: U64)

  function Default(): TrafficCounters {
    TrafficCounters(0, 0, 0, 0, 0, 0, 0, 0, 0, 0, 0, 0)
  }

  /** `saturating_add`, when the flow is of the counter's kind. */
  function Bump(applies: bool, counter: U64, amount: U64): U64 {
    if applies then Sat(counter + amount) else counter
  }

  function Add(c: TrafficCounters, flow: Flow): TrafficCounters {
    var tcp := flow.protocol == Some(Tcp);
    var udp := flow.protocol == Some(Udp);
    var icmp := flow.protocol == Some(Icmp) || flow.protocol == Some(Icmpv6);
    TrafficCounters(
      Bump(true, c.bytes, flow.bytes), Bump(true, c.packets, flow.packets), Bump(true, c.flows, 1),
      Bump(tcp, c.tcpBytes, flow.bytes), Bump(tcp, c.tcpPackets, flow.packets),
      Bump(udp, c.udpBytes, flow.bytes), Bump(udp, c.udpPackets, flow.packets),
      Bump(icmp, c.icmpBytes, flow.bytes), Bump(icmp, c.icmpPackets, flow.packets),
      Bump(tcp && flow.IsTcpSyn(), c.tcpSynPackets, flow.packets),
      Bump(flow.fragmented, c.fragmentedPackets, flow.packets),
      Bump(flow.forwardingStatusKnown && flow.dropped, c.droppedPackets, flow.packets))
  }

  // ---- Counter by counter ----

  datatype Field =
    | Bytes | Packets | Flows
    | TcpBytes | TcpPackets | UdpBytes | UdpPackets | IcmpBytes | IcmpPackets
    | TcpSynPackets | FragmentedPackets | DroppedPackets

  function Get(c: TrafficCounters, f: Field): U64 {
    match f
    case Bytes => c.bytes
    case Packets => c.packets
    case Flows => c.flows
    case TcpBytes => c.tcpBytes
    case TcpPackets => c.tcpPackets
    case UdpBytes => c.udpBytes
    case UdpPackets => c.udpPackets
    case IcmpBytes => c.icmpBytes
    case IcmpPackets => c.icmpPackets
    case TcpSynPackets => c.tcpSynPackets
    case FragmentedPackets => c.fragmentedPackets
    case DroppedPackets => c.droppedPackets
  }

  /** Which flows a counter counts. */
  predicate Counts(f: Field, flow: Flow) {
    match f
    case Bytes => true
    case Packets => true
    case Flows => true
    case TcpBytes => flow.protocol == Some(Tcp)
    case TcpPackets => flow.protocol == Some(Tcp)
    case UdpBytes => flow.protocol == Some(Udp)
    case UdpPackets => flow.protocol == Some(Udp)
    case IcmpBytes => flow.protocol == Some(Icmp) || flow.protocol == Some(Icmpv6)
    case IcmpPackets => flow.protocol == Some(Icmp) || flow.protocol == Some(Icmpv6)
    case TcpSynPackets => flow.IsTcpSyn()
    case FragmentedPackets => flow.fragmented
    case DroppedPackets => flow.forwardingStatusKnown && flow.dropped
  }

  /** What one flow is worth to a counter, exactly. */
  function Amount(f: Field, flow: Flow): nat {
    if !Counts(f, flow) then 0
    else if f == Flows then 1
    else if f == Bytes || f == TcpBytes || f == UdpBytes || f == IcmpBytes then flow.bytes
    else flow.packets
  }

  ghost function AmountOf(f: Field): Flow -> nat {
    (flow: Flow) => Amount(f, flow)
  }

  ghost function TotalAmount(f: Field, flows: seq<Flow>): nat {
    SumSeq(AmountOf(f), flows)
  }

  ghost function AddAll(flows: seq<Flow>): TrafficCounters {
    if flows == [] then Default() else Add(AddAll(flows[..|flows| - 1]), flows[|flows| - 1])
  }

  /** The SYN flag is the second lowest bit of the flags of a TCP flow. */
  lemma {:induction false} SynBit(flow: Flow)
    ensures flow.IsTcpSyn() <==> flow.protocol == Some(Tcp) && flow.tcpFlags.Some? && Bits.And(flow.tcpFlags.value, 0x02) == 0x02
  {
    if flow.tcpFlags.Some? {
      var flags := flow.tcpFlags.value;
      assert Bits.And(flags / 2 / 2, 0) == 0 by { Bits.AndZero(flags / 2 / 2); }
      assert Bits.And(flags / 2, 1) == flags / 2 % 2;
    }
  }

  /** One flow adds its amount to every counter, up to the cap. */
  lemma {:induction false} AddCounts(c: TrafficCounters, flow: Flow, f: Field)
    ensures Get(Add(c, flow), f) == Sat(Get(c, f) + Amount(f, flow))
  {
  }

  lemma {:induction false} SameCounters(c: TrafficCounters, d: TrafficCounters)
    requires forall f :: Get(c, f) == Get(d, f)
    ensures c == d
  {
    assert Get(c, Bytes) == Get(d, Bytes) && Get(c, Packets) == Get(d, Packets) && Get(c, Flows) == Get(d, Flows);
    assert Get(c, TcpBytes) == Get(d, TcpBytes) && Get(c, TcpPackets) == Get(d, TcpPackets);
    assert Get(c, UdpBytes) == Get(d, UdpBytes) && Get(c, UdpPackets) == Get(d, UdpPackets);
    assert Get(c, IcmpBytes) == Get(d, IcmpBytes) && Get(c, IcmpPackets) == Get(d, IcmpPackets);
    assert Get(c, TcpSynPackets) == Get(d, TcpSynPackets) && Get(c, FragmentedPackets) == Get(d, FragmentedPackets);
    assert Get(c, DroppedPackets) == Get(d, DroppedPackets);
  }

  /** Each counter is the exact sum of what it counts, capped once at the end. */
  lemma {:induction false} CountersAreCappedSums(f: Field, flows: seq<Flow>)
    ensures Get(AddAll(flows), f) == Sat(TotalAmount(f, flows))
    ensures Get(AddAll(flows), f) ==
            if TotalAmount(f, flows) < 0x1_0000_0000_0000_0000 then TotalAmount(f, flows) else 0xFFFF_FFFF_FFFF_FFFF
  {
    if flows != [] {
      CountersAreCappedSums(f, flows[..|flows| - 1]);
      AddCounts(AddAll(flows[..|flows| - 1]), flows[|flows| - 1], f);
    }
  }

  /** The order in which flows are counted never matters, not even when counters saturate. */
  lemma {:induction false} OrderNeverMatters(xs: seq<Flow>, ys: seq<Flow>)
    requires multiset(xs) == multiset(ys)
    ensures AddAll(xs) == AddAll(ys)
  {
    forall f ensures Get(AddAll(xs), f) == Get(AddAll(ys), f) {
      CountersAreCappedSums(f, xs);
      CountersAreCappedSums(f, ys);
      SumSeqPermuted(AmountOf(f), xs, ys);
    }
    SameCounters(AddAll(xs), AddAll(ys));
  }

  /** SYN packets are TCP packets and TCP packets are packets. */
  ghost predicate Nested(c: TrafficCounters) {
    c.tcpSynPackets <= c.tcpPackets <= c.packets && c.tcpBytes <= c.bytes
  }

  lemma {:induction false} CountersNested(flows: seq<Flow>)
    ensures Nested(AddAll(flows))
  {
    CountersAreCappedSums(TcpSynPackets, flows);
    CountersAreCappedSums(TcpPackets, flows);
    CountersAreCappedSums(Packets, flows);
    CountersAreCappedSums(TcpBytes, flows);
    CountersAreCappedSums(Bytes, flows);
    SumSeqMono(AmountOf(TcpSynPackets), AmountOf(TcpPackets), flows);
    SumSeqMono(AmountOf(TcpPackets), AmountOf(Packets), flows);
    SumSeqMono(AmountOf(TcpBytes), AmountOf(Bytes), flows);
  }

  // ---- In place ----

  /** Counters whose fields are bumped one by one, branch by branch. */
  class CounterCell {
    var bytes: U64
    var packets: U64
    var flows: U64
    var tcpBytes: U64
    var tcpPackets: U64
    var udpBytes: U64
    var udpPackets: U64
    var icmpBytes: U64
    var icmpPackets: U64
    var tcpSynPackets: U64
    var fragmentedPackets: U64
    var droppedPackets: U64

    ghost function View(): TrafficCounters
      reads this
    {
      TrafficCounters(bytes, packets, flows, tcpBytes, tcpPackets, udpBytes, udpPackets, icmpBytes, icmpPackets,
                      tcpSynPackets, fragmentedPackets, droppedPackets)
    }

    constructor ()
      ensures View() == Default()
    {
      bytes, packets, flows := 0, 0, 0;
      tcpBytes, tcpPackets, udpBytes, udpPackets, icmpBytes, icmpPackets := 0, 0, 0, 0, 0, 0;
      tcpSynPackets, fragmentedPackets, droppedPackets := 0, 0, 0;
    }

    /** The counters of the flow's protocol, if it has any. */
    method AddProtocol(flow: Flow)
      modifies this`tcpBytes, this`tcpPackets, this`udpBytes, this`udpPackets, this`icmpBytes, this`icmpPackets, this`tcpSynPackets
      ensures var tcp := flow.protocol == Some(Tcp);
              && tcpBytes == Bump(tcp, old(tcpBytes), flow.bytes) && tcpPackets == Bump(tcp, old(tcpPackets), flow.packets)
              && tcpSynPackets == Bump(tcp && flow.IsTcpSyn(), old(tcpSynPackets), flow.packets)
      ensures var udp := flow.protocol == Some(Udp);
              udpBytes == Bump(udp, old(udpBytes), flow.bytes) && udpPackets == Bump(udp, old(udpPackets), flow.packets)
      ensures var icmp := flow.protocol == Some(Icmp) || flow.protocol == Some(Icmpv6);
              icmpBytes == Bump(icmp, old(icmpBytes), flow.bytes) && icmpPackets == Bump(icmp, old(icmpPackets), flow.packets)
    {
      match flow.protocol {
        case Some(Tcp) =>
          tcpBytes := Sat(tcpBytes + flow.bytes);
          tcpPackets := Sat(tcpPackets + flow.packets);
          if flow.IsTcpSyn() {
            tcpSynPackets := Sat(tcpSynPackets + flow.packets);
          }
        case Some(Udp) =>
          udpBytes := Sat(udpBytes + flow.bytes);
          udpPackets := Sat(udpPackets + flow.packets);
        case Some(Icmp) =>
          icmpBytes := Sat(icmpBytes + flow.bytes);
          icmpPackets := Sat(icmpPackets + flow.packets);
        case Some(Icmpv6) =>
          icmpBytes := Sat(icmpBytes + flow.bytes);
          icmpPackets := Sat(icmpPackets + flow.packets);
        case _ =>
      }
    }

    /** The cell goes from one value of the counters to the next. */
    method AddFlow(flow: Flow)
      modifies this
      ensures View() == Add(old(View()), flow)
    {
      bytes := Sat(bytes + flow.bytes);
      packets := Sat(packets + flow.packets);
      flows := Sat(flows + 1);
      AddProtocol(flow);
      if flow.fragmented {
        fragmentedPackets := Sat(fragmentedPackets + flow.packets);
      }
      if flow.forwardingStatusKnown && flow.dropped {
        droppedPackets := Sat(droppedPackets + flow.packets);
      }
    }
  }
}
