/** What each dimension of the aggregator counts, its capacity and its expiry, and what the rate
    windows count, read off the flows themselves. */
module Dimensions {
  import Bits
  import opened Wrappers
  import opened Net
  import opened Counters
  import opened Sums
  import B = BoundedMap
  import Recency
  import opened TrafficRuns
  import opened Aggregator
  import opened AggregatorRuns
  import RateWindow
  import W = WindowRuns

  // ---- How often a flow counts for a key ----

  ghost function One(holds: bool): nat {
    if holds then 1 else 0
  }

  /** One end of a flow: its host, its /24 when it is IPv4, and its network of each configured length. */
  ghost function EndHits(cfg: AggregatorConfig, addr: IpAddr, d: Dimension, k: Key): nat {
    match d
    case Ipv4Hosts => One(addr.V4? && k == Address(addr))
    case Ipv6Hosts => One(addr.V6? && k == Address(addr))
    case Ipv4Slash24 => One(addr.V4? && k == Address(V4(addr.v4 - addr.v4 % 256)))
    case Ipv4Networks =>
      if addr.V4? && k.Network? && k.addr == MaskAddr(addr, k.len) then Occurrences(cfg.ipv4PrefixLengths, k.len) else 0
    case Ipv6Networks =>
      if addr.V6? && k.Network? && k.addr == MaskAddr(addr, k.len) then Occurrences(cfg.ipv6PrefixLengths, k.len) else 0
    case _ => 0
  }

  /** What a flow says of itself. */
  ghost function OwnHits(e: Event, d: Dimension, k: Key): nat
    requires e.Ingest?
  {
    match d
    case Hostgroups => One(k.Name? && e.sourceGroup == Some(k.name)) + One(k.Name? && e.destinationGroup == Some(k.name))
    case Asns => One(k.Number? && e.flow.sourceAsn == Some(k.number)) + One(k.Number? && e.flow.destinationAsn == Some(k.number))
    case Exporters => One(k == Address(e.flow.exporter))
    case InputInterfaces => One(k.Number? && e.flow.inputInterface == Some(k.number))
    case OutputInterfaces => One(k.Number? && e.flow.outputInterface == Some(k.number))
    case Protocols => One(k.Proto? && e.flow.protocol == Some(k.protocol))
    case _ => 0
  }

  ghost function Hits(cfg: AggregatorConfig, e: Event, d: Dimension, k: Key): nat
    requires e.Ingest?
  {
    EndHits(cfg, e.flow.source, d, k) + EndHits(cfg, e.flow.destination, d, k) + OwnHits(e, d, k)
  }

  /** What the flows of a run are worth to a key of a dimension. */
  ghost function HitTotal(cfg: AggregatorConfig, events: seq<Event>, d: Dimension, k: Key, f: Field): nat {
    if events == [] then 0
    else
      var e := events[|events| - 1];
      HitTotal(cfg, events[..|events| - 1], d, k, f) + if e.Ingest? then Times(Hits(cfg, e, d, k), Amount(f, e.flow)) else 0
  }

  // ---- What the steps of an event bring a key ----

  ghost function Worth(d: Dimension, k: Key, f: Field): Step -> nat {
    (step: Step) => if step.Track? && step.dim == d && step.key == k then Amount(f, step.flow) else 0
  }

  ghost function WorthOf(steps: seq<Step>, d: Dimension, k: Key, f: Field): nat {
    SumSeq(Worth(d, k, f), steps)
  }

  lemma {:induction false} WorthConcat(a: seq<Step>, b: seq<Step>, d: Dimension, k: Key, f: Field)
    ensures WorthOf(a + b, d, k, f) == WorthOf(a, d, k, f) + WorthOf(b, d, k, f)
  {
    SumSeqConcat(Worth(d, k, f), a, b);
  }

  lemma {:induction false} WorthOne(step: Step, d: Dimension, k: Key, f: Field)
    ensures WorthOf([step], d, k, f) == Worth(d, k, f)(step)
  {
    assert [step][..0] == [];
    assert SumSeq(Worth(d, k, f), [step][..0]) == 0;
  }

  lemma {:induction false} BroughtToPrefix(ts: seq<Touch<Key>>, more: seq<Touch<Key>>, k: Key, f: Field, n: nat)
    requires n <= |ts|
    ensures BroughtTo(ts + more, k, f, n) == BroughtTo(ts, k, f, n)
  {
    if n > 0 { BroughtToPrefix(ts, more, k, f, n - 1); }
  }

  /** A dimension is brought what the steps are worth to it. */
  lemma {:induction false} ProjectedWorth(log: seq<Step>, d: Dimension, k: Key, f: Field)
    ensures BroughtTo(Projected(log, d), k, f, |Projected(log, d)|) == WorthOf(log, d, k, f)
  {
    if log != [] {
      var n := |log| - 1;
      ProjectedWorth(log[..n], d, k, f);
      BroughtToPrefix(Projected(log[..n], d), Seen(log[n], d), k, f, |Projected(log[..n], d)|);
    }
  }

  /** The steps bring a key x a number of times. Said of every number equal to it, so that a proof
      unfolds it only where it names it. */
  ghost predicate Brings(steps: seq<Step>, d: Dimension, k: Key, f: Field, hits: nat, x: nat) {
    forall n: nat :: n == hits ==> BringsTimes(steps, d, k, f, n, x)
  }

  ghost predicate BringsTimes(steps: seq<Step>, d: Dimension, k: Key, f: Field, hits: nat, x: nat) {
    WorthOf(steps, d, k, f) == Times(hits, x)
  }

  lemma {:induction false} BringsNothing(d: Dimension, k: Key, f: Field, x: nat)
    ensures Brings([], d, k, f, 0, x)
  {
    assert BringsTimes([], d, k, f, 0, x);
  }

  lemma {:induction false} BringsBoth(a: seq<Step>, b: seq<Step>, d: Dimension, k: Key, f: Field, m: nat, n: nat, x: nat)
    requires Brings(a, d, k, f, m, x) && Brings(b, d, k, f, n, x)
    ensures Brings(a + b, d, k, f, m + n, x)
  {
    assert BringsTimes(a, d, k, f, m, x) && BringsTimes(b, d, k, f, n, x);
    WorthConcat(a, b, d, k, f);
    TimesPlus(m, n, x);
    assert BringsTimes(a + b, d, k, f, m + n, x);
  }

  lemma {:induction false} BringsOne(dim: Dimension, key: Key, flow: Flow, now: nat, d: Dimension, k: Key, f: Field)
    ensures Brings([Track(dim, key, flow, now)], d, k, f, One(dim == d && key == k), Amount(f, flow))
  {
    WorthOne(Track(dim, key, flow, now), d, k, f);
    assert Times(1, Amount(f, flow)) == Times(0, Amount(f, flow)) + Amount(f, flow);
    assert BringsTimes([Track(dim, key, flow, now)], d, k, f, One(dim == d && key == k), Amount(f, flow));
  }

  lemma {:induction false} BringsOptional(dim: Dimension, key: Option<Key>, flow: Flow, now: nat, d: Dimension, k: Key, f: Field)
    ensures Brings(OptionalStep(dim, key, flow, now), d, k, f, One(dim == d && key == Some(k)), Amount(f, flow))
  {
    if key.Some? {
      BringsOne(dim, key.value, flow, now, d, k, f);
    } else {
      BringsNothing(d, k, f, Amount(f, flow));
    }
  }

  ghost function NetworkHits(addr: IpAddr, lengths: seq<U8>, d: Dimension, k: Key): nat {
    if d == NetworkDimension(addr.V4?) && k.Network? && k.addr == MaskAddr(addr, k.len) then Occurrences(lengths, k.len) else 0
  }

  lemma {:induction false} BringsNetworks(addr: IpAddr, lengths: seq<U8>, flow: Flow, now: nat, d: Dimension, k: Key, f: Field)
    ensures Brings(NetworkSteps(addr, lengths, flow, now), d, k, f, NetworkHits(addr, lengths, d, k), Amount(f, flow))
  {
    if lengths == [] {
      BringsNothing(d, k, f, Amount(f, flow));
    } else {
      var n := |lengths| - 1;
      var dim, key := NetworkDimension(addr.V4?), Network(MaskAddr(addr, lengths[n]), lengths[n]);
      BringsNetworks(addr, lengths[..n], flow, now, d, k, f);
      BringsOne(dim, key, flow, now, d, k, f);
      BringsBoth(NetworkSteps(addr, lengths[..n], flow, now), [Track(dim, key, flow, now)], d, k, f,
                 NetworkHits(addr, lengths[..n], d, k), One(dim == d && key == k), Amount(f, flow));
    }
  }

  lemma {:induction false} Slash24Of(a: U32)
    ensures MaskAddr(V4(a), 24) == V4(a - a % 256)
  {
    Pow2Of32();
    Bits.MaskQuotient(a, 24, 32);
    assert Bits.Pow2(8) == 256;
    assert a / 256 * 256 == a - a % 256;
  }

  ghost function Slash24Hits(addr: IpAddr, d: Dimension, k: Key): nat {
    One(addr.V4? && d == Ipv4Slash24 && k == Address(V4(addr.v4 - addr.v4 % 256)))
  }

  lemma {:induction false} BringsSlash24(addr: IpAddr, flow: Flow, now: nat, d: Dimension, k: Key, f: Field)
    ensures Brings(if addr.V4? then [Track(Ipv4Slash24, Address(MaskAddr(addr, 24)), flow, now)] else [], d, k, f,
                   Slash24Hits(addr, d, k), Amount(f, flow))
  {
    if addr.V4? {
      Slash24Of(addr.v4);
      BringsOne(Ipv4Slash24, Address(MaskAddr(addr, 24)), flow, now, d, k, f);
    } else {
      BringsNothing(d, k, f, Amount(f, flow));
    }
  }

  ghost function HostHits(addr: IpAddr, d: Dimension, k: Key): nat {
    One(HostDimension(addr.V4?) == d && Address(addr) == k)
  }

  lemma {:induction false} EndParts(cfg: AggregatorConfig, addr: IpAddr, d: Dimension, k: Key)
    ensures EndHits(cfg, addr, d, k) == HostHits(addr, d, k) + Slash24Hits(addr, d, k) + NetworkHits(addr, cfg.Lengths(addr.V4?), d, k)
  {
  }

  lemma {:induction false} BringsThree(host: seq<Step>, slash24: seq<Step>, networks: seq<Step>, d: Dimension, k: Key, f: Field,
      m: nat, n: nat, p: nat, x: nat)
    requires Brings(host, d, k, f, m, x) && Brings(slash24, d, k, f, n, x) && Brings(networks, d, k, f, p, x)
    ensures Brings(host + slash24 + networks, d, k, f, m + n + p, x)
  {
    BringsBoth(host, slash24, d, k, f, m, n, x);
    BringsBoth(host + slash24, networks, d, k, f, m + n, p, x);
  }

  lemma {:induction false} BringsAddress(cfg: AggregatorConfig, addr: IpAddr, flow: Flow, now: nat, d: Dimension, k: Key, f: Field)
    ensures Brings(AddressSteps(cfg, addr, flow, now), d, k, f, EndHits(cfg, addr, d, k), Amount(f, flow))
  {
    EndParts(cfg, addr, d, k);
    BringsOne(HostDimension(addr.V4?), Address(addr), flow, now, d, k, f);
    BringsSlash24(addr, flow, now, d, k, f);
    BringsNetworks(addr, cfg.Lengths(addr.V4?), flow, now, d, k, f);
    BringsThree([Track(HostDimension(addr.V4?), Address(addr), flow, now)],
                if addr.V4? then [Track(Ipv4Slash24, Address(MaskAddr(addr, 24)), flow, now)] else [],
                NetworkSteps(addr, cfg.Lengths(addr.V4?), flow, now), d, k, f,
                HostHits(addr, d, k), Slash24Hits(addr, d, k), NetworkHits(addr, cfg.Lengths(addr.V4?), d, k), Amount(f, flow));
  }

  /** What the flow says of itself before its addresses, and after them. */
  ghost function FirstOwn(e: Event, d: Dimension, k: Key): nat
    requires e.Ingest?
  {
    One(Exporters == d && Address(e.flow.exporter) == k) + One(InputInterfaces == d && NumberKey(e.flow.inputInterface) == Some(k)) +
    One(OutputInterfaces == d && NumberKey(e.flow.outputInterface) == Some(k)) + One(Protocols == d && ProtocolKey(e.flow.protocol) == Some(k))
  }

  ghost function LastOwn(e: Event, d: Dimension, k: Key): nat
    requires e.Ingest?
  {
    One(Asns == d && NumberKey(e.flow.sourceAsn) == Some(k)) + One(Asns == d && NumberKey(e.flow.destinationAsn) == Some(k)) +
    One(Hostgroups == d && NameKey(e.sourceGroup) == Some(k)) + One(Hostgroups == d && NameKey(e.destinationGroup) == Some(k))
  }

  lemma {:induction false} OwnParts(e: Event, d: Dimension, k: Key)
    requires e.Ingest?
    ensures OwnHits(e, d, k) == FirstOwn(e, d, k) + LastOwn(e, d, k)
  {
  }

  lemma {:induction false} BringsFive(s1: seq<Step>, s2: seq<Step>, s3: seq<Step>, s4: seq<Step>, s5: seq<Step>, d: Dimension, k: Key,
      f: Field, n1: nat, n2: nat, n3: nat, n4: nat, n5: nat, x: nat)
    requires Brings(s1, d, k, f, n1, x) && Brings(s2, d, k, f, n2, x) && Brings(s3, d, k, f, n3, x)
    requires Brings(s4, d, k, f, n4, x) && Brings(s5, d, k, f, n5, x)
    ensures Brings(s1 + s2 + s3 + s4 + s5, d, k, f, n1 + n2 + n3 + n4 + n5, x)
  {
    BringsThree(s1, s2, s3, d, k, f, n1, n2, n3, x);
    BringsThree(s1 + s2 + s3, s4, s5, d, k, f, n1 + n2 + n3, n4, n5, x);
  }

  lemma {:induction false} BringsFirst(cfg: AggregatorConfig, e: Event, d: Dimension, k: Key, f: Field)
    requires e.Ingest?
    ensures Brings(FirstSteps(cfg, e.flow, e.now), d, k, f, FirstOwn(e, d, k) + EndHits(cfg, e.flow.source, d, k), Amount(f, e.flow))
  {
    var flow, now, x := e.flow, e.now, Amount(f, e.flow);
    var a := [Track(Exporters, Address(flow.exporter), flow, now)];
    var b := OptionalStep(InputInterfaces, NumberKey(flow.inputInterface), flow, now);
    var c := OptionalStep(OutputInterfaces, NumberKey(flow.outputInterface), flow, now);
    var p := OptionalStep(Protocols, ProtocolKey(flow.protocol), flow, now);
    var i, j := One(Exporters == d && Address(flow.exporter) == k), One(InputInterfaces == d && NumberKey(flow.inputInterface) == Some(k));
    var m := One(OutputInterfaces == d && NumberKey(flow.outputInterface) == Some(k));
    var n := One(Protocols == d && ProtocolKey(flow.protocol) == Some(k));
    BringsOne(Exporters, Address(flow.exporter), flow, now, d, k, f);
    BringsOptional(InputInterfaces, NumberKey(flow.inputInterface), flow, now, d, k, f);
    BringsOptional(OutputInterfaces, NumberKey(flow.outputInterface), flow, now, d, k, f);
    BringsOptional(Protocols, ProtocolKey(flow.protocol), flow, now, d, k, f);
    BringsAddress(cfg, flow.source, flow, now, d, k, f);
    BringsFive(a, b, c, p, AddressSteps(cfg, flow.source, flow, now), d, k, f, i, j, m, n, EndHits(cfg, flow.source, d, k), x);
  }

  lemma {:induction false} BringsLast(cfg: AggregatorConfig, e: Event, d: Dimension, k: Key, f: Field)
    requires e.Ingest?
    ensures Brings(LastSteps(cfg, e.flow, e.sourceGroup, e.destinationGroup, e.now), d, k, f,
                   EndHits(cfg, e.flow.destination, d, k) + LastOwn(e, d, k), Amount(f, e.flow))
  {
    var flow, now, x, h := e.flow, e.now, Amount(f, e.flow), EndHits(cfg, e.flow.destination, d, k);
    var a := AddressSteps(cfg, flow.destination, flow, now);
    var b := OptionalStep(Asns, NumberKey(flow.sourceAsn), flow, now);
    var c := OptionalStep(Asns, NumberKey(flow.destinationAsn), flow, now);
    var g := OptionalStep(Hostgroups, NameKey(e.sourceGroup), flow, now);
    var i, j := One(Asns == d && NumberKey(flow.sourceAsn) == Some(k)), One(Asns == d && NumberKey(flow.destinationAsn) == Some(k));
    var m, n := One(Hostgroups == d && NameKey(e.sourceGroup) == Some(k)), One(Hostgroups == d && NameKey(e.destinationGroup) == Some(k));
    BringsAddress(cfg, flow.destination, flow, now, d, k, f);
    BringsOptional(Asns, NumberKey(flow.sourceAsn), flow, now, d, k, f);
    BringsOptional(Asns, NumberKey(flow.destinationAsn), flow, now, d, k, f);
    BringsOptional(Hostgroups, NameKey(e.sourceGroup), flow, now, d, k, f);
    BringsOptional(Hostgroups, NameKey(e.destinationGroup), flow, now, d, k, f);
    BringsFive(a, b, c, g, OptionalStep(Hostgroups, NameKey(e.destinationGroup), flow, now), d, k, f, h, i, j, m, n, x);
  }

  lemma {:induction false} BringsFlow(cfg: AggregatorConfig, e: Event, d: Dimension, k: Key, f: Field)
    requires e.Ingest?
    ensures Brings(IngestSteps(cfg, e.flow, e.sourceGroup, e.destinationGroup, e.now), d, k, f, Hits(cfg, e, d, k), Amount(f, e.flow))
  {
    BringsFirst(cfg, e, d, k, f);
    BringsLast(cfg, e, d, k, f);
    OwnParts(e, d, k);
    BringsBoth(FirstSteps(cfg, e.flow, e.now), LastSteps(cfg, e.flow, e.sourceGroup, e.destinationGroup, e.now), d, k, f,
               FirstOwn(e, d, k) + EndHits(cfg, e.flow.source, d, k), EndHits(cfg, e.flow.destination, d, k) + LastOwn(e, d, k),
               Amount(f, e.flow));
  }

  lemma {:induction false} EventWorth(cfg: AggregatorConfig, e: Event, d: Dimension, k: Key, f: Field)
    ensures WorthOf(StepsOf(cfg, e), d, k, f) == if e.Ingest? then Times(Hits(cfg, e, d, k), Amount(f, e.flow)) else 0
  {
    if e.Ingest? {
      BringsFlow(cfg, e, d, k, f);
      assert BringsTimes(IngestSteps(cfg, e.flow, e.sourceGroup, e.destinationGroup, e.now), d, k, f, Hits(cfg, e, d, k), Amount(f, e.flow));
    } else {
      WorthOne(SweepAll(e.now), d, k, f);
    }
  }

  lemma {:induction false} LogWorth(cfg: AggregatorConfig, events: seq<Event>, d: Dimension, k: Key, f: Field)
    ensures WorthOf(LogOf(cfg, events), d, k, f) == HitTotal(cfg, events, d, k, f)
  {
    if events != [] {
      var n := |events| - 1;
      LogWorth(cfg, events[..n], d, k, f);
      WorthConcat(LogOf(cfg, events[..n]), StepsOf(cfg, events[n]), d, k, f);
      EventWorth(cfg, events[n], d, k, f);
    }
  }

  /** While nothing was lost and nothing has expired, an entry of any dimension counts exactly the
      flows that name its key, as often as they name it, and a key has an entry exactly when some
      flow names it. */
  lemma {:induction false} CountsItsFlows(cfg: AggregatorConfig, events: seq<Event>, d: Dimension, states: seq<Entries<Key>>,
      k: Key, f: Field)
    requires Lossless(cfg, events, d, states)
    requires NothingExpired(Projected(LogOf(cfg, events), d), states, |Projected(LogOf(cfg, events), d)|)
    ensures ValueAt(states[|states| - 1], f, k) == Sat(HitTotal(cfg, events, d, k, f))
    ensures k in states[|states| - 1] <==> HitTotal(cfg, events, d, k, Flows) > 0
  {
    var ts := Projected(LogOf(cfg, events), d);
    EntryIsBrought(cfg.MapConfig(d), ts, states, k, f, |ts|);
    ProjectedWorth(LogOf(cfg, events), d, k, f);
    ProjectedWorth(LogOf(cfg, events), d, k, Flows);
    LogWorth(cfg, events, d, k, f);
    LogWorth(cfg, events, d, k, Flows);
  }

  // ---- In which order ----

  lemma {:induction false} HearsOptional(dim: Dimension, key: Option<Key>, flow: Flow, now: nat, d: Dimension)
    ensures Projected(OptionalStep(dim, key, flow, now), d) == if dim == d && key.Some? then [Touch(key.value, flow, now)] else []
  {
    if key.Some? { ProjectedOne(Track(dim, key.value, flow, now), d); }
  }

  lemma {:induction false} HearsNoAddress(cfg: AggregatorConfig, addr: IpAddr, flow: Flow, now: nat, d: Dimension)
    requires d in {Hostgroups, Asns}
    ensures Projected(AddressSteps(cfg, addr, flow, now), d) == []
  {
    AddressParts(cfg, addr, flow, now, d);
    ProjectedNetworks(addr, cfg.Lengths(addr.V4?), flow, now, d);
  }

  lemma {:induction false} HearsNothingFirst(cfg: AggregatorConfig, flow: Flow, now: nat, d: Dimension)
    requires d in {Hostgroups, Asns}
    ensures Projected(FirstSteps(cfg, flow, now), d) == []
  {
    var a := [Track(Exporters, Address(flow.exporter), flow, now)];
    var b := OptionalStep(InputInterfaces, NumberKey(flow.inputInterface), flow, now);
    var c := OptionalStep(OutputInterfaces, NumberKey(flow.outputInterface), flow, now);
    var p := OptionalStep(Protocols, ProtocolKey(flow.protocol), flow, now);
    ProjectedOne(a[0], d);
    ProjectedConcat(a, b, d);
    HearsOptional(InputInterfaces, NumberKey(flow.inputInterface), flow, now, d);
    ProjectedConcat(a + b, c, d);
    HearsOptional(OutputInterfaces, NumberKey(flow.outputInterface), flow, now, d);
    ProjectedConcat(a + b + c, p, d);
    HearsOptional(Protocols, ProtocolKey(flow.protocol), flow, now, d);
    ProjectedConcat(a + b + c + p, AddressSteps(cfg, flow.source, flow, now), d);
    HearsNoAddress(cfg, flow.source, flow, now, d);
  }

  lemma {:induction false} HearsLast(cfg: AggregatorConfig, flow: Flow, sourceGroup: Option<string>, destinationGroup: Option<string>,
      now: nat, d: Dimension)
    requires d in {Hostgroups, Asns}
    ensures Projected(LastSteps(cfg, flow, sourceGroup, destinationGroup, now), d) ==
            Projected(OptionalStep(Asns, NumberKey(flow.sourceAsn), flow, now), d) +
            Projected(OptionalStep(Asns, NumberKey(flow.destinationAsn), flow, now), d) +
            Projected(OptionalStep(Hostgroups, NameKey(sourceGroup), flow, now), d) +
            Projected(OptionalStep(Hostgroups, NameKey(destinationGroup), flow, now), d)
  {
    var a := AddressSteps(cfg, flow.destination, flow, now);
    var b := OptionalStep(Asns, NumberKey(flow.sourceAsn), flow, now);
    var c := OptionalStep(Asns, NumberKey(flow.destinationAsn), flow, now);
    var g := OptionalStep(Hostgroups, NameKey(sourceGroup), flow, now);
    ProjectedConcat(a, b, d);
    ProjectedConcat(a + b, c, d);
    ProjectedConcat(a + b + c, g, d);
    ProjectedConcat(a + b + c + g, OptionalStep(Hostgroups, NameKey(destinationGroup), flow, now), d);
    HearsNoAddress(cfg, flow.destination, flow, now, d);
  }

  lemma {:induction false} HearsFour(cfg: AggregatorConfig, e: Event, d: Dimension)
    requires e.Ingest? && d in {Hostgroups, Asns}
    ensures Projected(StepsOf(cfg, e), d) ==
            Projected(OptionalStep(Asns, NumberKey(e.flow.sourceAsn), e.flow, e.now), d) +
            Projected(OptionalStep(Asns, NumberKey(e.flow.destinationAsn), e.flow, e.now), d) +
            Projected(OptionalStep(Hostgroups, NameKey(e.sourceGroup), e.flow, e.now), d) +
            Projected(OptionalStep(Hostgroups, NameKey(e.destinationGroup), e.flow, e.now), d)
  {
    ProjectedConcat(FirstSteps(cfg, e.flow, e.now), LastSteps(cfg, e.flow, e.sourceGroup, e.destinationGroup, e.now), d);
    HearsNothingFirst(cfg, e.flow, e.now, d);
    HearsLast(cfg, e.flow, e.sourceGroup, e.destinationGroup, e.now, d);
  }

  /** The touches of up to two keys, in order. */
  ghost function TouchesOf(first: Option<Key>, second: Option<Key>, e: Event): seq<Touch<Key>>
    requires e.Ingest?
  {
    (if first.Some? then [Touch(first.value, e.flow, e.now)] else []) + if second.Some? then [Touch(second.value, e.flow, e.now)] else []
  }

  /** A flow reaches its source's AS before its destination's. */
  lemma {:induction false} AsnsInOrder(cfg: AggregatorConfig, e: Event)
    requires e.Ingest?
    ensures Projected(StepsOf(cfg, e), Asns) ==
            TouchesOf(if e.flow.sourceAsn.Some? then Some(Number(e.flow.sourceAsn.value)) else None,
                      if e.flow.destinationAsn.Some? then Some(Number(e.flow.destinationAsn.value)) else None, e)
  {
    HearsFour(cfg, e, Asns);
    var first := OptionalStep(Asns, NumberKey(e.flow.sourceAsn), e.flow, e.now);
    var second := OptionalStep(Asns, NumberKey(e.flow.destinationAsn), e.flow, e.now);
    HearsOptional(Hostgroups, NameKey(e.sourceGroup), e.flow, e.now, Asns);
    HearsOptional(Hostgroups, NameKey(e.destinationGroup), e.flow, e.now, Asns);
    OnlyTwo(Projected(first, Asns), Projected(second, Asns));
    HearsTwo(Asns, NumberKey(e.flow.sourceAsn), NumberKey(e.flow.destinationAsn), e);
  }

  lemma {:induction false} OnlyTwo(a: seq<Touch<Key>>, b: seq<Touch<Key>>)
    ensures a + b + [] + [] == a + b && [] + [] + a + b == a + b
  {
  }

  lemma {:induction false} HearsTwo(d: Dimension, first: Option<Key>, second: Option<Key>, e: Event)
    requires e.Ingest?
    ensures Projected(OptionalStep(d, first, e.flow, e.now), d) + Projected(OptionalStep(d, second, e.flow, e.now), d)
         == TouchesOf(first, second, e)
  {
    HearsOptional(d, first, e.flow, e.now, d);
    HearsOptional(d, second, e.flow, e.now, d);
  }

  /** A flow reaches its source's hostgroup before its destination's. */
  lemma {:induction false} HostgroupsInOrder(cfg: AggregatorConfig, e: Event)
    requires e.Ingest?
    ensures Projected(StepsOf(cfg, e), Hostgroups) ==
            TouchesOf(if e.sourceGroup.Some? then Some(Name(e.sourceGroup.value)) else None,
                      if e.destinationGroup.Some? then Some(Name(e.destinationGroup.value)) else None, e)
  {
    HearsFour(cfg, e, Hostgroups);
    var first := OptionalStep(Hostgroups, NameKey(e.sourceGroup), e.flow, e.now);
    var second := OptionalStep(Hostgroups, NameKey(e.destinationGroup), e.flow, e.now);
    HearsOptional(Asns, NumberKey(e.flow.sourceAsn), e.flow, e.now, Hostgroups);
    HearsOptional(Asns, NumberKey(e.flow.destinationAsn), e.flow, e.now, Hostgroups);
    OnlyTwo(Projected(first, Hostgroups), Projected(second, Hostgroups));
    HearsTwo(Hostgroups, NameKey(e.sourceGroup), NameKey(e.destinationGroup), e);
  }

  // ---- Capacity and expiry ----

  /** The configured capacity of a dimension. */
  ghost predicate IsCapacity(cfg: AggregatorConfig, d: Dimension, capacity: nat) {
    && (d in {Ipv4Hosts, Ipv6Hosts} ==> capacity == cfg.maxHosts)
    && (d in {Ipv4Slash24, Ipv4Networks, Ipv6Networks} ==> capacity == cfg.maxNetworks)
    && (d in {InputInterfaces, OutputInterfaces} ==> capacity == cfg.maxInterfaces)
    && (d == Hostgroups ==> capacity == cfg.maxHostgroups) && (d == Asns ==> capacity == cfg.maxAsns)
    && (d == Exporters ==> capacity == cfg.maxExporters) && (d == Protocols ==> capacity == cfg.maxProtocols)
  }

  /** A dimension never exceeds its capacity, and pushes an entry out exactly when a new key finds it full. */
  lemma {:induction false} EvictsWhenFull(cfg: AggregatorConfig, events: seq<Event>, d: Dimension, states: seq<Entries<Key>>,
      capacity: nat, i: nat)
    requires DimensionRun(cfg, events, d, states) && IsCapacity(cfg, d, capacity) && i < |Projected(LogOf(cfg, events), d)|
    ensures |states| == |Projected(LogOf(cfg, events), d)| + 1 && |states[i]| <= capacity
    ensures var ts := Projected(LogOf(cfg, events), d);
            ts[i].Touch? ==>
              ((exists k :: k in states[i] && k !in states[i + 1])
               <==> ts[i].key !in states[i] && |states[i]| == capacity && capacity > 0)
  {
    CapacityIs(cfg, d, capacity);
    FullExactly(cfg.MapConfig(d), Projected(LogOf(cfg, events), d), states, i);
  }

  lemma {:induction false} CapacityIs(cfg: AggregatorConfig, d: Dimension, capacity: nat)
    requires IsCapacity(cfg, d, capacity)
    ensures cfg.MapConfig(d).maxEntries == capacity
  {
  }

  lemma {:induction false} FullExactly(cfg: B.Config, ts: seq<Touch<Key>>, states: seq<Entries<Key>>, i: nat)
    requires IsTrafficRun(cfg, ts, states) && i < |ts|
    ensures |states[i]| <= cfg.maxEntries
    ensures ts[i].Touch? ==>
              ((exists k :: k in states[i] && k !in states[i + 1])
               <==> ts[i].key !in states[i] && |states[i]| == cfg.maxEntries && cfg.maxEntries > 0)
  {
    var ops := OpsOf(ts);
    Recency.CapacityKept(cfg, ops, states, i);
    assert B.StepAt(cfg, ops, states, i);
    if ts[i].Touch? { Recency.OutcomeMeaning(cfg, states[i], ops[i], states[i + 1]); }
  }

  /** A sweep keeps exactly the entries touched within the configured time to live. */
  lemma {:induction false} SweepKeepsTheActive(cfg: AggregatorConfig, events: seq<Event>, d: Dimension, states: seq<Entries<Key>>,
      i: nat, k: Key)
    requires DimensionRun(cfg, events, d, states) && i < |Projected(LogOf(cfg, events), d)|
    requires Projected(LogOf(cfg, events), d)[i].Expire?
    ensures |states| == |Projected(LogOf(cfg, events), d)| + 1
    ensures k in states[i + 1] <==>
            k in states[i] && Projected(LogOf(cfg, events), d)[i].now <= states[i][k].lastUpdated + cfg.inactivityTtl
    ensures k in states[i + 1] ==> states[i + 1][k] == states[i][k]
  {
    SweepKeeps(cfg.MapConfig(d), Projected(LogOf(cfg, events), d), states, i, k);
  }

  lemma {:induction false} SweepKeeps(cfg: B.Config, ts: seq<Touch<Key>>, states: seq<Entries<Key>>, i: nat, k: Key)
    requires IsTrafficRun(cfg, ts, states) && i < |ts| && ts[i].Expire?
    ensures k in states[i + 1] <==> k in states[i] && ts[i].now <= states[i][k].lastUpdated + cfg.inactivityTtl
    ensures k in states[i + 1] ==> states[i + 1][k] == states[i][k]
  {
    assert B.StepAt(cfg, OpsOf(ts), states, i);
  }

  // ---- The rate windows ----

  /** The flows that arrive at times in [a, b). */
  ghost function FlowsBetween(events: seq<Event>, a: nat, b: nat): seq<Flow> {
    if events == [] then []
    else
      var e := events[|events| - 1];
      FlowsBetween(events[..|events| - 1], a, b) + if e.Ingest? && a <= e.now < b then [e.flow] else []
  }

  lemma {:induction false} BetweenEvent(events: seq<Event>, a: nat, b: nat, f: Field)
    requires events != []
    ensures var e := events[|events| - 1];
            TotalAmount(f, FlowsBetween(events, a, b)) == TotalAmount(f, FlowsBetween(events[..|events| - 1], a, b)) +
            if e.Ingest? && a <= e.now < b then Amount(f, e.flow) else 0
  {
    var e, flows := events[|events| - 1], FlowsBetween(events[..|events| - 1], a, b);
    if e.Ingest? && a <= e.now < b {
      SumSeqAppend(AmountOf(f), flows, e.flow);
    } else {
      assert flows + [] == flows;
    }
  }

  /** The arrivals the windows see are the flows the totals count. */
  lemma {:induction false} ArrivalsAreFlows(events: seq<Event>, a: nat, b: nat)
    ensures var flows := FlowsBetween(events, a, b);
            W.Total(RateEvents(events), a, b) ==
            RateWindow.Counts(TotalAmount(Bytes, flows), TotalAmount(Packets, flows), TotalAmount(Flows, flows))
  {
    if events != [] {
      ArrivalsAreFlows(events[..|events| - 1], a, b);
      ArrivalAdds(events, a, b);
      BetweenEvent(events, a, b, Bytes);
      BetweenEvent(events, a, b, Packets);
      BetweenEvent(events, a, b, Flows);
    }
  }

  lemma {:induction false} ArrivalAdds(events: seq<Event>, a: nat, b: nat)
    requires events != []
    ensures var e, before, after := events[|events| - 1], W.Total(RateEvents(events[..|events| - 1]), a, b), W.Total(RateEvents(events), a, b);
            if e.Ingest? && a <= e.now < b
            then && after.bytes == before.bytes + Amount(Bytes, e.flow) && after.packets == before.packets + Amount(Packets, e.flow)
                 && after.flows == before.flows + Amount(Flows, e.flow)
            else after == before
  {
    var before := RateEvents(events[..|events| - 1]);
    assert RateEvents(events)[..|before|] == before;
  }

  lemma {:induction false} RatesInOrder(events: seq<Event>, t0: nat)
    requires InOrder(events) && forall i :: 0 <= i < |events| ==> t0 <= events[i].now
    ensures W.InOrder(RateEvents(events), t0)
    ensures |RateEvents(events)| == |events| && forall i :: 0 <= i < |events| ==> RateEvents(events)[i].now == events[i].now
  {
    if events != [] { RatesInOrder(events[..|events| - 1], t0); }
  }

  lemma {:induction false} CountedBetween(events: seq<Event>, a: nat, b: nat)
    ensures var c := AddAll(FlowsBetween(events, a, b));
            W.Total(RateEvents(events), a, b).Saturated() == RateWindow.Counts(c.bytes, c.packets, c.flows)
  {
    var flows := FlowsBetween(events, a, b);
    ArrivalsAreFlows(events, a, b);
    CountersAreCappedSums(Bytes, flows);
    CountersAreCappedSums(Packets, flows);
    CountersAreCappedSums(Flows, flows);
  }

  /** A finalized sample of any window is what counting the flows that arrived in it from zero gives. */
  lemma {:induction false} SampleIsCounters(events: seq<Event>, t0: nat, duration: nat, k: nat)
    requires InOrder(events) && duration > 0 && k >= 1 && forall i :: 0 <= i < |events| ==> t0 <= events[i].now
    ensures var c := AddAll(FlowsBetween(events, W.Start(duration, t0, k - 1), W.Start(duration, t0, k)));
            W.Sample(duration, t0, RateEvents(events), k) == Some(RateWindow.Counts(c.bytes, c.packets, c.flows))
  {
    RatesInOrder(events, t0);
    W.SampleIsTotal(duration, t0, RateEvents(events), k);
    CountedBetween(events, W.Start(duration, t0, k - 1), W.Start(duration, t0, k));
  }
}
