/** Whole runs of the aggregator: what flows in is conserved on both sides,
    the families add up, and networks roll up the hosts below them. */
module AggregatorRuns {
  import opened Wrappers
  import opened Net
  import opened Counters
  import opened Sums
  import B = BoundedMap
  import opened Recency
  import opened TrafficRuns
  import opened Aggregator

  ghost predicate InOrder(events: seq<Event>) {
    forall i, j :: 0 <= i <= j < |events| ==> events[i].now <= events[j].now
  }

  /** The states a dimension goes through in a run of the aggregator. */
  ghost predicate DimensionRun(cfg: AggregatorConfig, events: seq<Event>, d: Dimension, states: seq<Entries<Key>>) {
    IsTrafficRun(cfg.MapConfig(d), Projected(LogOf(cfg, events), d), states)
  }

  ghost predicate Lossless(cfg: AggregatorConfig, events: seq<Event>, d: Dimension, states: seq<Entries<Key>>) {
    DimensionRun(cfg, events, d, states) && NoLoss(cfg.MapConfig(d), OpsOf(Projected(LogOf(cfg, events), d)), states)
  }

  /** Every dimension of an aggregator is such a run, lossless exactly when its tally is empty,
      and all of them are when the reports add up to nothing. */
  lemma {:induction false} EveryDimensionRuns(a: Aggregator, d: Dimension)
    requires a.Valid()
    ensures |a.maps| == |a.tallies| == DIMENSIONS
    ensures var m := a.maps[Index(d)];
            && DimensionRun(a.cfg, a.events, d, m.states) && m.entries == m.states[|m.states| - 1]
            && (a.tallies[Index(d)] == NoReport() <==> Lossless(a.cfg, a.events, d, m.states))
            && |m.states| == |m.ops| + 1
            && a.tallies[Index(d)] == IngestReport(Evictions(m.ops, m.states, |m.ops|), Rejections(m.ops, m.states, |m.ops|))
    ensures a.lost == NoReport() ==> a.tallies[Index(d)] == NoReport()
  {
    AtIndex(d);
    var i, log := Index(d), LogOf(a.cfg, a.events);
    assert a.Dimensions(log);
    assert Ran(a.maps[i], a.cfg.MapConfig(At(i)), Projected(log, At(i)), a.tallies[i]);
    assert Runs(a.maps[i], a.cfg.MapConfig(d), Projected(log, d), a.tallies[i]);
    TallyIsNoLoss(a.maps[i].cfg, a.maps[i].ops, a.maps[i].states);
    TallyCounts(a.maps[i].cfg, a.maps[i].ops, a.maps[i].states);
    assert IsSum(a.tallies, a.lost);
    LostNothing(a.tallies);
  }

  // ---- What a run asks of the host dimensions ----

  ghost function HostDimension(v4: bool): Dimension {
    if v4 then Ipv4Hosts else Ipv6Hosts
  }

  ghost function SideTouch(addr: IpAddr, flow: Flow, now: nat, v4: bool): seq<Touch<Key>> {
    if addr.V4? == v4 then [Touch(Address(addr), flow, now)] else []
  }

  ghost function HostTouches(e: Event, v4: bool): seq<Touch<Key>> {
    match e
    case Ingest(flow, _, _, now) => SideTouch(flow.source, flow, now, v4) + SideTouch(flow.destination, flow, now, v4)
    case Sweep(now) => [Touch<Key>.Expire(now)]
  }

  /** Both sides of every flow, by family. */
  ghost function HostRun(events: seq<Event>, v4: bool): seq<Touch<Key>> {
    if events == [] then [] else HostRun(events[..|events| - 1], v4) + HostTouches(events[|events| - 1], v4)
  }

  // Said of every dimension equal to d, so that a proof unfolds it only where it names it.
  ghost predicate Projects(a: seq<Step>, b: seq<Step>, d: Dimension) {
    forall x: Dimension :: x == d ==> ProjectsTo(a, b, x)
  }

  ghost predicate ProjectsTo(a: seq<Step>, b: seq<Step>, d: Dimension) {
    Projected(a + b, d) == Projected(a, d) + Projected(b, d)
  }

  lemma {:induction false} ProjectedNoMore(a: seq<Step>, d: Dimension)
    ensures Projects(a, [], d)
  {
    assert a + [] == a;
    assert ProjectsTo(a, [], d);
  }

  lemma {:induction false} ProjectedOneMore(a: seq<Step>, b: seq<Step>, step: Step, d: Dimension)
    requires Projects(a, b, d)
    ensures Projects(a, b + [step], d)
  {
    assert ProjectsTo(a, b, d);
    assert a + (b + [step]) == a + b + [step];
    ProjectedAppend(a + b, step, d);
    ProjectedAppend(b, step, d);
    TouchAssoc(Projected(a, d), Projected(b, d), Seen(step, d));
    assert ProjectsTo(a, b + [step], d);
  }

  lemma {:induction false} ProjectedAll(a: seq<Step>, b: seq<Step>, d: Dimension)
    ensures Projects(a, b, d)
  {
    if b == [] {
      ProjectedNoMore(a, d);
    } else {
      var n := |b| - 1;
      ProjectedAll(a, b[..n], d);
      ProjectedOneMore(a, b[..n], b[n], d);
      assert b == b[..n] + [b[n]];
    }
  }

  lemma {:induction false} ProjectedConcat(a: seq<Step>, b: seq<Step>, d: Dimension)
    ensures Projected(a + b, d) == Projected(a, d) + Projected(b, d)
  {
    ProjectedAll(a, b, d);
    assert ProjectsTo(a, b, d);
  }

  lemma {:induction false} ProjectedOne(step: Step, d: Dimension)
    ensures Projected([step], d) == Seen(step, d)
  {
    assert Projected([step][..0], d) == [];
  }

  lemma {:induction false} ProjectedNetworks(addr: IpAddr, lengths: seq<U8>, flow: Flow, now: nat, d: Dimension)
    requires d != if addr.V4? then Ipv4Networks else Ipv6Networks
    ensures Projected(NetworkSteps(addr, lengths, flow, now), d) == []
  {
    if lengths != [] {
      var n := |lengths| - 1;
      ProjectedNetworks(addr, lengths[..n], flow, now, d);
      var last := Track(if addr.V4? then Ipv4Networks else Ipv6Networks, Network(MaskAddr(addr, lengths[n]), lengths[n]), flow, now);
      ProjectedAppend(NetworkSteps(addr, lengths[..n], flow, now), last, d);
    }
  }

  /** What a dimension sees of the host and /24 steps of an address. */
  ghost function HostPart(addr: IpAddr, flow: Flow, now: nat, d: Dimension): seq<Touch<Key>> {
    Seen(Track(if addr.V4? then Ipv4Hosts else Ipv6Hosts, Address(addr), flow, now), d)
  }

  ghost function Slash24Part(addr: IpAddr, flow: Flow, now: nat, d: Dimension): seq<Touch<Key>> {
    if addr.V4? then Seen(Track(Ipv4Slash24, Address(MaskAddr(addr, 24)), flow, now), d) else []
  }

  ghost function NetworkPart(cfg: AggregatorConfig, addr: IpAddr, flow: Flow, now: nat, d: Dimension): seq<Touch<Key>>
  {
    Projected(NetworkSteps(addr, cfg.Lengths(addr.V4?), flow, now), d)
  }

  lemma {:induction false} AddressParts(cfg: AggregatorConfig, addr: IpAddr, flow: Flow, now: nat, d: Dimension)
    ensures Projected(AddressSteps(cfg, addr, flow, now), d) ==
            HostPart(addr, flow, now, d) + Slash24Part(addr, flow, now, d) + NetworkPart(cfg, addr, flow, now, d)
  {
    var host := Track(if addr.V4? then Ipv4Hosts else Ipv6Hosts, Address(addr), flow, now);
    var slash24 := if addr.V4? then [Track(Ipv4Slash24, Address(MaskAddr(addr, 24)), flow, now)] else [];
    ProjectedConcat([host] + slash24, NetworkSteps(addr, cfg.Lengths(addr.V4?), flow, now), d);
    ProjectedConcat([host], slash24, d);
    ProjectedOne(host, d);
    if addr.V4? { ProjectedOne(slash24[0], d); }
  }

  /** A dimension of one kind sees only the part of its kind. */
  lemma {:induction false} OnePart(cfg: AggregatorConfig, addr: IpAddr, flow: Flow, now: nat, d: Dimension)
    ensures d == Ipv4Hosts || d == Ipv6Hosts ==> Projected(AddressSteps(cfg, addr, flow, now), d) == HostPart(addr, flow, now, d)
    ensures d == Ipv4Slash24 ==> Projected(AddressSteps(cfg, addr, flow, now), d) == Slash24Part(addr, flow, now, d)
    ensures d == Ipv4Networks || d == Ipv6Networks ==>
              Projected(AddressSteps(cfg, addr, flow, now), d) == NetworkPart(cfg, addr, flow, now, d)
  {
    AddressParts(cfg, addr, flow, now, d);
    if d == Ipv4Networks || d == Ipv6Networks {
      EmptySides([], NetworkPart(cfg, addr, flow, now, d));
    } else {
      ProjectedNetworks(addr, cfg.Lengths(addr.V4?), flow, now, d);
      EmptySides(HostPart(addr, flow, now, d), []);
      EmptySides([], Slash24Part(addr, flow, now, d));
    }
  }

  lemma {:induction false} EmptySides(a: seq<Touch<Key>>, b: seq<Touch<Key>>)
    ensures a == [] ==> a + [] + b == b && a + b + [] == b
    ensures b == [] ==> a + [] + b == a
  {
  }

  lemma {:induction false} ProjectedAddress(cfg: AggregatorConfig, addr: IpAddr, flow: Flow, now: nat, v4: bool)
    ensures Projected(AddressSteps(cfg, addr, flow, now), HostDimension(v4)) == SideTouch(addr, flow, now, v4)
  {
    OnePart(cfg, addr, flow, now, HostDimension(v4));
  }

  /** The dimensions fed by the two addresses of a flow only. */
  ghost predicate OfAddresses(d: Dimension) {
    d == Ipv4Hosts || d == Ipv6Hosts || d == Ipv4Slash24 || d == Ipv4Networks || d == Ipv6Networks
  }

  lemma {:induction false} ProjectedOptional(dim: Dimension, key: Option<Key>, flow: Flow, now: nat, d: Dimension)
    requires d != dim
    ensures Projected(OptionalStep(dim, key, flow, now), d) == []
  {
    if key.Some? { ProjectedOne(Track(dim, key.value, flow, now), d); }
  }

  lemma {:induction false} ProjectedFirst(cfg: AggregatorConfig, flow: Flow, now: nat, d: Dimension)
    requires OfAddresses(d)
    ensures Projected(FirstSteps(cfg, flow, now), d) == Projected(AddressSteps(cfg, flow.source, flow, now), d)
  {
    var exporter := Track(Exporters, Address(flow.exporter), flow, now);
    var input := OptionalStep(InputInterfaces, NumberKey(flow.inputInterface), flow, now);
    var output := OptionalStep(OutputInterfaces, NumberKey(flow.outputInterface), flow, now);
    var protocol := OptionalStep(Protocols, ProtocolKey(flow.protocol), flow, now);
    ProjectedOne(exporter, d);
    ProjectedConcat([exporter], input, d);
    ProjectedOptional(InputInterfaces, NumberKey(flow.inputInterface), flow, now, d);
    ProjectedConcat([exporter] + input, output, d);
    ProjectedOptional(OutputInterfaces, NumberKey(flow.outputInterface), flow, now, d);
    ProjectedConcat([exporter] + input + output, protocol, d);
    ProjectedOptional(Protocols, ProtocolKey(flow.protocol), flow, now, d);
    ProjectedConcat([exporter] + input + output + protocol, AddressSteps(cfg, flow.source, flow, now), d);
  }

  lemma {:induction false} ProjectedLast(cfg: AggregatorConfig, flow: Flow, sourceGroup: Option<string>,
      destinationGroup: Option<string>, now: nat, d: Dimension)
    requires OfAddresses(d)
    ensures Projected(LastSteps(cfg, flow, sourceGroup, destinationGroup, now), d)
         == Projected(AddressSteps(cfg, flow.destination, flow, now), d)
  {
    var address := AddressSteps(cfg, flow.destination, flow, now);
    var asn1 := OptionalStep(Asns, NumberKey(flow.sourceAsn), flow, now);
    var asn2 := OptionalStep(Asns, NumberKey(flow.destinationAsn), flow, now);
    var group1 := OptionalStep(Hostgroups, NameKey(sourceGroup), flow, now);
    var group2 := OptionalStep(Hostgroups, NameKey(destinationGroup), flow, now);
    assert Projected(address, d) + [] == Projected(address, d);
    ProjectedConcat(address, asn1, d);
    ProjectedOptional(Asns, NumberKey(flow.sourceAsn), flow, now, d);
    ProjectedConcat(address + asn1, asn2, d);
    ProjectedOptional(Asns, NumberKey(flow.destinationAsn), flow, now, d);
    ProjectedConcat(address + asn1 + asn2, group1, d);
    ProjectedOptional(Hostgroups, NameKey(sourceGroup), flow, now, d);
    ProjectedConcat(address + asn1 + asn2 + group1, group2, d);
    ProjectedOptional(Hostgroups, NameKey(destinationGroup), flow, now, d);
  }

  /** Such a dimension hears of a flow through its source, then its destination. */
  lemma {:induction false} BothSides(cfg: AggregatorConfig, e: Event, d: Dimension)
    requires OfAddresses(d) && e.Ingest?
    ensures Projected(StepsOf(cfg, e), d) ==
            Projected(AddressSteps(cfg, e.flow.source, e.flow, e.now), d) +
            Projected(AddressSteps(cfg, e.flow.destination, e.flow, e.now), d)
  {
    ProjectedConcat(FirstSteps(cfg, e.flow, e.now), LastSteps(cfg, e.flow, e.sourceGroup, e.destinationGroup, e.now), d);
    ProjectedFirst(cfg, e.flow, e.now, d);
    ProjectedLast(cfg, e.flow, e.sourceGroup, e.destinationGroup, e.now, d);
  }

  lemma {:induction false} HostEvent(cfg: AggregatorConfig, e: Event, v4: bool)
    ensures Projected(StepsOf(cfg, e), HostDimension(v4)) == HostTouches(e, v4)
  {
    match e
    case Ingest(flow, _, _, now) =>
      BothSides(cfg, e, HostDimension(v4));
      ProjectedAddress(cfg, flow.source, flow, now, v4);
      ProjectedAddress(cfg, flow.destination, flow, now, v4);
    case Sweep(now) =>
      ProjectedOne(SweepAll(now), HostDimension(v4));
  }

  lemma {:induction false} HostsSeeBothSides(cfg: AggregatorConfig, events: seq<Event>, v4: bool)
    ensures Projected(LogOf(cfg, events), HostDimension(v4)) == HostRun(events, v4)
  {
    if events != [] {
      var n := |events| - 1;
      HostsSeeBothSides(cfg, events[..n], v4);
      HostEvent(cfg, events[n], v4);
      ProjectedConcat(LogOf(cfg, events[..n]), StepsOf(cfg, events[n]), HostDimension(v4));
    }
  }

  // ---- Every dimension ----

  ghost predicate StepsBy(log: seq<Step>, now: nat) {
    && (forall i, j :: 0 <= i <= j < |log| ==> log[i].now <= log[j].now)
    && forall i :: 0 <= i < |log| ==> log[i].now <= now
  }

  ghost predicate StepsAt(steps: seq<Step>, now: nat) {
    forall i :: 0 <= i < |steps| ==> steps[i].now == now
  }

  lemma {:induction false} NetworkStepsAt(addr: IpAddr, lengths: seq<U8>, flow: Flow, now: nat)
    ensures StepsAt(NetworkSteps(addr, lengths, flow, now), now)
  {
    if lengths != [] { NetworkStepsAt(addr, lengths[..|lengths| - 1], flow, now); }
  }

  lemma {:induction false} AddressStepsAt(cfg: AggregatorConfig, addr: IpAddr, flow: Flow, now: nat)
    ensures StepsAt(AddressSteps(cfg, addr, flow, now), now)
  {
    NetworkStepsAt(addr, cfg.Lengths(addr.V4?), flow, now);
  }

  lemma {:induction false} FirstStepsAt(cfg: AggregatorConfig, flow: Flow, now: nat)
    ensures StepsAt(FirstSteps(cfg, flow, now), now)
  {
    AddressStepsAt(cfg, flow.source, flow, now);
  }

  lemma {:induction false} LastStepsAt(cfg: AggregatorConfig, flow: Flow, sourceGroup: Option<string>, destinationGroup: Option<string>,
      now: nat)
    ensures StepsAt(LastSteps(cfg, flow, sourceGroup, destinationGroup, now), now)
  {
    AddressStepsAt(cfg, flow.destination, flow, now);
  }

  lemma {:induction false} EventStepsAt(cfg: AggregatorConfig, e: Event)
    ensures StepsAt(StepsOf(cfg, e), e.now)
  {
    if e.Ingest? {
      FirstStepsAt(cfg, e.flow, e.now);
      LastStepsAt(cfg, e.flow, e.sourceGroup, e.destinationGroup, e.now);
    }
  }

  lemma {:induction false} LogInOrder(cfg: AggregatorConfig, events: seq<Event>, now: nat)
    requires InOrder(events) && (events != [] ==> events[|events| - 1].now <= now)
    ensures StepsBy(LogOf(cfg, events), now)
  {
    if events != [] {
      var n := |events| - 1;
      LogInOrder(cfg, events[..n], events[n].now);
      EventStepsAt(cfg, events[n]);
    }
  }

  lemma {:induction false} ProjectedInOrder(log: seq<Step>, d: Dimension, now: nat)
    requires StepsBy(log, now)
    ensures TimesInOrder(Projected(log, d)) && forall i :: 0 <= i < |Projected(log, d)| ==> Projected(log, d)[i].now <= now
  {
    if log != [] {
      var n := |log| - 1;
      ProjectedInOrder(log[..n], d, log[n].now);
      AppendInOrder(Projected(log[..n], d), Seen(log[n], d), log[n].now);
    }
  }

  lemma {:induction false} AppendInOrder(before: seq<Touch<Key>>, last: seq<Touch<Key>>, now: nat)
    requires TimesInOrder(before)
    requires forall i :: 0 <= i < |before| ==> before[i].now <= now
    requires forall i :: 0 <= i < |last| ==> last[i].now == now
    ensures TimesInOrder(before + last)
  {
  }

  /** Events in order reach every dimension in order. */
  lemma {:induction false} DimensionInOrder(cfg: AggregatorConfig, events: seq<Event>, d: Dimension)
    requires InOrder(events)
    ensures TimesInOrder(Projected(LogOf(cfg, events), d))
  {
    var now := if events == [] then 0 else events[|events| - 1].now;
    LogInOrder(cfg, events, now);
    ProjectedInOrder(LogOf(cfg, events), d, now);
  }

  /** Which keys a dimension holds after events in order, ties included: a held key has fewer other
      keys touched later than the capacity, and one with fewer touched at its time or later is held,
      unless a sweep has found it inactive. */
  lemma {:induction false} EntriesByRecency(cfg: AggregatorConfig, events: seq<Event>, d: Dimension, states: seq<Entries<Key>>, k: Key)
    requires InOrder(events) && DimensionRun(cfg, events, d, states)
    ensures var ops, max := OpsOf(Projected(LogOf(cfg, events), d)), cfg.MapConfig(d).maxEntries;
            var n := |ops|;
            && (k in states[n] ==>
                  LastUpsert(ops, n, k) >= 0 && |Later(ops, n, k)| < max && !Swept(cfg.MapConfig(d), ops, n, k))
            && (LastUpsert(ops, n, k) >= 0 && |NotEarlier(ops, n, k)| < max && !Swept(cfg.MapConfig(d), ops, n, k) ==>
                  k in states[n])
  {
    DimensionInOrder(cfg, events, d);
    var ops := OpsOf(Projected(LogOf(cfg, events), d));
    assert UpsertsInOrder(ops);
    if k in states[|ops|] {
      HeldOnlyIf(cfg.MapConfig(d), ops, states, |ops|, k);
    } else if LastUpsert(ops, |ops|, k) >= 0 && |NotEarlier(ops, |ops|, k)| < cfg.MapConfig(d).maxEntries
              && !Swept(cfg.MapConfig(d), ops, |ops|, k) {
      HeldIf(cfg.MapConfig(d), ops, states, |ops|, k);
    }
  }

  /** In every entry of every dimension, at any point of any run and saturated or not, SYN packets
      are TCP packets and TCP packets are packets. */
  lemma {:induction false} EntriesNested(cfg: AggregatorConfig, events: seq<Event>, d: Dimension, states: seq<Entries<Key>>, n: nat, k: Key)
    requires DimensionRun(cfg, events, d, states) && n < |states| && k in states[n]
    ensures Nested(states[n][k].value)
  {
    var ts := Projected(LogOf(cfg, events), d);
    var a := EntryIsOwnFlows(cfg.MapConfig(d), ts, states, n, k);
    CountersNested(OwnFlows(ts, a, n, k));
  }

  // ---- Conservation ----

  lemma {:induction false} BroughtConcat(a: seq<Touch<Key>>, b: seq<Touch<Key>>, f: Field, n: nat)
    requires n <= |b|
    ensures Brought(a + b, f, |a| + n) == Brought(a, f, |a|) + Brought(b, f, n)
  {
    if n == 0 {
      BroughtPrefix(a, b, f, |a|);
    } else {
      BroughtConcat(a, b, f, n - 1);
    }
  }

  lemma {:induction false} BroughtPrefix(a: seq<Touch<Key>>, b: seq<Touch<Key>>, f: Field, n: nat)
    requires n <= |a|
    ensures Brought(a + b, f, n) == Brought(a, f, n)
  {
    if n > 0 { BroughtPrefix(a, b, f, n - 1); }
  }

  ghost function AllBrought(ts: seq<Touch<Key>>, f: Field): nat {
    Brought(ts, f, |ts|)
  }

  lemma {:induction false} AllBroughtConcat(a: seq<Touch<Key>>, b: seq<Touch<Key>>, f: Field)
    ensures AllBrought(a + b, f) == AllBrought(a, f) + AllBrought(b, f)
  {
    BroughtConcat(a, b, f, |b|);
  }

  lemma {:induction false} SideBrought(addr: IpAddr, flow: Flow, now: nat, v4: bool, f: Field)
    ensures AllBrought(SideTouch(addr, flow, now, v4), f) == if addr.V4? == v4 then Amount(f, flow) else 0
  {
    if addr.V4? == v4 {
      assert Brought([Touch(Address(addr), flow, now)], f, 0) == 0;
    }
  }

  lemma {:induction false} SidesBrought(flow: Flow, now: nat, v4: bool, f: Field)
    ensures AllBrought(SideTouch(flow.source, flow, now, v4) + SideTouch(flow.destination, flow, now, v4), f)
         == (if flow.source.V4? == v4 then Amount(f, flow) else 0) + if flow.destination.V4? == v4 then Amount(f, flow) else 0
  {
    var a, b := SideTouch(flow.source, flow, now, v4), SideTouch(flow.destination, flow, now, v4);
    AllBroughtConcat(a, b, f);
    SideBrought(flow.source, flow, now, v4, f);
    SideBrought(flow.destination, flow, now, v4, f);
  }

  lemma {:induction false} RunBrought(events: seq<Event>, v4: bool, f: Field)
    requires events != []
    ensures AllBrought(HostRun(events, v4), f)
         == AllBrought(HostRun(events[..|events| - 1], v4), f) + AllBrought(HostTouches(events[|events| - 1], v4), f)
  {
    AllBroughtConcat(HostRun(events[..|events| - 1], v4), HostTouches(events[|events| - 1], v4), f);
  }

  lemma {:induction false} TotalAmountEvent(events: seq<Event>, share: Share, f: Field)
    requires events != []
    ensures var e := events[|events| - 1];
            TotalAmount(f, FlowsIn(events, share)) == TotalAmount(f, FlowsIn(events[..|events| - 1], share)) +
            if e.Ingest? && share.Takes(e.flow) then Amount(f, e.flow) else 0
  {
    var e, flows := events[|events| - 1], FlowsIn(events[..|events| - 1], share);
    if e.Ingest? && share.Takes(e.flow) {
      SumSeqAppend(AmountOf(f), flows, e.flow);
    } else {
      assert flows + [] == flows;
    }
  }

  /** The flows from the other family into this one. */
  ghost function Crossing(events: seq<Event>, v4: bool): seq<Flow> {
    if events == [] then []
    else
      var e := events[|events| - 1];
      Crossing(events[..|events| - 1], v4) +
      if e.Ingest? && e.flow.source.V4? != v4 && e.flow.destination.V4? == v4 then [e.flow] else []
  }

  /** What an event is worth to its source's family, and to a family it crosses into. */
  ghost function OwnAmount(e: Event, v4: bool, f: Field): nat {
    if e.Ingest? && e.flow.source.V4? == v4 then Amount(f, e.flow) else 0
  }

  ghost function CrossingAmount(e: Event, v4: bool, f: Field): nat {
    if e.Ingest? && e.flow.source.V4? != v4 && e.flow.destination.V4? == v4 then Amount(f, e.flow) else 0
  }

  lemma {:induction false} CrossingEvent(events: seq<Event>, v4: bool, f: Field)
    requires events != []
    ensures TotalAmount(f, Crossing(events, v4)) ==
            TotalAmount(f, Crossing(events[..|events| - 1], v4)) + CrossingAmount(events[|events| - 1], v4, f)
  {
    var e, flows := events[|events| - 1], Crossing(events[..|events| - 1], v4);
    if e.Ingest? && e.flow.source.V4? != v4 && e.flow.destination.V4? == v4 {
      SumSeqAppend(AmountOf(f), flows, e.flow);
    } else {
      assert flows + [] == flows;
    }
  }

  ghost function FamilyShare(v4: bool): Share {
    if v4 then Ipv4Share else Ipv6Share
  }

  lemma {:induction false} FamilyEvent(events: seq<Event>, v4: bool, f: Field)
    requires events != []
    ensures TotalAmount(f, FlowsIn(events, FamilyShare(v4))) ==
            TotalAmount(f, FlowsIn(events[..|events| - 1], FamilyShare(v4))) + OwnAmount(events[|events| - 1], v4, f)
  {
    TotalAmountEvent(events, FamilyShare(v4), f);
  }

  lemma {:induction false} EventBalance(e: Event, v4: bool, f: Field)
    ensures AllBrought(HostTouches(e, v4), f) + CrossingAmount(e, !v4, f) == 2 * OwnAmount(e, v4, f) + CrossingAmount(e, v4, f)
  {
    if e.Ingest? {
      SidesBrought(e.flow, e.now, v4, f);
    } else {
      assert Brought([Touch<Key>.Expire(e.now)], f, 0) == 0;
    }
  }

  /** The hosts of a family are brought the family's total twice, with the flows that cross into the
      family once more and those that leave it once less. */
  lemma {:induction false} FamilyBrought(events: seq<Event>, v4: bool, f: Field)
    ensures AllBrought(HostRun(events, v4), f) + TotalAmount(f, Crossing(events, !v4))
         == 2 * TotalAmount(f, FlowsIn(events, FamilyShare(v4))) + TotalAmount(f, Crossing(events, v4))
  {
    if events != [] {
      FamilyBrought(events[..|events| - 1], v4, f);
      RunBrought(events, v4, f);
      FamilyEvent(events, v4, f);
      CrossingEvent(events, v4, f);
      CrossingEvent(events, !v4, f);
      EventBalance(events[|events| - 1], v4, f);
    }
  }

  /** Conservation in one family: unsaturated, what its live hosts hold and what its hosts lost is
      twice the family's total, with the flows that cross into it added and those that leave it
      taken off. */
  lemma {:induction false} FamilyConservation(cfg: AggregatorConfig, events: seq<Event>, v4: bool, hosts: seq<Entries<Key>>, f: Field)
    requires DimensionRun(cfg, events, HostDimension(v4), hosts) && Unsaturated(hosts, f)
    ensures |hosts| == |HostRun(events, v4)| + 1
    ensures Live(hosts[|hosts| - 1], f) + Lost(HostRun(events, v4), hosts, f, |hosts| - 1) + TotalAmount(f, Crossing(events, !v4))
         == 2 * TotalAmount(f, FlowsIn(events, FamilyShare(v4))) + TotalAmount(f, Crossing(events, v4))
  {
    HostsSeeBothSides(cfg, events, v4);
    Conservation(cfg.MapConfig(HostDimension(v4)), HostRun(events, v4), hosts, f, |hosts| - 1);
    FamilyBrought(events, v4, f);
  }

  /** Two-sided conservation: unsaturated, what live hosts hold and what hosts lost to eviction,
      expiry or rejection is, over both families, twice what flowed in. */
  lemma {:induction false} TwoSidedConservation(cfg: AggregatorConfig, events: seq<Event>, hosts4: seq<Entries<Key>>,
      hosts6: seq<Entries<Key>>, f: Field)
    requires DimensionRun(cfg, events, Ipv4Hosts, hosts4) && DimensionRun(cfg, events, Ipv6Hosts, hosts6)
    requires Unsaturated(hosts4, f) && Unsaturated(hosts6, f)
    ensures |hosts4| == |HostRun(events, true)| + 1 && |hosts6| == |HostRun(events, false)| + 1
    ensures Live(hosts4[|hosts4| - 1], f) + Lost(HostRun(events, true), hosts4, f, |hosts4| - 1)
          + Live(hosts6[|hosts6| - 1], f) + Lost(HostRun(events, false), hosts6, f, |hosts6| - 1)
         == 2 * TotalAmount(f, FlowsIn(events, All))
  {
    FamilyConservation(cfg, events, true, hosts4, f);
    FamilyConservation(cfg, events, false, hosts6, f);
    FamiliesSplit(events, f);
  }

  lemma {:induction false} FamiliesSplit(events: seq<Event>, f: Field)
    ensures TotalAmount(f, FlowsIn(events, All)) == TotalAmount(f, FlowsIn(events, Ipv4Share)) + TotalAmount(f, FlowsIn(events, Ipv6Share))
  {
    if events != [] {
      FamiliesSplit(events[..|events| - 1], f);
      TotalAmountEvent(events, All, f);
      TotalAmountEvent(events, Ipv4Share, f);
      TotalAmountEvent(events, Ipv6Share, f);
    }
  }

  /** In every counter the total is the capped sum of the IPv4 and the IPv6 totals, saturated or not. */
  lemma {:induction false} FamiliesAddUp(events: seq<Event>, f: Field)
    ensures Get(TotalOf(events, All), f) == Sat(Get(TotalOf(events, Ipv4Share), f) + Get(TotalOf(events, Ipv6Share), f))
    ensures Get(TotalOf(events, All), f) == Sat(TotalAmount(f, FlowsIn(events, All)))
  {
    FamiliesSplit(events, f);
    CountersAreCappedSums(f, FlowsIn(events, All));
    CountersAreCappedSums(f, FlowsIn(events, Ipv4Share));
    CountersAreCappedSums(f, FlowsIn(events, Ipv6Share));
  }

  // ---- Roll-up ----

  ghost function Parent24(): Key -> Key {
    (k: Key) => if k.Address? && k.addr.V4? then Address(MaskAddr(k.addr, 24)) else k
  }

  ghost function ParentNetwork(len: U8): Key -> Key {
    (k: Key) => if k.Address? then Network(MaskAddr(k.addr, len), len) else k
  }

  ghost function OfLength(len: U8): Key -> bool {
    (k: Key) => k.Network? && k.len == len
  }

  lemma {:induction false} SpreadAppend(ts: seq<Touch<Key>>, t: Touch<Key>, parent: Key -> Key, c: nat)
    ensures Spread(ts + [t], parent, c) == Spread(ts, parent, c) + SpreadTouch(t, parent, c)
  {
    assert (ts + [t])[..|ts|] == ts;
  }

  lemma {:induction false} TouchAssoc(a: seq<Touch<Key>>, b: seq<Touch<Key>>, c: seq<Touch<Key>>)
    ensures a + b + c == a + (b + c)
  {
  }

  // Said of every number equal to c, so that a proof unfolds it only where it names it.
  ghost predicate Spreads(a: seq<Touch<Key>>, b: seq<Touch<Key>>, parent: Key -> Key, c: nat) {
    forall n: nat :: n == c ==> SpreadsBy(a, b, parent, n)
  }

  ghost predicate SpreadsBy(a: seq<Touch<Key>>, b: seq<Touch<Key>>, parent: Key -> Key, c: nat) {
    Spread(a + b, parent, c) == Spread(a, parent, c) + Spread(b, parent, c)
  }

  lemma {:induction false} SpreadNoMore(a: seq<Touch<Key>>, parent: Key -> Key, c: nat)
    ensures Spreads(a, [], parent, c)
  {
    assert a + [] == a;
    assert SpreadsBy(a, [], parent, c);
  }

  lemma {:induction false} SpreadOneMore(a: seq<Touch<Key>>, b: seq<Touch<Key>>, t: Touch<Key>, parent: Key -> Key, c: nat)
    requires Spreads(a, b, parent, c)
    ensures Spreads(a, b + [t], parent, c)
  {
    assert SpreadsBy(a, b, parent, c);
    assert a + (b + [t]) == a + b + [t];
    SpreadAppend(a + b, t, parent, c);
    SpreadAppend(b, t, parent, c);
    TouchAssoc(Spread(a, parent, c), Spread(b, parent, c), SpreadTouch(t, parent, c));
    assert SpreadsBy(a, b + [t], parent, c);
  }

  lemma {:induction false} SpreadAll(a: seq<Touch<Key>>, b: seq<Touch<Key>>, parent: Key -> Key, c: nat)
    ensures Spreads(a, b, parent, c)
  {
    if b == [] {
      SpreadNoMore(a, parent, c);
    } else {
      var n := |b| - 1;
      SpreadAll(a, b[..n], parent, c);
      SpreadOneMore(a, b[..n], b[n], parent, c);
      assert b == b[..n] + [b[n]];
    }
  }

  lemma {:induction false} SpreadConcat(a: seq<Touch<Key>>, b: seq<Touch<Key>>, parent: Key -> Key, c: nat)
    ensures Spread(a + b, parent, c) == Spread(a, parent, c) + Spread(b, parent, c)
  {
    SpreadAll(a, b, parent, c);
    assert SpreadsBy(a, b, parent, c);
  }

  lemma {:induction false} SpreadOne(t: Touch<Key>, parent: Key -> Key, c: nat)
    ensures Spread([t], parent, c) == SpreadTouch(t, parent, c)
  {
    assert Spread([t][..0], parent, c) == [];
  }

  lemma {:induction false} Slash24Address(cfg: AggregatorConfig, addr: IpAddr, flow: Flow, now: nat)
    ensures Projected(AddressSteps(cfg, addr, flow, now), Ipv4Slash24) == Spread(SideTouch(addr, flow, now, true), Parent24(), 1)
  {
    OnePart(cfg, addr, flow, now, Ipv4Slash24);
    if addr.V4? {
      SpreadOne(Touch(Address(addr), flow, now), Parent24(), 1);
    }
  }

  lemma {:induction false} Slash24Event(cfg: AggregatorConfig, e: Event)
    ensures Projected(StepsOf(cfg, e), Ipv4Slash24) == Spread(HostTouches(e, true), Parent24(), 1)
  {
    match e
    case Ingest(flow, _, _, now) =>
      BothSides(cfg, e, Ipv4Slash24);
      Slash24Address(cfg, flow.source, flow, now);
      Slash24Address(cfg, flow.destination, flow, now);
      SpreadConcat(SideTouch(flow.source, flow, now, true), SideTouch(flow.destination, flow, now, true), Parent24(), 1);
    case Sweep(now) =>
      ProjectedOne(SweepAll(now), Ipv4Slash24);
      SpreadOne(Touch<Key>.Expire(now), Parent24(), 1);
  }

  /** The /24 dimension hears exactly what the IPv4 hosts hear, once per flow side. */
  lemma {:induction false} Slash24Follows(cfg: AggregatorConfig, events: seq<Event>)
    ensures Projected(LogOf(cfg, events), Ipv4Slash24) == Spread(HostRun(events, true), Parent24(), 1)
  {
    if events != [] {
      var n := |events| - 1;
      Slash24Follows(cfg, events[..n]);
      Slash24Event(cfg, events[n]);
      ProjectedConcat(LogOf(cfg, events[..n]), StepsOf(cfg, events[n]), Ipv4Slash24);
      SpreadConcat(HostRun(events[..n], true), HostTouches(events[n], true), Parent24(), 1);
    }
  }

  ghost function LastOf(states: seq<Entries<Key>>): Entries<Key>
    requires states != []
  {
    states[|states| - 1]
  }

  /** Nothing inactive was found by any sweep of the run. */
  ghost predicate NoneExpired(events: seq<Event>, v4: bool, hosts: seq<Entries<Key>>)
    requires |hosts| == |HostRun(events, v4)| + 1
  {
    NothingExpired(HostRun(events, v4), hosts, |HostRun(events, v4)|)
  }

  /** Without losses, each live IPv4 host's /24 is live, and each live /24 counts at least the sum
      of its live hosts in every counter, exactly so while nothing has expired. */
  lemma {:induction false} Slash24RollsUp(cfg: AggregatorConfig, events: seq<Event>, hosts: seq<Entries<Key>>,
      nets: seq<Entries<Key>>, f: Field)
    requires InOrder(events) && Lossless(cfg, events, Ipv4Hosts, hosts) && Lossless(cfg, events, Ipv4Slash24, nets)
    ensures |hosts| == |HostRun(events, true)| + 1 && nets != []
    ensures ParentsLive(LastOf(hosts), LastOf(nets), Parent24())
    ensures SumsUp(LastOf(hosts), LastOf(nets), Parent24(), 1, f, NoneExpired(events, true, hosts))
  {
    HostsSeeBothSides(cfg, events, true);
    Slash24Follows(cfg, events);
    DimensionInOrder(cfg, events, Ipv4Hosts);
    RollUpHosts(cfg.MapConfig(Ipv4Hosts), cfg.MapConfig(Ipv4Slash24), HostRun(events, true), Parent24(), 1, hosts, nets, f);
  }

  lemma {:induction false} RollUpHosts(ccfg: B.Config, pcfg: B.Config, ts: seq<Touch<Key>>, parent: Key -> Key, times: nat,
      cs: seq<Entries<Key>>, ps: seq<Entries<Key>>, f: Field)
    requires ccfg.inactivityTtl == pcfg.inactivityTtl && TimesInOrder(ts) && times >= 1
    requires IsTrafficRun(ccfg, ts, cs) && NoLoss(ccfg, OpsOf(ts), cs)
    requires IsTrafficRun(pcfg, Spread(ts, parent, times), ps) && NoLoss(pcfg, OpsOf(Spread(ts, parent, times)), ps)
    ensures ParentsLive(cs[|cs| - 1], ps[|ps| - 1], parent)
    ensures SumsUp(cs[|cs| - 1], ps[|ps| - 1], parent, times, f, NothingExpired(ts, cs, |ts|))
  {
    IsClean(ccfg, ts, cs);
    IsClean(pcfg, Spread(ts, parent, times), ps);
    SpreadIsSpread(ts, parent, times);
    RollUp(ccfg, pcfg, ts, Spread(ts, parent, times), parent, times, cs, ps, f, |ts|);
  }

  // ---- Configured networks ----

  ghost function NetworkDimension(v4: bool): Dimension {
    if v4 then Ipv4Networks else Ipv6Networks
  }

  /** How often a length is configured. */
  ghost function Occurrences(lengths: seq<U8>, len: U8): nat {
    if lengths == [] then 0
    else Occurrences(lengths[..|lengths| - 1], len) + if lengths[|lengths| - 1] == len then 1 else 0
  }

  lemma {:induction false} Occurs(lengths: seq<U8>, len: U8)
    requires len in lengths
    ensures Occurrences(lengths, len) >= 1
  {
    if lengths[|lengths| - 1] != len { Occurs(lengths[..|lengths| - 1], len); }
  }

  lemma {:induction false} KeptConcat(a: seq<Touch<Key>>, b: seq<Touch<Key>>, keep: Key -> bool)
    ensures Kept(a + b, keep) == Kept(a, keep) + Kept(b, keep)
  {
    if b == [] {
      assert a + b == a;
    } else {
      var n := |b| - 1;
      KeptConcat(a, b[..n], keep);
      assert (a + b)[..|a| + n] == a + b[..n] && (a + b)[|a| + n] == b[n];
      TouchAssoc(Kept(a, keep), Kept(b[..n], keep), if IsKept(b[n], keep) then [b[n]] else []);
    }
  }

  lemma {:induction false} KeptOne(t: Touch<Key>, keep: Key -> bool)
    ensures Kept([t], keep) == if IsKept(t, keep) then [t] else []
  {
    assert Kept([t][..0], keep) == [];
  }

  ghost function NetworkTouches(addr: IpAddr, lengths: seq<U8>, flow: Flow, now: nat, len: U8): seq<Touch<Key>> {
    Kept(Projected(NetworkSteps(addr, lengths, flow, now), NetworkDimension(addr.V4?)), OfLength(len))
  }

  lemma {:induction false} KeptOfLength(addr: IpAddr, l: U8, flow: Flow, now: nat, len: U8)
    ensures Kept([Touch(Network(MaskAddr(addr, l), l), flow, now)], OfLength(len))
         == if l == len then [Touch(Network(MaskAddr(addr, l), l), flow, now)] else []
  {
    KeptOne(Touch(Network(MaskAddr(addr, l), l), flow, now), OfLength(len));
  }

  lemma {:induction false} OneMoreLength(addr: IpAddr, lengths: seq<U8>, flow: Flow, now: nat, len: U8)
    requires lengths != []
    ensures var n := |lengths| - 1;
            NetworkTouches(addr, lengths, flow, now, len) == NetworkTouches(addr, lengths[..n], flow, now, len) +
              if lengths[n] == len then [Touch(Network(MaskAddr(addr, len), len), flow, now)] else []
  {
    var n := |lengths| - 1;
    var d, before := NetworkDimension(addr.V4?), NetworkSteps(addr, lengths[..n], flow, now);
    ProjectedAppend(before, NetworkStep(addr, lengths[n], flow, now), d);
    KeptConcat(Projected(before, d), [Touch(Network(MaskAddr(addr, lengths[n]), lengths[n]), flow, now)], OfLength(len));
    KeptOfLength(addr, lengths[n], flow, now, len);
  }

  /** A side of a flow reaches the network of a length once per occurrence of that length. */
  lemma {:induction false} NetworksOfLength(addr: IpAddr, lengths: seq<U8>, flow: Flow, now: nat, len: U8)
    ensures NetworkTouches(addr, lengths, flow, now, len)
         == Copies(Touch(Network(MaskAddr(addr, len), len), flow, now), Occurrences(lengths, len))
  {
    if lengths != [] {
      NetworksOfLength(addr, lengths[..|lengths| - 1], flow, now, len);
      OneMoreLength(addr, lengths, flow, now, len);
    }
  }

  ghost predicate Configured(cfg: AggregatorConfig, v4: bool, len: U8) {
    len in cfg.Lengths(v4)
  }

  lemma {:induction false} ParentNetworkOf(addr: IpAddr, flow: Flow, now: nat, len: U8, c: nat)
    ensures Spread([Touch(Address(addr), flow, now)], ParentNetwork(len), c)
         == Copies(Touch(Network(MaskAddr(addr, len), len), flow, now), c)
  {
    SpreadOne(Touch(Address(addr), flow, now), ParentNetwork(len), c);
  }

  lemma {:induction false} NetworkPartKept(cfg: AggregatorConfig, addr: IpAddr, flow: Flow, now: nat, v4: bool, len: U8)
    requires Configured(cfg, v4, len)
    ensures Kept(NetworkPart(cfg, addr, flow, now, NetworkDimension(v4)), OfLength(len))
         == Spread(SideTouch(addr, flow, now, v4), ParentNetwork(len), Occurrences(cfg.Lengths(v4), len))
  {
    if addr.V4? == v4 {
      NetworksOfLength(addr, cfg.Lengths(v4), flow, now, len);
      ParentNetworkOf(addr, flow, now, len, Occurrences(cfg.Lengths(v4), len));
    } else {
      ProjectedNetworks(addr, cfg.Lengths(addr.V4?), flow, now, NetworkDimension(v4));
    }
  }

  lemma {:induction false} NetworkAddress(cfg: AggregatorConfig, addr: IpAddr, flow: Flow, now: nat, v4: bool, len: U8)
    requires Configured(cfg, v4, len)
    ensures Kept(Projected(AddressSteps(cfg, addr, flow, now), NetworkDimension(v4)), OfLength(len))
         == Spread(SideTouch(addr, flow, now, v4), ParentNetwork(len), Occurrences(cfg.Lengths(v4), len))
  {
    OnePart(cfg, addr, flow, now, NetworkDimension(v4));
    NetworkPartKept(cfg, addr, flow, now, v4, len);
  }

  lemma {:induction false} NetworkEvent(cfg: AggregatorConfig, e: Event, v4: bool, len: U8)
    requires Configured(cfg, v4, len)
    ensures Kept(Projected(StepsOf(cfg, e), NetworkDimension(v4)), OfLength(len))
         == Spread(HostTouches(e, v4), ParentNetwork(len), Occurrences(cfg.Lengths(v4), len))
  {
    var d, c := NetworkDimension(v4), Occurrences(cfg.Lengths(v4), len);
    match e
    case Ingest(flow, _, _, now) =>
      BothSides(cfg, e, d);
      KeptConcat(Projected(AddressSteps(cfg, flow.source, flow, now), d),
                 Projected(AddressSteps(cfg, flow.destination, flow, now), d), OfLength(len));
      NetworkAddress(cfg, flow.source, flow, now, v4, len);
      NetworkAddress(cfg, flow.destination, flow, now, v4, len);
      SpreadConcat(SideTouch(flow.source, flow, now, v4), SideTouch(flow.destination, flow, now, v4), ParentNetwork(len), c);
    case Sweep(now) =>
      ProjectedOne(SweepAll(now), d);
      KeptOne(Touch<Key>.Expire(now), OfLength(len));
      SpreadOne(Touch<Key>.Expire(now), ParentNetwork(len), c);
  }

  /** The networks of one length hear what the hosts of their family hear, once per occurrence of the length. */
  lemma {:induction false} NetworksFollow(cfg: AggregatorConfig, events: seq<Event>, v4: bool, len: U8)
    requires Configured(cfg, v4, len)
    ensures Kept(Projected(LogOf(cfg, events), NetworkDimension(v4)), OfLength(len))
         == Spread(HostRun(events, v4), ParentNetwork(len), Occurrences(cfg.Lengths(v4), len))
  {
    if events != [] {
      var n := |events| - 1;
      var d := NetworkDimension(v4);
      NetworksFollow(cfg, events[..n], v4, len);
      NetworkEvent(cfg, events[n], v4, len);
      ProjectedConcat(LogOf(cfg, events[..n]), StepsOf(cfg, events[n]), d);
      KeptConcat(Projected(LogOf(cfg, events[..n]), d), Projected(StepsOf(cfg, events[n]), d), OfLength(len));
      SpreadConcat(HostRun(events[..n], v4), HostTouches(events[n], v4), ParentNetwork(len), Occurrences(cfg.Lengths(v4), len));
    }
  }

  /** The entries of one prefix length. */
  ghost function NetworksOf(nets: seq<Entries<Key>>, len: U8): Entries<Key>
    requires nets != []
  {
    Restricted(LastOf(nets), OfLength(len))
  }

  /** Without losses, each live host's network of a configured length is live, and counts at least
      the sum of its live hosts times the occurrences of the length, exactly so while nothing has expired. */
  lemma {:induction false} NetworksRollUp(cfg: AggregatorConfig, events: seq<Event>, v4: bool, len: U8,
      hosts: seq<Entries<Key>>, nets: seq<Entries<Key>>, f: Field)
    requires InOrder(events) && Configured(cfg, v4, len)
    requires Lossless(cfg, events, HostDimension(v4), hosts) && Lossless(cfg, events, NetworkDimension(v4), nets)
    ensures |hosts| == |HostRun(events, v4)| + 1 && nets != []
    ensures ParentsLive(LastOf(hosts), NetworksOf(nets, len), ParentNetwork(len))
    ensures SumsUp(LastOf(hosts), NetworksOf(nets, len), ParentNetwork(len),
                   Occurrences(cfg.Lengths(v4), len), f, NoneExpired(events, v4, hosts))
  {
    var d := NetworkDimension(v4);
    HostsSeeBothSides(cfg, events, v4);
    NetworksFollow(cfg, events, v4, len);
    DimensionInOrder(cfg, events, HostDimension(v4));
    Occurs(cfg.Lengths(v4), len);
    var part := RestrictedRun(cfg.MapConfig(d), Projected(LogOf(cfg, events), d), nets, OfLength(len));
    RollUpHosts(cfg.MapConfig(HostDimension(v4)), cfg.MapConfig(d), HostRun(events, v4), ParentNetwork(len),
                Occurrences(cfg.Lengths(v4), len), hosts, part, f);
  }

  lemma {:induction false} TimesExact(n: nat, x: nat)
    requires n >= 1
    ensures Sat(Times(n, x)) == Sat(x) <==> n == 1 || x == 0 || x >= U64_MAX
  {
    if x == 0 {
      TimesSum(n, 0, 0);
    } else if n > 1 {
      TimesSum(n - 1, x, 0);
    }
  }

  /** Runs of the hosts and the networks of a family for these events, without a loss or an expiry. */
  ghost predicate Quiet(cfg: AggregatorConfig, events: seq<Event>, v4: bool, hosts: seq<Entries<Key>>, nets: seq<Entries<Key>>) {
    && InOrder(events) && Lossless(cfg, events, HostDimension(v4), hosts) && Lossless(cfg, events, NetworkDimension(v4), nets)
    && |hosts| == |HostRun(events, v4)| + 1 && NoneExpired(events, v4, hosts)
  }

  /** While nothing has expired, a network counts exactly the sum of its live hosts if and only if
      its length is configured once, or that sum is zero or saturated. */
  lemma {:induction false} NetworkSumsExactlyWhen(cfg: AggregatorConfig, events: seq<Event>, v4: bool, len: U8,
      hosts: seq<Entries<Key>>, nets: seq<Entries<Key>>, f: Field, q: Key)
    requires Configured(cfg, v4, len) && Quiet(cfg, events, v4, hosts, nets) && q in NetworksOf(nets, len)
    ensures var sum := GroupSum(LastOf(hosts), ParentNetwork(len), q, f);
            (Get(NetworksOf(nets, len)[q].value, f) == Sat(sum)
             <==> Occurrences(cfg.Lengths(v4), len) == 1 || sum == 0 || sum >= U64_MAX)
  {
    NetworksRollUp(cfg, events, v4, len, hosts, nets, f);
    assert CountsGroup(LastOf(hosts), NetworksOf(nets, len), ParentNetwork(len), Occurrences(cfg.Lengths(v4), len), f, true, q);
    Occurs(cfg.Lengths(v4), len);
    TimesExact(Occurrences(cfg.Lengths(v4), len), GroupSum(LastOf(hosts), ParentNetwork(len), q, f));
  }

  // ---- A length configured twice ----

  ghost predicate AllOf(ts: seq<Touch<Key>>, keys: set<Key>) {
    forall i :: 0 <= i < |ts| ==> ts[i].Touch? && ts[i].key in keys
  }

  /** The entries after some touches, when there is room for all of them. */
  ghost function Filled(ts: seq<Touch<Key>>): Entries<Key>
    requires forall i :: 0 <= i < |ts| ==> ts[i].Touch?
  {
    if ts == [] then map[]
    else
      var m, t := Filled(ts[..|ts| - 1]), ts[|ts| - 1];
      m[t.key := B.Touched(m, OpOf(t))]
  }

  ghost function FilledStates(ts: seq<Touch<Key>>): (states: seq<Entries<Key>>)
    requires forall i :: 0 <= i < |ts| ==> ts[i].Touch?
    ensures |states| == |ts| + 1 && states[|ts|] == Filled(ts)
  {
    if ts == [] then [map[]] else FilledStates(ts[..|ts| - 1]) + [Filled(ts)]
  }

  lemma {:induction false} FilledKeys(ts: seq<Touch<Key>>, keys: set<Key>)
    requires AllOf(ts, keys)
    ensures Filled(ts).Keys <= keys
  {
    if ts != [] { FilledKeys(ts[..|ts| - 1], keys); }
  }

  lemma {:induction false} RoomFor(cfg: B.Config, m: Entries<Key>, key: Key, keys: set<Key>)
    requires m.Keys <= keys && key in keys && |keys| <= cfg.maxEntries
    ensures Room(cfg, m, key)
  {
    B.SubsetSize({key}, keys);
    if key !in m { B.SubsetSize(m.Keys + {key}, keys); }
  }

  /** A map with a place for every key loses nothing. */
  lemma {:induction false} RoomyRun(cfg: B.Config, ts: seq<Touch<Key>>, keys: set<Key>)
    requires AllOf(ts, keys) && |keys| <= cfg.maxEntries
    ensures IsTrafficRun(cfg, ts, FilledStates(ts)) && NoLoss(cfg, OpsOf(ts), FilledStates(ts))
  {
    if ts != [] {
      var n := |ts| - 1;
      RoomyRun(cfg, ts[..n], keys);
      FilledKeys(ts[..n], keys);
      RoomFor(cfg, Filled(ts[..n]), ts[n].key, keys);
      AppendStep(cfg, ts[..n], FilledStates(ts[..n]), ts[n], Filled(ts));
      assert ts == ts[..n] + [ts[n]];
    }
  }

  /** What one flow between two IPv4 hosts asks of the networks. */
  lemma {:induction false} AskedTwice(cfg: AggregatorConfig, e: Event, len: U8)
    requires e.Ingest? && e.flow.source.V4? && e.flow.destination.V4? && cfg.ipv4PrefixLengths == [len, len]
    ensures Projected(LogOf(cfg, [e]), Ipv4Networks) == TheirNetworks(e.flow, e.now, len)
  {
    LogAppend(cfg, [], e);
    assert [] + [e] == [e] && [] + StepsOf(cfg, e) == StepsOf(cfg, e);
    BothSides(cfg, e, Ipv4Networks);
    OnePart(cfg, e.flow.source, e.flow, e.now, Ipv4Networks);
    OnePart(cfg, e.flow.destination, e.flow, e.now, Ipv4Networks);
    TwoNetworkSteps(e.flow.source, len, e.flow, e.now);
    TwoNetworkSteps(e.flow.destination, len, e.flow, e.now);
  }

  lemma {:induction false} TwoNetworkSteps(addr: IpAddr, len: U8, flow: Flow, now: nat)
    requires addr.V4?
    ensures Projected(NetworkSteps(addr, [len, len], flow, now), Ipv4Networks)
         == Copies(Touch(Network(MaskAddr(addr, len), len), flow, now), 2)
  {
    var step := NetworkStep(addr, len, flow, now);
    assert [len, len][..1] == [len] && [len][..0] == [];
    assert NetworkSteps(addr, [len], flow, now) == [] + [step];
    assert NetworkSteps(addr, [len, len], flow, now) == [step] + [step];
    ProjectedOne(step, Ipv4Networks);
    ProjectedAppend([step], step, Ipv4Networks);
    assert Copies(Touch(Network(MaskAddr(addr, len), len), flow, now), 1) == [Touch(Network(MaskAddr(addr, len), len), flow, now)];
  }

  lemma {:induction false} TwiceIn(len: U8)
    ensures Occurrences([len, len], len) == 2
  {
    assert [len, len][..1] == [len] && [len][..0] == [] && Occurrences([len], len) == 1;
  }

  lemma {:induction false} TwoAtMost<A>(x: A, y: A)
    ensures |{x, y}| <= 2
  {
    if x != y { assert {x, y} - {x} == {y}; }
  }

  /** The hosts a flow touches, and their networks. */
  ghost function TwoHosts(flow: Flow, now: nat): seq<Touch<Key>> {
    [Touch(Address(flow.source), flow, now), Touch(Address(flow.destination), flow, now)]
  }

  ghost function TheirNetworks(flow: Flow, now: nat, len: U8): (ts: seq<Touch<Key>>)
    ensures forall i :: 0 <= i < |ts| ==> ts[i].Touch?
  {
    Copies(Touch(Network(MaskAddr(flow.source, len), len), flow, now), 2) +
    Copies(Touch(Network(MaskAddr(flow.destination, len), len), flow, now), 2)
  }

  lemma {:induction false} HostsTouched(flow: Flow, now: nat)
    requires flow.source.V4? && flow.destination.V4?
    ensures HostRun([Event.Ingest(flow, None, None, now)], true) == TwoHosts(flow, now)
  {
    var e := Event.Ingest(flow, None, None, now);
    assert [e][..0] == [] && HostRun([e], true) == [] + HostTouches(e, true);
  }

  lemma {:induction false} RoomyDimension(cfg: AggregatorConfig, events: seq<Event>, d: Dimension, ts: seq<Touch<Key>>, keys: set<Key>)
    requires Projected(LogOf(cfg, events), d) == ts && AllOf(ts, keys) && |keys| <= cfg.MapConfig(d).maxEntries
    ensures Lossless(cfg, events, d, FilledStates(ts))
  {
    RoomyRun(cfg.MapConfig(d), ts, keys);
  }

  lemma {:induction false} HostsLossless(cfg: AggregatorConfig, flow: Flow, now: nat)
    requires cfg.maxHosts >= 2 && flow.source.V4? && flow.destination.V4?
    ensures Lossless(cfg, [Event.Ingest(flow, None, None, now)], Ipv4Hosts, FilledStates(TwoHosts(flow, now)))
  {
    HostsTouched(flow, now);
    HostsSeeBothSides(cfg, [Event.Ingest(flow, None, None, now)], true);
    TwoAtMost(Address(flow.source), Address(flow.destination));
    RoomyDimension(cfg, [Event.Ingest(flow, None, None, now)], Ipv4Hosts, TwoHosts(flow, now),
                   {Address(flow.source), Address(flow.destination)});
  }

  lemma {:induction false} NetworksLossless(cfg: AggregatorConfig, flow: Flow, now: nat, len: U8)
    requires cfg.ipv4PrefixLengths == [len, len] && cfg.maxNetworks >= 2 && flow.source.V4? && flow.destination.V4?
    ensures Lossless(cfg, [Event.Ingest(flow, None, None, now)], Ipv4Networks, FilledStates(TheirNetworks(flow, now, len)))
  {
    var a, b := Network(MaskAddr(flow.source, len), len), Network(MaskAddr(flow.destination, len), len);
    AskedTwice(cfg, Event.Ingest(flow, None, None, now), len);
    TheirNetworksAre(flow, now, len);
    TwoAtMost(a, b);
    RoomyDimension(cfg, [Event.Ingest(flow, None, None, now)], Ipv4Networks, TheirNetworks(flow, now, len), {a, b});
  }

  lemma {:induction false} TheirNetworksAre(flow: Flow, now: nat, len: U8)
    ensures AllOf(TheirNetworks(flow, now, len),
                  {Network(MaskAddr(flow.source, len), len), Network(MaskAddr(flow.destination, len), len)})
  {
  }

  /** The counters of the source when the second host is touched, if it is the same. */
  lemma {:induction false} FilledTwo(flow: Flow, now: nat)
    ensures var one := map[Address(flow.source) := B.Slot(Add(Default(), flow), now)];
            Filled(TwoHosts(flow, now)) == one[Address(flow.destination) :=
              B.Slot(Add(if flow.destination == flow.source then Add(Default(), flow) else Default(), flow), now)]
  {
    var ts := TwoHosts(flow, now);
    assert ts[..1] == [ts[0]] && [ts[0]][..0] == [];
    assert Filled([ts[0]][..0]) == map[];
    assert Filled(ts[..1]) == map[Address(flow.source) := B.Slot(Add(Default(), flow), now)];
  }

  lemma {:induction false} SourceCounts(flow: Flow, now: nat, f: Field)
    ensures var m, source := Filled(TwoHosts(flow, now)), Address(flow.source);
            source in m && Sat(Amount(f, flow)) <= Get(m[source].value, f)
  {
    FilledTwo(flow, now);
    AddCounts(Default(), flow, f);
    AddCounts(Add(Default(), flow), flow, f);
    assert Get(Default(), f) == 0;
  }

  lemma {:induction false} SourceAlone(flow: Flow, now: nat, parent: Key -> Key, f: Field)
    requires parent(Address(flow.source)) != parent(Address(flow.destination))
    ensures GroupSum(Filled(TwoHosts(flow, now)), parent, parent(Address(flow.source)), f) == Sat(Amount(f, flow))
  {
    var source, m := Address(flow.source), Filled(TwoHosts(flow, now));
    FilledTwo(flow, now);
    assert m.Keys == {source, Address(flow.destination)};
    assert Group(m, parent, parent(source)) == {} + {source};
    SumOverWithout(m, f, {}, source);
    AddCounts(Default(), flow, f);
    assert Get(Default(), f) == 0;
  }

  lemma {:induction false} NoSweepYet(events: seq<Event>, ts: seq<Touch<Key>>, hosts: seq<Entries<Key>>)
    requires HostRun(events, true) == ts && |hosts| == |ts| + 1 && forall i :: 0 <= i < |ts| ==> ts[i].Touch?
    ensures NoneExpired(events, true, hosts)
  {
  }

  lemma {:induction false} TwoHostsQuiet(cfg: AggregatorConfig, flow: Flow, now: nat, len: U8)
    requires cfg.ipv4PrefixLengths == [len, len] && cfg.maxHosts >= 2 && cfg.maxNetworks >= 2
    requires flow.source.V4? && flow.destination.V4?
    ensures Quiet(cfg, [Event.Ingest(flow, None, None, now)], true, FilledStates(TwoHosts(flow, now)),
                  FilledStates(TheirNetworks(flow, now, len)))
  {
    HostsTouched(flow, now);
    NoSweepYet([Event.Ingest(flow, None, None, now)], TwoHosts(flow, now), FilledStates(TwoHosts(flow, now)));
    HostsLossless(cfg, flow, now);
    NetworksLossless(cfg, flow, now, len);
  }

  /** A length configured twice and a flow between any two IPv4 hosts: nothing is lost, nothing
      expires, and the network of its source counts its hosts twice; the source is the only one of
      them when the flow leaves the network. */
  lemma {:induction false} CountedTwice(cfg: AggregatorConfig, flow: Flow, now: nat, len: U8, f: Field)
    returns (hosts: seq<Entries<Key>>, nets: seq<Entries<Key>>)
    requires cfg.ipv4PrefixLengths == [len, len] && cfg.maxHosts >= 2 && cfg.maxNetworks >= 2
    requires flow.source.V4? && flow.destination.V4?
    ensures Quiet(cfg, [Event.Ingest(flow, None, None, now)], true, hosts, nets) && Occurrences(cfg.Lengths(true), len) == 2
    ensures hosts != [] && nets != []
    ensures var q := Network(MaskAddr(flow.source, len), len);
            && q in NetworksOf(nets, len)
            && Sat(Amount(f, flow)) <= GroupSum(LastOf(hosts), ParentNetwork(len), q, f)
            && (MaskAddr(flow.destination, len) != MaskAddr(flow.source, len) ==>
                  GroupSum(LastOf(hosts), ParentNetwork(len), q, f) == Sat(Amount(f, flow)))
            && Get(NetworksOf(nets, len)[q].value, f) == Sat(2 * GroupSum(LastOf(hosts), ParentNetwork(len), q, f))
  {
    hosts, nets := FilledStates(TwoHosts(flow, now)), FilledStates(TheirNetworks(flow, now, len));
    TwoHostsQuiet(cfg, flow, now, len);
    TwiceIn(len);
    SourceCounts(flow, now, f);
    if MaskAddr(flow.destination, len) != MaskAddr(flow.source, len) { SourceAlone(flow, now, ParentNetwork(len), f); }
    ChildWithinGroup(LastOf(hosts), ParentNetwork(len), Address(flow.source), f);
    TwiceItsHosts(cfg, flow, now, len, hosts, nets, f);
  }

  lemma {:induction false} TwiceItsHosts(cfg: AggregatorConfig, flow: Flow, now: nat, len: U8, hosts: seq<Entries<Key>>,
      nets: seq<Entries<Key>>, f: Field)
    requires Quiet(cfg, [Event.Ingest(flow, None, None, now)], true, hosts, nets) && Configured(cfg, true, len)
    requires Occurrences(cfg.Lengths(true), len) == 2 && Address(flow.source) in LastOf(hosts) && nets != []
    ensures var q := Network(MaskAddr(flow.source, len), len);
            && q in NetworksOf(nets, len)
            && Get(NetworksOf(nets, len)[q].value, f) == Sat(2 * GroupSum(LastOf(hosts), ParentNetwork(len), q, f))
  {
    var q := Network(MaskAddr(flow.source, len), len);
    NetworksRollUp(cfg, [Event.Ingest(flow, None, None, now)], true, len, hosts, nets, f);
    assert ParentLive(LastOf(hosts), NetworksOf(nets, len), ParentNetwork(len), Address(flow.source));
    assert CountsGroup(LastOf(hosts), NetworksOf(nets, len), ParentNetwork(len), 2, f, true, q);
    TimesIsProduct(2, GroupSum(LastOf(hosts), ParentNetwork(len), q, f));
  }
}
