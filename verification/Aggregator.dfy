/** The traffic aggregator: totals, rate windows and eleven bounded
    dimensions fed by every flow. */
module Aggregator {
  import opened Wrappers
  import opened Bits
  import opened Net
  import opened Counters
  import B = BoundedMap
  import opened Recency
  import opened Sums
  import opened TrafficRuns
  import RateWindow

  datatype Dimension =
    | Ipv4Hosts | Ipv6Hosts | Ipv4Slash24 | Ipv4Networks | Ipv6Networks
    | Hostgroups | Asns | Exporters | InputInterfaces | OutputInterfaces | Protocols

  /** The key of an entry; each dimension uses one kind. */
  datatype Key =
    | Address(addr: IpAddr) | Network(addr: IpAddr, len: U8) | Name(name: string) | Number(number: U32) | Proto(protocol: Protocol)

  datatype AggregatorConfig = AggregatorConfig(
    maxHosts: nat, maxNetworks: nat, maxHostgroups: nat, maxAsns: nat, maxExporters: nat, maxInterfaces: nat, maxProtocols: nat,
    inactivityTtl: nat, ipv4PrefixLengths: seq<U8>, ipv6PrefixLengths: seq<U8>)
  {
    function Lengths(v4: bool): seq<U8> {
      if v4 then ipv4PrefixLengths else ipv6PrefixLengths
    }

    function MapConfig(d: Dimension): B.Config {
      var max := match d
        case Ipv4Hosts => maxHosts
        case Ipv6Hosts => maxHosts
        case Ipv4Slash24 => maxNetworks
        case Ipv4Networks => maxNetworks
        case Ipv6Networks => maxNetworks
        case Hostgroups => maxHostgroups
        case Asns => maxAsns
        case Exporters => maxExporters
        case InputInterfaces => maxInterfaces
        case OutputInterfaces => maxInterfaces
        case Protocols => maxProtocols;
      B.Config(max, inactivityTtl)
    }
  }

  /** The length a mask works at: the subtraction of a length past the width wraps around, and the
      shift by the result is refused like one by the whole width. */
  function MaskLength(len: U8, width: nat): nat {
    if len <= width then len else 0
  }

  lemma {:induction false} MaskWraps(addr: nat, len: U8, width: nat)
    requires addr < Pow2(width) && 32 <= width <= 128 && len > 0
    ensures And(addr, OnesShifted((width - len) % 0x1_0000_0000, width)) == Mask(addr, MaskLength(len, width), width) <= addr
  {
    MaskQuotient(addr, MaskLength(len, width), width);
    if len > width {
      assert (width - len) % 0x1_0000_0000 == 0x1_0000_0000 + width - len;
    }
  }

  function MaskV4(addr: U32, len: U8): (r: U32)
    ensures r == Mask(addr, MaskLength(len, 32), 32)
  {
    Pow2Of32();
    if len == 0 then AndZero(addr); 0 else MaskWraps(addr, len, 32); And(addr, OnesShifted((32 - len) % 0x1_0000_0000, 32))
  }

  function MaskV6(addr: U128, len: U8): (r: U128)
    ensures r == Mask(addr, MaskLength(len, 128), 128)
  {
    Pow2Of128();
    if len == 0 then AndZero(addr); 0 else MaskWraps(addr, len, 128); And(addr, OnesShifted((128 - len) % 0x1_0000_0000, 128))
  }

  function MaskAddr(addr: IpAddr, len: U8): IpAddr {
    match addr
    case V4(a) => V4(MaskV4(a, len))
    case V6(a) => V6(MaskV6(a, len))
  }

  // ---- The order in which one flow reaches the dimensions ----

  datatype Step = Track(dim: Dimension, key: Key, flow: Flow, now: nat) | SweepAll(now: nat)

  function NetworkSteps(addr: IpAddr, lengths: seq<U8>, flow: Flow, now: nat): seq<Step>
  {
    if lengths == [] then []
    else
      var n := |lengths| - 1;
      NetworkSteps(addr, lengths[..n], flow, now) + [NetworkStep(addr, lengths[n], flow, now)]
  }

  function NetworkStep(addr: IpAddr, len: U8, flow: Flow, now: nat): Step {
    Track(if addr.V4? then Ipv4Networks else Ipv6Networks, Network(MaskAddr(addr, len), len), flow, now)
  }

  function AddressSteps(cfg: AggregatorConfig, addr: IpAddr, flow: Flow, now: nat): seq<Step>
  {
    [Track(if addr.V4? then Ipv4Hosts else Ipv6Hosts, Address(addr), flow, now)] +
    (if addr.V4? then [Track(Ipv4Slash24, Address(MaskAddr(addr, 24)), flow, now)] else []) +
    NetworkSteps(addr, cfg.Lengths(addr.V4?), flow, now)
  }

  function OptionalStep(dim: Dimension, key: Option<Key>, flow: Flow, now: nat): seq<Step> {
    if key.Some? then [Track(dim, key.value, flow, now)] else []
  }

  function NumberKey(n: Option<U32>): Option<Key> {
    if n.Some? then Some(Number(n.value)) else None
  }

  function NameKey(name: Option<string>): Option<Key> {
    if name.Some? then Some(Name(name.value)) else None
  }

  function ProtocolKey(p: Option<Protocol>): Option<Key> {
    if p.Some? then Some(Proto(p.value)) else None
  }

  function IngestSteps(cfg: AggregatorConfig, flow: Flow, sourceGroup: Option<string>, destinationGroup: Option<string>,
      now: nat): seq<Step>
  {
    FirstSteps(cfg, flow, now) + LastSteps(cfg, flow, sourceGroup, destinationGroup, now)
  }

  function FirstSteps(cfg: AggregatorConfig, flow: Flow, now: nat): seq<Step>
  {
    [Track(Exporters, Address(flow.exporter), flow, now)] +
    OptionalStep(InputInterfaces, NumberKey(flow.inputInterface), flow, now) +
    OptionalStep(OutputInterfaces, NumberKey(flow.outputInterface), flow, now) +
    OptionalStep(Protocols, ProtocolKey(flow.protocol), flow, now) +
    AddressSteps(cfg, flow.source, flow, now)
  }

  function LastSteps(cfg: AggregatorConfig, flow: Flow, sourceGroup: Option<string>, destinationGroup: Option<string>,
      now: nat): seq<Step>
  {
    AddressSteps(cfg, flow.destination, flow, now) +
    OptionalStep(Asns, NumberKey(flow.sourceAsn), flow, now) +
    OptionalStep(Asns, NumberKey(flow.destinationAsn), flow, now) +
    OptionalStep(Hostgroups, NameKey(sourceGroup), flow, now) +
    OptionalStep(Hostgroups, NameKey(destinationGroup), flow, now)
  }

  /** What one dimension sees of a step, and of a log of steps. */
  function Seen(step: Step, d: Dimension): seq<Touch<Key>> {
    match step
    case Track(dim, key, flow, now) => if dim == d then [Touch(key, flow, now)] else []
    case SweepAll(now) => [Expire(now)]
  }

  ghost function Projected(log: seq<Step>, d: Dimension): seq<Touch<Key>> {
    if log == [] then [] else Projected(log[..|log| - 1], d) + Seen(log[|log| - 1], d)
  }

  lemma {:induction false} Assoc(a: seq<Step>, b: seq<Step>, c: seq<Step>)
    ensures a + b + c == a + (b + c)
  {
  }

  lemma {:induction false} ChainFive(l: seq<Step>, a: seq<Step>, b: seq<Step>, c: seq<Step>, d: seq<Step>, e: seq<Step>)
    ensures l + a + b + c + d + e == l + (a + b + c + d + e)
  {
    Assoc(l, a, b);
    Assoc(l, a + b, c);
    Assoc(l, a + b + c, d);
    Assoc(l, a + b + c + d, e);
  }

  // ---- Whole runs ----

  datatype Event = Ingest(flow: Flow, sourceGroup: Option<string>, destinationGroup: Option<string>, now: nat) | Sweep(now: nat)

  function StepsOf(cfg: AggregatorConfig, e: Event): seq<Step>
  {
    match e
    case Ingest(flow, sourceGroup, destinationGroup, now) => IngestSteps(cfg, flow, sourceGroup, destinationGroup, now)
    case Sweep(now) => [SweepAll(now)]
  }

  ghost function LogOf(cfg: AggregatorConfig, events: seq<Event>): seq<Step>
  {
    if events == [] then [] else LogOf(cfg, events[..|events| - 1]) + StepsOf(cfg, events[|events| - 1])
  }

  /** The flows counted by each of the three totals: a flow belongs to its source's family. */
  datatype Share = All | Ipv4Share | Ipv6Share {
    predicate Takes(flow: Flow) {
      this == All || (this == Ipv4Share <==> flow.source.V4?)
    }
  }

  ghost function FlowsIn(events: seq<Event>, share: Share): seq<Flow> {
    if events == [] then []
    else
      var e := events[|events| - 1];
      FlowsIn(events[..|events| - 1], share) + if e.Ingest? && share.Takes(e.flow) then [e.flow] else []
  }

  /** What the rate windows see of a run. */
  function RateEvent(e: Event): RateWindow.Event {
    match e
    case Ingest(flow, _, _, now) => RateWindow.Arrival(now, flow.bytes, flow.packets)
    case Sweep(now) => RateWindow.Tick(now)
  }

  ghost function RateEvents(events: seq<Event>): seq<RateWindow.Event> {
    if events == [] then [] else RateEvents(events[..|events| - 1]) + [RateEvent(events[|events| - 1])]
  }

  lemma {:induction false} LogAppend(cfg: AggregatorConfig, events: seq<Event>, e: Event)
    ensures LogOf(cfg, events + [e]) == LogOf(cfg, events) + StepsOf(cfg, e)
  {
    assert (events + [e])[..|events|] == events;
  }

  ghost predicate IsConcat(log: seq<Step>, steps: seq<Step>, after: seq<Step>) {
    after == log + steps
  }

  /** `after` is the log with the steps of one more event. */
  ghost predicate Extends(cfg: AggregatorConfig, log: seq<Step>, e: Event, after: seq<Step>) {
    forall steps: seq<Step> :: steps == StepsOf(cfg, e) ==> IsConcat(log, steps, after)
  }

  lemma {:induction false} InTwoParts(cfg: AggregatorConfig, log: seq<Step>, e: Event, after: seq<Step>)
    requires e.Ingest? && Extends(cfg, log, e, after)
    ensures log + FirstSteps(cfg, e.flow, e.now) + LastSteps(cfg, e.flow, e.sourceGroup, e.destinationGroup, e.now) == after
  {
    assert IsConcat(log, StepsOf(cfg, e), after);
    Assoc(log, FirstSteps(cfg, e.flow, e.now), LastSteps(cfg, e.flow, e.sourceGroup, e.destinationGroup, e.now));
  }

  lemma {:induction false} NextNetwork(log: seq<Step>, addr: IpAddr, lengths: seq<U8>, i: nat, flow: Flow, now: nat)
    requires i < |lengths|
    ensures log + NetworkSteps(addr, lengths[..i + 1], flow, now)
         == log + NetworkSteps(addr, lengths[..i], flow, now) + [NetworkStep(addr, lengths[i], flow, now)]
  {
    assert lengths[..i + 1][..i] == lengths[..i];
    Assoc(log, NetworkSteps(addr, lengths[..i], flow, now), [NetworkStep(addr, lengths[i], flow, now)]);
  }

  lemma {:induction false} LogExtends(cfg: AggregatorConfig, events: seq<Event>, e: Event)
    ensures Extends(cfg, LogOf(cfg, events), e, LogOf(cfg, events + [e]))
  {
    LogAppend(cfg, events, e);
  }

  lemma {:induction false} RatesAppend(events: seq<Event>, e: Event)
    ensures RateEvents(events + [e]) == RateEvents(events) + [RateEvent(e)]
  {
    assert (events + [e])[..|events|] == events;
  }

  /** A total over a run, and its value one event later. */
  ghost function TotalOf(events: seq<Event>, share: Share): TrafficCounters {
    AddAll(FlowsIn(events, share))
  }

  lemma {:induction false} TotalAppend(events: seq<Event>, e: Event, share: Share)
    ensures TotalOf(events + [e], share) ==
            if e.Ingest? && share.Takes(e.flow) then Add(TotalOf(events, share), e.flow) else TotalOf(events, share)
  {
    assert (events + [e])[..|events|] == events;
    var flows := FlowsIn(events, share);
    if e.Ingest? && share.Takes(e.flow) {
      assert (flows + [e.flow])[..|flows|] == flows;
    } else {
      assert flows + [] == flows;
    }
  }

  datatype IngestReport = IngestReport(evictions: nat, rejections: nat) {
    function Plus(o: IngestReport): IngestReport {
      IngestReport(evictions + o.evictions, rejections + o.rejections)
    }

    function After(outcome: B.UpsertOutcome): IngestReport {
      match outcome
      case InsertedByEviction => IngestReport(evictions + 1, rejections)
      case Rejected => IngestReport(evictions, rejections + 1)
      case _ => this
    }
  }

  function NoReport(): IngestReport {
    IngestReport(0, 0)
  }

  /** The evictions and rejections of one map's run. */
  ghost function TallyOf(cfg: B.Config, ops: seq<B.Op<Key, TrafficCounters>>, states: seq<Entries<Key>>): IngestReport
    requires |states| == |ops| + 1
  {
    if ops == [] then NoReport()
    else
      var n := |ops| - 1;
      var before := TallyOf(cfg, ops[..n], states[..n + 1]);
      if ops[n].Upsert? then before.After(B.OutcomeOf(cfg, states[n], ops[n].key)) else before
  }

  lemma {:induction false} TallyAppend(cfg: B.Config, ops: seq<B.Op<Key, TrafficCounters>>, states: seq<Entries<Key>>,
      op: B.Op<Key, TrafficCounters>, m': Entries<Key>)
    requires |states| == |ops| + 1
    ensures TallyOf(cfg, ops + [op], states + [m']) ==
            var before := TallyOf(cfg, ops, states);
            if op.Upsert? then before.After(B.OutcomeOf(cfg, states[|ops|], op.key)) else before
  {
    assert (ops + [op])[..|ops|] == ops && (states + [m'])[..|ops| + 1] == states;
  }

  /** Nothing was lost exactly when no operation was rejected or evicted an entry. */
  lemma {:induction false} TallyIsNoLoss(cfg: B.Config, ops: seq<B.Op<Key, TrafficCounters>>, states: seq<Entries<Key>>)
    requires |states| == |ops| + 1
    ensures TallyOf(cfg, ops, states) == NoReport() <==> NoLoss(cfg, ops, states)
    decreases |ops|
  {
    if ops != [] {
      var n := |ops| - 1;
      TallyIsNoLoss(cfg, ops[..n], states[..n + 1]);
      NoLossAppend(cfg, ops[..n], states[..n + 1], ops[n], states[n + 1]);
      assert ops == ops[..n] + [ops[n]] && states == states[..n + 1] + [states[n + 1]];
    }
  }

  /** Upsert i pushed an entry out, or left its own key out. */
  ghost predicate Evicts(ops: seq<B.Op<Key, TrafficCounters>>, states: seq<Entries<Key>>, i: nat)
    requires i < |ops| && |states| == |ops| + 1
  {
    ops[i].Upsert? && exists k :: k in states[i] && k !in states[i + 1]
  }

  ghost predicate Rejects(ops: seq<B.Op<Key, TrafficCounters>>, states: seq<Entries<Key>>, i: nat)
    requires i < |ops| && |states| == |ops| + 1
  {
    ops[i].Upsert? && ops[i].key !in states[i + 1]
  }

  ghost function Evictions(ops: seq<B.Op<Key, TrafficCounters>>, states: seq<Entries<Key>>, n: nat): nat
    requires n <= |ops| && |states| == |ops| + 1
  {
    if n == 0 then 0 else Evictions(ops, states, n - 1) + if Evicts(ops, states, n - 1) then 1 else 0
  }

  ghost function Rejections(ops: seq<B.Op<Key, TrafficCounters>>, states: seq<Entries<Key>>, n: nat): nat
    requires n <= |ops| && |states| == |ops| + 1
  {
    if n == 0 then 0 else Rejections(ops, states, n - 1) + if Rejects(ops, states, n - 1) then 1 else 0
  }

  lemma {:induction false} LossesPrefix(ops: seq<B.Op<Key, TrafficCounters>>, states: seq<Entries<Key>>, m: nat, n: nat)
    requires n <= m <= |ops| && |states| == |ops| + 1
    ensures Evictions(ops[..m], states[..m + 1], n) == Evictions(ops, states, n)
    ensures Rejections(ops[..m], states[..m + 1], n) == Rejections(ops, states, n)
  {
    if n > 0 { LossesPrefix(ops, states, m, n - 1); }
  }

  lemma {:induction false} PrefixRun(cfg: B.Config, ops: seq<B.Op<Key, TrafficCounters>>, states: seq<Entries<Key>>, n: nat)
    requires B.IsRun(cfg, ops, states) && n <= |ops|
    ensures B.IsRun(cfg, ops[..n], states[..n + 1])
  {
    var before, run := ops[..n], states[..n + 1];
    forall i | 0 <= i < n ensures B.StepAt(cfg, before, run, i) {
      assert B.StepAt(cfg, ops, states, i);
    }
  }

  /** In a run, the tally counts the upserts that pushed an entry out and those that left their own
      key out; only a map without capacity rejects, and only one with capacity evicts. */
  lemma {:induction false} TallyCounts(cfg: B.Config, ops: seq<B.Op<Key, TrafficCounters>>, states: seq<Entries<Key>>)
    requires B.IsRun(cfg, ops, states)
    ensures TallyOf(cfg, ops, states) == IngestReport(Evictions(ops, states, |ops|), Rejections(ops, states, |ops|))
    ensures cfg.maxEntries > 0 ==> TallyOf(cfg, ops, states).rejections == 0
    ensures cfg.maxEntries == 0 ==> TallyOf(cfg, ops, states).evictions == 0
    decreases |ops|
  {
    if ops != [] {
      var n := |ops| - 1;
      PrefixRun(cfg, ops, states, n);
      TallyCounts(cfg, ops[..n], states[..n + 1]);
      LossesPrefix(ops, states, n, n);
      LastLoss(cfg, ops, states);
    }
  }

  lemma {:induction false} LastLoss(cfg: B.Config, ops: seq<B.Op<Key, TrafficCounters>>, states: seq<Entries<Key>>)
    requires B.IsRun(cfg, ops, states) && ops != []
    ensures var n := |ops| - 1;
            ops[n].Upsert? ==>
              && (B.OutcomeOf(cfg, states[n], ops[n].key) == B.InsertedByEviction <==> Evicts(ops, states, n))
              && (B.OutcomeOf(cfg, states[n], ops[n].key) == B.Rejected <==> Rejects(ops, states, n))
  {
    var n := |ops| - 1;
    assert B.StepAt(cfg, ops, states, n);
    CapacityKept(cfg, ops, states, n);
    if ops[n].Upsert? { OutcomeMeaning(cfg, states[n], ops[n], states[n + 1]); }
  }

  ghost function AllLost(tallies: seq<IngestReport>): IngestReport {
    if tallies == [] then NoReport() else AllLost(tallies[..|tallies| - 1]).Plus(tallies[|tallies| - 1])
  }

  ghost predicate IsSum(tallies: seq<IngestReport>, all: IngestReport) {
    all == AllLost(tallies)
  }

  /** The report over all dimensions adds up their evictions and their rejections. */
  lemma {:induction false} LostAddsUp(tallies: seq<IngestReport>)
    ensures AllLost(tallies).evictions == SumSeq((t: IngestReport) => t.evictions, tallies)
    ensures AllLost(tallies).rejections == SumSeq((t: IngestReport) => t.rejections, tallies)
  {
    if tallies != [] { LostAddsUp(tallies[..|tallies| - 1]); }
  }

  lemma {:induction false} LostUpdate(tallies: seq<IngestReport>, k: nat, t: IngestReport)
    requires k < |tallies|
    ensures AllLost(tallies[k := t]).Plus(tallies[k]) == AllLost(tallies).Plus(t)
  {
    var n := |tallies| - 1;
    if k < n {
      LostUpdate(tallies[..n], k, t);
      assert tallies[k := t][..n] == tallies[..n][k := t];
    } else {
      assert tallies[k := t][..n] == tallies[..n];
    }
  }

  ghost predicate NoneLost(tallies: seq<IngestReport>) {
    forall i :: 0 <= i < |tallies| ==> tallies[i] == NoReport()
  }

  lemma {:induction false} LostNothing(tallies: seq<IngestReport>)
    ensures AllLost(tallies) == NoReport() <==> NoneLost(tallies)
  {
    if tallies != [] {
      var n := |tallies| - 1;
      LostNothing(tallies[..n]);
      NoneLostLast(tallies, n);
    }
  }

  lemma {:induction false} NoneLostLast(tallies: seq<IngestReport>, n: nat)
    requires n + 1 == |tallies|
    ensures NoneLost(tallies) <==> NoneLost(tallies[..n]) && tallies[n] == NoReport()
  {
    if NoneLost(tallies[..n]) && tallies[n] == NoReport() {
      forall i | 0 <= i < |tallies| ensures tallies[i] == NoReport() {
        if i < n { assert tallies[..n][i] == NoReport(); }
      }
    }
  }

  ghost function NoTallies(n: nat): (r: seq<IngestReport>)
    ensures |r| == n && NoneLost(r)
  {
    if n == 0 then [] else NoTallies(n - 1) + [NoReport()]
  }

  lemma {:induction false} ProjectedAppend(log: seq<Step>, step: Step, d: Dimension)
    ensures Projected(log + [step], d) == Projected(log, d) + Seen(step, d)
  {
    assert (log + [step])[..|log|] == log;
  }

  lemma {:induction false} OpsOfAppend(ts: seq<Touch<Key>>, t: Touch<Key>)
    ensures OpsOf(ts + [t]) == OpsOf(ts) + [OpOf(t)]
  {
    assert (ts + [t])[..|ts|] == ts;
  }

  lemma {:induction false} NoLossAppend(cfg: B.Config, ops: seq<B.Op<Key, TrafficCounters>>, states: seq<Entries<Key>>,
      op: B.Op<Key, TrafficCounters>, m': Entries<Key>)
    requires |states| == |ops| + 1
    ensures NoLoss(cfg, ops + [op], states + [m'])
       <==> NoLoss(cfg, ops, states) && (op.Upsert? ==> Room(cfg, states[|ops|], op.key))
  {
    var all, run := ops + [op], states + [m'];
    assert forall i :: 0 <= i < |ops| ==> all[i] == ops[i] && run[i] == states[i];
    assert all[|ops|] == op && run[|ops|] == states[|ops|];
  }

  // Several predicates below hold a definition of "every t equal to this value". That is the
  // definition of the value itself; said so, the verifier unfolds it only where a proof names
  // it, and methods of many steps carry it along folded.

  /** The map is a run of exactly these operations, with these losses. */
  ghost predicate Ran(m: B.BoundedMap<Key, TrafficCounters>, cfg: B.Config, ts: seq<Touch<Key>>, tally: IngestReport)
    reads m
  {
    forall t: IngestReport :: t == tally ==> Runs(m, cfg, ts, t)
  }

  ghost predicate Runs(m: B.BoundedMap<Key, TrafficCounters>, cfg: B.Config, ts: seq<Touch<Key>>, tally: IngestReport)
    reads m
  {
    m.Valid() && m.cfg == cfg && m.ops == OpsOf(ts) && tally == TallyOf(cfg, m.ops, m.states)
  }

  method UpsertTraffic(m: B.BoundedMap<Key, TrafficCounters>, key: Key, flow: Flow, now: nat,
      ghost cfg: B.Config, ghost ts: seq<Touch<Key>>, ghost tally: IngestReport)
    returns (outcome: B.UpsertOutcome)
    requires Ran(m, cfg, ts, tally)
    modifies m
    ensures Ran(m, cfg, ts + [Touch(key, flow, now)], tally.After(outcome)) && outcome == B.OutcomeOf(cfg, old(m.entries), key)
  {
    assert Runs(m, cfg, ts, tally);
    ghost var ops, states := m.ops, m.states;
    outcome := m.Upsert(key, now, Default(), Adder(flow));
    OpsOfAppend(ts, Touch(key, flow, now));
    TallyAppend(m.cfg, ops, states, OpOf(Touch(key, flow, now)), m.entries);
  }

  method SweepTraffic(m: B.BoundedMap<Key, TrafficCounters>, now: nat,
      ghost cfg: B.Config, ghost ts: seq<Touch<Key>>, ghost tally: IngestReport)
    returns (removed: nat)
    requires Ran(m, cfg, ts, tally)
    modifies m
    ensures Ran(m, cfg, ts + [Touch<Key>.Expire(now)], tally)
    ensures removed == |old(m.entries)| - |m.entries|
  {
    assert Runs(m, cfg, ts, tally);
    ghost var ops, states := m.ops, m.states;
    removed := m.ExpireInactive(now);
    OpsOfAppend(ts, Touch<Key>.Expire(now));
    TallyAppend(m.cfg, ops, states, OpOf(Touch<Key>.Expire(now)), m.entries);
  }

  const DIMENSIONS: nat := 11

  function At(i: nat): (d: Dimension)
    requires i < DIMENSIONS
    ensures Index(d) == i
  {
    if i == 0 then Ipv4Hosts
    else if i == 1 then Ipv6Hosts
    else if i == 2 then Ipv4Slash24
    else if i == 3 then Ipv4Networks
    else if i == 4 then Ipv6Networks
    else if i == 5 then Hostgroups
    else if i == 6 then Asns
    else if i == 7 then Exporters
    else if i == 8 then InputInterfaces
    else if i == 9 then OutputInterfaces
    else Protocols
  }

  function Index(d: Dimension): (i: nat)
    ensures i < DIMENSIONS
  {
    match d
    case Ipv4Hosts => 0
    case Ipv6Hosts => 1
    case Ipv4Slash24 => 2
    case Ipv4Networks => 3
    case Ipv6Networks => 4
    case Hostgroups => 5
    case Asns => 6
    case Exporters => 7
    case InputInterfaces => 8
    case OutputInterfaces => 9
    case Protocols => 10
  }

  lemma {:induction false} AtIndex(d: Dimension)
    ensures At(Index(d)) == d
  {
  }

  method NewMaps(cfg: AggregatorConfig) returns (maps: seq<B.BoundedMap<Key, TrafficCounters>>)
    ensures |maps| == DIMENSIONS && forall i, j :: 0 <= i < j < DIMENSIONS ==> maps[i] != maps[j]
    ensures forall i :: 0 <= i < DIMENSIONS ==> fresh(maps[i]) && Ran(maps[i], cfg.MapConfig(At(i)), [], NoReport())
  {
    maps := [];
    for i := 0 to DIMENSIONS
      invariant |maps| == i && forall j, k :: 0 <= j < k < i ==> maps[j] != maps[k]
      invariant forall j :: 0 <= j < i ==> fresh(maps[j]) && Ran(maps[j], cfg.MapConfig(At(j)), [], NoReport())
    {
      var m := new B.BoundedMap(cfg.MapConfig(At(i)));
      maps := maps + [m];
    }
  }

  lemma {:induction false} RanUnseen(m: B.BoundedMap<Key, TrafficCounters>, cfg: B.Config, log: seq<Step>, step: Step,
      d: Dimension, tally: IngestReport)
    requires Ran(m, cfg, Projected(log, d), tally) && Seen(step, d) == []
    ensures Ran(m, cfg, Projected(log + [step], d), tally)
  {
    ProjectedAppend(log, step, d);
    assert Projected(log, d) + [] == Projected(log, d);
  }

  /** The entries held in some maps together. */
  function EntryCount(maps: seq<B.BoundedMap<Key, TrafficCounters>>): nat
    reads maps
  {
    if maps == [] then 0 else EntryCount(maps[..|maps| - 1]) + |maps[|maps| - 1].entries|
  }

  ghost function SumNat(sizes: seq<nat>): nat {
    if sizes == [] then 0 else SumNat(sizes[..|sizes| - 1]) + sizes[|sizes| - 1]
  }

  lemma {:induction false} CountIsSum(maps: seq<B.BoundedMap<Key, TrafficCounters>>, sizes: seq<nat>)
    requires |sizes| == |maps| && forall i :: 0 <= i < |maps| ==> sizes[i] == |maps[i].entries|
    ensures EntryCount(maps) == SumNat(sizes)
  {
    if maps != [] { CountIsSum(maps[..|maps| - 1], sizes[..|maps| - 1]); }
  }

  lemma {:induction false} SumUpdate(sizes: seq<nat>, k: nat, size: nat)
    requires k < |sizes|
    ensures SumNat(sizes[k := size]) + sizes[k] == SumNat(sizes) + size
  {
    var n := |sizes| - 1;
    if k < n {
      SumUpdate(sizes[..n], k, size);
      assert sizes[k := size][..n] == sizes[..n][k := size];
    } else {
      assert sizes[k := size][..n] == sizes[..n];
    }
  }

  /** The sizes of some maps, one by one. */
  ghost function SizesOf(maps: seq<B.BoundedMap<Key, TrafficCounters>>): (sizes: seq<nat>)
    reads maps
    ensures |sizes| == |maps| && forall i :: 0 <= i < |maps| ==> sizes[i] == |maps[i].entries|
  {
    if maps == [] then [] else SizesOf(maps[..|maps| - 1]) + [|maps[|maps| - 1].entries|]
  }

  class Aggregator {
    const cfg: AggregatorConfig
    const totalCounters: CounterCell
    const totalIpv4Counters: CounterCell
    const totalIpv6Counters: CounterCell
    const totalRates: RateWindow.RateWindowSet

    /** The eleven bounded maps, in the order of `Dimension`. */
    const maps: seq<B.BoundedMap<Key, TrafficCounters>>

    /** Everything asked of the aggregator so far, and what each dimension lost. */
    ghost var events: seq<Event>
    ghost var tallies: seq<IngestReport>
    ghost var lost: IngestReport

    /** Every dimension is a run of exactly what the log asks of it. */
    ghost predicate Dimensions(log: seq<Step>)
      reads this`tallies, this`lost, maps
    {
      && |maps| == |tallies| == DIMENSIONS
      && (forall i, j :: 0 <= i < j < DIMENSIONS ==> maps[i] != maps[j])
      && (forall all: IngestReport :: all == lost ==> IsSum(tallies, all))
      && forall i, tally: IngestReport :: 0 <= i < DIMENSIONS && tally == tallies[i] ==>
           Ran(maps[i], cfg.MapConfig(At(i)), Projected(log, At(i)), tally)
    }

    ghost predicate DimensionsFollow(events: seq<Event>)
      reads this`tallies, this`lost, maps
    {
      forall log: seq<Step> :: log == LogOf(cfg, events) ==> Dimensions(log)
    }

    function Cell(share: Share): CounterCell {
      match share
      case All => totalCounters
      case Ipv4Share => totalIpv4Counters
      case Ipv6Share => totalIpv6Counters
    }

    ghost predicate TotalsFollow(events: seq<Event>)
      reads totalCounters, totalIpv4Counters, totalIpv6Counters
    {
      && totalCounters != totalIpv4Counters && totalCounters != totalIpv6Counters && totalIpv4Counters != totalIpv6Counters
      && forall share: Share :: Counted(share, events)
    }

    ghost predicate CellIs(share: Share, c: TrafficCounters)
      reads Cell(share)
    {
      Cell(share).View() == c
    }

    ghost predicate Counted(share: Share, events: seq<Event>)
      reads Cell(share)
    {
      forall c: TrafficCounters :: c == TotalOf(events, share) ==> CellIs(share, c)
    }

    ghost predicate RatesAre(rates: seq<RateWindow.Event>)
      reads totalRates`events, totalRates.windows
    {
      totalRates.Valid() && totalRates.events == rates
    }

    ghost predicate RatesFollow(events: seq<Event>)
      reads totalRates`events, totalRates.windows
    {
      forall rates: seq<RateWindow.Event> :: rates == RateEvents(events) ==> RatesAre(rates)
    }

    /** The totals, the rate windows and the dimensions, each with the events it has seen. */
    ghost predicate Follow(totals: seq<Event>, rates: seq<Event>, dimensions: seq<Event>)
      reads this`tallies, this`lost, maps, totalCounters, totalIpv4Counters, totalIpv6Counters, totalRates`events, totalRates.windows
    {
      TotalsFollow(totals) && RatesFollow(rates) && DimensionsFollow(dimensions)
    }

    /** The whole state is that of a run of `events`. */
    ghost predicate Valid()
      reads this, maps, totalCounters, totalIpv4Counters, totalIpv6Counters, totalRates, totalRates.windows
    {
      Follow(events, events, events)
    }

    constructor (cfg: AggregatorConfig, now: nat)
      ensures Valid() && this.cfg == cfg && totalRates.t0 == now && events == [] && lost == NoReport()
      ensures fresh(totalCounters) && fresh(totalIpv4Counters) && fresh(totalIpv6Counters)
      ensures fresh(totalRates) && forall i :: 0 <= i < |totalRates.windows| ==> fresh(totalRates.windows[i])
      ensures forall i :: 0 <= i < |maps| ==> fresh(maps[i])
    {
      this.cfg, tallies, lost, events := cfg, NoTallies(DIMENSIONS), NoReport(), [];
      totalCounters := new CounterCell();
      totalIpv4Counters := new CounterCell();
      totalIpv6Counters := new CounterCell();
      var created := NewMaps(cfg);
      maps := created;
      totalRates := new RateWindow.RateWindowSet(now);
      new;
      NothingYet();
    }

    lemma {:induction false} NothingYet()
      requires |maps| == |tallies| == DIMENSIONS && forall i, j :: 0 <= i < j < DIMENSIONS ==> maps[i] != maps[j]
      requires NoneLost(tallies) && lost == NoReport()
      requires forall i :: 0 <= i < DIMENSIONS ==> Ran(maps[i], cfg.MapConfig(At(i)), [], NoReport())
      requires totalRates.Valid() && totalRates.events == []
      requires totalCounters != totalIpv4Counters && totalCounters != totalIpv6Counters && totalIpv4Counters != totalIpv6Counters
      requires forall share: Share :: Cell(share).View() == Default()
      ensures Follow([], [], [])
    {
      LostNothing(tallies);
    }

    /** One upsert in one dimension, and its outcome in the report. */
    method TrackKey(dim: Dimension, key: Key, flow: Flow, now: nat, report: IngestReport,
        ghost log: seq<Step>) returns (report': IngestReport)
      requires Dimensions(log)
      modifies maps, this`tallies, this`lost
      ensures Dimensions(log + [Track(dim, key, flow, now)])
      ensures lost.Plus(report) == old(lost).Plus(report')
    {
      var k := Index(dim);
      AtIndex(dim);
      ghost var tally := tallies[k];
      assert IsSum(tallies, lost);
      assert Ran(maps[k], cfg.MapConfig(At(k)), Projected(log, At(k)), tally);
      var outcome := UpsertTraffic(maps[k], key, flow, now, cfg.MapConfig(At(k)), Projected(log, At(k)), tally);
      report' := report.After(outcome);
      StepSeen(log, Track(dim, key, flow, now), k, tally.After(outcome));
      LostUpdate(tallies, k, tally.After(outcome));
      Note(log + [Track(dim, key, flow, now)], tallies[k := tally.After(outcome)], lost.After(outcome));
    }

    /** A step after which map `k` alone has changed leaves every dimension a run of the longer log. */
    lemma {:induction false} StepSeen(log: seq<Step>, step: Step, k: nat, t: IngestReport)
      requires |maps| == |tallies| == DIMENSIONS && k < DIMENSIONS && step.Track? && step.dim == At(k)
      requires Ran(maps[k], cfg.MapConfig(At(k)), Projected(log, At(k)) + Seen(step, At(k)), t)
      requires forall i, tally: IngestReport :: 0 <= i < DIMENSIONS && i != k && tally == tallies[i] ==>
                 Ran(maps[i], cfg.MapConfig(At(i)), Projected(log, At(i)), tally)
      ensures forall i, tally: IngestReport :: 0 <= i < DIMENSIONS && tally == tallies[k := t][i] ==>
                Ran(maps[i], cfg.MapConfig(At(i)), Projected(log + [step], At(i)), tally)
    {
      ProjectedAppend(log, step, At(k));
      forall i, tally: IngestReport | 0 <= i < DIMENSIONS && tally == tallies[k := t][i]
        ensures Ran(maps[i], cfg.MapConfig(At(i)), Projected(log + [step], At(i)), tally)
      {
        if i != k {
          assert Ran(maps[i], cfg.MapConfig(At(i)), Projected(log, At(i)), tally);
          RanUnseen(maps[i], cfg.MapConfig(At(i)), log, step, At(i), tally);
        }
      }
    }

    /** Notes what the dimensions have lost. */
    ghost method Note(log: seq<Step>, tallies': seq<IngestReport>, lost': IngestReport)
      requires |maps| == |tallies'| == DIMENSIONS && forall i, j :: 0 <= i < j < DIMENSIONS ==> maps[i] != maps[j]
      requires forall all: IngestReport :: all == lost' ==> IsSum(tallies', all)
      requires forall i, tally: IngestReport :: 0 <= i < DIMENSIONS && tally == tallies'[i] ==>
                 Ran(maps[i], cfg.MapConfig(At(i)), Projected(log, At(i)), tally)
      modifies this`tallies, this`lost
      ensures Dimensions(log) && lost == lost'
    {
      tallies, lost := tallies', lost';
    }

    method TrackOptional(dim: Dimension, key: Option<Key>, flow: Flow, now: nat, report: IngestReport, ghost log: seq<Step>)
      returns (report': IngestReport)
      requires Dimensions(log)
      modifies maps, this`tallies, this`lost
      ensures Dimensions(log + OptionalStep(dim, key, flow, now))
      ensures lost.Plus(report) == old(lost).Plus(report')
    {
      report' := report;
      if key.Some? {
        report' := TrackKey(dim, key.value, flow, now, report, log);
      } else {
        assert log + [] == log;
      }
    }

    /** One network per configured length. */
    method TrackNetworks(addr: IpAddr, flow: Flow, now: nat, report: IngestReport,
        ghost log: seq<Step>) returns (report': IngestReport)
      requires Dimensions(log)
      modifies maps, this`tallies, this`lost
      ensures Dimensions(log + NetworkSteps(addr, cfg.Lengths(addr.V4?), flow, now))
      ensures lost.Plus(report) == old(lost).Plus(report')
    {
      report' := report;
      var lengths := cfg.Lengths(addr.V4?);
      assert log + [] == log;
      for i := 0 to |lengths|
        invariant Dimensions(log + NetworkSteps(addr, lengths[..i], flow, now))
        invariant lost.Plus(report) == old(lost).Plus(report')
      {
        var dim, key := if addr.V4? then Ipv4Networks else Ipv6Networks, Network(MaskAddr(addr, lengths[i]), lengths[i]);
        NextNetwork(log, addr, lengths, i, flow, now);
        report' := TrackKey(dim, key, flow, now, report', log + NetworkSteps(addr, lengths[..i], flow, now));
      }
      assert lengths[..|lengths|] == lengths;
    }

    /** An address: its host, its /24 when it is IPv4, and its networks. */
    method TrackAddress(addr: IpAddr, flow: Flow, now: nat, report: IngestReport,
        ghost log: seq<Step>) returns (report': IngestReport)
      requires Dimensions(log)
      modifies maps, this`tallies, this`lost
      ensures Dimensions(log + AddressSteps(cfg, addr, flow, now))
      ensures lost.Plus(report) == old(lost).Plus(report')
    {
      ghost var host := [Track(if addr.V4? then Ipv4Hosts else Ipv6Hosts, Address(addr), flow, now)];
      ghost var slash24 := if addr.V4? then [Track(Ipv4Slash24, Address(MaskAddr(addr, 24)), flow, now)] else [];
      report' := TrackKey(if addr.V4? then Ipv4Hosts else Ipv6Hosts, Address(addr), flow, now, report, log);
      if addr.V4? {
        report' := TrackKey(Ipv4Slash24, Address(MaskAddr(addr, 24)), flow, now, report', log + host);
      } else {
        assert log + host + [] == log + host;
      }
      Assoc(log, host, slash24);
      report' := TrackNetworks(addr, flow, now, report', log + (host + slash24));
      Assoc(log, host + slash24, NetworkSteps(addr, cfg.Lengths(addr.V4?), flow, now));
    }

    method TrackFirst(flow: Flow, now: nat, ghost log: seq<Step>) returns (report: IngestReport)
      requires Dimensions(log)
      modifies maps, this`tallies, this`lost
      ensures Dimensions(log + FirstSteps(cfg, flow, now))
      ensures lost == old(lost).Plus(report)
    {
      ghost var a := [Track(Exporters, Address(flow.exporter), flow, now)];
      ghost var b := OptionalStep(InputInterfaces, NumberKey(flow.inputInterface), flow, now);
      ghost var c := OptionalStep(OutputInterfaces, NumberKey(flow.outputInterface), flow, now);
      ghost var d := OptionalStep(Protocols, ProtocolKey(flow.protocol), flow, now);
      report := TrackKey(Exporters, Address(flow.exporter), flow, now, NoReport(), log);
      report := TrackOptional(InputInterfaces, NumberKey(flow.inputInterface), flow, now, report, log + a);
      report := TrackOptional(OutputInterfaces, NumberKey(flow.outputInterface), flow, now, report, log + a + b);
      report := TrackOptional(Protocols, ProtocolKey(flow.protocol), flow, now, report, log + a + b + c);
      report := TrackAddress(flow.source, flow, now, report, log + a + b + c + d);
      ChainFive(log, a, b, c, d, AddressSteps(cfg, flow.source, flow, now));
    }

    method TrackLast(flow: Flow, sourceGroup: Option<string>, destinationGroup: Option<string>, now: nat,
        report: IngestReport, ghost log: seq<Step>)
      returns (report': IngestReport)
      requires Dimensions(log)
      modifies maps, this`tallies, this`lost
      ensures Dimensions(log + LastSteps(cfg, flow, sourceGroup, destinationGroup, now))
      ensures lost.Plus(report) == old(lost).Plus(report')
    {
      ghost var a := AddressSteps(cfg, flow.destination, flow, now);
      ghost var b := OptionalStep(Asns, NumberKey(flow.sourceAsn), flow, now);
      ghost var c := OptionalStep(Asns, NumberKey(flow.destinationAsn), flow, now);
      ghost var d := OptionalStep(Hostgroups, NameKey(sourceGroup), flow, now);
      report' := TrackAddress(flow.destination, flow, now, report, log);
      report' := TrackOptional(Asns, NumberKey(flow.sourceAsn), flow, now, report', log + a);
      report' := TrackOptional(Asns, NumberKey(flow.destinationAsn), flow, now, report', log + a + b);
      report' := TrackOptional(Hostgroups, NameKey(sourceGroup), flow, now, report', log + a + b + c);
      report' := TrackOptional(Hostgroups, NameKey(destinationGroup), flow, now, report', log + a + b + c + d);
      ChainFive(log, a, b, c, d, OptionalStep(Hostgroups, NameKey(destinationGroup), flow, now));
    }

    /** The dimensions' share of ingesting a flow. */
    method TrackFlow(flow: Flow, sourceGroup: Option<string>, destinationGroup: Option<string>, now: nat, ghost e: Event)
      returns (report: IngestReport)
      requires DimensionsFollow(events) && e == Event.Ingest(flow, sourceGroup, destinationGroup, now)
      modifies maps, this`tallies, this`lost
      ensures DimensionsFollow(events + [e])
      ensures lost == old(lost).Plus(report)
    {
      LogExtends(cfg, events, e);
      report := TrackSteps(flow, sourceGroup, destinationGroup, now, e, LogOf(cfg, events), LogOf(cfg, events + [e]));
    }

    method TrackSteps(flow: Flow, sourceGroup: Option<string>, destinationGroup: Option<string>, now: nat, ghost e: Event,
        ghost log: seq<Step>, ghost after: seq<Step>)
      returns (report: IngestReport)
      requires Dimensions(log) && e == Event.Ingest(flow, sourceGroup, destinationGroup, now) && Extends(cfg, log, e, after)
      modifies maps, this`tallies, this`lost
      ensures Dimensions(after)
      ensures lost == old(lost).Plus(report)
    {
      ghost var first, last := FirstSteps(cfg, flow, now), LastSteps(cfg, flow, sourceGroup, destinationGroup, now);
      InTwoParts(cfg, log, e, after);
      report := TrackFirst(flow, now, log);
      report := TrackLast(flow, sourceGroup, destinationGroup, now, report, log + first);
      assert log + first + last == after;
    }

    /** The totals' share of ingesting a flow: a flow counts for the family of its source. */
    method CountFlow(flow: Flow, ghost e: Event)
      requires TotalsFollow(events) && e.Ingest? && e.flow == flow
      modifies totalCounters, totalIpv4Counters, totalIpv6Counters
      ensures TotalsFollow(events + [e])
    {
      assert Counted(All, events) && Counted(Ipv4Share, events) && Counted(Ipv6Share, events);
      CountIn(All, flow, e);
      match flow.source {
        case V4(_) =>
          CountIn(Ipv4Share, flow, e);
          NotCounted(Ipv6Share, e);
        case V6(_) =>
          CountIn(Ipv6Share, flow, e);
          NotCounted(Ipv4Share, e);
      }
    }

    method CountIn(share: Share, flow: Flow, ghost e: Event)
      requires Counted(share, events) && e.Ingest? && e.flow == flow && share.Takes(flow)
      modifies Cell(share)
      ensures Counted(share, events + [e])
    {
      assert CellIs(share, TotalOf(events, share));
      TotalAppend(events, e, share);
      Cell(share).AddFlow(flow);
    }

    lemma {:induction false} NotCounted(share: Share, e: Event)
      requires Counted(share, events) && !(e.Ingest? && share.Takes(e.flow))
      ensures Counted(share, events + [e])
    {
      TotalAppend(events, e, share);
    }

    method RecordRates(flow: Flow, now: nat, ghost e: Event)
      requires RatesFollow(events) && e.Ingest? && e.flow == flow && e.now == now
      modifies totalRates`events, totalRates.windows
      ensures RatesFollow(events + [e])
    {
      RatesAppend(events, e);
      assert RatesAre(RateEvents(events));
      totalRates.Record(now, flow.bytes, flow.packets);
    }

    /** The three parts of ingesting a flow, each leaving the others alone. */
    method CountPart(flow: Flow, ghost e: Event)
      requires Follow(events, events, events) && e.Ingest? && e.flow == flow
      modifies totalCounters, totalIpv4Counters, totalIpv6Counters
      ensures Follow(events + [e], events, events)
    {
      CountFlow(flow, e);
    }

    method RatePart(flow: Flow, now: nat, ghost e: Event)
      requires Follow(events + [e], events, events) && e.Ingest? && e.flow == flow && e.now == now
      modifies totalRates`events, totalRates.windows
      ensures Follow(events + [e], events + [e], events)
    {
      RecordRates(flow, now, e);
    }

    method TrackPart(flow: Flow, sourceGroup: Option<string>, destinationGroup: Option<string>, now: nat, ghost e: Event)
      returns (report: IngestReport)
      requires Follow(events + [e], events + [e], events) && e == Event.Ingest(flow, sourceGroup, destinationGroup, now)
      modifies maps, this`tallies, this`lost
      ensures Follow(events + [e], events + [e], events + [e])
      ensures lost == old(lost).Plus(report)
    {
      report := TrackFlow(flow, sourceGroup, destinationGroup, now, e);
    }

    /** Counts a flow in every total and every dimension; the report counts what the dimensions lost. */
    method Ingest(flow: Flow, sourceGroup: Option<string>, destinationGroup: Option<string>, now: nat)
      returns (report: IngestReport)
      requires Valid()
      modifies this, maps, totalCounters, totalIpv4Counters, totalIpv6Counters, totalRates, totalRates.windows
      ensures Valid() && events == old(events) + [Event.Ingest(flow, sourceGroup, destinationGroup, now)]
      ensures lost == old(lost).Plus(report)
    {
      ghost var e := Event.Ingest(flow, sourceGroup, destinationGroup, now);
      CountPart(flow, e);
      RatePart(flow, now, e);
      report := TrackPart(flow, sourceGroup, destinationGroup, now, e);
      events := events + [e];
    }

    /** The first `n` dimensions have been swept at `now`, the others have not. */
    ghost predicate SweptUpTo(n: nat, now: nat, log: seq<Step>)
      reads this`tallies, this`lost, maps
    {
      && |maps| == |tallies| == DIMENSIONS
      && (forall i, j :: 0 <= i < j < DIMENSIONS ==> maps[i] != maps[j])
      && (forall all: IngestReport :: all == lost ==> IsSum(tallies, all))
      && (forall i, tally: IngestReport :: 0 <= i < n && i < DIMENSIONS && tally == tallies[i] ==>
           Ran(maps[i], cfg.MapConfig(At(i)), Projected(log + [SweepAll(now)], At(i)), tally))
      && forall i, tally: IngestReport :: n <= i < DIMENSIONS && tally == tallies[i] ==>
           Ran(maps[i], cfg.MapConfig(At(i)), Projected(log, At(i)), tally)
    }

    method SweepMap(i: nat, now: nat, ghost log: seq<Step>) returns (removed: nat)
      requires i < DIMENSIONS && SweptUpTo(i, now, log)
      modifies maps[i]
      ensures SweptUpTo(i + 1, now, log)
      ensures removed == old(EntryCount(maps)) - EntryCount(maps)
    {
      ghost var tally, sizes := tallies[i], SizesOf(maps);
      CountIsSum(maps, sizes);
      assert Ran(maps[i], cfg.MapConfig(At(i)), Projected(log, At(i)), tally);
      ProjectedAppend(log, SweepAll(now), At(i));
      removed := SweepTraffic(maps[i], now, cfg.MapConfig(At(i)), Projected(log, At(i)), tally);
      MarkSwept(i, now, log);
      SumUpdate(sizes, i, |maps[i].entries|);
      CountIsSum(maps, sizes[i := |maps[i].entries|]);
    }

    lemma {:induction false} MarkSwept(k: nat, now: nat, log: seq<Step>)
      requires |maps| == |tallies| == DIMENSIONS && forall i, j :: 0 <= i < j < DIMENSIONS ==> maps[i] != maps[j]
      requires k < DIMENSIONS && Ran(maps[k], cfg.MapConfig(At(k)), Projected(log + [SweepAll(now)], At(k)), tallies[k])
      requires forall i, tally: IngestReport :: 0 <= i < k && tally == tallies[i] ==>
                 Ran(maps[i], cfg.MapConfig(At(i)), Projected(log + [SweepAll(now)], At(i)), tally)
      requires forall i, tally: IngestReport :: k < i < DIMENSIONS && tally == tallies[i] ==>
                 Ran(maps[i], cfg.MapConfig(At(i)), Projected(log, At(i)), tally)
      requires forall all: IngestReport :: all == lost ==> IsSum(tallies, all)
      ensures SweptUpTo(k + 1, now, log)
    {
    }

    /** Sweeps every dimension and returns how many entries that removed. */
    method SweepMaps(now: nat, ghost log: seq<Step>) returns (removed: nat)
      requires Dimensions(log)
      modifies maps
      ensures Dimensions(log + [SweepAll(now)])
      ensures removed == old(EntryCount(maps)) - EntryCount(maps)
    {
      removed := 0;
      for i := 0 to DIMENSIONS
        invariant SweptUpTo(i, now, log)
        invariant removed == old(EntryCount(maps)) - EntryCount(maps)
      {
        var size := SweepMap(i, now, log);
        removed := removed + size;
      }
    }

    method SweepDimensions(now: nat) returns (removed: nat)
      requires DimensionsFollow(events)
      modifies maps
      ensures DimensionsFollow(events + [Event.Sweep(now)])
      ensures removed == old(EntryCount(maps)) - EntryCount(maps)
    {
      LogAppend(cfg, events, Event.Sweep(now));
      removed := SweepMaps(now, LogOf(cfg, events));
    }

    method TickRates(now: nat)
      requires RatesFollow(events)
      modifies totalRates`events, totalRates.windows
      ensures RatesFollow(events + [Event.Sweep(now)])
    {
      RatesAppend(events, Event.Sweep(now));
      assert RatesAre(RateEvents(events));
      totalRates.Tick(now);
    }

    /** The two parts of a sweep; the totals have nothing to do. */
    method TickPart(now: nat)
      requires Follow(events, events, events)
      modifies totalRates`events, totalRates.windows
      ensures Follow(events, events + [Event.Sweep(now)], events) && EntryCount(maps) == old(EntryCount(maps))
    {
      TickRates(now);
    }

    method SweepPart(now: nat) returns (removed: nat)
      requires Follow(events, events + [Event.Sweep(now)], events)
      modifies maps
      ensures Follow(events, events + [Event.Sweep(now)], events + [Event.Sweep(now)])
      ensures removed == old(EntryCount(maps)) - EntryCount(maps)
    {
      removed := SweepDimensions(now);
    }

    lemma {:induction false} SweepKeepsTotals(now: nat)
      requires TotalsFollow(events)
      ensures TotalsFollow(events + [Event.Sweep(now)])
    {
      forall share: Share ensures Counted(share, events + [Event.Sweep(now)]) {
        assert Counted(share, events);
        NotCounted(share, Event.Sweep(now));
      }
    }

    /** Expires inactive entries everywhere and rolls the rate windows; the totals stay. */
    method ExpireInactive(now: nat) returns (removed: nat)
      requires Valid()
      modifies this, maps, totalRates, totalRates.windows
      ensures Valid() && events == old(events) + [Event.Sweep(now)] && tallies == old(tallies) && lost == old(lost)
      ensures removed == old(EntryCount(maps)) - EntryCount(maps)
    {
      TickPart(now);
      removed := SweepPart(now);
      SweepKeepsTotals(now);
      events := events + [Event.Sweep(now)];
    }
  }
}
