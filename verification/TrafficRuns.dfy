/** Bounded maps of traffic counters: conservation within one dimension and
    roll-up from one dimension into a coarser one. */
module TrafficRuns {
  import opened Net
  import opened BoundedMap
  import opened Recency
  import opened Counters
  import opened Sums

  type Entries<K> = map<K, Slot<TrafficCounters>>

  /** What a dimension of the aggregator is asked to do. */
  datatype Touch<!K> = Touch(key: K, flow: Flow, now: nat) | Expire(now: nat)

  function Adder(flow: Flow): TrafficCounters -> TrafficCounters {
    (c: TrafficCounters) => Add(c, flow)
  }

  function OpOf<K>(t: Touch<K>): Op<K, TrafficCounters> {
    match t
    case Touch(key, flow, now) => Upsert(key, now, Default(), Adder(flow))
    case Expire(now) => Sweep(now)
  }

  function OpsOf<K>(ts: seq<Touch<K>>): (ops: seq<Op<K, TrafficCounters>>)
    ensures |ops| == |ts| && forall i :: 0 <= i < |ts| ==> ops[i] == OpOf(ts[i])
  {
    if ts == [] then [] else OpsOf(ts[..|ts| - 1]) + [OpOf(ts[|ts| - 1])]
  }

  ghost predicate IsTrafficRun<K(!new)>(cfg: Config, ts: seq<Touch<K>>, states: seq<Entries<K>>) {
    IsRun(cfg, OpsOf(ts), states)
  }

  ghost predicate TimesInOrder<K>(ts: seq<Touch<K>>) {
    forall i, j :: 0 <= i <= j < |ts| ==> ts[i].now <= ts[j].now
  }

  /** No operation of the run was rejected or evicted an entry. */
  ghost predicate NoLoss<K(!new), V(!new)>(cfg: Config, ops: seq<Op<K, V>>, states: seq<map<K, Slot<V>>>)
    requires |states| == |ops| + 1
  {
    forall i :: 0 <= i < |ops| && ops[i].Upsert? ==>
      cfg.maxEntries > 0 && (ops[i].key in states[i] || |states[i]| < cfg.maxEntries)
  }

  // ---- Sums over entries ----

  ghost function Weight<K>(m: Entries<K>, f: Field): K -> nat {
    (k: K) => if k in m then Get(m[k].value, f) else 0
  }

  /** The value of a counter summed over some of the entries. */
  ghost function SumOver<K(!new)>(m: Entries<K>, f: Field, keys: set<K>): nat {
    Sum(Weight(m, f), keys)
  }

  ghost function Live<K(!new)>(m: Entries<K>, f: Field): nat {
    SumOver(m, f, m.Keys)
  }

  ghost function ValueAt<K>(m: Entries<K>, f: Field, k: K): nat {
    if k in m then Get(m[k].value, f) else 0
  }

  lemma {:induction false} SumOverSame<K(!new)>(m: Entries<K>, m': Entries<K>, f: Field, keys: set<K>)
    requires forall k :: k in keys ==> ValueAt(m, f, k) == ValueAt(m', f, k)
    ensures SumOver(m, f, keys) == SumOver(m', f, keys)
  {
    SumSame(Weight(m, f), Weight(m', f), keys);
  }

  lemma {:induction false} SumOverWithout<K(!new)>(m: Entries<K>, f: Field, keys: set<K>, x: K)
    ensures SumOver(m, f, keys + {x}) == SumOver(m, f, keys - {x}) + ValueAt(m, f, x)
  {
    SumWithout(Weight(m, f), keys + {x}, x);
    assert keys + {x} - {x} == keys - {x};
  }

  // ---- Conservation ----

  /** Every entry but that of `key` is as before or gone. */
  ghost predicate OthersKept<K(!new)>(m: Entries<K>, m': Entries<K>, key: K) {
    forall k :: k in m' && k != key ==> k in m && m'[k] == m[k]
  }

  lemma {:induction false} LiveAfterTouch<K(!new)>(m: Entries<K>, m': Entries<K>, key: K, f: Field)
    requires key in m' && OthersKept(m, m', key)
    ensures Live(m', f) + SumOver(m, f, m.Keys - m'.Keys) + ValueAt(m, f, key) == Live(m, f) + ValueAt(m', f, key)
  {
    var kept, gone := m.Keys * m'.Keys, m.Keys - m'.Keys;
    SumSubset(Weight(m, f), gone, m.Keys);
    assert m.Keys - gone == kept;
    assert m'.Keys == kept + {key};
    SumOverWithout(m', f, kept, key);
    SumOverSame(m, m', f, kept - {key});
    if key in m {
      SumOverWithout(m, f, kept, key);
      assert kept + {key} == kept;
    } else {
      assert kept - {key} == kept;
    }
  }

  lemma {:induction false} LiveAfterSweep<K(!new)>(m: Entries<K>, m': Entries<K>, f: Field)
    requires forall k :: k in m' ==> k in m && m'[k] == m[k]
    ensures Live(m', f) + SumOver(m, f, m.Keys - m'.Keys) == Live(m, f)
  {
    var gone := m.Keys - m'.Keys;
    SumSubset(Weight(m, f), gone, m.Keys);
    assert m.Keys - gone == m'.Keys;
    SumOverSame(m, m', f, m'.Keys);
  }

  /** What the first n operations brought to a counter. */
  ghost function Brought<K>(ts: seq<Touch<K>>, f: Field, n: nat): nat
    requires n <= |ts|
  {
    if n == 0 then 0 else Brought(ts, f, n - 1) + if ts[n - 1].Touch? then Amount(f, ts[n - 1].flow) else 0
  }

  /** What the first n operations lost: entries evicted or expired, and rejected flows. */
  ghost function Lost<K(!new)>(ts: seq<Touch<K>>, states: seq<Entries<K>>, f: Field, n: nat): nat
    requires n <= |ts| && |states| == |ts| + 1
  {
    if n == 0 then 0
    else
      var m, m', t := states[n - 1], states[n], ts[n - 1];
      Lost(ts, states, f, n - 1) + SumOver(m, f, m.Keys - m'.Keys) +
      if t.Touch? && t.key !in m' then Amount(f, t.flow) else 0
  }

  ghost predicate Unsaturated<K(!new)>(states: seq<Entries<K>>, f: Field) {
    forall i :: 0 <= i < |states| ==> BelowCap(states[i], f)
  }

  ghost predicate BelowCap<K(!new)>(m: Entries<K>, f: Field) {
    forall k :: k in m ==> Get(m[k].value, f) < U64_MAX
  }

  /** What one operation of a run does to the entries. */
  lemma {:induction false} StepEffect<K(!new)>(cfg: Config, m: Entries<K>, t: Touch<K>, m': Entries<K>, f: Field)
    requires Step(cfg, m, OpOf(t), m')
    ensures t.Expire? ==> forall k :: k in m' ==> k in m && m'[k] == m[k]
    ensures t.Touch? && cfg.maxEntries == 0 ==> m' == m
    ensures t.Touch? && cfg.maxEntries > 0 ==>
              && t.key in m' && OthersKept(m, m', t.key)
              && ValueAt(m', f, t.key) == Sat(ValueAt(m, f, t.key) + Amount(f, t.flow))
              && m'[t.key].lastUpdated == t.now
  {
    if t.Touch? {
      AddCounts(if t.key in m then m[t.key].value else Default(), t.flow, f);
      assert Get(Default(), f) == 0;
    }
  }

  lemma {:induction false} ConservationStep<K(!new)>(cfg: Config, m: Entries<K>, t: Touch<K>, m': Entries<K>, f: Field)
    requires Step(cfg, m, OpOf(t), m') && (cfg.maxEntries == 0 ==> m == map[])
    requires BelowCap(m', f)
    ensures Live(m', f) + SumOver(m, f, m.Keys - m'.Keys) + (if t.Touch? && t.key !in m' then Amount(f, t.flow) else 0)
         == Live(m, f) + if t.Touch? then Amount(f, t.flow) else 0
  {
    StepEffect(cfg, m, t, m', f);
    if t.Expire? {
      LiveAfterSweep(m, m', f);
    } else if cfg.maxEntries == 0 {
      LiveAfterSweep(m, m', f);
    } else {
      LiveAfterTouch(m, m', t.key, f);
    }
  }

  lemma {:induction false} TrafficStep<K(!new)>(cfg: Config, ts: seq<Touch<K>>, states: seq<Entries<K>>, n: nat)
    requires IsTrafficRun(cfg, ts, states) && n < |ts|
    ensures Step(cfg, states[n], OpOf(ts[n]), states[n + 1])
  {
    assert StepAt(cfg, OpsOf(ts), states, n) && OpsOf(ts)[n] == OpOf(ts[n]);
  }

  lemma {:induction false} ConservationAt<K(!new)>(cfg: Config, ts: seq<Touch<K>>, states: seq<Entries<K>>, f: Field, n: nat)
    requires IsTrafficRun(cfg, ts, states) && n < |ts| && BelowCap(states[n + 1], f)
    ensures Live(states[n + 1], f) + Lost(ts, states, f, n + 1) + Brought(ts, f, n)
         == Live(states[n], f) + Lost(ts, states, f, n) + Brought(ts, f, n + 1)
  {
    CapacityKept(cfg, OpsOf(ts), states, n);
    TrafficStep(cfg, ts, states, n);
    ConservationStep(cfg, states[n], ts[n], states[n + 1], f);
  }

  /** Nothing is created or destroyed: while unsaturated, what is live and what was lost to
      eviction, expiry or rejection add up to what was brought, in every counter. */
  lemma {:induction false} Conservation<K(!new)>(cfg: Config, ts: seq<Touch<K>>, states: seq<Entries<K>>, f: Field, n: nat)
    requires IsTrafficRun(cfg, ts, states) && n <= |ts| && Unsaturated(states, f)
    ensures Live(states[n], f) + Lost(ts, states, f, n) == Brought(ts, f, n)
  {
    if n == 0 {
      assert states[0].Keys == {};
    } else {
      Conservation(cfg, ts, states, f, n - 1);
      ConservationAt(cfg, ts, states, f, n - 1);
    }
  }

  // ---- What an entry counts ----

  /** The flows of one key among the operations a..n. */
  ghost function OwnFlows<K(!new)>(ts: seq<Touch<K>>, a: nat, n: nat, k: K): seq<Flow>
    requires a <= n <= |ts|
  {
    if n == a then []
    else OwnFlows(ts, a, n - 1, k) + if ts[n - 1].Touch? && ts[n - 1].key == k then [ts[n - 1].flow] else []
  }

  lemma {:induction false} FoldIsAddAll<K(!new)>(ts: seq<Touch<K>>, a: nat, n: nat, k: K)
    requires a <= n <= |ts|
    ensures Folded(OpsOf(ts), a, n, k, Default()) == AddAll(OwnFlows(ts, a, n, k))
  {
    if n > a {
      FoldIsAddAll(ts, a, n - 1, k);
      var flows := OwnFlows(ts, a, n - 1, k);
      assert OpsOf(ts)[n - 1] == OpOf(ts[n - 1]);
      if ts[n - 1].Touch? && ts[n - 1].key == k {
        assert (flows + [ts[n - 1].flow])[..|flows|] == flows;
      } else {
        assert flows + [] == flows;
      }
    }
  }

  /** An entry's counters are those of its key's own flows since it was last admitted. */
  lemma {:induction false} EntryIsOwnFlows<K(!new)>(cfg: Config, ts: seq<Touch<K>>, states: seq<Entries<K>>, n: nat, k: K)
    returns (a: nat)
    requires IsTrafficRun(cfg, ts, states) && n <= |ts| && k in states[n]
    ensures HeldSince(OpsOf(ts), states, a, n, k)
    ensures states[n][k].value == AddAll(OwnFlows(ts, a, n, k))
  {
    a := ValueIsFold(cfg, OpsOf(ts), states, n, k);
    assert OpsOf(ts)[a] == OpOf(ts[a]);
    FoldIsAddAll(ts, a, n, k);
  }

  // ---- Roll-up into a coarser dimension ----

  function Copies<K>(t: Touch<K>, c: nat): (r: seq<Touch<K>>)
    ensures |r| == c && forall i :: 0 <= i < c ==> r[i] == t
  {
    if c == 0 then [] else Copies(t, c - 1) + [t]
  }

  /** The same operations on the parents of the keys, each flow `c` times. */
  ghost function Spread<K, P>(ts: seq<Touch<K>>, parent: K -> P, c: nat): seq<Touch<P>> {
    if ts == [] then [] else Spread(ts[..|ts| - 1], parent, c) + SpreadTouch(ts[|ts| - 1], parent, c)
  }

  ghost function SpreadTouch<K, P>(t: Touch<K>, parent: K -> P, c: nat): seq<Touch<P>> {
    match t
    case Touch(key, flow, now) => Copies(Touch(parent(key), flow, now), c)
    case Expire(now) => [Touch<P>.Expire(now)]
  }

  /** Where the operations of `ts[..n]` end in `Spread(ts)`. */
  ghost function Offset<K>(ts: seq<Touch<K>>, c: nat, n: nat): nat
    requires n <= |ts|
  {
    if n == 0 then 0 else Offset(ts, c, n - 1) + if ts[n - 1].Touch? then c else 1
  }

  /** `pts` consists of what each operation of `ts` spreads to, in order. */
  ghost predicate IsSpread<K(!new), P(!new)>(pts: seq<Touch<P>>, ts: seq<Touch<K>>, parent: K -> P, c: nat) {
    |pts| == Offset(ts, c, |ts|) && forall n :: 0 <= n < |ts| ==> SpreadAt(pts, ts, parent, c, n)
  }

  ghost predicate SpreadAt<K(!new), P(!new)>(pts: seq<Touch<P>>, ts: seq<Touch<K>>, parent: K -> P, c: nat, n: nat)
    requires n < |ts|
  {
    SegmentAt(pts, Offset(ts, c, n), SpreadTouch(ts[n], parent, c))
  }

  ghost predicate SegmentAt<P>(pts: seq<Touch<P>>, o: nat, segment: seq<Touch<P>>) {
    o + |segment| <= |pts| && forall i :: 0 <= i < |segment| ==> pts[o + i] == segment[i]
  }

  lemma {:induction false} SpreadAtInit<K(!new), P(!new)>(ts: seq<Touch<K>>, parent: K -> P, c: nat, m: nat, n: nat)
    requires n < m == |ts| - 1 && SpreadAt(Spread(ts[..m], parent, c), ts[..m], parent, c, n)
    ensures SpreadAt(Spread(ts, parent, c), ts, parent, c, n)
  {
    OffsetPrefix(ts, c, m, n);
    var front, last := Spread(ts[..m], parent, c), SpreadTouch(ts[m], parent, c);
    assert Spread(ts, parent, c) == front + last;
  }

  lemma {:induction false} SpreadAtLast<K(!new), P(!new)>(ts: seq<Touch<K>>, parent: K -> P, c: nat, m: nat)
    requires m == |ts| - 1 && |Spread(ts[..m], parent, c)| == Offset(ts, c, m)
    ensures SpreadAt(Spread(ts, parent, c), ts, parent, c, m)
    ensures |Spread(ts, parent, c)| == Offset(ts, c, |ts|)
  {
    var front, last := Spread(ts[..m], parent, c), SpreadTouch(ts[m], parent, c);
    assert Spread(ts, parent, c) == front + last;
  }

  lemma {:induction false} SpreadIsSpread<K(!new), P(!new)>(ts: seq<Touch<K>>, parent: K -> P, c: nat)
    ensures IsSpread(Spread(ts, parent, c), ts, parent, c)
  {
    if ts != [] {
      var m := |ts| - 1;
      SpreadIsSpread(ts[..m], parent, c);
      OffsetPrefix(ts, c, m, m);
      SpreadAtLast(ts, parent, c, m);
      forall n | 0 <= n < |ts| ensures SpreadAt(Spread(ts, parent, c), ts, parent, c, n) {
        if n < m { SpreadAtInit(ts, parent, c, m, n); }
      }
    }
  }

  lemma {:induction false} OffsetPrefix<K>(ts: seq<Touch<K>>, c: nat, m: nat, n: nat)
    requires n <= m <= |ts|
    ensures Offset(ts[..m], c, n) == Offset(ts, c, n)
  {
    if n > 0 { OffsetPrefix(ts, c, m, n - 1); }
  }

  /** The live children of a parent, and their sum. */
  ghost function Group<K, P>(c: Entries<K>, parent: K -> P, q: P): set<K> {
    set k | k in c && parent(k) == q
  }

  ghost function GroupSum<K(!new), P>(c: Entries<K>, parent: K -> P, q: P, f: Field): nat {
    SumOver(c, f, Group(c, parent, q))
  }

  /** Every live child's parent is live and was updated no earlier. */
  ghost predicate ParentsLive<K(!new), P(!new)>(c: Entries<K>, p: Entries<P>, parent: K -> P) {
    forall k :: ParentLive(c, p, parent, k)
  }

  ghost predicate ParentLive<K(!new), P(!new)>(c: Entries<K>, p: Entries<P>, parent: K -> P, k: K) {
    k in c ==> parent(k) in p && c[k].lastUpdated <= p[parent(k)].lastUpdated
  }

  /** Every live parent counts at least `times` its live children, exactly so if `exact`, up to saturation. */
  ghost predicate SumsUp<K(!new), P(!new)>(c: Entries<K>, p: Entries<P>, parent: K -> P, times: nat, f: Field, exact: bool) {
    forall q :: CountsGroup(c, p, parent, times, f, exact, q)
  }

  ghost predicate CountsGroup<K(!new), P(!new)>(c: Entries<K>, p: Entries<P>, parent: K -> P, times: nat, f: Field,
      exact: bool, q: P) {
    q in p ==>
      && Sat(Times(times, GroupSum(c, parent, q, f))) <= Get(p[q].value, f)
      && (exact ==> Sat(Times(times, GroupSum(c, parent, q, f))) == Get(p[q].value, f))
  }

  lemma {:induction false} GroupAfterTouch<K(!new), P(!new)>(c: Entries<K>, c': Entries<K>, parent: K -> P, key: K, f: Field)
    requires key in c' && OthersKept(c, c', key) && c.Keys <= c'.Keys
    ensures GroupSum(c', parent, parent(key), f) + ValueAt(c, f, key)
         == GroupSum(c, parent, parent(key), f) + ValueAt(c', f, key)
  {
    var q := parent(key);
    var before, after := Group(c, parent, q), Group(c', parent, q);
    assert after == before + {key};
    SumOverWithout(c', f, before, key);
    SumOverSame(c, c', f, before - {key});
    if key in c {
      assert before + {key} == before;
      SumOverWithout(c, f, before, key);
    } else {
      assert before - {key} == before;
    }
  }

  lemma {:induction false} OtherGroup<K(!new), P(!new)>(c: Entries<K>, c': Entries<K>, parent: K -> P, key: K, q: P, f: Field)
    requires OthersKept(c, c', key) && c'.Keys == c.Keys + {key} && q != parent(key)
    ensures GroupSum(c', parent, q, f) == GroupSum(c, parent, q, f)
  {
    assert Group(c', parent, q) == Group(c, parent, q);
    SumOverSame(c, c', f, Group(c, parent, q));
  }

  lemma {:induction false} GroupAfterSweep<K(!new), P(!new)>(c: Entries<K>, c': Entries<K>, parent: K -> P, q: P, f: Field)
    requires forall k :: k in c' ==> k in c && c'[k] == c[k]
    ensures GroupSum(c', parent, q, f) <= GroupSum(c, parent, q, f)
  {
    var before, after := Group(c, parent, q), Group(c', parent, q);
    SumSubset(Weight(c, f), after, before);
    SumOverSame(c, c', f, after);
  }

  lemma {:induction false} EmptyGroup<K(!new), P(!new)>(c: Entries<K>, p: Entries<P>, parent: K -> P, q: P, f: Field)
    requires ParentsLive(c, p, parent) && q !in p
    ensures GroupSum(c, parent, q, f) == 0
  {
    forall k | k in c ensures parent(k) != q {
      assert ParentLive(c, p, parent, k);
    }
    assert Group(c, parent, q) == {};
  }

  /** The arithmetic of a flow that reaches a child once and its parent `times` times. */
  lemma {:induction false} CappedTogether(sum: nat, child: nat, amount: nat, parentValue: nat, sum': nat, times: nat)
    requires child <= sum && child <= U64_MAX && parentValue <= U64_MAX && times >= 1
    requires Sat(Times(times, sum)) <= parentValue
    requires sum' + child == sum + Sat(child + amount)
    ensures Sat(Times(times, sum')) <= Sat(parentValue + Times(times, amount))
    ensures Sat(Times(times, sum)) == parentValue ==> Sat(Times(times, sum')) == Sat(parentValue + Times(times, amount))
  {
    TimesSum(times, sum, amount);
    TimesSum(times, sum', 0);
    TimesSum(times, sum + amount, 0);
  }

  // ---- An entry is what its key was brought ----

  /** What the first n touches brought one key. */
  ghost function BroughtTo<K(!new)>(ts: seq<Touch<K>>, k: K, f: Field, n: nat): nat
    requires n <= |ts|
  {
    if n == 0 then 0
    else BroughtTo(ts, k, f, n - 1) + if ts[n - 1].Touch? && ts[n - 1].key == k then Amount(f, ts[n - 1].flow) else 0
  }

  /** While nothing was lost and nothing has expired, every entry counts exactly what its key was
      brought, and a key has an entry exactly when it was brought a flow. */
  lemma {:induction false} EntryIsBrought<K(!new)>(cfg: Config, ts: seq<Touch<K>>, states: seq<Entries<K>>, k: K, f: Field, n: nat)
    requires IsTrafficRun(cfg, ts, states) && NoLoss(cfg, OpsOf(ts), states) && n <= |ts| && NothingExpired(ts, states, n)
    ensures ValueAt(states[n], f, k) == Sat(BroughtTo(ts, k, f, n))
    ensures k in states[n] <==> BroughtTo(ts, k, Flows, n) > 0
  {
    if n > 0 {
      NothingExpiredStep(ts, states, n);
      EntryIsBrought(cfg, ts, states, k, f, n - 1);
      RunStep(cfg, ts, states, n - 1);
      if ts[n - 1].Touch? {
        TouchEffect(cfg, states[n - 1], ts[n - 1], states[n], f);
      }
    }
  }

  ghost predicate AllBefore<K(!new)>(m: Entries<K>, now: nat) {
    forall k :: k in m ==> m[k].lastUpdated <= now
  }

  /** A run without losses, operation by operation. */
  ghost predicate CleanRun<K(!new)>(cfg: Config, ts: seq<Touch<K>>, states: seq<Entries<K>>) {
    && |states| == |ts| + 1 && states[0] == map[]
    && forall n :: 0 <= n < |ts| ==> CleanStep(cfg, ts, states, n)
  }

  ghost predicate CleanStep<K(!new)>(cfg: Config, ts: seq<Touch<K>>, states: seq<Entries<K>>, n: nat)
    requires n < |ts| && |states| == |ts| + 1
  {
    Step(cfg, states[n], OpOf(ts[n]), states[n + 1]) && (ts[n].Touch? ==> Room(cfg, states[n], ts[n].key))
  }

  lemma {:induction false} IsClean<K(!new)>(cfg: Config, ts: seq<Touch<K>>, states: seq<Entries<K>>)
    requires IsTrafficRun(cfg, ts, states) && NoLoss(cfg, OpsOf(ts), states)
    ensures CleanRun(cfg, ts, states)
  {
    forall n | 0 <= n < |ts| ensures CleanStep(cfg, ts, states, n) {
      RunStep(cfg, ts, states, n);
    }
  }

  lemma {:induction false} StampedBefore<K(!new)>(cfg: Config, ts: seq<Touch<K>>, states: seq<Entries<K>>, n: nat, now: nat)
    requires CleanRun(cfg, ts, states) && n <= |ts| && TimesInOrder(ts) && (n > 0 ==> ts[n - 1].now <= now)
    ensures AllBefore(states[n], now)
  {
    if n > 0 {
      StampedBefore(cfg, ts, states, n - 1, ts[n - 1].now);
      assert CleanStep(cfg, ts, states, n - 1);
      StepEffect(cfg, states[n - 1], ts[n - 1], states[n], Flows);
    }
  }

  ghost predicate Room<K(!new)>(cfg: Config, m: Entries<K>, key: K) {
    cfg.maxEntries > 0 && (key in m || |m| < cfg.maxEntries)
  }

  lemma {:induction false} RoomyTouch<K(!new)>(cfg: Config, m: Entries<K>, t: Touch<K>, m': Entries<K>)
    requires t.Touch? && Step(cfg, m, OpOf(t), m') && Room(cfg, m, t.key)
    ensures m'.Keys == m.Keys + {t.key}
  {
  }

  /** `m'` is `m` with the entry of `key` touched at `now` by a flow worth `amount`. */
  ghost predicate TouchedBy<K(!new)>(m: Entries<K>, m': Entries<K>, key: K, now: nat, amount: nat, f: Field) {
    && m'.Keys == m.Keys + {key} && OthersKept(m, m', key)
    && m'[key].lastUpdated == now
    && ValueAt(m', f, key) == Sat(ValueAt(m, f, key) + amount)
  }

  lemma {:induction false} ParentsLiveTouch<K(!new), P(!new)>(c: Entries<K>, c': Entries<K>, p: Entries<P>, p': Entries<P>,
      parent: K -> P, times: nat, key: K, now: nat, amount: nat, f: Field)
    requires TouchedBy(c, c', key, now, amount, f) && TouchedBy(p, p', parent(key), now, Times(times, amount), f)
    requires AllBefore(c, now) && ParentsLive(c, p, parent)
    ensures ParentsLive(c', p', parent)
  {
    forall k ensures ParentLive(c', p', parent, k) {
      assert ParentLive(c, p, parent, k);
    }
  }

  /** The parent that heard the flow. */
  lemma {:induction false} CountsTouched<K(!new), P(!new)>(c: Entries<K>, c': Entries<K>, p: Entries<P>, p': Entries<P>,
      parent: K -> P, times: nat, key: K, now: nat, amount: nat, f: Field, exact: bool)
    requires TouchedBy(c, c', key, now, amount, f) && TouchedBy(p, p', parent(key), now, Times(times, amount), f) && times >= 1
    requires ParentsLive(c, p, parent) && CountsGroup(c, p, parent, times, f, exact, parent(key))
    ensures CountsGroup(c', p', parent, times, f, exact, parent(key))
  {
    var q := parent(key);
    GroupAfterTouch(c, c', parent, key, f);
    if q !in p {
      EmptyGroup(c, p, parent, q, f);
      TimesSum(times, 0, 0);
    }
    ChildWithinGroup(c, parent, key, f);
    CappedTogether(GroupSum(c, parent, q, f), ValueAt(c, f, key), amount, ValueAt(p, f, q), GroupSum(c', parent, q, f), times);
  }

  /** Any other parent. */
  lemma {:induction false} CountsOther<K(!new), P(!new)>(c: Entries<K>, c': Entries<K>, p: Entries<P>, p': Entries<P>,
      parent: K -> P, times: nat, key: K, now: nat, amount: nat, total: nat, f: Field, exact: bool, q: P)
    requires TouchedBy(c, c', key, now, amount, f) && TouchedBy(p, p', parent(key), now, total, f) && q != parent(key)
    requires CountsGroup(c, p, parent, times, f, exact, q)
    ensures CountsGroup(c', p', parent, times, f, exact, q)
  {
    OtherGroup(c, c', parent, key, q, f);
    assert q in p' ==> q in p && p'[q] == p[q];
  }

  lemma {:induction false} SumsUpTouch<K(!new), P(!new)>(c: Entries<K>, c': Entries<K>, p: Entries<P>, p': Entries<P>,
      parent: K -> P, times: nat, key: K, now: nat, amount: nat, f: Field, exact: bool)
    requires TouchedBy(c, c', key, now, amount, f) && TouchedBy(p, p', parent(key), now, Times(times, amount), f) && times >= 1
    requires ParentsLive(c, p, parent) && SumsUp(c, p, parent, times, f, exact)
    ensures SumsUp(c', p', parent, times, f, exact)
  {
    forall q ensures CountsGroup(c', p', parent, times, f, exact, q) {
      assert CountsGroup(c, p, parent, times, f, exact, q);
      if q == parent(key) {
        CountsTouched(c, c', p, p', parent, times, key, now, amount, f, exact);
      } else {
        CountsOther(c, c', p, p', parent, times, key, now, amount, Times(times, amount), f, exact, q);
      }
    }
  }

  lemma {:induction false} TouchEffect<K(!new)>(cfg: Config, m: Entries<K>, t: Touch<K>, m': Entries<K>, f: Field)
    requires t.Touch? && Step(cfg, m, OpOf(t), m') && Room(cfg, m, t.key)
    ensures TouchedBy(m, m', t.key, t.now, Amount(f, t.flow), f)
  {
    StepEffect(cfg, m, t, m', f);
    RoomyTouch(cfg, m, t, m');
  }

  lemma {:induction false} ChildWithinGroup<K(!new), P(!new)>(c: Entries<K>, parent: K -> P, key: K, f: Field)
    ensures ValueAt(c, f, key) <= GroupSum(c, parent, parent(key), f)
    ensures ValueAt(c, f, key) <= U64_MAX
  {
    if key in c {
      var group := Group(c, parent, parent(key));
      assert group + {key} == group;
      SumOverWithout(c, f, group, key);
    }
  }

  /** A sweep reaches both dimensions: a parent outlives its children. */
  lemma {:induction false} RollUpSweep<K(!new), P(!new)>(ccfg: Config, pcfg: Config, c: Entries<K>, c': Entries<K>,
      p: Entries<P>, p': Entries<P>,
      parent: K -> P, times: nat, now: nat, f: Field, exact: bool)
    requires ccfg.inactivityTtl == pcfg.inactivityTtl
    requires Step(ccfg, c, OpOf(Touch<K>.Expire(now)), c') && Step(pcfg, p, OpOf(Touch<P>.Expire(now)), p')
    requires ParentsLive(c, p, parent) && SumsUp(c, p, parent, times, f, exact)
    ensures ParentsLive(c', p', parent) && SumsUp(c', p', parent, times, f, exact && c' == c)
  {
    forall k ensures ParentLive(c', p', parent, k) {
      assert ParentLive(c, p, parent, k);
    }
    var still := exact && c' == c;
    forall q ensures CountsGroup(c', p', parent, times, f, still, q) {
      assert CountsGroup(c, p, parent, times, f, exact, q);
      GroupAfterSweep(c, c', parent, q, f);
      TimesMono(times, GroupSum(c', parent, q, f), GroupSum(c, parent, q, f));
    }
  }

  /** No sweep of the run has found an inactive entry yet. */
  ghost predicate NothingExpired<K(!new)>(ts: seq<Touch<K>>, states: seq<Entries<K>>, n: nat)
    requires n <= |ts| && |states| == |ts| + 1
  {
    forall i :: 0 <= i < n && ts[i].Expire? ==> states[i + 1] == states[i]
  }

  lemma {:induction false} NothingExpiredStep<K(!new)>(ts: seq<Touch<K>>, states: seq<Entries<K>>, n: nat)
    requires 0 < n <= |ts| && |states| == |ts| + 1
    ensures NothingExpired(ts, states, n) == (NothingExpired(ts, states, n - 1) && (ts[n - 1].Expire? ==> states[n] == states[n - 1]))
  {
  }

  /** One operation keeps both: a flow reaching a child and its parent, or a sweep of both. */
  lemma {:induction false} RollUpTouch<K(!new), P(!new)>(ccfg: Config, c: Entries<K>, c': Entries<K>, p: Entries<P>,
      p': Entries<P>,
      parent: K -> P, times: nat, t: Touch<K>, f: Field, exact: bool)
    requires t.Touch? && Step(ccfg, c, OpOf(t), c') && Room(ccfg, c, t.key) && times >= 1
    requires TouchedBy(p, p', parent(t.key), t.now, Times(times, Amount(f, t.flow)), f)
    requires AllBefore(c, t.now) && ParentsLive(c, p, parent) && SumsUp(c, p, parent, times, f, exact)
    ensures ParentsLive(c', p', parent)
    ensures SumsUp(c', p', parent, times, f, exact)
  {
    TouchEffect(ccfg, c, t, c', f);
    ParentsLiveTouch(c, c', p, p', parent, times, t.key, t.now, Amount(f, t.flow), f);
    SumsUpTouch(c, c', p, p', parent, times, t.key, t.now, Amount(f, t.flow), f, exact);
  }

  lemma {:induction false} RunStep<K(!new)>(cfg: Config, ts: seq<Touch<K>>, states: seq<Entries<K>>, n: nat)
    requires IsTrafficRun(cfg, ts, states) && NoLoss(cfg, OpsOf(ts), states) && n < |ts|
    ensures Step(cfg, states[n], OpOf(ts[n]), states[n + 1])
    ensures ts[n].Touch? ==> Room(cfg, states[n], ts[n].key)
  {
    TrafficStep(cfg, ts, states, n);
  }

  lemma {:induction false} CopyEffect<P(!new)>(cfg: Config, ts: seq<Touch<P>>, states: seq<Entries<P>>, n: nat,
      t: Touch<P>, f: Field)
    requires CleanRun(cfg, ts, states) && n < |ts| && ts[n] == t && t.Touch?
    ensures TouchedBy(states[n], states[n + 1], t.key, t.now, Amount(f, t.flow), f)
  {
    assert CleanStep(cfg, ts, states, n);
    TouchEffect(cfg, states[n], t, states[n + 1], f);
  }

  /** The same flow a number of times in a row. */
  lemma {:induction false} CopiesEffect<P(!new)>(cfg: Config, ts: seq<Touch<P>>, states: seq<Entries<P>>, o: nat, e: nat,
      t: Touch<P>, f: Field)
    requires CleanRun(cfg, ts, states) && t.Touch?
    requires o < e <= |ts| && forall i :: o <= i < e ==> ts[i] == t
    ensures TouchedBy(states[o], states[e], t.key, t.now, Times(e - o, Amount(f, t.flow)), f)
  {
    var amount := Amount(f, t.flow);
    CopyEffect(cfg, ts, states, e - 1, t, f);
    if o == e - 1 {
      assert Times(1, amount) == amount;
    } else {
      CopiesEffect(cfg, ts, states, o, e - 1, t, f);
      TouchedTwice(states[o], states[e - 1], states[e], t.key, t.now, Times(e - 1 - o, amount), amount, f);
    }
  }

  lemma {:induction false} TouchedTwice<P(!new)>(m: Entries<P>, m': Entries<P>, m'': Entries<P>, key: P, now: nat,
      a: nat, b: nat, f: Field)
    requires TouchedBy(m, m', key, now, a, f) && TouchedBy(m', m'', key, now, b, f)
    ensures TouchedBy(m, m'', key, now, a + b, f)
  {
  }

  lemma {:induction false} SegmentCopies<P>(pts: seq<Touch<P>>, o: nat, t: Touch<P>, c: nat)
    requires SegmentAt(pts, o, Copies(t, c))
    ensures forall i :: o <= i < o + c ==> pts[i] == t
  {
    forall i | o <= i < o + c ensures pts[i] == t {
      assert pts[o + (i - o)] == Copies(t, c)[i - o];
    }
  }

  lemma {:induction false} RollUpStep<K(!new), P(!new)>(ccfg: Config, pcfg: Config, pts: seq<Touch<P>>, parent: K -> P,
      times: nat,
      c: Entries<K>, c': Entries<K>, ps: seq<Entries<P>>, t: Touch<K>, o: nat, f: Field, exact: bool)
    requires ccfg.inactivityTtl == pcfg.inactivityTtl && times >= 1
    requires Step(ccfg, c, OpOf(t), c') && (t.Touch? ==> Room(ccfg, c, t.key)) && AllBefore(c, t.now)
    requires CleanRun(pcfg, pts, ps)
    requires SegmentAt(pts, o, SpreadTouch(t, parent, times))
    requires ParentsLive(c, ps[o], parent) && SumsUp(c, ps[o], parent, times, f, exact)
    ensures o + (if t.Touch? then times else 1) <= |pts|
    ensures ParentsLive(c', ps[o + if t.Touch? then times else 1], parent)
    ensures SumsUp(c', ps[o + if t.Touch? then times else 1], parent, times, f, exact && (t.Expire? ==> c' == c))
  {
    match t
    case Touch(key, flow, now) =>
      SegmentCopies(pts, o, Touch(parent(key), flow, now), times);
      CopiesEffect(pcfg, pts, ps, o, o + times, Touch(parent(key), flow, now), f);
      RollUpTouch(ccfg, c, c', ps[o], ps[o + times], parent, times, t, f, exact);
    case Expire(now) =>
      assert pts[o + 0] == SpreadTouch(t, parent, times)[0];
      assert CleanStep(pcfg, pts, ps, o);
      RollUpSweep(ccfg, pcfg, c, c', ps[o], ps[o + 1], parent, times, now, f, exact);
  }

  /** Roll-up survives expiry: without capacity losses, a live child's parent is live, and a live
      parent that hears every flow `times` times counts at least `times` the sum of its live
      children, exactly so while nothing has expired. */
  lemma {:induction false} RollUp<K(!new), P(!new)>(ccfg: Config, pcfg: Config, ts: seq<Touch<K>>, pts: seq<Touch<P>>,
      parent: K -> P, times: nat,
      cs: seq<Entries<K>>, ps: seq<Entries<P>>, f: Field, n: nat)
    requires ccfg.inactivityTtl == pcfg.inactivityTtl && TimesInOrder(ts) && n <= |ts| && times >= 1
    requires CleanRun(ccfg, ts, cs) && CleanRun(pcfg, pts, ps) && IsSpread(pts, ts, parent, times)
    ensures Offset(ts, times, n) < |ps|
    ensures ParentsLive(cs[n], ps[Offset(ts, times, n)], parent)
    ensures SumsUp(cs[n], ps[Offset(ts, times, n)], parent, times, f, NothingExpired(ts, cs, n))
  {
    if n == 0 {
      assert forall q :: CountsGroup(cs[0], ps[0], parent, times, f, NothingExpired(ts, cs, n), q);
    } else {
      RollUp(ccfg, pcfg, ts, pts, parent, times, cs, ps, f, n - 1);
      StampedBefore(ccfg, ts, cs, n - 1, ts[n - 1].now);
      var exact := NothingExpired(ts, cs, n - 1);
      assert CleanStep(ccfg, ts, cs, n - 1) && SpreadAt(pts, ts, parent, times, n - 1);
      RollUpStep(ccfg, pcfg, pts, parent, times, cs[n - 1], cs[n], ps, ts[n - 1], Offset(ts, times, n - 1), f, exact);
      NothingExpiredStep(ts, cs, n);
    }
  }

  // ---- Part of a dimension ----

  ghost function Restricted<K(!new), V>(m: map<K, V>, keep: K -> bool): map<K, V> {
    map k | k in m && keep(k) :: m[k]
  }

  /** The operations on the kept keys, and every sweep. */
  ghost function Kept<K(!new)>(ts: seq<Touch<K>>, keep: K -> bool): seq<Touch<K>> {
    if ts == [] then []
    else Kept(ts[..|ts| - 1], keep) + if IsKept(ts[|ts| - 1], keep) then [ts[|ts| - 1]] else []
  }

  ghost predicate IsKept<K(!new)>(t: Touch<K>, keep: K -> bool) {
    t.Touch? ==> keep(t.key)
  }

  lemma {:induction false} RestrictedStep<K(!new)>(cfg: Config, m: Entries<K>, t: Touch<K>, m': Entries<K>, keep: K -> bool)
    requires Step(cfg, m, OpOf(t), m') && (t.Touch? ==> Room(cfg, m, t.key))
    ensures IsKept(t, keep) ==> Step(cfg, Restricted(m, keep), OpOf(t), Restricted(m', keep))
    ensures IsKept(t, keep) && t.Touch? ==> Room(cfg, Restricted(m, keep), t.key)
    ensures !IsKept(t, keep) ==> Restricted(m', keep) == Restricted(m, keep)
  {
    var r := Restricted(m, keep);
    SubsetSize(r.Keys, m.Keys);
    if t.Touch? && keep(t.key) {
      assert Touched(r, OpOf(t)) == Touched(m, OpOf(t));
      assert Restricted(m', keep) == r[t.key := Touched(r, OpOf(t))];
    }
  }

  lemma {:induction false} AppendStep<K(!new)>(cfg: Config, ts: seq<Touch<K>>, states: seq<Entries<K>>, t: Touch<K>,
      m': Entries<K>)
    requires IsTrafficRun(cfg, ts, states) && NoLoss(cfg, OpsOf(ts), states)
    requires Step(cfg, states[|ts|], OpOf(t), m') && (t.Touch? ==> Room(cfg, states[|ts|], t.key))
    ensures IsTrafficRun(cfg, ts + [t], states + [m']) && NoLoss(cfg, OpsOf(ts + [t]), states + [m'])
  {
    var all, run := ts + [t], states + [m'];
    assert all[..|ts|] == ts;
    assert OpsOf(all) == OpsOf(ts) + [OpOf(t)];
    forall i | 0 <= i < |all| ensures StepAt(cfg, OpsOf(all), run, i) {
      if i < |ts| { assert StepAt(cfg, OpsOf(ts), states, i); }
    }
  }

  lemma {:induction false} InitRun<K(!new)>(cfg: Config, ts: seq<Touch<K>>, states: seq<Entries<K>>)
    requires IsTrafficRun(cfg, ts, states) && NoLoss(cfg, OpsOf(ts), states) && ts != []
    ensures var n := |ts| - 1;
            IsTrafficRun(cfg, ts[..n], states[..n + 1]) && NoLoss(cfg, OpsOf(ts[..n]), states[..n + 1])
  {
    var n := |ts| - 1;
    assert OpsOf(ts) == OpsOf(ts[..n]) + [OpOf(ts[n])];
    assert forall i :: 0 <= i < n ==> OpsOf(ts[..n])[i] == OpsOf(ts)[i];
    var front, run := OpsOf(ts[..n]), states[..n + 1];
    forall i | 0 <= i < n ensures StepAt(cfg, front, run, i) {
      assert StepAt(cfg, OpsOf(ts), states, i);
    }
  }

  /** Without capacity losses, part of the keys behaves like a map of its own. */
  lemma {:induction false} RestrictedRun<K(!new)>(cfg: Config, ts: seq<Touch<K>>, states: seq<Entries<K>>, keep: K -> bool)
    returns (part: seq<Entries<K>>)
    requires IsTrafficRun(cfg, ts, states) && NoLoss(cfg, OpsOf(ts), states)
    ensures IsTrafficRun(cfg, Kept(ts, keep), part) && NoLoss(cfg, OpsOf(Kept(ts, keep)), part)
    ensures part[|Kept(ts, keep)|] == Restricted(states[|ts|], keep)
    decreases |ts|
  {
    if ts == [] {
      part := [map[]];
    } else {
      var n := |ts| - 1;
      InitRun(cfg, ts, states);
      part := RestrictedRun(cfg, ts[..n], states[..n + 1], keep);
      RunStep(cfg, ts, states, n);
      RestrictedStep(cfg, states[n], ts[n], states[n + 1], keep);
      if IsKept(ts[n], keep) {
        AppendStep(cfg, Kept(ts[..n], keep), part, ts[n], Restricted(states[n + 1], keep));
        part := part + [Restricted(states[n + 1], keep)];
        assert Kept(ts, keep) == Kept(ts[..n], keep) + [ts[n]];
      } else {
        assert Kept(ts, keep) == Kept(ts[..n], keep);
      }
    }
  }
}
