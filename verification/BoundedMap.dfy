/** The capacity-limited map with least-recently-updated eviction and
    independent inactivity expiry. */
module BoundedMap {
  import opened Wrappers

  datatype Slot<V> = Slot(value: V, lastUpdated: nat)

  datatype Config = Config(maxEntries: nat, inactivityTtl: nat)

  datatype UpsertOutcome = Inserted | Updated | InsertedByEviction | Rejected

  datatype Op<!K, !V> = Upsert(key: K, now: nat, initial: V, update: V -> V) | Sweep(now: nat)

  /** `Instant::duration_since`: zero when the earlier instant is not earlier. */
  function Age(now: nat, then_: nat): nat {
    if now < then_ then 0 else now - then_
  }

  predicate IsOldest<K(!new), V>(m: map<K, Slot<V>>, victim: K) {
    victim in m && forall k :: k in m ==> m[victim].lastUpdated <= m[k].lastUpdated
  }

  /** What an upsert of a key reports: presence first, then capacity. */
  function OutcomeOf<K, V>(cfg: Config, m: map<K, Slot<V>>, key: K): UpsertOutcome {
    if cfg.maxEntries == 0 then Rejected
    else if key in m then Updated
    else if |m| < cfg.maxEntries then Inserted
    else InsertedByEviction
  }

  /** The entry for the key of an upsert, after it. */
  function Touched<K, V>(m: map<K, Slot<V>>, op: Op<K, V>): Slot<V>
    requires op.Upsert?
  {
    Slot(op.update(if op.key in m then m[op.key].value else op.initial), op.now)
  }

  /** What one operation may do. Among equally old entries any may be evicted. */
  ghost predicate Step<K(!new), V(!new)>(cfg: Config, m: map<K, Slot<V>>, op: Op<K, V>, m': map<K, Slot<V>>) {
    match op
    case Sweep(now) => m' == map k | k in m && now <= m[k].lastUpdated + cfg.inactivityTtl :: m[k]
    case Upsert(key, _, _, _) =>
      if cfg.maxEntries == 0 then m' == m
      else if key in m || |m| < cfg.maxEntries then m' == m[key := Touched(m, op)]
      else exists victim :: IsOldest(m, victim) && m' == (m - {victim})[key := Touched(m, op)]
  }

  /** A run: the states before the first and after each operation. */
  ghost predicate IsRun<K(!new), V(!new)>(cfg: Config, ops: seq<Op<K, V>>, states: seq<map<K, Slot<V>>>) {
    && |states| == |ops| + 1
    && states[0] == map[]
    && forall i :: 0 <= i < |ops| ==> StepAt(cfg, ops, states, i)
  }

  ghost predicate StepAt<K(!new), V(!new)>(cfg: Config, ops: seq<Op<K, V>>, states: seq<map<K, Slot<V>>>, i: nat)
    requires i < |ops| && |states| == |ops| + 1
  {
    Step(cfg, states[i], ops[i], states[i + 1])
  }

  class BoundedMap<K(!new, ==), V(!new)> {
    const cfg: Config
    var entries: map<K, Slot<V>>
    /** Every operation so far and the states it went through. */
    ghost var ops: seq<Op<K, V>>
    ghost var states: seq<map<K, Slot<V>>>

    ghost predicate Valid()
      reads this
    {
      IsRun(cfg, ops, states) && entries == states[|ops|]
    }

    constructor (cfg: Config)
      ensures Valid() && this.cfg == cfg && ops == [] && entries == map[]
    {
      this.cfg, entries, ops, states := cfg, map[], [], [map[]];
    }

    ghost method Log(op: Op<K, V>)
      requires IsRun(cfg, ops, states) && Step(cfg, states[|ops|], op, entries)
      modifies this`ops, this`states
      ensures Valid() && ops == old(ops) + [op] && states == old(states) + [entries]
    {
      ghost var all, run := ops + [op], states + [entries];
      forall i | 0 <= i < |all| ensures StepAt(cfg, all, run, i) {
        if i < |ops| { assert StepAt(cfg, ops, states, i); }
      }
      ops, states := all, run;
    }

    /** Visits the entries in an arbitrary order and keeps the first oldest one. */
    method LeastRecentlyUpdatedKey() returns (oldest: Option<K>)
      ensures oldest.None? <==> entries == map[]
      ensures oldest.Some? ==> IsOldest(entries, oldest.value)
    {
      oldest := None;
      var rest := entries.Keys;
      while rest != {}
        invariant rest <= entries.Keys
        invariant oldest.None? <==> rest == entries.Keys
        invariant oldest.Some? ==> oldest.value in entries
        invariant oldest.Some? ==> forall k :: k in entries && k !in rest ==> entries[oldest.value].lastUpdated <= entries[k].lastUpdated
        decreases |rest|
      {
        var k :| k in rest;
        if oldest.None? || entries[k].lastUpdated < entries[oldest.value].lastUpdated {
          oldest := Some(k);
        }
        rest := rest - {k};
      }
    }

    /** Inserts or updates a key, evicting a least recently updated entry when full. */
    method Upsert(key: K, now: nat, initial: V, update: V -> V) returns (outcome: UpsertOutcome)
      requires Valid()
      modifies this
      ensures Valid() && ops == old(ops) + [Op.Upsert(key, now, initial, update)] && states == old(states) + [entries]
      ensures outcome == OutcomeOf(cfg, old(entries), key)
    {
      ghost var op := Op.Upsert(key, now, initial, update);
      if cfg.maxEntries == 0 {
        outcome := Rejected;
      } else if key in entries {
        entries := entries[key := Slot(update(entries[key].value), now)];
        outcome := Updated;
      } else {
        outcome := Inserted;
        var kept := entries;
        if |entries| >= cfg.maxEntries {
          var victim := LeastRecentlyUpdatedKey();
          kept := entries - {victim.value};
          outcome := InsertedByEviction;
        }
        entries := kept[key := Slot(update(initial), now)];
      }
      Log(op);
    }

    /** Removes every entry older than the time to live, and counts them. */
    method ExpireInactive(now: nat) returns (removed: nat)
      requires Valid()
      modifies this
      ensures Valid() && ops == old(ops) + [Sweep(now)] && states == old(states) + [entries]
      ensures entries == map k | k in old(entries) && now <= old(entries)[k].lastUpdated + cfg.inactivityTtl :: old(entries)[k]
      ensures removed == |old(entries)| - |entries|
    {
      ghost var before := entries;
      var kept := map k | k in entries && Age(now, entries[k].lastUpdated) <= cfg.inactivityTtl :: entries[k];
      assert kept.Keys <= entries.Keys;
      SubsetSize(kept.Keys, entries.Keys);
      removed := |entries| - |kept|;
      entries := kept;
      Log(Sweep(now));
    }
  }

  lemma {:induction false} SubsetSize<K>(a: set<K>, b: set<K>)
    requires a <= b
    ensures |a| <= |b|
  {
    assert b == a + (b - a);
  }
}
