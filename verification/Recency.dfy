/** What is in a bounded map after a run, read off the operations alone. */
module Recency {
  import opened BoundedMap

  /** The index of the last upsert of `k` among the first n operations, or -1. */
  ghost function LastUpsert<K(!new), V(!new)>(ops: seq<Op<K, V>>, n: nat, k: K): (i: int)
    requires n <= |ops|
    ensures -1 <= i < n
    ensures i >= 0 ==> ops[i].Upsert? && ops[i].key == k
    ensures forall j :: i < j < n ==> !(ops[j].Upsert? && ops[j].key == k)
  {
    if n == 0 then -1
    else if ops[n - 1].Upsert? && ops[n - 1].key == k then n - 1
    else LastUpsert(ops, n - 1, k)
  }

  /** The distinct other keys upserted since the last upsert of `k`. */
  ghost function Since<K(!new), V(!new)>(ops: seq<Op<K, V>>, n: nat, k: K): set<K>
    requires n <= |ops|
  {
    set i | LastUpsert(ops, n, k) < i < n && ops[i].Upsert? :: ops[i].key
  }

  /** The distinct other keys upserted at a time after the last upsert of `k`, or at or after it. */
  ghost function Later<K(!new), V(!new)>(ops: seq<Op<K, V>>, n: nat, k: K): set<K>
    requires n <= |ops| && LastUpsert(ops, n, k) >= 0
  {
    set i | 0 <= i < n && ops[i].Upsert? && ops[i].key != k && ops[i].now > ops[LastUpsert(ops, n, k)].now :: ops[i].key
  }

  ghost function NotEarlier<K(!new), V(!new)>(ops: seq<Op<K, V>>, n: nat, k: K): set<K>
    requires n <= |ops| && LastUpsert(ops, n, k) >= 0
  {
    set i | 0 <= i < n && ops[i].Upsert? && ops[i].key != k && ops[i].now >= ops[LastUpsert(ops, n, k)].now :: ops[i].key
  }

  /** A sweep since the last upsert of `k` found it inactive. */
  ghost predicate Swept<K(!new), V(!new)>(cfg: Config, ops: seq<Op<K, V>>, n: nat, k: K)
    requires n <= |ops| && LastUpsert(ops, n, k) >= 0
  {
    exists i :: LastUpsert(ops, n, k) < i < n && ops[i].Sweep?
                && ops[i].now > ops[LastUpsert(ops, n, k)].now + cfg.inactivityTtl
  }

  ghost predicate Present<K(!new), V(!new)>(cfg: Config, ops: seq<Op<K, V>>, n: nat, k: K)
    requires n <= |ops|
  {
    LastUpsert(ops, n, k) >= 0 && |Since(ops, n, k)| < cfg.maxEntries && !Swept(cfg, ops, n, k)
  }

  ghost predicate UpsertsInOrder<K(!new), V(!new)>(ops: seq<Op<K, V>>) {
    forall i, j :: 0 <= i < j < |ops| && ops[i].Upsert? && ops[j].Upsert? ==> ops[i].now <= ops[j].now
  }

  ghost predicate StrictUpserts<K(!new), V(!new)>(ops: seq<Op<K, V>>) {
    forall i, j :: 0 <= i < j < |ops| && ops[i].Upsert? && ops[j].Upsert? ==> ops[i].now < ops[j].now
  }

  // ---- Facts about every run ----

  lemma {:induction false} CapacityStep<K(!new), V(!new)>(cfg: Config, m: map<K, Slot<V>>, op: Op<K, V>, m': map<K, Slot<V>>)
    requires Step(cfg, m, op, m') && |m| <= cfg.maxEntries
    ensures |m'| <= cfg.maxEntries
  {
    if op.Sweep? {
      SubsetSize(m'.Keys, m.Keys);
    } else if op.key !in m && |m| == cfg.maxEntries && cfg.maxEntries > 0 {
      var victim :| IsOldest(m, victim) && m' == (m - {victim})[op.key := Touched(m, op)];
      assert m'.Keys == m.Keys - {victim} + {op.key};
    }
  }

  /** The capacity is never exceeded. */
  lemma {:induction false} CapacityKept<K(!new), V(!new)>(cfg: Config, ops: seq<Op<K, V>>, states: seq<map<K, Slot<V>>>, n: nat)
    requires IsRun(cfg, ops, states) && n <= |ops|
    ensures |states[n]| <= cfg.maxEntries
  {
    if n > 0 {
      CapacityKept(cfg, ops, states, n - 1);
      assert StepAt(cfg, ops, states, n - 1);
      CapacityStep(cfg, states[n - 1], ops[n - 1], states[n]);
    }
  }

  /** What the outcome of an upsert says about the map before and after it. */
  lemma {:induction false} OutcomeMeaning<K(!new), V(!new)>(cfg: Config, m: map<K, Slot<V>>, op: Op<K, V>, m': map<K, Slot<V>>)
    requires op.Upsert? && Step(cfg, m, op, m') && |m| <= cfg.maxEntries
    ensures var outcome := OutcomeOf(cfg, m, op.key);
            && (outcome == Rejected <==> op.key !in m')
            && (outcome == InsertedByEviction <==> exists k :: k in m && k !in m')
            && (outcome == Updated <==> op.key in m)
            && (outcome == Inserted <==> op.key !in m && op.key in m' && m.Keys <= m'.Keys)
  {
    if cfg.maxEntries == 0 {
      assert |m.Keys| == 0 && m.Keys == {};
    } else if op.key !in m && |m| == cfg.maxEntries {
      var victim :| IsOldest(m, victim) && m' == (m - {victim})[op.key := Touched(m, op)];
      assert victim in m && victim !in m';
    }
  }

  /** An entry remembers the time of its key's last upsert. */
  lemma {:induction false} RemembersLast<K(!new), V(!new)>(cfg: Config, ops: seq<Op<K, V>>, states: seq<map<K, Slot<V>>>,
      n: nat, k: K)
    requires IsRun(cfg, ops, states) && n <= |ops| && k in states[n]
    ensures LastUpsert(ops, n, k) >= 0
    ensures states[n][k].lastUpdated == ops[LastUpsert(ops, n, k)].now
  {
    assert StepAt(cfg, ops, states, n - 1);
    if !(ops[n - 1].Upsert? && ops[n - 1].key == k) || cfg.maxEntries == 0 {
      RemembersLast(cfg, ops, states, n - 1, k);
      if cfg.maxEntries == 0 { CapacityKept(cfg, ops, states, n); }
    }
  }

  // ---- What must have happened to a key that is held ----

  /** One more operation of another key or a sweep leaves the last upsert of `k` where it was. */
  lemma {:induction false} SameLast<K(!new), V(!new)>(ops: seq<Op<K, V>>, n: nat, k: K)
    requires n < |ops| && !(ops[n].Upsert? && ops[n].key == k)
    ensures LastUpsert(ops, n + 1, k) == LastUpsert(ops, n, k)
  {
  }

  /** Everything upserted after a held key is held too. */
  ghost predicate LaterHeld<K(!new), V(!new)>(ops: seq<Op<K, V>>, m: map<K, Slot<V>>, n: nat, k: K)
    requires n <= |ops|
  {
    k in m && LastUpsert(ops, n, k) >= 0 ==> Later(ops, n, k) <= m.Keys
  }

  lemma {:induction false} NothingLater<K(!new), V(!new)>(ops: seq<Op<K, V>>, n: nat, k: K)
    requires n < |ops| && UpsertsInOrder(ops) && ops[n].Upsert? && ops[n].key == k
    ensures LastUpsert(ops, n + 1, k) == n && Later(ops, n + 1, k) == {}
  {
  }

  /** A key upserted after `k`, as an entry of a map that remembers upsert times. */
  lemma {:induction false} LaterStamp<K(!new), V(!new)>(ops: seq<Op<K, V>>, m: map<K, Slot<V>>, n: nat, k: K, x: K)
    requires n <= |ops| && UpsertsInOrder(ops) && Remembers(ops, m, n) && k in m && x in m && x in Later(ops, n, k)
    ensures m[x].lastUpdated > m[k].lastUpdated
  {
    var i :| 0 <= i < n && ops[i].Upsert? && ops[i].key == x && ops[i].now > ops[LastUpsert(ops, n, k)].now;
    assert i <= LastUpsert(ops, n, x);
  }

  lemma {:induction false} LaterKept<K(!new), V(!new)>(cfg: Config, ops: seq<Op<K, V>>, m: map<K, Slot<V>>, n: nat,
      m': map<K, Slot<V>>, k: K, x: K)
    requires n < |ops| && UpsertsInOrder(ops) && Remembers(ops, m, n) && Step(cfg, m, ops[n], m')
    requires k in m && k in m' && x in m && x in Later(ops, n, k)
    ensures x in m'
  {
    LaterStamp(ops, m, n, k, x);
  }

  lemma {:induction false} LaterHeldStep<K(!new), V(!new)>(cfg: Config, ops: seq<Op<K, V>>, m: map<K, Slot<V>>, n: nat,
      m': map<K, Slot<V>>, k: K)
    requires n < |ops| && UpsertsInOrder(ops) && Remembers(ops, m, n) && Step(cfg, m, ops[n], m')
    requires LaterHeld(ops, m, n, k) && (cfg.maxEntries == 0 ==> m == map[])
    ensures LaterHeld(ops, m', n + 1, k)
  {
    if k in m' {
      if ops[n].Upsert? && ops[n].key == k {
        NothingLater(ops, n, k);
      } else {
        SameLast(ops, n, k);
        forall x | x in Later(ops, n + 1, k) ensures x in m' {
          if x in Later(ops, n, k) {
            LaterKept(cfg, ops, m, n, m', k, x);
          } else {
            assert ops[n].Upsert? && ops[n].key == x;
          }
        }
      }
    }
  }

  lemma {:induction false} AllLaterHeld<K(!new), V(!new)>(cfg: Config, ops: seq<Op<K, V>>, states: seq<map<K, Slot<V>>>,
      n: nat, k: K)
    requires IsRun(cfg, ops, states) && n <= |ops| && UpsertsInOrder(ops)
    ensures LaterHeld(ops, states[n], n, k)
  {
    if n > 0 {
      AllLaterHeld(cfg, ops, states, n - 1, k);
      LaterHeldNext(cfg, ops, states, n - 1, k);
    }
  }

  lemma {:induction false} LaterHeldNext<K(!new), V(!new)>(cfg: Config, ops: seq<Op<K, V>>, states: seq<map<K, Slot<V>>>,
      n: nat, k: K)
    requires IsRun(cfg, ops, states) && n < |ops| && UpsertsInOrder(ops) && LaterHeld(ops, states[n], n, k)
    ensures LaterHeld(ops, states[n + 1], n + 1, k)
  {
    AllRemember(cfg, ops, states, n);
    CapacityKept(cfg, ops, states, n);
    assert StepAt(cfg, ops, states, n);
    LaterHeldStep(cfg, ops, states[n], n, states[n + 1], k);
  }

  lemma {:induction false} SweptStep<K(!new), V(!new)>(cfg: Config, ops: seq<Op<K, V>>, n: nat, k: K)
    requires n < |ops| && LastUpsert(ops, n, k) >= 0 && LastUpsert(ops, n + 1, k) == LastUpsert(ops, n, k)
    ensures Swept(cfg, ops, n + 1, k) <==>
            Swept(cfg, ops, n, k) || (ops[n].Sweep? && ops[n].now > ops[LastUpsert(ops, n, k)].now + cfg.inactivityTtl)
  {
  }

  lemma {:induction false} HeldNotSwept<K(!new), V(!new)>(cfg: Config, ops: seq<Op<K, V>>, states: seq<map<K, Slot<V>>>,
      n: nat, k: K)
    requires IsRun(cfg, ops, states) && n <= |ops| && k in states[n]
    ensures LastUpsert(ops, n, k) >= 0 && !Swept(cfg, ops, n, k)
  {
    RemembersLast(cfg, ops, states, n, k);
    assert StepAt(cfg, ops, states, n - 1);
    if LastUpsert(ops, n, k) < n - 1 {
      SameLast(ops, n - 1, k);
      HeldNotSwept(cfg, ops, states, n - 1, k);
      RemembersLast(cfg, ops, states, n - 1, k);
      SweptStep(cfg, ops, n - 1, k);
    }
  }

  /** With upserts in order of time, a held key has fewer than `maxEntries` distinct other keys
      upserted at a later time, and no sweep has found it inactive. */
  lemma {:induction false} HeldOnlyIf<K(!new), V(!new)>(cfg: Config, ops: seq<Op<K, V>>, states: seq<map<K, Slot<V>>>,
      n: nat, k: K)
    requires IsRun(cfg, ops, states) && n <= |ops| && UpsertsInOrder(ops) && k in states[n]
    ensures LastUpsert(ops, n, k) >= 0 && |Later(ops, n, k)| < cfg.maxEntries && !Swept(cfg, ops, n, k)
  {
    HeldNotSwept(cfg, ops, states, n, k);
    AllLaterHeld(cfg, ops, states, n, k);
    CapacityKept(cfg, ops, states, n);
    SubsetSize(Later(ops, n, k), states[n].Keys - {k});
  }

  // ---- What is enough for a key to be held ----

  ghost predicate Remembers<K(!new), V(!new)>(ops: seq<Op<K, V>>, m: map<K, Slot<V>>, n: nat)
    requires n <= |ops|
  {
    forall x :: x in m ==> LastUpsert(ops, n, x) >= 0 && m[x].lastUpdated == ops[LastUpsert(ops, n, x)].now
  }

  lemma {:induction false} AllRemember<K(!new), V(!new)>(cfg: Config, ops: seq<Op<K, V>>, states: seq<map<K, Slot<V>>>, n: nat)
    requires IsRun(cfg, ops, states) && n <= |ops|
    ensures Remembers(ops, states[n], n)
  {
    var m := states[n];
    forall x | x in m ensures LastUpsert(ops, n, x) >= 0 && m[x].lastUpdated == ops[LastUpsert(ops, n, x)].now {
      RemembersLast(cfg, ops, states, n, x);
    }
  }

  /** Evicting `k` takes a full map of keys no older, and a newcomer that is no older either. */
  lemma {:induction false} EvictionTakes<K(!new), V(!new)>(cfg: Config, ops: seq<Op<K, V>>, m: map<K, Slot<V>>, n: nat, k: K)
    requires n < |ops| && UpsertsInOrder(ops) && Remembers(ops, m, n) && IsOldest(m, k)
    requires ops[n].Upsert? && ops[n].key !in m && |m| == cfg.maxEntries
    ensures |NotEarlier(ops, n + 1, k)| >= cfg.maxEntries
  {
    SameLast(ops, n, k);
    var others := m.Keys - {k} + {ops[n].key};
    forall x | x in others ensures x in NotEarlier(ops, n + 1, k) {
      if x in m {
        var i := LastUpsert(ops, n, x);
        assert ops[i].Upsert? && ops[i].key == x && ops[i].now >= ops[LastUpsert(ops, n, k)].now;
      }
    }
    SubsetSize(others, NotEarlier(ops, n + 1, k));
  }

  lemma {:induction false} NotEarlierGrows<K(!new), V(!new)>(ops: seq<Op<K, V>>, n: nat, k: K)
    requires n < |ops| && LastUpsert(ops, n, k) >= 0 && LastUpsert(ops, n + 1, k) == LastUpsert(ops, n, k)
    ensures |NotEarlier(ops, n, k)| <= |NotEarlier(ops, n + 1, k)|
  {
    SubsetSize(NotEarlier(ops, n, k), NotEarlier(ops, n + 1, k));
  }

  lemma {:induction false} HeldStep<K(!new), V(!new)>(cfg: Config, ops: seq<Op<K, V>>, m: map<K, Slot<V>>, n: nat,
      m': map<K, Slot<V>>, k: K)
    requires n < |ops| && UpsertsInOrder(ops) && Remembers(ops, m, n) && |m| <= cfg.maxEntries && Step(cfg, m, ops[n], m')
    requires k in m && !(ops[n].Upsert? && ops[n].key == k)
    requires LastUpsert(ops, n + 1, k) == LastUpsert(ops, n, k)
    requires |NotEarlier(ops, n + 1, k)| < cfg.maxEntries && !Swept(cfg, ops, n + 1, k)
    ensures k in m'
  {
    SweptStep(cfg, ops, n, k);
    if ops[n].Upsert? && ops[n].key !in m && |m| == cfg.maxEntries && IsOldest(m, k) {
      EvictionTakes(cfg, ops, m, n, k);
    }
  }

  /** A key that few others have been upserted with or after, and that no sweep has found inactive. */
  ghost predicate Retains<K(!new), V(!new)>(cfg: Config, ops: seq<Op<K, V>>, n: nat, k: K)
    requires n <= |ops|
  {
    LastUpsert(ops, n, k) >= 0 && |NotEarlier(ops, n, k)| < cfg.maxEntries && !Swept(cfg, ops, n, k)
  }

  // Said of every number equal to n, so that a proof unfolds it only where it names it.
  ghost predicate Retained<K(!new), V(!new)>(cfg: Config, ops: seq<Op<K, V>>, n: nat, k: K) {
    0 < n <= |ops| && forall m: nat :: m == n ==> Retains(cfg, ops, m, k)
  }

  lemma {:induction false} RetainedBefore<K(!new), V(!new)>(cfg: Config, ops: seq<Op<K, V>>, n: nat, k: K)
    requires n < |ops| && Retained(cfg, ops, n + 1, k) && !(ops[n].Upsert? && ops[n].key == k)
    ensures Retained(cfg, ops, n, k)
  {
    assert Retains(cfg, ops, n + 1, k);
    SameLast(ops, n, k);
    SweptStep(cfg, ops, n, k);
    NotEarlierGrows(ops, n, k);
    assert Retains(cfg, ops, n, k);
  }

  lemma {:induction false} HeldAtOnce<K(!new), V(!new)>(cfg: Config, ops: seq<Op<K, V>>, states: seq<map<K, Slot<V>>>, n: nat, k: K)
    requires IsRun(cfg, ops, states) && n < |ops| && Retained(cfg, ops, n + 1, k) && ops[n].Upsert? && ops[n].key == k
    ensures k in states[n + 1]
  {
    assert Retains(cfg, ops, n + 1, k);
    assert StepAt(cfg, ops, states, n);
  }

  lemma {:induction false} HeldOn<K(!new), V(!new)>(cfg: Config, ops: seq<Op<K, V>>, states: seq<map<K, Slot<V>>>, n: nat, k: K)
    requires IsRun(cfg, ops, states) && n < |ops| && UpsertsInOrder(ops) && Retained(cfg, ops, n + 1, k)
    requires k in states[n] && !(ops[n].Upsert? && ops[n].key == k)
    ensures k in states[n + 1]
  {
    assert Retains(cfg, ops, n + 1, k);
    SameLast(ops, n, k);
    AllRemember(cfg, ops, states, n);
    CapacityKept(cfg, ops, states, n);
    assert StepAt(cfg, ops, states, n);
    HeldStep(cfg, ops, states[n], n, states[n + 1], k);
  }

  lemma {:induction false} RetainedHeld<K(!new), V(!new)>(cfg: Config, ops: seq<Op<K, V>>, states: seq<map<K, Slot<V>>>, n: nat, k: K)
    requires IsRun(cfg, ops, states) && UpsertsInOrder(ops) && Retained(cfg, ops, n, k)
    ensures k in states[n]
  {
    if ops[n - 1].Upsert? && ops[n - 1].key == k {
      HeldAtOnce(cfg, ops, states, n - 1, k);
    } else {
      RetainedBefore(cfg, ops, n - 1, k);
      RetainedHeld(cfg, ops, states, n - 1, k);
      HeldOn(cfg, ops, states, n - 1, k);
    }
  }

  /** With upserts in order of time, a key with fewer than `maxEntries` distinct other keys upserted
      at its time or later, and not found inactive since, is held. */
  lemma {:induction false} HeldIf<K(!new), V(!new)>(cfg: Config, ops: seq<Op<K, V>>, states: seq<map<K, Slot<V>>>,
      n: nat, k: K)
    requires IsRun(cfg, ops, states) && n <= |ops| && UpsertsInOrder(ops)
    requires LastUpsert(ops, n, k) >= 0 && |NotEarlier(ops, n, k)| < cfg.maxEntries && !Swept(cfg, ops, n, k)
    ensures k in states[n]
  {
    assert Retains(cfg, ops, n, k);
    RetainedHeld(cfg, ops, states, n, k);
  }

  // ---- Without ties ----

  ghost predicate Characterised<K(!new), V(!new)>(cfg: Config, ops: seq<Op<K, V>>, m: map<K, Slot<V>>, n: nat)
    requires n <= |ops|
  {
    forall k :: k in m <==> Present(cfg, ops, n, k)
  }

  lemma {:induction false} NoTies<K(!new), V(!new)>(ops: seq<Op<K, V>>, n: nat, k: K)
    requires n <= |ops| && StrictUpserts(ops) && LastUpsert(ops, n, k) >= 0
    ensures Later(ops, n, k) == Since(ops, n, k) == NotEarlier(ops, n, k)
  {
    var a := LastUpsert(ops, n, k);
    forall i | 0 <= i < n && ops[i].Upsert? && ops[i].key != k
      ensures i > a <==> ops[i].now > ops[a].now
      ensures i > a <==> ops[i].now >= ops[a].now
    {
      assert i != a;
    }
    assert Later(ops, n, k) <= Since(ops, n, k) <= Later(ops, n, k);
    assert NotEarlier(ops, n, k) <= Since(ops, n, k) <= NotEarlier(ops, n, k);
  }

  /** Which keys a run with strictly increasing upsert times holds, whatever its sweeps: those
      with fewer than `maxEntries` distinct other keys upserted since, not found inactive since. */
  lemma {:induction false} RecencyCharacterisation<K(!new), V(!new)>(cfg: Config, ops: seq<Op<K, V>>,
      states: seq<map<K, Slot<V>>>, n: nat)
    requires IsRun(cfg, ops, states) && n <= |ops| && StrictUpserts(ops)
    ensures Characterised(cfg, ops, states[n], n)
  {
    forall k ensures k in states[n] <==> Present(cfg, ops, n, k) {
      if k in states[n] {
        HeldOnlyIf(cfg, ops, states, n, k);
        NoTies(ops, n, k);
      } else if Present(cfg, ops, n, k) {
        NoTies(ops, n, k);
        HeldIf(cfg, ops, states, n, k);
      }
    }
  }

  // ---- Values ----

  /** The updates of `k` among operations a..n applied in order. */
  ghost function Folded<K(!new), V(!new)>(ops: seq<Op<K, V>>, a: nat, n: nat, k: K, v: V): V
    requires a <= n <= |ops|
  {
    if n == a then v
    else
      var before := Folded(ops, a, n - 1, k, v);
      if ops[n - 1].Upsert? && ops[n - 1].key == k then ops[n - 1].update(before) else before
  }

  /** `k` was admitted by operation `a` and has been held ever since. */
  ghost predicate HeldSince<K(!new), V(!new)>(ops: seq<Op<K, V>>, states: seq<map<K, Slot<V>>>, a: nat, n: nat, k: K)
    requires |states| == |ops| + 1
  {
    && a < n <= |ops| && ops[a].Upsert? && ops[a].key == k
    && k !in states[a] && forall i :: a < i <= n ==> k in states[i]
  }

  /** An entry's value is exactly the fold of its key's updates since it was last admitted. */
  lemma {:induction false} ValueIsFold<K(!new), V(!new)>(cfg: Config, ops: seq<Op<K, V>>, states: seq<map<K, Slot<V>>>,
      n: nat, k: K)
    returns (a: nat)
    requires IsRun(cfg, ops, states) && n <= |ops| && k in states[n]
    ensures HeldSince(ops, states, a, n, k)
    ensures states[n][k].value == Folded(ops, a, n, k, ops[a].initial)
  {
    assert StepAt(cfg, ops, states, n - 1);
    CapacityKept(cfg, ops, states, n);
    StepValue(cfg, states[n - 1], ops[n - 1], states[n], k);
    if k in states[n - 1] {
      a := ValueIsFold(cfg, ops, states, n - 1, k);
    } else {
      a := n - 1;
    }
  }

  /** What an operation makes of the value of a key it leaves in the map. */
  lemma {:induction false} StepValue<K(!new), V(!new)>(cfg: Config, m: map<K, Slot<V>>, op: Op<K, V>, m': map<K, Slot<V>>, k: K)
    requires Step(cfg, m, op, m') && k in m' && |m'| <= cfg.maxEntries
    ensures k in m ==> m'[k].value == if op.Upsert? && op.key == k then op.update(m[k].value) else m[k].value
    ensures k !in m ==> op.Upsert? && op.key == k && m'[k].value == op.update(op.initial)
  {
    SubsetSize({k}, m'.Keys);
  }
}
