/** The rate limiter over whole runs of requests. */
module LimiterRuns {
  import Bits
  import opened RateLimiter

  ghost predicate Ordered<K>(reqs: seq<Request<K>>) {
    forall i, j :: 0 <= i <= j < |reqs| ==> reqs[i].now <= reqs[j].now
  }

  /** The answer to the last request of a run. */
  ghost function LastAnswer<K>(quota: Quota, maxKeys: nat, reqs: seq<Request<K>>): Answer
    requires reqs != []
  {
    var last := reqs[|reqs| - 1];
    CheckAnswer(quota, maxKeys, TableAfter(quota, maxKeys, reqs[..|reqs| - 1]), last.key, last.now)
  }

  // ---- Arithmetic of the quota ----

  lemma {:induction false} AllowedBound(quota: Quota, tat: nat, now: nat)
    ensures Decide(quota, tat, now) == Allowed <==> tat <= now + quota.Tolerance()
  {
  }

  // ---- The table ----

  lemma {:induction false} SaturatedExactly<K>(quota: Quota, maxKeys: nat, tats: map<K, nat>, key: K, now: nat)
    requires |tats| <= maxKeys
    ensures CheckAnswer(quota, maxKeys, tats, key, now) == Saturated
       <==> key !in tats && |tats| == maxKeys && forall k :: k in tats ==> tats[k] > now
  {
    var swept := Sweep(tats, now);
    var gone := tats.Keys - swept.Keys;
    assert tats.Keys == swept.Keys + gone;
    assert |tats.Keys| == |swept.Keys| + |gone|;
    if |swept| == |tats| {
      assert gone == {};
      assert swept == tats;
    } else {
      assert swept.Keys != tats.Keys;
    }
  }

  /** The table never exceeds its bound. */
  lemma {:induction false} TableBounded<K>(quota: Quota, maxKeys: nat, reqs: seq<Request<K>>)
    requires maxKeys >= 1
    ensures |TableAfter(quota, maxKeys, reqs)| <= maxKeys
  {
    if reqs != [] {
      var init := reqs[..|reqs| - 1];
      TableBounded(quota, maxKeys, init);
      SweepSize(TableAfter(quota, maxKeys, init), reqs[|reqs| - 1].now);
    }
  }

  // ---- Refinement of a limiter that never sweeps ----

  ghost function UnboundedTable<K>(quota: Quota, reqs: seq<Request<K>>): map<K, nat> {
    if reqs == [] then map[]
    else
      var tats, last := UnboundedTable(quota, reqs[..|reqs| - 1]), reqs[|reqs| - 1];
      var tat := Tat(tats, last.key, last.now);
      if Decide(quota, tat, last.now) == Allowed then tats[last.key := tat + quota.EmissionInterval()] else tats
  }

  ghost function UnboundedAnswers<K>(quota: Quota, reqs: seq<Request<K>>): seq<Answer> {
    if reqs == [] then []
    else
      var init, last := reqs[..|reqs| - 1], reqs[|reqs| - 1];
      UnboundedAnswers(quota, init) + [Decide(quota, Tat(UnboundedTable(quota, init), last.key, last.now), last.now)]
  }

  /** The requests of a run that were not refused for a full table, and their answers. */
  ghost function Served<K>(quota: Quota, maxKeys: nat, reqs: seq<Request<K>>): seq<Request<K>> {
    if reqs == [] then []
    else Served(quota, maxKeys, reqs[..|reqs| - 1]) + if LastAnswer(quota, maxKeys, reqs) == Saturated then [] else [reqs[|reqs| - 1]]
  }

  ghost function ServedAnswers<K>(quota: Quota, maxKeys: nat, reqs: seq<Request<K>>): seq<Answer> {
    if reqs == [] then []
    else ServedAnswers(quota, maxKeys, reqs[..|reqs| - 1]) +
         if LastAnswer(quota, maxKeys, reqs) == Saturated then [] else [LastAnswer(quota, maxKeys, reqs)]
  }

  /** The bounded table is the unbounded one without some keys whose time has passed. */
  ghost predicate Simulates<K(!new)>(bounded: map<K, nat>, unbounded: map<K, nat>, now: nat) {
    && (forall k :: k in bounded ==> k in unbounded && unbounded[k] == bounded[k])
    && (forall k :: k in unbounded && k !in bounded ==> unbounded[k] <= now)
  }

  lemma {:induction false} SimulatesSweep<K(!new)>(maxKeys: nat, bounded: map<K, nat>, unbounded: map<K, nat>, key: K, now: nat)
    requires Simulates(bounded, unbounded, now)
    ensures Simulates(Swept(maxKeys, bounded, key, now), unbounded, now)
    ensures Tat(Swept(maxKeys, bounded, key, now), key, now) == Tat(unbounded, key, now)
  {
  }

  lemma {:induction false} SimulatesRun<K(!new)>(quota: Quota, maxKeys: nat, reqs: seq<Request<K>>, now: nat)
    requires Ordered(reqs) && (reqs != [] ==> reqs[|reqs| - 1].now <= now)
    ensures Simulates(TableAfter(quota, maxKeys, reqs), UnboundedTable(quota, Served(quota, maxKeys, reqs)), now)
  {
    if reqs != [] {
      var init, last := reqs[..|reqs| - 1], reqs[|reqs| - 1];
      SimulatesRun(quota, maxKeys, init, last.now);
      var bounded, unbounded := TableAfter(quota, maxKeys, init), UnboundedTable(quota, Served(quota, maxKeys, init));
      SimulatesSweep(maxKeys, bounded, unbounded, last.key, last.now);
      var served := Served(quota, maxKeys, init);
      assert (served + [last])[..|served|] == served;
      assert served + [] == served;
    }
  }

  /** Sweeping is invisible: every answer but `Saturated` is that of a limiter that never sweeps
      and never saw the saturated requests. */
  lemma {:induction false} BoundedRefinesUnbounded<K(!new)>(quota: Quota, maxKeys: nat, reqs: seq<Request<K>>)
    requires Ordered(reqs)
    ensures ServedAnswers(quota, maxKeys, reqs) == UnboundedAnswers(quota, Served(quota, maxKeys, reqs))
  {
    if reqs != [] {
      var init, last := reqs[..|reqs| - 1], reqs[|reqs| - 1];
      BoundedRefinesUnbounded(quota, maxKeys, init);
      SimulatesRun(quota, maxKeys, init, last.now);
      var served := Served(quota, maxKeys, init);
      SimulatesSweep(maxKeys, TableAfter(quota, maxKeys, init), UnboundedTable(quota, served), last.key, last.now);
      assert (served + [last])[..|served|] == served;
      assert served + [] == served;
    }
  }

  // ---- Conformance ----

  /** The requests of `key` allowed by a run at times between s and t. */
  ghost function AllowedIn<K>(quota: Quota, maxKeys: nat, reqs: seq<Request<K>>, key: K, s: nat, t: nat): nat {
    if reqs == [] then 0
    else
      var last := reqs[|reqs| - 1];
      AllowedIn(quota, maxKeys, reqs[..|reqs| - 1], key, s, t) +
      if last.key == key && s <= last.now <= t && LastAnswer(quota, maxKeys, reqs) == Allowed then 1 else 0
  }

  /** One call moves the arrival time of any key forward: by one interval for the key it allows,
      which was then within the tolerance, and never back, not even by a sweep. */
  lemma {:induction false} ArrivalTimeStep<K>(quota: Quota, maxKeys: nat, tats: map<K, nat>, req: Request<K>, key: K, now: nat)
    requires req.now <= now
    ensures var allowed := CheckAnswer(quota, maxKeys, tats, req.key, req.now) == Allowed && req.key == key;
            var before, after := Tat(tats, key, req.now), Tat(CheckTable(quota, maxKeys, tats, req.key, req.now), key, now);
            && before + (if allowed then quota.EmissionInterval() else 0) <= after
            && req.now <= before
            && (allowed ==> before <= req.now + quota.Tolerance())
  {
  }

  lemma {:induction false} AddInterval(n: nat, interval: nat)
    ensures (n + 1) * interval == n * interval + interval && 1 * interval == interval
  {
  }

  /** Each allowed request since s has pushed the arrival time one interval further. */
  lemma {:induction false} ArrivalTimeGrows<K>(quota: Quota, maxKeys: nat, reqs: seq<Request<K>>, key: K, s: nat, t: nat,
      now: nat)
    requires Ordered(reqs) && (reqs != [] ==> reqs[|reqs| - 1].now <= now)
    ensures var n, interval := AllowedIn(quota, maxKeys, reqs, key, s, t), quota.EmissionInterval();
            n > 0 ==> s + n * interval <= Tat(TableAfter(quota, maxKeys, reqs), key, now)
  {
    if reqs != [] {
      var init, last := reqs[..|reqs| - 1], reqs[|reqs| - 1];
      ArrivalTimeGrows(quota, maxKeys, init, key, s, t, last.now);
      ArrivalTimeStep(quota, maxKeys, TableAfter(quota, maxKeys, init), last, key, now);
      AddInterval(AllowedIn(quota, maxKeys, init, key, s, t), quota.EmissionInterval());
    }
  }

  /** GCRA conformance, in every run and every interval: beyond the burst, one request per
      emission interval elapsed. */
  lemma {:induction false} Conformance<K>(quota: Quota, maxKeys: nat, reqs: seq<Request<K>>, key: K, s: nat, t: nat)
    requires Ordered(reqs) && s <= t
    ensures (AllowedIn(quota, maxKeys, reqs, key, s, t) - quota.Burst()) * quota.EmissionInterval() <= t - s
  {
    if reqs == [] {
      NothingAllowed(quota.Burst(), quota.EmissionInterval());
    } else {
      var init, last := reqs[..|reqs| - 1], reqs[|reqs| - 1];
      if last.key == key && s <= last.now <= t && LastAnswer(quota, maxKeys, reqs) == Allowed {
        AllowedWithin(quota, maxKeys, init, last, key, s, t);
        ConformanceStep(AllowedIn(quota, maxKeys, init, key, s, t), quota.Burst(), quota.EmissionInterval(), quota.Tolerance(),
                        s, t, last.now);
      } else {
        Conformance(quota, maxKeys, init, key, s, t);
      }
    }
  }

  /** When a request is allowed, what was allowed since s fits between s and now plus the tolerance. */
  lemma {:induction false} AllowedWithin<K>(quota: Quota, maxKeys: nat, reqs: seq<Request<K>>, last: Request<K>, key: K, s: nat, t: nat)
    requires Ordered(reqs) && (reqs != [] ==> reqs[|reqs| - 1].now <= last.now) && last.key == key
    requires CheckAnswer(quota, maxKeys, TableAfter(quota, maxKeys, reqs), last.key, last.now) == Allowed
    ensures var n := AllowedIn(quota, maxKeys, reqs, key, s, t);
            n > 0 ==> s + n * quota.EmissionInterval() <= last.now + quota.Tolerance()
  {
    ArrivalTimeGrows(quota, maxKeys, reqs, key, s, t, last.now);
    ArrivalTimeStep(quota, maxKeys, TableAfter(quota, maxKeys, reqs), last, key, last.now);
  }

  lemma {:induction false} NothingAllowed(burst: nat, interval: nat)
    ensures (0 - burst) * interval <= 0
  {
  }

  lemma {:induction false} ConformanceStep(n: nat, burst: nat, interval: nat, tolerance: nat, s: nat, t: nat, now: nat)
    requires burst >= 1 && tolerance == interval * (burst - 1)
    requires s <= now <= t && (n > 0 ==> s + n * interval <= now + tolerance)
    ensures (n + 1 - burst) * interval <= t - s
  {
    assert (n + 1 - burst) * interval == n * interval - interval * (burst - 1);
    assert n == 0 ==> n * interval == 0;
  }

  /** The bound with the configured limit itself in place of the burst. */
  ghost predicate LiteralBound<K(!new)>(quota: Quota) {
    forall maxKeys: nat, reqs: seq<Request<K>>, key: K, s: nat, t: nat :: maxKeys >= 1 && Ordered(reqs) && s <= t ==>
      (AllowedIn(quota, maxKeys, reqs, key, s, t) - quota.limit) * quota.EmissionInterval() <= t - s
  }

  /** A limit of zero still allows one request: the literal bound holds exactly when the limit is
      at least one or the window is empty. */
  lemma {:induction false} LiteralBoundExactly<K(!new)>(quota: Quota, key: K)
    ensures LiteralBound<K>(quota) <==> quota.limit >= 1 || quota.window == 0
  {
    if quota.limit >= 1 || quota.window == 0 {
      forall maxKeys: nat, reqs: seq<Request<K>>, k: K, s: nat, t: nat | maxKeys >= 1 && Ordered(reqs) && s <= t
        ensures (AllowedIn(quota, maxKeys, reqs, k, s, t) - quota.limit) * quota.EmissionInterval() <= t - s
      {
        Conformance(quota, maxKeys, reqs, k, s, t);
        if quota.limit == 0 {
          assert quota.EmissionInterval() == 0;
        }
      }
    } else {
      var one := [Request(key, 0)];
      assert one[..0] == [];
      assert quota.EmissionInterval() == quota.window;
      assert AllowedIn(quota, 1, one, key, 0, 0) == 1;
      assert Ordered(one);
    }
  }

  // ---- A burst at one instant ----

  /** The table after n calls for one key at one instant. */
  ghost function Repeated<K>(quota: Quota, maxKeys: nat, tats: map<K, nat>, key: K, now: nat, n: nat): map<K, nat> {
    if n == 0 then tats else CheckTable(quota, maxKeys, Repeated(quota, maxKeys, tats, key, now, n - 1), key, now)
  }

  ghost function RepeatedAnswer<K>(quota: Quota, maxKeys: nat, tats: map<K, nat>, key: K, now: nat, n: nat): Answer {
    CheckAnswer(quota, maxKeys, Repeated(quota, maxKeys, tats, key, now, n), key, now)
  }

  /** A key whose time has passed, in a table with room for it. */
  ghost predicate Fresh<K>(quota: Quota, maxKeys: nat, tats: map<K, nat>, key: K, now: nat) {
    Tat(tats, key, now) == now && CheckAnswer(quota, maxKeys, tats, key, now) != Saturated
  }

  lemma {:induction false} BurstDecision(quota: Quota, now: nat, n: nat)
    requires n <= quota.Burst()
    ensures n < quota.Burst() ==> Decide(quota, now + n * quota.EmissionInterval(), now) == Allowed
    ensures n == quota.Burst() && quota.EmissionInterval() > 0 ==>
              Decide(quota, now + n * quota.EmissionInterval(), now) == RetryAfter(quota.EmissionInterval())
  {
    AllowedBound(quota, now + n * quota.EmissionInterval(), now);
    BurstMultiples(n, quota.Burst(), quota.EmissionInterval());
  }

  lemma {:induction false} BurstMultiples(n: nat, burst: nat, interval: nat)
    requires 1 <= burst && n <= burst
    ensures n < burst ==> n * interval <= interval * (burst - 1)
    ensures n == burst ==> n * interval == interval * (burst - 1) + interval
  {
    if n < burst {
      assert interval * (burst - 1) == n * interval + interval * (burst - 1 - n);
      assert interval * (burst - 1 - n) >= 0;
    } else {
      assert interval * (burst - 1) == interval * burst - interval;
    }
  }

  lemma {:induction false} BurstTable<K>(quota: Quota, maxKeys: nat, tats: map<K, nat>, key: K, now: nat, n: nat)
    requires Fresh(quota, maxKeys, tats, key, now) && 1 <= n <= quota.Burst()
    ensures var after := Repeated(quota, maxKeys, tats, key, now, n);
            key in after && after[key] == now + n * quota.EmissionInterval()
  {
    BurstDecision(quota, now, n - 1);
    AddInterval(n - 1, quota.EmissionInterval());
    if n == 1 {
      assert Repeated(quota, maxKeys, tats, key, now, 0) == tats;
      assert 0 * quota.EmissionInterval() == 0;
    } else {
      BurstTable(quota, maxKeys, tats, key, now, n - 1);
    }
  }

  lemma {:induction false} BurstSpent<K>(quota: Quota, maxKeys: nat, tats: map<K, nat>, key: K, now: nat, n: nat)
    requires Fresh(quota, maxKeys, tats, key, now) && quota.EmissionInterval() > 0 && n >= quota.Burst()
    ensures var after := Repeated(quota, maxKeys, tats, key, now, n);
            key in after && after[key] == now + quota.Burst() * quota.EmissionInterval()
    ensures RepeatedAnswer(quota, maxKeys, tats, key, now, n) == RetryAfter(quota.EmissionInterval())
  {
    BurstDecision(quota, now, quota.Burst());
    if n == quota.Burst() {
      BurstTable(quota, maxKeys, tats, key, now, n);
    } else {
      BurstSpent(quota, maxKeys, tats, key, now, n - 1);
    }
  }

  /** A fresh key can spend exactly its burst at one instant: the calls numbered below the burst
      are allowed and every later one is told to wait one emission interval. */
  lemma {:induction false} FreshBurst<K>(quota: Quota, maxKeys: nat, tats: map<K, nat>, key: K, now: nat, n: nat)
    requires Fresh(quota, maxKeys, tats, key, now) && quota.EmissionInterval() > 0
    ensures RepeatedAnswer(quota, maxKeys, tats, key, now, n)
         == if n < quota.Burst() then Allowed else RetryAfter(quota.EmissionInterval())
  {
    if n >= quota.Burst() {
      BurstSpent(quota, maxKeys, tats, key, now, n);
    } else {
      BurstDecision(quota, now, n);
      if n > 0 {
        BurstTable(quota, maxKeys, tats, key, now, n);
      }
    }
  }

  // ---- The quota in its own terms: `limit` requests per `window` ----

  /** The interval is the whole number of times the burst fits into the window. */
  lemma {:induction false} IntervalFits(quota: Quota)
    ensures quota.Burst() == Max(quota.limit, 1)
    ensures quota.Burst() * quota.EmissionInterval() <= quota.window <= quota.Burst() * quota.EmissionInterval() + quota.Burst() - 1
  {
    Quotients(quota.window, quota.Burst());
  }

  lemma {:induction false} Quotients(window: nat, burst: nat)
    requires burst >= 1
    ensures burst * (window / burst) <= window <= burst * (window / burst) + burst - 1
  {
    assert window == window / burst * burst + window % burst;
  }

  /** A key that spent its limit at one instant is as good as new one window later. */
  lemma {:induction false} SpentIsFresh<K>(quota: Quota, maxKeys: nat, tats: map<K, nat>, key: K, now: nat)
    requires Fresh(quota, maxKeys, tats, key, now)
    ensures Fresh(quota, maxKeys, Repeated(quota, maxKeys, tats, key, now, Max(quota.limit, 1)), key, now + quota.window)
  {
    IntervalFits(quota);
    BurstTable(quota, maxKeys, tats, key, now, quota.Burst());
  }

  lemma {:induction false} WithinLimit<K>(quota: Quota, maxKeys: nat, tats: map<K, nat>, key: K, now: nat, n: nat)
    requires Fresh(quota, maxKeys, tats, key, now) && n < Max(quota.limit, 1)
    ensures RepeatedAnswer(quota, maxKeys, tats, key, now, n) == Allowed
  {
    IntervalFits(quota);
    BurstDecision(quota, now, n);
    if n > 0 {
      BurstTable(quota, maxKeys, tats, key, now, n);
    }
  }

  /** A fresh key is allowed the limit at one instant, and the whole limit again one window later. */
  lemma {:induction false} LimitPerWindow<K>(quota: Quota, maxKeys: nat, tats: map<K, nat>, key: K, now: nat, n: nat)
    requires Fresh(quota, maxKeys, tats, key, now) && n < Max(quota.limit, 1)
    ensures RepeatedAnswer(quota, maxKeys, tats, key, now, n) == Allowed
    ensures var spent := Repeated(quota, maxKeys, tats, key, now, Max(quota.limit, 1));
            RepeatedAnswer(quota, maxKeys, spent, key, now + quota.window, n) == Allowed
  {
    WithinLimit(quota, maxKeys, tats, key, now, n);
    SpentIsFresh(quota, maxKeys, tats, key, now);
    WithinLimit(quota, maxKeys, Repeated(quota, maxKeys, tats, key, now, Max(quota.limit, 1)), key, now + quota.window, n);
  }

  lemma {:induction false} RateArithmetic(over: nat, burst: nat, interval: nat, window: nat, elapsed: nat)
    requires over * interval <= elapsed && window <= burst * interval + burst - 1
    ensures over * (window - burst + 1) <= burst * elapsed
  {
    Bits.MulMono(window - burst + 1, burst * interval, over);
    Bits.MulMono(over * interval, elapsed, burst);
    Reassociated(over, burst, interval);
  }

  lemma {:induction false} Reassociated(over: nat, burst: nat, interval: nat)
    ensures burst * interval * over == over * interval * burst
  {
    assert burst * interval * over == burst * (interval * over);
  }

  /** In every run and every interval, beyond the limit there are at most `limit` requests per window,
      up to the rounding of the interval down to whole nanoseconds. */
  lemma {:induction false} RatePerWindow<K>(quota: Quota, maxKeys: nat, reqs: seq<Request<K>>, key: K, s: nat, t: nat)
    requires Ordered(reqs) && s <= t
    ensures var limit, allowed := Max(quota.limit, 1), AllowedIn(quota, maxKeys, reqs, key, s, t);
            allowed > limit ==> (allowed - limit) * (quota.window - limit + 1) <= limit * (t - s)
  {
    IntervalFits(quota);
    Conformance(quota, maxKeys, reqs, key, s, t);
    var allowed := AllowedIn(quota, maxKeys, reqs, key, s, t);
    if allowed > quota.Burst() {
      RateArithmetic(allowed - quota.Burst(), quota.Burst(), quota.EmissionInterval(), quota.window, t - s);
    }
  }

  // ---- Retry advice ----

  /** A refused request changes nothing, and with nothing in between the key is allowed again
      exactly once the advised time has passed; until then the advice counts down. */
  lemma {:induction false} RetryAdviceExact<K>(quota: Quota, maxKeys: nat, tats: map<K, nat>, key: K, now: nat, d: nat)
    requires CheckAnswer(quota, maxKeys, tats, key, now).RetryAfter?
    ensures CheckTable(quota, maxKeys, tats, key, now) == tats
    ensures var w := CheckAnswer(quota, maxKeys, tats, key, now).wait;
            && w > 0
            && CheckAnswer(quota, maxKeys, tats, key, now + d) == if d >= w then Allowed else RetryAfter(w - d)
  {
    AllowedBound(quota, Tat(tats, key, now), now);
  }

  lemma {:induction false} TatsBounded<K>(quota: Quota, maxKeys: nat, reqs: seq<Request<K>>, key: K, now: nat)
    requires Ordered(reqs) && (reqs != [] ==> reqs[|reqs| - 1].now <= now)
    requires key in TableAfter(quota, maxKeys, reqs)
    ensures TableAfter(quota, maxKeys, reqs)[key] <= now + quota.Tolerance() + quota.EmissionInterval()
  {
    if reqs != [] {
      var init, last := reqs[..|reqs| - 1], reqs[|reqs| - 1];
      var tats := TableAfter(quota, maxKeys, init);
      AllowedBound(quota, Tat(tats, last.key, last.now), last.now);
      if key in tats {
        TatsBounded(quota, maxKeys, init, key, last.now);
      }
    }
  }

  /** In a run the advised wait is at most one emission interval. */
  lemma {:induction false} RetryAdviceShort<K>(quota: Quota, maxKeys: nat, reqs: seq<Request<K>>)
    requires reqs != [] && Ordered(reqs) && LastAnswer(quota, maxKeys, reqs).RetryAfter?
    ensures 0 < LastAnswer(quota, maxKeys, reqs).wait <= quota.EmissionInterval()
  {
    var init, last := reqs[..|reqs| - 1], reqs[|reqs| - 1];
    RetryAdviceExact(quota, maxKeys, TableAfter(quota, maxKeys, init), last.key, last.now, 0);
    TatsBounded(quota, maxKeys, init, last.key, last.now);
  }

  /** The table after further calls. */
  ghost function Continued<K>(quota: Quota, maxKeys: nat, tats: map<K, nat>, reqs: seq<Request<K>>): map<K, nat> {
    if reqs == [] then tats
    else
      var last := reqs[|reqs| - 1];
      CheckTable(quota, maxKeys, Continued(quota, maxKeys, tats, reqs[..|reqs| - 1]), last.key, last.now)
  }

  lemma {:induction false} OthersKeep<K>(quota: Quota, maxKeys: nat, tats: map<K, nat>, reqs: seq<Request<K>>, key: K, now: nat)
    requires key in tats && forall i :: 0 <= i < |reqs| ==> reqs[i].key != key && reqs[i].now <= now
    ensures var after := Continued(quota, maxKeys, tats, reqs);
            if key in after then after[key] == tats[key] else tats[key] <= now
  {
    if reqs != [] {
      OthersKeep(quota, maxKeys, tats, reqs[..|reqs| - 1], key, now);
    }
  }

  /** Whatever other keys do meanwhile, the advice stands: before the advised time the key is
      refused with what is left of it, afterwards it is never told to wait. */
  lemma {:induction false} RetryAdviceAmidOthers<K>(quota: Quota, maxKeys: nat, tats: map<K, nat>, reqs: seq<Request<K>>,
      key: K, now: nat, d: nat)
    requires CheckAnswer(quota, maxKeys, tats, key, now).RetryAfter?
    requires forall i :: 0 <= i < |reqs| ==> reqs[i].key != key && now <= reqs[i].now <= now + d
    ensures var w := CheckAnswer(quota, maxKeys, tats, key, now).wait;
            var later := CheckAnswer(quota, maxKeys, Continued(quota, maxKeys, tats, reqs), key, now + d);
            if d < w then later == RetryAfter(w - d) else later == Allowed || later == Saturated
  {
    RetryAdviceExact(quota, maxKeys, tats, key, now, d);
    OthersKeep(quota, maxKeys, tats, reqs, key, now + d);
  }

  /** Peeking agrees with checking: it is refused exactly when the check would be told to wait,
      and as long. */
  lemma {:induction false} PeekAgrees<K>(quota: Quota, maxKeys: nat, tats: map<K, nat>, key: K, now: nat)
    ensures var peek, check := PeekAnswer(quota, tats, key, now), CheckAnswer(quota, maxKeys, tats, key, now);
            && (peek == Allowed <==> !check.RetryAfter?)
            && (check.RetryAfter? ==> peek == check)
  {
    assert quota.Tolerance() >= 0;
  }
}
