/** GCRA rate limiting with a bounded key table. Times are nanoseconds. */
module RateLimiter {

  datatype Quota = Quota(limit: nat, window: nat) {
    /** The burst: `limit.max(1)`. */
    function Burst(): nat {
      if limit == 0 then 1 else limit
    }

    function EmissionInterval(): nat {
      window / Burst()
    }

    function Tolerance(): nat {
      EmissionInterval() * (Burst() - 1)
    }
  }

  datatype Answer = Allowed | RetryAfter(wait: nat) | Saturated

  /** Whole seconds for the `Retry-After` header: the least number of them, at least one, that
      covers the wait. */
  function RetryAfterSecs(a: Answer): (secs: nat)
    ensures 1 <= secs
    ensures a.RetryAfter? ==> a.wait <= secs * 1_000_000_000
    ensures a.RetryAfter? ==> forall s: nat :: 1 <= s && a.wait <= s * 1_000_000_000 ==> secs <= s
  {
    match a
    case RetryAfter(wait) =>
      var secs := wait / 1_000_000_000 + if wait % 1_000_000_000 > 0 then 1 else 0;
      if secs < 1 then 1 else secs
    case _ => 1
  }

  function Max(a: nat, b: nat): nat {
    if a < b then b else a
  }

  // ---- One call, as a function of the table ----

  /** The theoretical arrival time a request at `now` sees. */
  function Tat<K>(tats: map<K, nat>, key: K, now: nat): nat {
    if key in tats then Max(tats[key], now) else now
  }

  /** The GCRA decision for a request that has a place in the table. `checked_sub` fails below
      zero, and then there is nothing to wait for. */
  function Decide(quota: Quota, tat: nat, now: nat): Answer {
    if tat >= quota.Tolerance() && now < tat - quota.Tolerance()
    then RetryAfter(tat - quota.Tolerance() - now)
    else Allowed
  }

  function Sweep<K>(tats: map<K, nat>, now: nat): map<K, nat> {
    map k | k in tats && tats[k] > now :: tats[k]
  }

  /** The table after the sweep that only a newcomer to a full table causes. */
  function Swept<K>(maxKeys: nat, tats: map<K, nat>, key: K, now: nat): map<K, nat> {
    if key !in tats && |tats| >= maxKeys then Sweep(tats, now) else tats
  }

  function CheckAnswer<K>(quota: Quota, maxKeys: nat, tats: map<K, nat>, key: K, now: nat): Answer {
    var swept := Swept(maxKeys, tats, key, now);
    if key !in swept && |swept| >= maxKeys then Saturated else Decide(quota, Tat(swept, key, now), now)
  }

  function CheckTable<K>(quota: Quota, maxKeys: nat, tats: map<K, nat>, key: K, now: nat): map<K, nat> {
    var swept := Swept(maxKeys, tats, key, now);
    if CheckAnswer(quota, maxKeys, tats, key, now) == Allowed
    then swept[key := Tat(swept, key, now) + quota.EmissionInterval()]
    else swept
  }

  datatype Request<!K> = Request(key: K, now: nat)

  /** The table after a run of calls on a new limiter. */
  ghost function TableAfter<K>(quota: Quota, maxKeys: nat, reqs: seq<Request<K>>): map<K, nat> {
    if reqs == [] then map[]
    else
      var last := reqs[|reqs| - 1];
      CheckTable(quota, maxKeys, TableAfter(quota, maxKeys, reqs[..|reqs| - 1]), last.key, last.now)
  }

  class RateLimiter<K(==)> {
    const quota: Quota
    const maxKeys: nat
    var tats: map<K, nat>
    /** Every call so far. */
    ghost var log: seq<Request<K>>

    ghost predicate Valid()
      reads this
    {
      1 <= maxKeys && |tats| <= maxKeys && tats == TableAfter(quota, maxKeys, log)
    }

    constructor (quota: Quota, maxKeys: nat)
      ensures Valid() && this.quota == quota && this.maxKeys == Max(maxKeys, 1) && log == []
    {
      this.quota, this.maxKeys, tats, log := quota, Max(maxKeys, 1), map[], [];
    }

    /** One call: sweeps when a newcomer meets a full table, then decides and counts. */
    method Check(key: K, now: nat) returns (answer: Answer)
      requires Valid()
      modifies this
      ensures Valid() && log == old(log) + [Request(key, now)]
      ensures answer == CheckAnswer(quota, maxKeys, old(tats), key, now)
      ensures tats == CheckTable(quota, maxKeys, old(tats), key, now)
    {
      assert (log + [Request(key, now)])[..|log|] == log;
      log := log + [Request(key, now)];
      if key !in tats && |tats| >= maxKeys {
        SweepSize(tats, now);
        tats := Sweep(tats, now);
        if |tats| >= maxKeys {
          return Saturated;
        }
      }
      var tat := Tat(tats, key, now);
      if tat >= quota.Tolerance() {
        var allowAt := tat - quota.Tolerance();
        if now < allowAt {
          return RetryAfter(allowAt - now);
        }
      }
      tats := tats[key := tat + quota.EmissionInterval()];
      answer := Allowed;
    }

    /** Whether a request would be allowed, without counting it. */
    method Peek(key: K, now: nat) returns (answer: Answer)
      requires Valid()
      ensures answer == PeekAnswer(quota, tats, key, now)
    {
      if key in tats && tats[key] >= quota.Tolerance() && now < tats[key] - quota.Tolerance() {
        answer := RetryAfter(tats[key] - quota.Tolerance() - now);
      } else {
        answer := Allowed;
      }
    }
  }

  function PeekAnswer<K>(quota: Quota, tats: map<K, nat>, key: K, now: nat): Answer {
    if key in tats then Decide(quota, tats[key], now) else Allowed
  }

  lemma {:induction false} SweepSize<K>(tats: map<K, nat>, now: nat)
    ensures |Sweep(tats, now)| <= |tats|
  {
    var swept := Sweep(tats, now);
    assert tats.Keys == swept.Keys + (tats.Keys - swept.Keys);
  }
}
