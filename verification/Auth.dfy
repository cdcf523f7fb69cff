/** How the authentication middleware uses the rate limiter: a limited source
    is refused before any work, and only rejected authentications are counted. */
module Auth {
  import opened RateLimiter
  import opened LimiterRuns

  /** What the authenticator decides about a request, taken as given. */
  datatype Outcome = Authenticated | StoreUnavailable | Rejected

  datatype Response = Proceed | RateLimited(retryAfterSecs: nat) | Unavailable | Unauthenticated

  function Respond<K>(quota: Quota, tats: map<K, nat>, source: K, now: nat, outcome: Outcome): Response {
    var peek := PeekAnswer(quota, tats, source, now);
    if peek != Allowed then RateLimited(RetryAfterSecs(peek))
    else
      match outcome
      case Authenticated => Proceed
      case StoreUnavailable => Unavailable
      case Rejected => Unauthenticated
  }

  /** One request through the middleware. Only a rejected authentication reaches the limiter; a
      success or an unavailable store leaves it as it was. */
  method RequirePrincipal<K>(failures: RateLimiter<K>, source: K, now: nat, outcome: Outcome) returns (response: Response)
    requires failures.Valid()
    modifies failures
    ensures failures.Valid()
    ensures response == Respond(failures.quota, old(failures.tats), source, now, outcome)
    ensures response.RateLimited? <==> PeekAnswer(failures.quota, old(failures.tats), source, now) != Allowed
    ensures response == Proceed ==> outcome == Authenticated
    ensures !response.RateLimited? ==>
              && (outcome == Authenticated ==> response == Proceed)
              && (outcome == StoreUnavailable ==> response == Unavailable)
              && (outcome == Rejected ==> response == Unauthenticated)
    ensures failures.log == old(failures.log) + if response == Unauthenticated then [Request(source, now)] else []
    ensures response != Unauthenticated ==> failures.tats == old(failures.tats)
  {
    var refusal := failures.Peek(source, now);
    if refusal != Allowed {
      return RateLimited(RetryAfterSecs(refusal));
    }
    match outcome
    case Authenticated => response := Proceed;
    case StoreUnavailable => response := Unavailable;
    case Rejected =>
      var _ := failures.Check(source, now);
      response := Unauthenticated;
  }

  datatype Attempt<!K> = Attempt(source: K, now: nat, outcome: Outcome)

  /** The limiter calls a run of requests, handled one at a time, makes. */
  ghost function Calls<K>(quota: Quota, maxKeys: nat, attempts: seq<Attempt<K>>): seq<Request<K>>
    decreases |attempts|, 1
  {
    if attempts == [] then []
    else
      var init, last := attempts[..|attempts| - 1], attempts[|attempts| - 1];
      Calls(quota, maxKeys, init) +
      if LastResponse(quota, maxKeys, attempts) == Unauthenticated then [Request(last.source, last.now)] else []
  }

  /** The response to the last request of a run. */
  ghost function LastResponse<K>(quota: Quota, maxKeys: nat, attempts: seq<Attempt<K>>): Response
    requires attempts != []
    decreases |attempts|, 0
  {
    var init, last := attempts[..|attempts| - 1], attempts[|attempts| - 1];
    Respond(quota, TableAfter(quota, maxKeys, Calls(quota, maxKeys, init)), last.source, last.now, last.outcome)
  }

  ghost predicate InOrder<K>(attempts: seq<Attempt<K>>) {
    forall i, j :: 0 <= i <= j < |attempts| ==> attempts[i].now <= attempts[j].now
  }

  /** The rejected authentications of a source between s and t. */
  ghost function RejectedIn<K>(quota: Quota, maxKeys: nat, attempts: seq<Attempt<K>>, source: K, s: nat, t: nat): nat {
    if attempts == [] then 0
    else
      var init, last := attempts[..|attempts| - 1], attempts[|attempts| - 1];
      RejectedIn(quota, maxKeys, init, source, s, t) +
      if last.source == source && s <= last.now <= t && LastResponse(quota, maxKeys, attempts) == Unauthenticated then 1 else 0
  }

  /** Those of them that met a table full of other live sources. */
  ghost function UncountedIn<K>(quota: Quota, maxKeys: nat, attempts: seq<Attempt<K>>, source: K, s: nat, t: nat): nat {
    if attempts == [] then 0
    else
      var init, last := attempts[..|attempts| - 1], attempts[|attempts| - 1];
      UncountedIn(quota, maxKeys, init, source, s, t) +
      if last.source == source && s <= last.now <= t && LastResponse(quota, maxKeys, attempts) == Unauthenticated
         && NoSlot(quota, maxKeys, attempts)
      then 1 else 0
  }

  /** The last source has no entry and every entry of a full table is live. */
  ghost predicate NoSlot<K>(quota: Quota, maxKeys: nat, attempts: seq<Attempt<K>>)
    requires attempts != []
  {
    var last := attempts[|attempts| - 1];
    var tats := TableAfter(quota, maxKeys, Calls(quota, maxKeys, attempts[..|attempts| - 1]));
    last.source !in tats && |tats| == maxKeys && forall k :: k in tats ==> tats[k] > last.now
  }

  lemma {:induction false} CallsOrdered<K>(quota: Quota, maxKeys: nat, attempts: seq<Attempt<K>>, now: nat)
    requires InOrder(attempts) && (attempts != [] ==> attempts[|attempts| - 1].now <= now)
    ensures Ordered(Calls(quota, maxKeys, attempts))
    ensures forall i :: 0 <= i < |Calls(quota, maxKeys, attempts)| ==> Calls(quota, maxKeys, attempts)[i].now <= now
  {
    if attempts != [] {
      CallsOrdered(quota, maxKeys, attempts[..|attempts| - 1], attempts[|attempts| - 1].now);
    }
  }

  /** What the last attempt of a run does to the calls made and to their count. */
  lemma {:induction false} LastCall<K>(quota: Quota, maxKeys: nat, attempts: seq<Attempt<K>>, source: K, s: nat, t: nat)
    requires attempts != []
    ensures var init, last := attempts[..|attempts| - 1], attempts[|attempts| - 1];
            var calls := Calls(quota, maxKeys, init);
            var answer := CheckAnswer(quota, maxKeys, TableAfter(quota, maxKeys, calls), last.source, last.now);
            var rejected := LastResponse(quota, maxKeys, attempts) == Unauthenticated;
            && TableAfter(quota, maxKeys, Calls(quota, maxKeys, attempts)) ==
                 (if rejected then CheckTable(quota, maxKeys, TableAfter(quota, maxKeys, calls), last.source, last.now)
                  else TableAfter(quota, maxKeys, calls))
            && AllowedIn(quota, maxKeys, Calls(quota, maxKeys, attempts), source, s, t) ==
                 AllowedIn(quota, maxKeys, calls, source, s, t) +
                 if rejected && last.source == source && s <= last.now <= t && answer == Allowed then 1 else 0
  {
    var init, last := attempts[..|attempts| - 1], attempts[|attempts| - 1];
    var calls := Calls(quota, maxKeys, init);
    assert (calls + [Request(last.source, last.now)])[..|calls|] == calls;
    assert calls + [] == calls;
  }

  /** A call after a successful peek is allowed, or meets a full table of live entries. */
  lemma {:induction false} CountedOrFull<K>(quota: Quota, maxKeys: nat, tats: map<K, nat>, source: K, now: nat)
    requires |tats| <= maxKeys && PeekAnswer(quota, tats, source, now) == Allowed
    ensures var answer := CheckAnswer(quota, maxKeys, tats, source, now);
            && (answer == Allowed || answer == Saturated)
            && (answer == Saturated <==> source !in tats && |tats| == maxKeys && forall k :: k in tats ==> tats[k] > now)
  {
    SaturatedExactly(quota, maxKeys, tats, source, now);
    PeekAgrees(quota, maxKeys, tats, source, now);
  }

  /** A rejected authentication is either counted by the limiter or met a full table. */
  lemma {:induction false} RejectedSplit<K>(quota: Quota, maxKeys: nat, attempts: seq<Attempt<K>>, source: K, s: nat, t: nat)
    requires maxKeys >= 1
    ensures RejectedIn(quota, maxKeys, attempts, source, s, t)
         == AllowedIn(quota, maxKeys, Calls(quota, maxKeys, attempts), source, s, t) + UncountedIn(quota, maxKeys, attempts, source, s, t)
  {
    if attempts != [] {
      var init, last := attempts[..|attempts| - 1], attempts[|attempts| - 1];
      RejectedSplit(quota, maxKeys, init, source, s, t);
      LastCall(quota, maxKeys, attempts, source, s, t);
      if LastResponse(quota, maxKeys, attempts) == Unauthenticated {
        TableBounded(quota, maxKeys, Calls(quota, maxKeys, init));
        CountedOrFull(quota, maxKeys, TableAfter(quota, maxKeys, Calls(quota, maxKeys, init)), last.source, last.now);
      }
    }
  }

  /** In any interval a source's rejected authentications, apart from those that met a table full
      of other live sources, stay within the quota. */
  lemma {:induction false} FailedLoginBound<K>(quota: Quota, maxKeys: nat, attempts: seq<Attempt<K>>, source: K, s: nat, t: nat)
    requires maxKeys >= 1 && InOrder(attempts) && s <= t
    ensures (RejectedIn(quota, maxKeys, attempts, source, s, t) - UncountedIn(quota, maxKeys, attempts, source, s, t) - quota.Burst())
            * quota.EmissionInterval() <= t - s
  {
    CallsOrdered(quota, maxKeys, attempts, if attempts == [] then 0 else attempts[|attempts| - 1].now);
    RejectedSplit(quota, maxKeys, attempts, source, s, t);
    Conformance(quota, maxKeys, Calls(quota, maxKeys, attempts), source, s, t);
  }

  // ---- When the bound holds for all rejections ----

  ghost predicate From<K>(attempts: seq<Attempt<K>>, sources: set<K>) {
    forall i :: 0 <= i < |attempts| ==> attempts[i].source in sources
  }

  /** In every run of these sources, every source and every interval, all rejected authentications
      stay within the quota. */
  ghost predicate AllWithinQuota<K(!new)>(quota: Quota, maxKeys: nat, sources: set<K>) {
    forall attempts: seq<Attempt<K>>, source: K, s: nat, t: nat :: InOrder(attempts) && From(attempts, sources) && s <= t ==>
      (RejectedIn(quota, maxKeys, attempts, source, s, t) - quota.Burst()) * quota.EmissionInterval() <= t - s
  }

  lemma {:induction false} TableOfSources<K>(quota: Quota, maxKeys: nat, attempts: seq<Attempt<K>>, sources: set<K>)
    requires From(attempts, sources)
    ensures TableAfter(quota, maxKeys, Calls(quota, maxKeys, attempts)).Keys <= sources
  {
    if attempts != [] {
      var init, last := attempts[..|attempts| - 1], attempts[|attempts| - 1];
      TableOfSources(quota, maxKeys, init, sources);
      LastCall(quota, maxKeys, attempts, last.source, 0, 0);
    }
  }

  lemma {:induction false} Outnumbered<K>(keys: set<K>, source: K, sources: set<K>)
    requires keys <= sources && source in sources && source !in keys
    ensures |keys| < |sources|
  {
    assert sources == keys + {source} + (sources - keys - {source});
  }

  /** With no more sources than places in the table every rejection is counted. */
  lemma {:induction false} EveryoneCounted<K>(quota: Quota, maxKeys: nat, attempts: seq<Attempt<K>>, sources: set<K>,
      source: K, s: nat, t: nat)
    requires From(attempts, sources) && |sources| <= maxKeys
    ensures UncountedIn(quota, maxKeys, attempts, source, s, t) == 0
  {
    if attempts != [] {
      var init, last := attempts[..|attempts| - 1], attempts[|attempts| - 1];
      EveryoneCounted(quota, maxKeys, init, sources, source, s, t);
      TableOfSources(quota, maxKeys, init, sources);
      var tats := TableAfter(quota, maxKeys, Calls(quota, maxKeys, init));
      if last.source !in tats { Outnumbered(tats.Keys, last.source, sources); }
    }
  }

  /** One rejection of each of the others, then n of `source`, all at time zero. */
  ghost function Crowd<K>(others: seq<K>, source: K, n: nat): seq<Attempt<K>>
    decreases n, |others|
  {
    if n > 0 then Crowd(others, source, n - 1) + [Attempt(source, 0, Rejected)]
    else if others == [] then []
    else Crowd(others[..|others| - 1], source, 0) + [Attempt(others[|others| - 1], 0, Rejected)]
  }

  ghost predicate Distinct<K>(xs: seq<K>) {
    forall i, j :: 0 <= i < j < |xs| ==> xs[i] != xs[j]
  }

  /** One live entry for each of some keys. */
  ghost predicate LiveTable<K(!new)>(tats: map<K, nat>, keys: seq<K>, tat: nat) {
    |tats| == |keys| && (forall k :: k in tats <==> k in keys) && forall k :: k in tats ==> tats[k] == tat
  }

  /** While there is room, a new source is answered and takes a place. */
  lemma {:induction false} TakesPlace<K(!new)>(quota: Quota, maxKeys: nat, tats: map<K, nat>, keys: seq<K>, source: K)
    requires LiveTable(tats, keys, quota.EmissionInterval()) && source !in keys && |keys| < maxKeys
    ensures Respond(quota, tats, source, 0, Rejected) == Unauthenticated
    ensures LiveTable(CheckTable(quota, maxKeys, tats, source, 0), keys + [source], quota.EmissionInterval())
  {
    assert source !in tats;
    assert CheckTable(quota, maxKeys, tats, source, 0) == tats[source := quota.EmissionInterval()];
  }

  /** In a full table of live entries a new source is answered and leaves no trace. */
  lemma {:induction false} LeavesNoTrace<K(!new)>(quota: Quota, tats: map<K, nat>, keys: seq<K>, source: K)
    requires LiveTable(tats, keys, quota.EmissionInterval()) && source !in keys && quota.EmissionInterval() > 0
    ensures Respond(quota, tats, source, 0, Rejected) == Unauthenticated
    ensures CheckTable(quota, |keys|, tats, source, 0) == tats
  {
    assert source !in tats;
    assert Sweep(tats, 0) == tats;
  }

  lemma {:induction false} CrowdSteps<K>(others: seq<K>, source: K, n: nat)
    requires n > 0 || others != []
    ensures var attempts := Crowd(others, source, n);
            && attempts != [] && attempts[|attempts| - 1] == Attempt(if n > 0 then source else others[|others| - 1], 0, Rejected)
            && attempts[..|attempts| - 1] == if n > 0 then Crowd(others, source, n - 1) else Crowd(others[..|others| - 1], source, 0)
  {
  }

  lemma {:induction false} TableFills<K(!new)>(quota: Quota, maxKeys: nat, others: seq<K>, source: K)
    requires Distinct(others) && |others| <= maxKeys && source !in others
    ensures LiveTable(TableAfter(quota, maxKeys, Calls(quota, maxKeys, Crowd(others, source, 0))), others, quota.EmissionInterval())
    ensures RejectedIn(quota, maxKeys, Crowd(others, source, 0), source, 0, 0) == 0
  {
    if others == [] {
      assert Calls(quota, maxKeys, Crowd(others, source, 0)) == [];
    } else {
      var n := |others| - 1;
      TableFills(quota, maxKeys, others[..n], source);
      var tats := TableAfter(quota, maxKeys, Calls(quota, maxKeys, Crowd(others[..n], source, 0)));
      NextTakesPlace(quota, maxKeys, tats, others);
      OneMoreOther(quota, maxKeys, others, source);
    }
  }

  lemma {:induction false} NextTakesPlace<K(!new)>(quota: Quota, maxKeys: nat, tats: map<K, nat>, others: seq<K>)
    requires others != [] && Distinct(others) && |others| <= maxKeys
    requires LiveTable(tats, others[..|others| - 1], quota.EmissionInterval())
    ensures Respond(quota, tats, others[|others| - 1], 0, Rejected) == Unauthenticated
    ensures LiveTable(CheckTable(quota, maxKeys, tats, others[|others| - 1], 0), others, quota.EmissionInterval())
  {
    var n := |others| - 1;
    TakesPlace(quota, maxKeys, tats, others[..n], others[n]);
    assert others == others[..n] + [others[n]];
  }

  /** What one more of the others does to the table, when it is answered. */
  lemma {:induction false} OneMoreOther<K>(quota: Quota, maxKeys: nat, others: seq<K>, source: K)
    requires others != [] && source !in others
    requires var init, last := Crowd(others[..|others| - 1], source, 0), others[|others| - 1];
             Respond(quota, TableAfter(quota, maxKeys, Calls(quota, maxKeys, init)), last, 0, Rejected) == Unauthenticated
    ensures var init, last := Crowd(others[..|others| - 1], source, 0), others[|others| - 1];
            && TableAfter(quota, maxKeys, Calls(quota, maxKeys, Crowd(others, source, 0))) ==
                 CheckTable(quota, maxKeys, TableAfter(quota, maxKeys, Calls(quota, maxKeys, init)), last, 0)
            && RejectedIn(quota, maxKeys, Crowd(others, source, 0), source, 0, 0) == RejectedIn(quota, maxKeys, init, source, 0, 0)
  {
    CrowdSteps(others, source, 0);
    LastCall(quota, maxKeys, Crowd(others, source, 0), source, 0, 0);
  }

  /** The middleware discards the limiter's answer, so a source that finds the table full of live
      sources is answered without being counted: all its n rejections at one instant go through,
      for every size of the table and every n. */
  lemma {:induction false} UncountedWithoutSlot<K(!new)>(quota: Quota, others: seq<K>, source: K, n: nat)
    requires Distinct(others) && source !in others && quota.EmissionInterval() > 0
    ensures LiveTable(TableAfter(quota, |others|, Calls(quota, |others|, Crowd(others, source, n))), others, quota.EmissionInterval())
    ensures RejectedIn(quota, |others|, Crowd(others, source, n), source, 0, 0) == n
  {
    if n == 0 {
      TableFills(quota, |others|, others, source);
    } else {
      UncountedWithoutSlot(quota, others, source, n - 1);
      CrowdSteps(others, source, n);
      LastCall(quota, |others|, Crowd(others, source, n), source, 0, 0);
      LeavesNoTrace(quota, TableAfter(quota, |others|, Calls(quota, |others|, Crowd(others, source, n - 1))), others, source);
    }
  }

  lemma {:induction false} CrowdFrom<K>(others: seq<K>, source: K, n: nat, sources: set<K>)
    requires source in sources && forall i :: 0 <= i < |others| ==> others[i] in sources
    ensures InOrder(Crowd(others, source, n)) && From(Crowd(others, source, n), sources)
    ensures forall i :: 0 <= i < |Crowd(others, source, n)| ==> Crowd(others, source, n)[i].now == 0
    decreases n, |others|
  {
    if n > 0 {
      CrowdFrom(others, source, n - 1, sources);
    } else if others != [] {
      CrowdFrom(others[..|others| - 1], source, 0, sources);
    }
  }

  lemma {:induction false} Pick<K>(s: set<K>, n: nat) returns (xs: seq<K>)
    requires n <= |s|
    ensures |xs| == n && Distinct(xs) && forall i :: 0 <= i < n ==> xs[i] in s
  {
    if n == 0 {
      xs := [];
    } else {
      var x :| x in s;
      xs := Pick(s - {x}, n - 1);
      xs := xs + [x];
    }
  }

  /** All rejections stay within the quota in every run exactly when the table has a place for every
      source, or the quota never spaces requests at all. */
  lemma {:induction false} FailedLoginBoundExactly<K(!new)>(quota: Quota, maxKeys: nat, sources: set<K>)
    requires maxKeys >= 1
    ensures AllWithinQuota(quota, maxKeys, sources) <==> |sources| <= maxKeys || quota.EmissionInterval() == 0
  {
    if |sources| <= maxKeys || quota.EmissionInterval() == 0 {
      forall attempts: seq<Attempt<K>>, source: K, s: nat, t: nat | InOrder(attempts) && From(attempts, sources) && s <= t
        ensures (RejectedIn(quota, maxKeys, attempts, source, s, t) - quota.Burst()) * quota.EmissionInterval() <= t - s
      {
        if |sources| <= maxKeys {
          FailedLoginBound(quota, maxKeys, attempts, source, s, t);
          EveryoneCounted(quota, maxKeys, attempts, sources, source, s, t);
        }
      }
    } else {
      var xs := Pick(sources, maxKeys + 1);
      var others, source, n := xs[..maxKeys], xs[maxKeys], quota.Burst() + 1;
      UncountedWithoutSlot(quota, others, source, n);
      CrowdFrom(others, source, n, sources);
      var attempts := Crowd(others, source, n);
      assert (RejectedIn(quota, maxKeys, attempts, source, 0, 0) - quota.Burst()) * quota.EmissionInterval() == quota.EmissionInterval();
    }
  }
}
