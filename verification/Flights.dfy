/** Requests in flight: the middleware peeks when a request begins and counts its rejection when
    it ends, with other requests in between. */
module Flights {
  import Bits
  import opened RateLimiter
  import opened LimiterRuns
  import opened Auth
  import opened Sums

  /** The first half of a request: refused by the limiter, or let through to the authenticator. */
  method BeginRequest<K>(failures: RateLimiter<K>, source: K, now: nat) returns (refused: bool, retryAfterSecs: nat)
    requires failures.Valid()
    ensures refused <==> PeekAnswer(failures.quota, failures.tats, source, now) != Allowed
    ensures refused ==> retryAfterSecs == RetryAfterSecs(PeekAnswer(failures.quota, failures.tats, source, now))
  {
    var refusal := failures.Peek(source, now);
    refused, retryAfterSecs := refusal != Allowed, RetryAfterSecs(refusal);
  }

  /** The second half, with the time at which the request began. */
  method EndRequest<K>(failures: RateLimiter<K>, source: K, began: nat, outcome: Outcome) returns (response: Response)
    requires failures.Valid()
    modifies failures
    ensures failures.Valid()
    ensures failures.tats == if outcome == Rejected then CheckTable(failures.quota, failures.maxKeys, old(failures.tats), source, began)
                             else old(failures.tats)
    ensures response == match outcome
                        case Authenticated => Proceed
                        case StoreUnavailable => Unavailable
                        case Rejected => Unauthenticated
  {
    match outcome
    case Authenticated => response := Proceed;
    case StoreUnavailable => response := Unavailable;
    case Rejected =>
      var _ := failures.Check(source, began);
      response := Unauthenticated;
  }

  // ---- Runs ----

  /** A request begins, or the request begun by an earlier turn ends. */
  datatype Turn<!K> = Begin(source: K, now: nat) | End(began: nat, outcome: Outcome)

  datatype Limits = Limits(quota: Quota, maxKeys: nat)

  /** The limiter's table after the first n turns. */
  ghost function TableAt<K>(l: Limits, turns: seq<Turn<K>>, n: nat): map<K, nat>
    requires n <= |turns|
  {
    if n == 0 then map[]
    else
      var tats := TableAt(l, turns, n - 1);
      if Rejects(turns, n - 1) then CheckTable(l.quota, l.maxKeys, tats, SourceOf(turns, n - 1), TimeOf(turns, n - 1)) else tats
  }

  /** Turn p answers a request with a rejection. */
  ghost predicate Rejects<K>(turns: seq<Turn<K>>, p: nat)
    requires p < |turns|
  {
    turns[p].End? && turns[p].outcome == Rejected && turns[p].began < |turns| && turns[turns[p].began].Begin?
  }

  ghost function SourceOf<K>(turns: seq<Turn<K>>, p: nat): K
    requires p < |turns| && Rejects(turns, p)
  {
    turns[turns[p].began].source
  }

  ghost function TimeOf<K>(turns: seq<Turn<K>>, p: nat): nat
    requires p < |turns| && Rejects(turns, p)
  {
    turns[turns[p].began].now
  }

  /** The request begun at turn b has passed the limiter and has not ended in the first n turns. */
  ghost predicate Open<K>(l: Limits, turns: seq<Turn<K>>, n: nat, b: nat)
    requires n <= |turns|
  {
    && b < n && turns[b].Begin? && PeekAnswer(l.quota, TableAt(l, turns, b), turns[b].source, turns[b].now) == Allowed
    && forall p :: b < p < n ==> !(turns[p].End? && turns[p].began == b)
  }

  /** Only open requests end. */
  ghost predicate IsRun<K>(l: Limits, turns: seq<Turn<K>>) {
    forall p :: 0 <= p < |turns| && turns[p].End? ==> Open(l, turns, p, turns[p].began)
  }

  ghost function InFlight<K(!new)>(l: Limits, turns: seq<Turn<K>>, n: nat, source: K): set<nat>
    requires n <= |turns|
  {
    set b: nat | b < n && Open(l, turns, n, b) && turns[b].source == source
  }

  ghost predicate AtMostInFlight<K(!new)>(l: Limits, turns: seq<Turn<K>>, source: K, m: nat) {
    forall n: nat :: n <= |turns| ==> |InFlight(l, turns, n, source)| <= m
  }

  ghost predicate FromSources<K>(turns: seq<Turn<K>>, sources: set<K>) {
    forall p :: 0 <= p < |turns| && turns[p].Begin? ==> turns[p].source in sources
  }

  /** The clock never steps back. */
  ghost predicate ClockForward<K>(turns: seq<Turn<K>>) {
    forall p, q :: 0 <= p <= q < |turns| && turns[p].Begin? && turns[q].Begin? ==> turns[p].now <= turns[q].now
  }

  ghost predicate RejectsOf<K>(turns: seq<Turn<K>>, p: nat, source: K)
    requires p < |turns|
  {
    Rejects(turns, p) && SourceOf(turns, p) == source
  }

  /** The rejections of a source in the stretch of turns from a to n, and those the limiter counted. */
  ghost function RejectedBy<K>(turns: seq<Turn<K>>, a: nat, n: nat, source: K): nat
    requires a <= n <= |turns|
  {
    if n == a then 0 else RejectedBy(turns, a, n - 1, source) + if RejectsOf(turns, n - 1, source) then 1 else 0
  }

  ghost predicate Counts<K>(l: Limits, turns: seq<Turn<K>>, p: nat, source: K)
    requires p < |turns|
  {
    RejectsOf(turns, p, source) && CheckAnswer(l.quota, l.maxKeys, TableAt(l, turns, p), source, TimeOf(turns, p)) == Allowed
  }

  ghost function CountedBy<K>(l: Limits, turns: seq<Turn<K>>, a: nat, n: nat, source: K): nat
    requires a <= n <= |turns|
  {
    if n == a then 0 else CountedBy(l, turns, a, n - 1, source) + if Counts(l, turns, n - 1, source) then 1 else 0
  }

  /** The requests of the source rejected in the stretch began between s and t. */
  ghost predicate BeganWithin<K>(turns: seq<Turn<K>>, a: nat, n: nat, source: K, s: nat, t: nat)
    requires a <= n <= |turns|
  {
    forall p :: a <= p < n && RejectsOf(turns, p, source) ==> s <= TimeOf(turns, p) <= t
  }

  // ---- With a place for every source there is no sweep ----

  lemma {:induction false} KeysAreSources<K>(l: Limits, turns: seq<Turn<K>>, n: nat, sources: set<K>)
    requires n <= |turns| && FromSources(turns, sources)
    ensures TableAt(l, turns, n).Keys <= sources
  {
    if n > 0 { KeysAreSources(l, turns, n - 1, sources); }
  }

  /** A check then only concerns its own source: it is counted, or changes nothing. */
  lemma {:induction false} NoSweep<K>(l: Limits, tats: map<K, nat>, sources: set<K>, source: K, now: nat)
    requires tats.Keys <= sources && source in sources && |sources| <= l.maxKeys
    ensures var answer := CheckAnswer(l.quota, l.maxKeys, tats, source, now);
            && answer == Decide(l.quota, Tat(tats, source, now), now)
            && CheckTable(l.quota, l.maxKeys, tats, source, now) ==
                 (if answer == Allowed then tats[source := Tat(tats, source, now) + l.quota.EmissionInterval()] else tats)
  {
    if source !in tats { Outnumbered(tats.Keys, source, sources); }
  }

  /** The arrival time held for a source, zero for none. */
  ghost function Entry<K>(l: Limits, turns: seq<Turn<K>>, n: nat, source: K): nat
    requires n <= |turns|
  {
    var tats := TableAt(l, turns, n);
    if source in tats then tats[source] else 0
  }

  /** Whether a request begun at `now` would be counted, if it ended in a rejection after n turns. */
  ghost predicate InTime<K>(l: Limits, turns: seq<Turn<K>>, n: nat, source: K, now: nat)
    requires n <= |turns|
  {
    Entry(l, turns, n, source) <= now + l.quota.Tolerance()
  }

  /** The limiter lets a request begin exactly when it is in time. */
  lemma {:induction false} PeekInTime<K>(l: Limits, turns: seq<Turn<K>>, n: nat, source: K, now: nat)
    requires n <= |turns|
    ensures PeekAnswer(l.quota, TableAt(l, turns, n), source, now) == Allowed <==> InTime(l, turns, n, source, now)
  {
    AllowedBound(l.quota, Entry(l, turns, n, source), now);
  }

  /** One turn and the entry of one source: a rejection in time is counted and moves it, and nothing else does. */
  lemma {:induction false} EntryStep<K>(l: Limits, turns: seq<Turn<K>>, n: nat, sources: set<K>, source: K)
    requires n < |turns| && FromSources(turns, sources) && |sources| <= l.maxKeys
    ensures Counts(l, turns, n, source) <==> RejectsOf(turns, n, source) && InTime(l, turns, n, source, TimeOf(turns, n))
    ensures Entry(l, turns, n + 1, source) == if Counts(l, turns, n, source)
              then Max(Entry(l, turns, n, source), TimeOf(turns, n)) + l.quota.EmissionInterval()
              else Entry(l, turns, n, source)
  {
    KeysAreSources(l, turns, n, sources);
    if Rejects(turns, n) {
      NoSweep(l, TableAt(l, turns, n), sources, SourceOf(turns, n), TimeOf(turns, n));
      AllowedBound(l.quota, Tat(TableAt(l, turns, n), SourceOf(turns, n), TimeOf(turns, n)), TimeOf(turns, n));
    }
  }

  // ---- How many are counted ----

  /** Each counted rejection has pushed the source's entry one interval further. */
  lemma {:induction false} EntryGrows<K>(l: Limits, turns: seq<Turn<K>>, a: nat, n: nat, sources: set<K>, source: K, s: nat, t: nat)
    requires a <= n <= |turns| && FromSources(turns, sources) && |sources| <= l.maxKeys && BeganWithin(turns, a, n, source, s, t)
    ensures var c := CountedBy(l, turns, a, n, source);
            c > 0 ==> s + c * l.quota.EmissionInterval() <= Entry(l, turns, n, source)
  {
    if a < n {
      EntryGrows(l, turns, a, n - 1, sources, source, s, t);
      EntryStep(l, turns, n - 1, sources, source);
      AddInterval(CountedBy(l, turns, a, n - 1, source), l.quota.EmissionInterval());
    }
  }

  /** However requests interleave, what is counted in any stretch stays within the quota. */
  lemma {:induction false} CountedWithin<K>(l: Limits, turns: seq<Turn<K>>, a: nat, n: nat, sources: set<K>, source: K, s: nat, t: nat)
    requires a <= n <= |turns| && FromSources(turns, sources) && |sources| <= l.maxKeys
    requires BeganWithin(turns, a, n, source, s, t) && s <= t
    ensures (CountedBy(l, turns, a, n, source) - l.quota.Burst()) * l.quota.EmissionInterval() <= t - s
  {
    if n == a {
      NothingAllowed(l.quota.Burst(), l.quota.EmissionInterval());
    } else if Counts(l, turns, n - 1, source) {
      EntryGrows(l, turns, a, n - 1, sources, source, s, t);
      EntryStep(l, turns, n - 1, sources, source);
      ConformanceStep(CountedBy(l, turns, a, n - 1, source), l.quota.Burst(), l.quota.EmissionInterval(), l.quota.Tolerance(),
                      s, t, TimeOf(turns, n - 1));
    } else {
      CountedWithin(l, turns, a, n - 1, sources, source, s, t);
    }
  }

  // ---- Arithmetic of the burst ----

  lemma {:induction false} TimesTolerance(quota: Quota, n: nat)
    requires n < quota.Burst()
    ensures Times(n, quota.EmissionInterval()) <= quota.Tolerance() == Times(quota.Burst() - 1, quota.EmissionInterval())
  {
    TimesIsProduct(n, quota.EmissionInterval());
    TimesIsProduct(quota.Burst() - 1, quota.EmissionInterval());
    Bits.MulMono(n, quota.Burst() - 1, quota.EmissionInterval());
  }
}
