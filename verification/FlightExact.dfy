/** The bound on requests in flight is reached: runs built turn by turn, and what follows exactly. */
module FlightExact {
  import Bits
  import opened RateLimiter
  import opened LimiterRuns
  import opened Auth
  import opened Flights
  import opened FlightBounds
  import opened Sums

  // ---- One more turn ----

  /** A turn that may follow a run: a request begins, or an open one ends. */
  ghost predicate Follows<K>(l: Limits, turns: seq<Turn<K>>, turn: Turn<K>) {
    turn.End? ==> Open(l, turns, |turns|, turn.began)
  }

  lemma {:induction false} PastStays<K>(l: Limits, turns: seq<Turn<K>>, turn: Turn<K>, n: nat, source: K)
    requires IsRun(l, turns) && n <= |turns|
    ensures TableAt(l, turns + [turn], n) == TableAt(l, turns, n)
    ensures RejectedBy(turns + [turn], 0, n, source) == RejectedBy(turns, 0, n, source)
  {
    if n > 0 {
      PastStays(l, turns, turn, n - 1, source);
      assert turns[n - 1].End? ==> Open(l, turns, n - 1, turns[n - 1].began);
    }
  }

  lemma {:induction false} OpenStays<K>(l: Limits, turns: seq<Turn<K>>, turn: Turn<K>, n: nat, b: nat)
    requires IsRun(l, turns) && n <= |turns|
    ensures Open(l, turns + [turn], n, b) <==> Open(l, turns, n, b)
  {
    var turns' := turns + [turn];
    assert forall p :: 0 <= p < |turns| ==> turns'[p] == turns[p];
    if b < n && turns[b].Begin? {
      PastStays(l, turns, turn, b, turns[b].source);
      if Open(l, turns', n, b) {
        forall p | b < p < n ensures !(turns[p].End? && turns[p].began == b) { assert turns'[p] == turns[p]; }
      }
    }
  }

  lemma {:induction false} RunContinues<K>(l: Limits, turns: seq<Turn<K>>, turn: Turn<K>)
    requires IsRun(l, turns) && Follows(l, turns, turn)
    ensures IsRun(l, turns + [turn])
  {
    var turns' := turns + [turn];
    forall p | 0 <= p < |turns'| && turns'[p].End? ensures Open(l, turns', p, turns'[p].began) {
      assert Open(l, turns, p, turns'[p].began);
      OpenStays(l, turns, turn, p, turns'[p].began);
    }
  }

  lemma {:induction false} InFlightStays<K(!new)>(l: Limits, turns: seq<Turn<K>>, turn: Turn<K>, n: nat, source: K)
    requires IsRun(l, turns) && n <= |turns|
    ensures InFlight(l, turns + [turn], n, source) == InFlight(l, turns, n, source)
  {
    forall b: nat ensures b in InFlight(l, turns + [turn], n, source) <==> b in InFlight(l, turns, n, source) {
      OpenStays(l, turns, turn, n, b);
    }
  }

  lemma {:induction false} AtMostContinues<K(!new)>(l: Limits, turns: seq<Turn<K>>, turn: Turn<K>, source: K, m: nat)
    requires IsRun(l, turns) && AtMostInFlight(l, turns, source, m)
    requires |InFlight(l, turns + [turn], |turns| + 1, source)| <= m
    ensures AtMostInFlight(l, turns + [turn], source, m)
  {
    forall n: nat | n <= |turns| + 1 ensures |InFlight(l, turns + [turn], n, source)| <= m {
      if n <= |turns| { InFlightStays(l, turns, turn, n, source); }
    }
  }

  // ---- The state of a run of one source ----

  // The next two are said of every number equal to one of theirs, so that a proof unfolds them only
  // where it names them.

  /** The requests in flight are those begun at turns lo to hi, all of them now. */
  ghost predicate Flying<K(!new)>(l: Limits, turns: seq<Turn<K>>, source: K, now: nat, lo: nat, hi: nat) {
    forall n: nat :: n == hi ==> FlyingTo(l, turns, source, now, lo, n)
  }

  ghost predicate FlyingTo<K(!new)>(l: Limits, turns: seq<Turn<K>>, source: K, now: nat, lo: nat, hi: nat) {
    && lo <= hi <= |turns|
    && (forall b: nat :: b in InFlight(l, turns, |turns|, source) <==> lo <= b < hi)
    && (forall b :: lo <= b < hi ==> turns[b] == Begin(source, now))
  }

  ghost predicate Steady<K>(turns: seq<Turn<K>>, now: nat) {
    ClockForward(turns) && forall p :: 0 <= p < |turns| && turns[p].Begin? ==> turns[p].now <= now
  }

  /** A run of one source, at most m in flight, with its entry and the rejections so far. */
  ghost predicate At<K(!new)>(l: Limits, turns: seq<Turn<K>>, source: K, m: nat, now: nat, entry: nat, rejected: nat) {
    forall r: nat :: r == rejected ==> AtExactly(l, turns, source, m, now, entry, r)
  }

  ghost predicate AtExactly<K(!new)>(l: Limits, turns: seq<Turn<K>>, source: K, m: nat, now: nat, entry: nat, rejected: nat) {
    && IsRun(l, turns) && FromSources(turns, {source}) && AtMostInFlight(l, turns, source, m) && Steady(turns, now)
    && Entry(l, turns, |turns|, source) == entry && RejectedBy(turns, 0, |turns|, source) == rejected
  }

  lemma {:induction false} IntervalSize(s: set<nat>, lo: nat, hi: nat)
    requires lo <= hi && forall b :: b in s ==> lo <= b < hi
    ensures |s| <= hi - lo
  {
    if lo == hi {
      assert forall b :: b !in s;
      assert s == {};
    } else {
      IntervalSize(s - {hi - 1}, lo, hi - 1);
    }
  }

  /** One more request begins. */
  lemma {:induction false} Begun<K(!new)>(l: Limits, turns: seq<Turn<K>>, source: K, m: nat, now: nat, entry: nat, rejected: nat,
      later: nat, lo: nat)
    requires l.maxKeys >= 1 && At(l, turns, source, m, now, entry, rejected) && now <= later && entry <= later + l.quota.Tolerance()
    requires Flying(l, turns, source, later, lo, |turns|) && |turns| - lo < m
    ensures var turns' := turns + [Begin(source, later)];
            At(l, turns', source, m, later, entry, rejected) && Flying(l, turns', source, later, lo, |turns'|)
  {
    assert AtExactly(l, turns, source, m, now, entry, rejected) && FlyingTo(l, turns, source, later, lo, |turns|);
    var turn := Begin(source, later);
    var turns' := turns + [turn];
    PastStays(l, turns, turn, |turns|, source);
    RunContinues(l, turns, turn);
    PeekInTime(l, turns, |turns|, source, later);
    forall b: nat ensures b in InFlight(l, turns', |turns'|, source) <==> lo <= b < |turns'| {
      BeginOpens(l, turns, turn, b);
      assert b in InFlight(l, turns, |turns|, source) <==> lo <= b < |turns|;
    }
    IntervalSize(InFlight(l, turns', |turns'|, source), lo, |turns'|);
    AtMostContinues(l, turns, turn, source, m);
    assert FlyingTo(l, turns', source, later, lo, |turns'|);
  }

  lemma {:induction false} BeginOpens<K>(l: Limits, turns: seq<Turn<K>>, turn: Turn<K>, b: nat)
    requires IsRun(l, turns) && turn.Begin? && PeekAnswer(l.quota, TableAt(l, turns, |turns|), turn.source, turn.now) == Allowed
    ensures Open(l, turns + [turn], |turns| + 1, b) <==> Open(l, turns, |turns|, b) || b == |turns|
  {
    OpenStays(l, turns, turn, |turns|, b);
    PastStays(l, turns, turn, |turns|, turn.source);
  }

  lemma {:induction false} EndCloses<K>(l: Limits, turns: seq<Turn<K>>, turn: Turn<K>, b: nat)
    requires IsRun(l, turns) && turn.End?
    ensures Open(l, turns + [turn], |turns| + 1, b) <==> Open(l, turns, |turns|, b) && b != turn.began
  {
    OpenStays(l, turns, turn, |turns|, b);
    if b < |turns| && Open(l, turns + [turn], |turns| + 1, b) {
      StillOpen(l, turns + [turn], |turns|, b);
    }
    assert (turns + [turn])[|turns|] == turn;
  }

  /** A rejection is counted when it is in time. */
  lemma {:induction false} EndedEntry<K(!new)>(l: Limits, turns: seq<Turn<K>>, source: K, now: nat, b: nat)
    requires l.maxKeys >= 1 && IsRun(l, turns) && FromSources(turns, {source})
    requires b in InFlight(l, turns, |turns|, source) && turns[b] == Begin(source, now)
    ensures var turns', entry := turns + [End(b, Rejected)], Entry(l, turns, |turns|, source);
            && RejectsOf(turns', |turns|, source)
            && RejectedBy(turns', 0, |turns'|, source) == RejectedBy(turns, 0, |turns|, source) + 1
            && Entry(l, turns', |turns'|, source) ==
                 if InTime(l, turns, |turns|, source, now) then Max(entry, now) + l.quota.EmissionInterval() else entry
  {
    PastStays(l, turns, End(b, Rejected), |turns|, source);
    EntryStep(l, turns + [End(b, Rejected)], |turns|, {source}, source);
  }

  lemma {:induction false} EndedFlying<K(!new)>(l: Limits, turns: seq<Turn<K>>, source: K, now: nat, lo: nat, hi: nat)
    requires IsRun(l, turns) && Flying(l, turns, source, now, lo, hi) && lo < hi
    ensures Flying(l, turns + [End(lo, Rejected)], source, now, lo + 1, hi)
  {
    assert FlyingTo(l, turns, source, now, lo, hi);
    var turn: Turn<K> := End(lo, Rejected);
    var turns' := turns + [turn];
    forall b: nat ensures b in InFlight(l, turns', |turns'|, source) <==> lo + 1 <= b < hi {
      EndCloses(l, turns, turn, b);
      assert b in InFlight(l, turns, |turns|, source) <==> lo <= b < hi;
    }
    assert FlyingTo(l, turns', source, now, lo + 1, hi);
  }

  lemma {:induction false} EndedFew<K(!new)>(l: Limits, turns: seq<Turn<K>>, source: K, m: nat, b: nat)
    requires IsRun(l, turns) && AtMostInFlight(l, turns, source, m) && b in InFlight(l, turns, |turns|, source)
    ensures IsRun(l, turns + [End(b, Rejected)]) && AtMostInFlight(l, turns + [End(b, Rejected)], source, m)
  {
    var turn: Turn<K> := End(b, Rejected);
    RunContinues(l, turns, turn);
    InFlightStays(l, turns, turn, |turns|, source);
    InFlightEnds(l, turns + [turn], |turns|, source);
    AtMostContinues(l, turns, turn, source, m);
  }

  /** The first of those in flight is rejected. */
  lemma {:induction false} Ended<K(!new)>(l: Limits, turns: seq<Turn<K>>, source: K, m: nat, now: nat, entry: nat, rejected: nat,
      lo: nat, hi: nat)
    requires l.maxKeys >= 1 && At(l, turns, source, m, now, entry, rejected) && Flying(l, turns, source, now, lo, hi) && lo < hi
    ensures var turns' := turns + [End(lo, Rejected)];
            && At(l, turns', source, m, now,
                  if entry <= now + l.quota.Tolerance() then Max(entry, now) + l.quota.EmissionInterval() else entry, rejected + 1)
            && Flying(l, turns', source, now, lo + 1, hi)
  {
    assert AtExactly(l, turns, source, m, now, entry, rejected) && FlyingTo(l, turns, source, now, lo, hi);
    assert lo in InFlight(l, turns, |turns|, source);
    EndedEntry(l, turns, source, now, lo);
    EndedFlying(l, turns, source, now, lo, hi);
    EndedFew(l, turns, source, m, lo);
  }

  lemma {:induction false} EndedInTime<K(!new)>(l: Limits, turns: seq<Turn<K>>, source: K, m: nat, now: nat, entry: nat, rejected: nat,
      lo: nat, hi: nat)
    requires l.maxKeys >= 1 && At(l, turns, source, m, now, entry, rejected) && Flying(l, turns, source, now, lo, hi) && lo < hi
    requires now <= entry <= now + l.quota.Tolerance()
    ensures At(l, turns + [End(lo, Rejected)], source, m, now, entry + l.quota.EmissionInterval(), rejected + 1)
    ensures Flying(l, turns + [End(lo, Rejected)], source, now, lo + 1, hi)
  {
    Ended(l, turns, source, m, now, entry, rejected, lo, hi);
  }

  lemma {:induction false} EndedLate<K(!new)>(l: Limits, turns: seq<Turn<K>>, source: K, m: nat, now: nat, entry: nat, rejected: nat,
      lo: nat, hi: nat)
    requires l.maxKeys >= 1 && At(l, turns, source, m, now, entry, rejected) && Flying(l, turns, source, now, lo, hi) && lo < hi
    requires now + l.quota.Tolerance() < entry
    ensures At(l, turns + [End(lo, Rejected)], source, m, now, entry, rejected + 1)
    ensures Flying(l, turns + [End(lo, Rejected)], source, now, lo + 1, hi)
  {
    Ended(l, turns, source, m, now, entry, rejected, lo, hi);
  }

  // ---- Waves: some requests begin together and are then rejected ----

  ghost function Begins<K>(turns: seq<Turn<K>>, source: K, now: nat, c: nat): seq<Turn<K>> {
    if c == 0 then turns else Begins(turns, source, now, c - 1) + [Begin(source, now)]
  }

  ghost function Ends<K>(turns: seq<Turn<K>>, lo: nat, c: nat): seq<Turn<K>> {
    if c == 0 then turns else Ends(turns, lo, c - 1) + [End(lo + c - 1, Rejected)]
  }

  ghost function Wave<K>(turns: seq<Turn<K>>, source: K, now: nat, c: nat): seq<Turn<K>> {
    Ends(Begins(turns, source, now, c), |turns|, c)
  }

  lemma {:induction false} BeginsAt<K(!new)>(l: Limits, turns: seq<Turn<K>>, source: K, m: nat, now: nat, entry: nat, rejected: nat,
      later: nat, c: nat)
    requires l.maxKeys >= 1 && At(l, turns, source, m, now, entry, rejected) && now <= later && entry <= later + l.quota.Tolerance()
    requires Flying(l, turns, source, later, |turns|, |turns|) && c <= m
    ensures var turns' := Begins(turns, source, later, c);
            && |turns'| == |turns| + c
            && At(l, turns', source, m, if c == 0 then now else later, entry, rejected)
            && Flying(l, turns', source, later, |turns|, |turns'|)
  {
    if c > 0 {
      BeginsAt(l, turns, source, m, now, entry, rejected, later, c - 1);
      Begun(l, Begins(turns, source, later, c - 1), source, m, if c == 1 then now else later, entry, rejected, later, |turns|);
    }
  }

  /** The first is counted; if that takes the entry past the tolerance, no other is. */
  lemma {:induction false} EndsAt<K(!new)>(l: Limits, turns: seq<Turn<K>>, source: K, m: nat, now: nat, entry: nat, rejected: nat,
      lo: nat, hi: nat, c: nat)
    requires l.maxKeys >= 1 && At(l, turns, source, m, now, entry, rejected) && Flying(l, turns, source, now, lo, hi)
    requires now <= entry <= now + l.quota.Tolerance() && 1 <= c && lo + c <= hi
    requires c == 1 || now + l.quota.Tolerance() < entry + l.quota.EmissionInterval()
    ensures var turns' := Ends(turns, lo, c);
            && At(l, turns', source, m, now, entry + l.quota.EmissionInterval(), rejected + c)
            && Flying(l, turns', source, now, lo + c, hi)
  {
    if c == 1 {
      EndedInTime(l, turns, source, m, now, entry, rejected, lo, hi);
      assert Ends(turns, lo, 0) == turns;
    } else {
      EndsAt(l, turns, source, m, now, entry, rejected, lo, hi, c - 1);
      EndedLate(l, Ends(turns, lo, c - 1), source, m, now, entry + l.quota.EmissionInterval(), rejected + c - 1, lo + c - 1, hi);
    }
  }

  /** A run with nothing in flight. */
  ghost predicate Idle<K(!new)>(l: Limits, turns: seq<Turn<K>>, source: K, m: nat, now: nat, entry: nat, rejected: nat) {
    At(l, turns, source, m, now, entry, rejected) && forall b :: b !in InFlight(l, turns, |turns|, source)
  }

  lemma {:induction false} WaveAt<K(!new)>(l: Limits, turns: seq<Turn<K>>, source: K, m: nat, now: nat, entry: nat, rejected: nat,
      later: nat, c: nat)
    requires l.maxKeys >= 1 && Idle(l, turns, source, m, now, entry, rejected)
    requires now <= later <= entry <= later + l.quota.Tolerance() && 1 <= c <= m
    requires c == 1 || later + l.quota.Tolerance() < entry + l.quota.EmissionInterval()
    ensures Idle(l, Wave(turns, source, later, c), source, m, later, entry + l.quota.EmissionInterval(), rejected + c)
  {
    assert FlyingTo(l, turns, source, later, |turns|, |turns|);
    BeginsAt(l, turns, source, m, now, entry, rejected, later, c);
    EndsAt(l, Begins(turns, source, later, c), source, m, later, entry, rejected, |turns|, |turns| + c, c);
    assert FlyingTo(l, Wave(turns, source, later, c), source, later, |turns| + c, |turns| + c);
  }

  // ---- The most that can be rejected ----

  /** One at a time at time zero. */
  ghost function Singles<K>(source: K, n: nat): seq<Turn<K>> {
    if n == 0 then [] else Wave(Singles(source, n - 1), source, 0, 1)
  }

  /** All but one of the burst so, then m together, at time zero and again after each of k intervals. */
  ghost function Waves<K>(quota: Quota, source: K, m: nat, k: nat): seq<Turn<K>> {
    if k == 0 then Wave(Singles(source, quota.Burst() - 1), source, 0, m)
    else Wave(Waves(quota, source, m, k - 1), source, Times(k, quota.EmissionInterval()), m)
  }

  lemma {:induction false} NothingYet<K(!new)>(l: Limits, source: K, m: nat)
    ensures Idle(l, [], source, m, 0, 0, 0)
  {
    assert forall b: nat :: b !in InFlight<K>(l, [], 0, source);
    assert InFlight<K>(l, [], 0, source) == {};
    assert AtExactly<K>(l, [], source, m, 0, 0, 0);
  }

  lemma {:induction false} SinglesAt<K(!new)>(l: Limits, source: K, m: nat, n: nat)
    requires l.maxKeys >= 1 && m >= 1 && n < l.quota.Burst()
    ensures Idle(l, Singles(source, n), source, m, 0, Times(n, l.quota.EmissionInterval()), n)
  {
    if n == 0 {
      NothingYet(l, source, m);
    } else {
      SinglesAt(l, source, m, n - 1);
      TimesTolerance(l.quota, n - 1);
      WaveAt(l, Singles(source, n - 1), source, m, 0, Times(n - 1, l.quota.EmissionInterval()), n - 1, 0, 1);
    }
  }

  lemma {:induction false} WavesAt<K(!new)>(l: Limits, source: K, m: nat, k: nat)
    requires l.maxKeys >= 1 && m >= 1 && l.quota.EmissionInterval() > 0
    ensures Idle(l, Waves(l.quota, source, m, k), source, m, Times(k, l.quota.EmissionInterval()),
                 l.quota.Tolerance() + Times(k + 1, l.quota.EmissionInterval()), l.quota.Burst() - 1 + Times(k + 1, m))
  {
    var interval, g := l.quota.EmissionInterval(), l.quota.Burst() - 1;
    if k == 0 {
      SinglesAt(l, source, m, g);
      TimesTolerance(l.quota, g);
      WaveAt(l, Singles(source, g), source, m, 0, Times(g, interval), g, 0, m);
    } else {
      WavesAt(l, source, m, k - 1);
      WaveAt(l, Waves(l.quota, source, m, k - 1), source, m, Times(k - 1, interval), l.quota.Tolerance() + Times(k, interval),
             g + Times(k, m), Times(k, interval), m);
    }
  }

  /** A run of the source alone, with a clock that never steps back and at most m in flight, in which
      everything rejected began within a span. */
  ghost predicate Reaches<K(!new)>(l: Limits, turns: seq<Turn<K>>, source: K, m: nat, span: nat, rejected: nat) {
    && InFlightRun(l, turns, {source}, source, m, true) && BeganWithin(turns, 0, |turns|, source, 0, span)
    && RejectedBy(turns, 0, |turns|, source) == rejected
  }

  lemma {:induction false} IdleReaches<K(!new)>(l: Limits, turns: seq<Turn<K>>, source: K, m: nat, now: nat, entry: nat, rejected: nat)
    requires Idle(l, turns, source, m, now, entry, rejected)
    ensures Reaches(l, turns, source, m, now, rejected)
  {
    assert AtExactly(l, turns, source, m, now, entry, rejected);
  }

  lemma {:induction false} WavesReach<K(!new)>(l: Limits, source: K, m: nat, k: nat, span: nat, rejected: nat)
    requires l.maxKeys >= 1 && m >= 1 && l.quota.EmissionInterval() > 0
    requires span == Times(k, l.quota.EmissionInterval()) && rejected == l.quota.Burst() - 1 + Times(k + 1, m)
    ensures Reaches(l, Waves(l.quota, source, m, k), source, m, span, rejected)
  {
    WavesAt(l, source, m, k);
    IdleReaches(l, Waves(l.quota, source, m, k), source, m, span,
                l.quota.Tolerance() + Times(k + 1, l.quota.EmissionInterval()), rejected);
  }

  /** The bound is reached, for every burst, every m and every number of intervals. */
  lemma {:induction false} InFlightReached<K(!new)>(l: Limits, source: K, m: nat, k: nat)
    requires l.maxKeys >= 1 && m >= 1 && l.quota.EmissionInterval() > 0
    ensures Reaches(l, Waves(l.quota, source, m, k), source, m, k * l.quota.EmissionInterval(), l.quota.Burst() - 1 + m * (k + 1))
  {
    TimesIsProduct(k, l.quota.EmissionInterval());
    TimesIsProduct(k + 1, m);
    WavesReach(l, source, m, k, k * l.quota.EmissionInterval(), l.quota.Burst() - 1 + m * (k + 1));
  }

  // ---- Exactly ----

  ghost predicate InFlightRun<K(!new)>(l: Limits, turns: seq<Turn<K>>, sources: set<K>, source: K, m: nat, steadyClock: bool) {
    IsRun(l, turns) && FromSources(turns, sources) && AtMostInFlight(l, turns, source, m) && (steadyClock ==> ClockForward(turns))
  }

  /** In every run of these sources with at most m requests of a source in flight, a stretch that
      spans at most k intervals has at most r rejections of it. */
  ghost predicate AtMostRejected<K(!new)>(l: Limits, sources: set<K>, m: nat, k: nat, r: nat, steadyClock: bool) {
    forall turns: seq<Turn<K>>, a: nat, n: nat, source: K, s: nat, t: nat ::
      && InFlightRun(l, turns, sources, source, m, steadyClock) && a <= n <= |turns| && BeganWithin(turns, a, n, source, s, t)
      && s <= t && t - s <= k * l.quota.EmissionInterval()
      ==> RejectedBy(turns, a, n, source) <= r
  }

  ghost function Most(quota: Quota, m: nat, k: nat): nat {
    if m == 0 then 0 else quota.Burst() - 1 + m * (k + 1)
  }

  lemma {:induction false} WithinMost<K(!new)>(l: Limits, turns: seq<Turn<K>>, a: nat, n: nat, sources: set<K>, source: K, m: nat,
      s: nat, t: nat, k: nat)
    requires a <= n <= |turns| && IsRun(l, turns) && FromSources(turns, sources) && |sources| <= l.maxKeys
    requires AtMostInFlight(l, turns, source, m) && BeganWithin(turns, a, n, source, s, t)
    requires s <= t && t - s <= k * l.quota.EmissionInterval() && l.quota.EmissionInterval() > 0
    ensures RejectedBy(turns, a, n, source) <= Most(l.quota, m, k)
  {
    if m == 0 {
      NoneInFlight(l, turns, a, n, source);
    } else {
      InFlightBound(l, turns, a, n, sources, source, m, s, t, k);
      MostOf(RejectedBy(turns, a, n, source), m, k, l.quota.Burst(), l.quota.EmissionInterval());
    }
  }

  lemma {:induction false} MostOf(r: nat, m: nat, k: nat, burst: nat, interval: nat)
    requires m >= 1 && interval > 0 && (r - Others(m) * (k + 1) - burst) * interval <= k * interval
    ensures r <= burst - 1 + m * (k + 1)
  {
    AddInterval(k, interval);
    FewerTimes(r - Others(m) * (k + 1) - burst, k + 1, interval);
    OneMore(k + 1, m - 1);
  }

  /** The most rejections of a source in a stretch of k intervals, with at most m of its requests in
      flight: the burst, and m for each interval begun, less one. At one instant, m - 1 over the burst. */
  lemma {:induction false} MostRejected<K(!new)>(l: Limits, sources: set<K>, m: nat, k: nat, r: nat, steadyClock: bool)
    requires sources != {} && |sources| <= l.maxKeys && l.quota.EmissionInterval() > 0
    ensures AtMostRejected(l, sources, m, k, r, steadyClock) <==> Most(l.quota, m, k) <= r
  {
    if Most(l.quota, m, k) <= r {
      forall turns: seq<Turn<K>>, a: nat, n: nat, source: K, s: nat, t: nat |
        && InFlightRun(l, turns, sources, source, m, steadyClock) && a <= n <= |turns| && BeganWithin(turns, a, n, source, s, t)
        && s <= t && t - s <= k * l.quota.EmissionInterval()
        ensures RejectedBy(turns, a, n, source) <= r
      {
        WithinMost(l, turns, a, n, sources, source, m, s, t, k);
      }
    } else {
      var source :| source in sources;
      InFlightReached(l, source, m, k);
      var turns := Waves(l.quota, source, m, k);
      assert InFlightRun(l, turns, sources, source, m, steadyClock);
    }
  }

  /** The bound for requests handled one at a time. */
  ghost predicate WithinQuota<K>(quota: Quota, turns: seq<Turn<K>>, a: nat, n: nat, source: K, s: nat, t: nat)
    requires a <= n <= |turns|
  {
    (RejectedBy(turns, a, n, source) - quota.Burst()) * quota.EmissionInterval() <= t - s
  }

  /** In every run of these sources with at most m requests of a source in flight, all its rejections
      stay within the quota, in every stretch. */
  ghost predicate KeepsQuota<K(!new)>(l: Limits, sources: set<K>, m: nat, steadyClock: bool) {
    forall turns: seq<Turn<K>>, a: nat, n: nat, source: K, s: nat, t: nat ::
      InFlightRun(l, turns, sources, source, m, steadyClock) && a <= n <= |turns| && BeganWithin(turns, a, n, source, s, t) && s <= t
      ==> WithinQuota(l.quota, turns, a, n, source, s, t)
  }

  lemma {:induction false} OneAtATime<K(!new)>(l: Limits, turns: seq<Turn<K>>, a: nat, n: nat, sources: set<K>, source: K, m: nat,
      s: nat, t: nat)
    requires a <= n <= |turns| && IsRun(l, turns) && FromSources(turns, sources) && |sources| <= l.maxKeys
    requires AtMostInFlight(l, turns, source, m) && BeganWithin(turns, a, n, source, s, t) && s <= t
    requires m <= 1 || l.quota.EmissionInterval() == 0
    ensures WithinQuota(l.quota, turns, a, n, source, s, t)
  {
    if l.quota.EmissionInterval() > 0 {
      InFlightRate(l, turns, a, n, sources, source, m, s, t);
    }
  }

  /** Two together after all but one of the burst are enough. */
  lemma {:induction false} TwoTogether<K(!new)>(l: Limits, source: K, m: nat)
    requires l.maxKeys >= 1 && m >= 2 && l.quota.EmissionInterval() > 0
    ensures var turns := Waves(l.quota, source, m, 0);
            && InFlightRun(l, turns, {source}, source, m, true) && BeganWithin(turns, 0, |turns|, source, 0, 0)
            && !WithinQuota(l.quota, turns, 0, |turns|, source, 0, 0)
  {
    InFlightReached(l, source, m, 0);
    Bits.MulMono(1, m - 1, l.quota.EmissionInterval());
  }

  /** The bound for requests handled one at a time holds exactly when at most one request of a source
      is in flight, or the quota does not space requests at all. */
  lemma {:induction false} QuotaKeptExactly<K(!new)>(l: Limits, sources: set<K>, m: nat, steadyClock: bool)
    requires sources != {} && |sources| <= l.maxKeys
    ensures KeepsQuota(l, sources, m, steadyClock) <==> m <= 1 || l.quota.EmissionInterval() == 0
  {
    if m <= 1 || l.quota.EmissionInterval() == 0 {
      forall turns: seq<Turn<K>>, a: nat, n: nat, source: K, s: nat, t: nat |
        InFlightRun(l, turns, sources, source, m, steadyClock) && a <= n <= |turns| && BeganWithin(turns, a, n, source, s, t) && s <= t
        ensures WithinQuota(l.quota, turns, a, n, source, s, t)
      {
        OneAtATime(l, turns, a, n, sources, source, m, s, t);
      }
    } else {
      var source :| source in sources;
      TwoTogether(l, source, m);
      assert InFlightRun(l, Waves(l.quota, source, m, 0), sources, source, m, steadyClock);
    }
  }
}
