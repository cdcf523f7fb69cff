/** How many rejections of a source get through with several of its requests in flight at a time. */
module FlightBounds {
  import Bits
  import opened RateLimiter
  import opened LimiterRuns
  import opened Flights
  import BoundedMap

  // ---- Requests that end too late to be counted ----

  /** In flight, begun at s or later, and past being counted. */
  ghost function Overdue<K(!new)>(l: Limits, turns: seq<Turn<K>>, n: nat, source: K, s: nat): set<nat>
    requires n <= |turns|
  {
    set b | b in InFlight(l, turns, n, source) && turns[b].now >= s && !InTime(l, turns, n, source, turns[b].now)
  }

  lemma {:induction false} StillOpen<K>(l: Limits, turns: seq<Turn<K>>, n: nat, b: nat)
    requires n < |turns| && b < n && Open(l, turns, n + 1, b)
    ensures Open(l, turns, n, b) && !(turns[n].End? && turns[n].began == b)
  {
  }

  lemma {:induction false} SmallerBy<A>(a: set<A>, b: set<A>, x: A)
    requires a <= b - {x} && x in b
    ensures |a| + 1 <= |b|
  {
    BoundedMap.SubsetSize(a, b - {x});
  }

  lemma {:induction false} InFlightEnds<K(!new)>(l: Limits, turns: seq<Turn<K>>, n: nat, source: K)
    requires n < |turns| && IsRun(l, turns) && RejectsOf(turns, n, source)
    ensures turns[n].began in InFlight(l, turns, n, source)
    ensures |InFlight(l, turns, n + 1, source)| + 1 <= |InFlight(l, turns, n, source)|
  {
    var before, after, x := InFlight(l, turns, n, source), InFlight(l, turns, n + 1, source), turns[n].began;
    assert Open(l, turns, n, x);
    forall b | b in after ensures b in before && b != x {
      StillOpen(l, turns, n, b);
    }
    SmallerBy(after, before, x);
  }

  /** A turn that counts nothing of the source leaves its requests overdue or not; a new one is in
      time, and one that ends is not in flight any more. */
  lemma {:induction false} OverdueStep<K(!new)>(l: Limits, turns: seq<Turn<K>>, n: nat, sources: set<K>, source: K, s: nat)
    requires n < |turns| && FromSources(turns, sources) && |sources| <= l.maxKeys && !Counts(l, turns, n, source)
    ensures Overdue(l, turns, n + 1, source, s) <= Overdue(l, turns, n, source, s)
    ensures turns[n].End? ==> turns[n].began !in Overdue(l, turns, n + 1, source, s)
  {
    EntryStep(l, turns, n, sources, source);
    forall b | b in Overdue(l, turns, n + 1, source, s)
      ensures b in Overdue(l, turns, n, source, s) && !(turns[n].End? && turns[n].began == b)
    {
      if b == n {
        PeekInTime(l, turns, n, source, turns[n].now);
      } else {
        StillOpen(l, turns, n, b);
      }
    }
  }

  /** The others, beside one of at most m. */
  ghost function Others(m: nat): nat {
    if m == 0 then 0 else m - 1
  }

  /** Whatever is overdue was in flight beside the rejection counted last. */
  lemma {:induction false} OverdueFew<K(!new)>(l: Limits, turns: seq<Turn<K>>, n: nat, sources: set<K>, source: K, s: nat, m: nat)
    requires n <= |turns| && IsRun(l, turns) && FromSources(turns, sources) && |sources| <= l.maxKeys
    requires AtMostInFlight(l, turns, source, m)
    ensures |Overdue(l, turns, n, source, s)| <= Others(m)
  {
    if n == 0 {
      assert Overdue(l, turns, 0, source, s) == {};
    } else if Counts(l, turns, n - 1, source) {
      InFlightEnds(l, turns, n - 1, source);
      assert |InFlight(l, turns, n - 1, source)| <= m;
      BoundedMap.SubsetSize(Overdue(l, turns, n, source, s), InFlight(l, turns, n, source));
    } else {
      OverdueFew(l, turns, n - 1, sources, source, s, m);
      OverdueStep(l, turns, n - 1, sources, source, s);
      BoundedMap.SubsetSize(Overdue(l, turns, n, source, s), Overdue(l, turns, n - 1, source, s));
    }
  }

  // ---- What a count lets through ----

  /** The counted rejections after which a request begun at s is not in time, and one more when it
      was not at the start. Only these leave anything of the stretch overdue. */
  ghost function Crowding<K>(l: Limits, turns: seq<Turn<K>>, a: nat, n: nat, source: K, s: nat): nat
    requires a <= n <= |turns|
  {
    if n == a then if InTime(l, turns, a, source, s) then 0 else 1
    else Crowding(l, turns, a, n - 1, source, s) + if Counts(l, turns, n - 1, source) && !InTime(l, turns, n, source, s) then 1 else 0
  }

  /** Every crowding count has paid for the others in flight, the overdue ones among them. Said of
      every number equal to `others`, so that a proof unfolds it only where it names it. */
  ghost predicate Settled<K(!new)>(l: Limits, turns: seq<Turn<K>>, a: nat, n: nat, source: K, s: nat, others: nat) {
    a <= n <= |turns| && forall o: nat :: o == others ==> SettledBy(l, turns, a, n, source, s, o)
  }

  ghost predicate SettledBy<K(!new)>(l: Limits, turns: seq<Turn<K>>, a: nat, n: nat, source: K, s: nat, others: nat)
    requires a <= n <= |turns|
  {
    RejectedBy(turns, a, n, source) + |Overdue(l, turns, n, source, s)|
      <= CountedBy(l, turns, a, n, source) + others * Crowding(l, turns, a, n, source, s)
  }

  lemma {:induction false} OneMore(others: nat, c: nat)
    ensures others * (c + 1) == others * c + others && others * c >= 0 && others * 1 == others
  {
  }

  lemma {:induction false} NoneOverdue<K(!new)>(l: Limits, turns: seq<Turn<K>>, n: nat, source: K, s: nat)
    requires n <= |turns| && InTime(l, turns, n, source, s)
    ensures Overdue(l, turns, n, source, s) == {}
  {
    forall b | b in Overdue(l, turns, n, source, s) ensures false {
    }
  }

  lemma {:induction false} SettledAtCount<K(!new)>(l: Limits, turns: seq<Turn<K>>, a: nat, n: nat, sources: set<K>, source: K,
      s: nat, m: nat)
    requires a <= n < |turns| && IsRun(l, turns) && FromSources(turns, sources) && |sources| <= l.maxKeys
    requires AtMostInFlight(l, turns, source, m)
    requires Counts(l, turns, n, source) && Settled(l, turns, a, n, source, s, Others(m))
    ensures Settled(l, turns, a, n + 1, source, s, Others(m))
  {
    assert SettledBy(l, turns, a, n, source, s, Others(m));
    OneMore(Others(m), Crowding(l, turns, a, n, source, s));
    if InTime(l, turns, n + 1, source, s) {
      NoneOverdue(l, turns, n + 1, source, s);
    } else {
      OverdueFew(l, turns, n + 1, sources, source, s, m);
    }
    assert SettledBy(l, turns, a, n + 1, source, s, Others(m));
  }

  lemma {:induction false} SettledOtherwise<K(!new)>(l: Limits, turns: seq<Turn<K>>, a: nat, n: nat, sources: set<K>, source: K,
      s: nat, t: nat, others: nat)
    requires a <= n < |turns| && IsRun(l, turns) && FromSources(turns, sources) && |sources| <= l.maxKeys
    requires BeganWithin(turns, a, n + 1, source, s, t)
    requires !Counts(l, turns, n, source) && Settled(l, turns, a, n, source, s, others)
    ensures Settled(l, turns, a, n + 1, source, s, others)
  {
    assert SettledBy(l, turns, a, n, source, s, others);
    OverdueStep(l, turns, n, sources, source, s);
    BoundedMap.SubsetSize(Overdue(l, turns, n + 1, source, s), Overdue(l, turns, n, source, s));
    if RejectsOf(turns, n, source) {
      EntryStep(l, turns, n, sources, source);
      InFlightEnds(l, turns, n, source);
      SmallerBy(Overdue(l, turns, n + 1, source, s), Overdue(l, turns, n, source, s), turns[n].began);
    }
    assert SettledBy(l, turns, a, n + 1, source, s, others);
  }

  lemma {:induction false} SettledAtStart<K(!new)>(l: Limits, turns: seq<Turn<K>>, a: nat, sources: set<K>, source: K, s: nat, m: nat)
    requires a <= |turns| && IsRun(l, turns) && FromSources(turns, sources) && |sources| <= l.maxKeys
    requires AtMostInFlight(l, turns, source, m)
    ensures Settled(l, turns, a, a, source, s, Others(m))
  {
    OneMore(Others(m), 0);
    if InTime(l, turns, a, source, s) {
      NoneOverdue(l, turns, a, source, s);
    } else {
      OverdueFew(l, turns, a, sources, source, s, m);
    }
    assert SettledBy(l, turns, a, a, source, s, Others(m));
  }

  /** In any stretch, a rejection is counted or was overdue after a crowding count, at most the
      others in flight after each. */
  lemma {:induction false} RejectedPerCounted<K(!new)>(l: Limits, turns: seq<Turn<K>>, a: nat, n: nat, sources: set<K>, source: K,
      s: nat, t: nat, m: nat)
    requires a <= n <= |turns| && IsRun(l, turns) && FromSources(turns, sources) && |sources| <= l.maxKeys
    requires AtMostInFlight(l, turns, source, m) && BeganWithin(turns, a, n, source, s, t)
    ensures Settled(l, turns, a, n, source, s, Others(m))
  {
    if n == a {
      SettledAtStart(l, turns, a, sources, source, s, m);
    } else {
      RejectedPerCounted(l, turns, a, n - 1, sources, source, s, t, m);
      if Counts(l, turns, n - 1, source) {
        SettledAtCount(l, turns, a, n - 1, sources, source, s, m);
      } else {
        SettledOtherwise(l, turns, a, n - 1, sources, source, s, t, Others(m));
      }
    }
  }

  // ---- How many crowding counts there are ----

  /** Each of b crowding counts after the first has pushed the entry one interval further past the tolerance. */
  ghost predicate PushedPast<K>(l: Limits, turns: seq<Turn<K>>, n: nat, source: K, s: nat, b: nat)
    requires n <= |turns|
  {
    b >= 1 ==> s + l.quota.Tolerance() + (b - 1) * l.quota.EmissionInterval() < Entry(l, turns, n, source)
  }

  lemma {:induction false} PushedFurther<K>(l: Limits, turns: seq<Turn<K>>, n: nat, sources: set<K>, source: K, s: nat, b: nat)
    requires n < |turns| && FromSources(turns, sources) && |sources| <= l.maxKeys && PushedPast(l, turns, n, source, s, b)
    ensures PushedPast(l, turns, n + 1, source, s, b)
    ensures Counts(l, turns, n, source) && !InTime(l, turns, n + 1, source, s) ==> PushedPast(l, turns, n + 1, source, s, b + 1)
  {
    EntryStep(l, turns, n, sources, source);
    if Counts(l, turns, n, source) && !InTime(l, turns, n + 1, source, s) {
      PushedOn(s + l.quota.Tolerance(), b, l.quota.EmissionInterval(), Entry(l, turns, n, source), Entry(l, turns, n + 1, source));
    }
  }

  lemma {:induction false} CrowdingGrows<K>(l: Limits, turns: seq<Turn<K>>, a: nat, n: nat, sources: set<K>, source: K, s: nat)
    requires a <= n <= |turns| && FromSources(turns, sources) && |sources| <= l.maxKeys
    ensures PushedPast(l, turns, n, source, s, Crowding(l, turns, a, n, source, s))
  {
    if a < n {
      CrowdingGrows(l, turns, a, n - 1, sources, source, s);
      PushedFurther(l, turns, n - 1, sources, source, s, Crowding(l, turns, a, n - 1, source, s));
    }
  }

  lemma {:induction false} PushedOn(base: nat, b: nat, interval: nat, entry: nat, entry': nat)
    requires (b >= 1 ==> base + (b - 1) * interval < entry) && entry + interval <= entry' && base < entry'
    ensures base + (b + 1 - 1) * interval < entry'
  {
    if b >= 1 { AddInterval(b - 1, interval); }
  }

  /** A count of the stretch leaves the entry within an interval of the last tolerance. */
  lemma {:induction false} EntryCapped<K>(l: Limits, turns: seq<Turn<K>>, a: nat, n: nat, sources: set<K>, source: K, s: nat, t: nat)
    requires a <= n <= |turns| && FromSources(turns, sources) && |sources| <= l.maxKeys && BeganWithin(turns, a, n, source, s, t)
    ensures Crowding(l, turns, a, n, source, s) >= 2 ==>
              Entry(l, turns, n, source) <= t + l.quota.Tolerance() + l.quota.EmissionInterval()
  {
    if a < n {
      EntryCapped(l, turns, a, n - 1, sources, source, s, t);
      EntryStep(l, turns, n - 1, sources, source);
    }
  }

  lemma {:induction false} FewerTimes(x: int, y: int, interval: nat)
    requires x * interval < y * interval
    ensures x < y
  {
    if x >= y { Bits.MulMono(y, x, interval); }
  }

  lemma {:induction false} CrowdingFew<K>(l: Limits, turns: seq<Turn<K>>, a: nat, n: nat, sources: set<K>, source: K, s: nat, t: nat,
      k: nat)
    requires a <= n <= |turns| && FromSources(turns, sources) && |sources| <= l.maxKeys && BeganWithin(turns, a, n, source, s, t)
    requires s <= t && t - s <= k * l.quota.EmissionInterval() && l.quota.EmissionInterval() > 0
    ensures Crowding(l, turns, a, n, source, s) <= k + 1
  {
    CrowdingGrows(l, turns, a, n, sources, source, s);
    EntryCapped(l, turns, a, n, sources, source, s, t);
    var b := Crowding(l, turns, a, n, source, s);
    if b >= 2 {
      AddInterval(k, l.quota.EmissionInterval());
      FewerTimes(b - 1, k + 1, l.quota.EmissionInterval());
    }
  }

  // ---- The bound ----

  lemma {:induction false} Combined(r: nat, c: nat, b: nat, k: nat, others: nat, burst: nat, interval: nat, elapsed: nat)
    requires r <= c + others * b && b <= k + 1 && (c - burst) * interval <= elapsed
    ensures (r - others * (k + 1) - burst) * interval <= elapsed
  {
    Bits.MulMono(b, k + 1, others);
    Bits.MulMono(r - others * (k + 1) - burst, c - burst, interval);
  }

  /** With a place in the table for every source and at most m requests of a source in flight at a
      time, its rejections in any stretch that spans at most k intervals stay within the quota and
      m - 1 more for each interval begun, however the requests interleave. */
  lemma {:induction false} InFlightBound<K(!new)>(l: Limits, turns: seq<Turn<K>>, a: nat, n: nat, sources: set<K>, source: K, m: nat,
      s: nat, t: nat, k: nat)
    requires a <= n <= |turns| && IsRun(l, turns) && FromSources(turns, sources) && |sources| <= l.maxKeys
    requires AtMostInFlight(l, turns, source, m) && BeganWithin(turns, a, n, source, s, t)
    requires s <= t && (t - s <= k * l.quota.EmissionInterval() || l.quota.EmissionInterval() == 0)
    ensures (RejectedBy(turns, a, n, source) - Others(m) * (k + 1) - l.quota.Burst()) * l.quota.EmissionInterval() <= t - s
  {
    if l.quota.EmissionInterval() > 0 {
      RejectedPerCounted(l, turns, a, n, sources, source, s, t, m);
      assert SettledBy(l, turns, a, n, source, s, Others(m));
      CountedWithin(l, turns, a, n, sources, source, s, t);
      CrowdingFew(l, turns, a, n, sources, source, s, t, k);
      Combined(RejectedBy(turns, a, n, source), CountedBy(l, turns, a, n, source), Crowding(l, turns, a, n, source, s), k, Others(m),
               l.quota.Burst(), l.quota.EmissionInterval(), t - s);
    }
  }

  lemma {:induction false} RateOf(r: int, others: nat, burst: nat, interval: nat, elapsed: nat)
    requires interval > 0 && (r - others * (elapsed / interval + 1 + 1) - burst) * interval <= elapsed
    ensures (r - 2 * others - burst) * interval <= (others + 1) * elapsed
  {
    var q := elapsed / interval;
    assert q * interval <= elapsed;
    Bits.MulMono(q * interval, elapsed, others);
    assert others * (q + 1 + 1) == others * q + 2 * others;
    assert (r - others * q - 2 * others - burst) * interval == (r - 2 * others - burst) * interval - others * (q * interval);
    assert (others + 1) * elapsed == others * elapsed + elapsed;
  }

  lemma {:induction false} IntervalsCover(elapsed: nat, interval: nat)
    requires interval > 0
    ensures elapsed <= (elapsed / interval + 1) * interval
  {
    assert elapsed == elapsed / interval * interval + elapsed % interval;
    AddInterval(elapsed / interval, interval);
  }

  /** The same without counting intervals: m times the rate, and the burst of one request at a time
      with 2 * (m - 1) more. One request at a time keeps the quota itself. */
  lemma {:induction false} InFlightRate<K(!new)>(l: Limits, turns: seq<Turn<K>>, a: nat, n: nat, sources: set<K>, source: K, m: nat,
      s: nat, t: nat)
    requires a <= n <= |turns| && IsRun(l, turns) && FromSources(turns, sources) && |sources| <= l.maxKeys
    requires AtMostInFlight(l, turns, source, m) && BeganWithin(turns, a, n, source, s, t) && s <= t
    ensures (RejectedBy(turns, a, n, source) - 2 * Others(m) - l.quota.Burst()) * l.quota.EmissionInterval() <= (Others(m) + 1) * (t - s)
  {
    var interval := l.quota.EmissionInterval();
    if interval == 0 {
      Bits.MulMono(0, t - s, Others(m) + 1);
    } else {
      IntervalsCover(t - s, interval);
      InFlightBound(l, turns, a, n, sources, source, m, s, t, (t - s) / interval + 1);
      RateOf(RejectedBy(turns, a, n, source), Others(m), l.quota.Burst(), interval, t - s);
    }
  }

  lemma {:induction false} NoneInFlight<K(!new)>(l: Limits, turns: seq<Turn<K>>, a: nat, n: nat, source: K)
    requires a <= n <= |turns| && IsRun(l, turns) && AtMostInFlight(l, turns, source, 0)
    ensures RejectedBy(turns, a, n, source) == 0
  {
    if a < n {
      NoneInFlight(l, turns, a, n - 1, source);
      if RejectsOf(turns, n - 1, source) {
        InFlightEnds(l, turns, n - 1, source);
      }
    }
  }
}
