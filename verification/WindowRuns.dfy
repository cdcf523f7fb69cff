/** What the rate windows report, read off the arrivals alone. */
module WindowRuns {
  import opened Net
  import opened Wrappers
  import opened Bits
  import opened RateWindow

  ghost predicate InOrder(events: seq<Event>, from: nat) {
    && (forall i :: 0 <= i < |events| ==> from <= events[i].now)
    && forall i, j :: 0 <= i <= j < |events| ==> events[i].now <= events[j].now
  }

  /** What an event adds to the counts of [a, b). */
  ghost function Weight(e: Event, a: nat, b: nat): Counts {
    if e.Arrival? && a <= e.now < b then Counts(e.bytes, e.packets, 1) else Zero()
  }

  /** The exact counts of the arrivals at times in [a, b). */
  ghost function Total(events: seq<Event>, a: nat, b: nat): Counts {
    if events == [] then Zero()
    else Total(events[..|events| - 1], a, b).Plus(Weight(events[|events| - 1], a, b))
  }

  /** The start of window number k. */
  ghost function Start(duration: nat, t0: nat, k: nat): nat {
    t0 + k * duration
  }

  ghost function ClosedAt(duration: nat, t0: nat, events: seq<Event>, k: nat, now: nat): WindowState {
    WindowState(Start(duration, t0, k), Total(events, Start(duration, t0, k), now + 1).Saturated(),
                if k == 0 then None
                else Some(Total(events, Start(duration, t0, k - 1), Start(duration, t0, k)).Saturated()))
  }

  /** The window at `now` in closed form, all events being at or before `now`: it starts a whole
      number of durations after t0, its open counts are the arrivals since, and its sample is the
      arrivals of the duration before. */
  ghost function Closed(duration: nat, t0: nat, events: seq<Event>, now: nat): WindowState
    requires duration > 0 && t0 <= now
  {
    ClosedAt(duration, t0, events, (now - t0) / duration, now)
  }

  /** The latest time of a run. */
  ghost function End(events: seq<Event>, t0: nat): nat {
    if events == [] then t0 else events[|events| - 1].now
  }

  /** An instant falls in the window the quotient names. */
  lemma {:induction false} WithinWindow(duration: nat, t0: nat, now: nat)
    requires duration > 0 && t0 <= now
    ensures var k := (now - t0) / duration; Start(duration, t0, k) <= now < Start(duration, t0, k + 1)
  {
    var k := (now - t0) / duration;
    assert (k + 1) * duration == k * duration + duration;
  }

  lemma {:induction false} StartsIncrease(duration: nat, t0: nat, k: nat, l: nat)
    requires k <= l
    ensures Start(duration, t0, k) + (l - k) * duration == Start(duration, t0, l) >= Start(duration, t0, k)
  {
    assert (l - k) * duration == l * duration - k * duration;
    MulMono(k, l, duration);
  }

  lemma {:induction false} TotalAppend(events: seq<Event>, e: Event, a: nat, b: nat)
    ensures Total(events + [e], a, b) == Total(events, a, b).Plus(Weight(e, a, b))
  {
    assert (events + [e])[..|events|] == events;
  }

  lemma {:induction false} PlusZero(c: Counts)
    ensures c.Plus(Zero()) == c
  {
  }

  lemma {:induction false} TotalAbsent(events: seq<Event>, a: nat, b: nat)
    requires forall i :: 0 <= i < |events| ==> events[i].now < a || b <= events[i].now
    ensures Total(events, a, b) == Zero()
  {
    if events != [] { TotalAbsent(events[..|events| - 1], a, b); }
  }

  lemma {:induction false} TotalSame(events: seq<Event>, a: nat, b: nat, b': nat)
    requires forall i :: 0 <= i < |events| ==> (events[i].now < b <==> events[i].now < b')
    ensures Total(events, a, b) == Total(events, a, b')
  {
    if events != [] { TotalSame(events[..|events| - 1], a, b, b'); }
  }

  /** How many more windows have elapsed between two instants. */
  lemma {:induction false} ElapsedBetween(duration: nat, t0: nat, now: nat, later: nat)
    requires duration > 0 && t0 <= now <= later
    ensures var k, k' := (now - t0) / duration, (later - t0) / duration;
            k <= k' && Elapsed(duration, Start(duration, t0, k), later) == k' - k
  {
    var k, k' := (now - t0) / duration, (later - t0) / duration;
    WithinWindow(duration, t0, now);
    WithinWindow(duration, t0, later);
    if k' < k {
      StartsIncrease(duration, t0, k' + 1, k);
    }
    StartsIncrease(duration, t0, k, k');
    StartsIncrease(duration, t0, k', k' + 1);
    DivMod(later - Start(duration, t0, k), duration, k' - k, later - Start(duration, t0, k'));
  }

  lemma {:induction false} ClosedWithin(duration: nat, t0: nat, events: seq<Event>, k: nat, now: nat, later: nat)
    requires now <= later && forall i :: 0 <= i < |events| ==> events[i].now <= now
    ensures ClosedAt(duration, t0, events, k, now) == ClosedAt(duration, t0, events, k, later)
  {
    TotalSame(events, Start(duration, t0, k), now + 1, later + 1);
  }

  /** Rolling from window k to window k', all events being at or before `now`. */
  lemma {:induction false} RollBy(duration: nat, t0: nat, events: seq<Event>, k: nat, now: nat, k': nat, later: nat)
    requires duration > 0 && now <= later && k <= k' && now < Start(duration, t0, k + 1)
    requires forall i :: 0 <= i < |events| ==> events[i].now <= now
    requires Elapsed(duration, Start(duration, t0, k), later) == k' - k
    ensures Rolled(duration, ClosedAt(duration, t0, events, k, now), later) == ClosedAt(duration, t0, events, k', later)
  {
    if k' == k {
      ClosedWithin(duration, t0, events, k, now, later);
    } else {
      StartsIncrease(duration, t0, k, k');
      StartsIncrease(duration, t0, k + 1, k');
      TotalAbsent(events, Start(duration, t0, k'), later + 1);
      if k' == k + 1 {
        TotalSame(events, Start(duration, t0, k), now + 1, Start(duration, t0, k'));
      } else {
        StartsIncrease(duration, t0, k + 1, k' - 1);
        TotalAbsent(events, Start(duration, t0, k' - 1), Start(duration, t0, k'));
      }
    }
  }

  /** Rolling the closed form forward is the closed form later. */
  lemma {:induction false} RollClosed(duration: nat, t0: nat, events: seq<Event>, now: nat, later: nat)
    requires duration > 0 && t0 <= now <= later && forall i :: 0 <= i < |events| ==> events[i].now <= now
    ensures Rolled(duration, Closed(duration, t0, events, now), later) == Closed(duration, t0, events, later)
  {
    var k, k' := (now - t0) / duration, (later - t0) / duration;
    ElapsedBetween(duration, t0, now, later);
    WithinWindow(duration, t0, now);
    RollBy(duration, t0, events, k, now, k', later);
  }

  lemma {:induction false} SatSum(x: nat, y: nat)
    ensures Sat(Sat(x) + y) == Sat(x + y)
  {
  }

  lemma {:induction false} SaturatedPlus(c: Counts, d: Counts)
    ensures c.Saturated().Plus(d).Saturated() == c.Plus(d).Saturated()
  {
    SatSum(c.bytes, d.bytes);
    SatSum(c.packets, d.packets);
    SatSum(c.flows, d.flows);
  }

  lemma {:induction false} ClosedArrival(duration: nat, t0: nat, events: seq<Event>, e: Event)
    requires duration > 0 && t0 <= e.now
    ensures Closed(duration, t0, events + [e], e.now)
         == var c := Closed(duration, t0, events, e.now);
            if e.Arrival? then c.(open := c.open.Plus(Counts(e.bytes, e.packets, 1)).Saturated()) else c
  {
    WithinWindow(duration, t0, e.now);
    var k := (e.now - t0) / duration;
    assert (events + [e])[..|events|] == events;
    SaturatedPlus(Total(events, Start(duration, t0, k), e.now + 1),
                  if e.Arrival? then Counts(e.bytes, e.packets, 1) else Zero());
  }

  /** The tumbling-window invariant: after any run of arrivals and ticks, and a roll at any later
      instant, the window is its closed form. */
  lemma {:induction false} TumblingWindow(duration: nat, t0: nat, events: seq<Event>, now: nat)
    requires duration > 0 && InOrder(events, t0) && End(events, t0) <= now
    ensures Rolled(duration, StateAfter(duration, t0, events), now) == Closed(duration, t0, events, now)
    ensures StateAfter(duration, t0, events) == Closed(duration, t0, events, End(events, t0))
  {
    if events == [] {
      assert Closed(duration, t0, [], t0) == WindowState(t0, Zero(), None) by {
        DivMod(0, duration, 0, 0);
        assert 0 * duration == 0;
      }
      RollClosed(duration, t0, [], t0, now);
    } else {
      var init, e := events[..|events| - 1], events[|events| - 1];
      assert init + [e] == events;
      TumblingWindow(duration, t0, init, e.now);
      ClosedArrival(duration, t0, init, e);
      RollClosed(duration, t0, events, e.now, now);
    }
  }

  // ---- Ticks are invisible ----

  ghost function Arrivals(events: seq<Event>): seq<Event> {
    if events == [] then []
    else Arrivals(events[..|events| - 1]) + if events[|events| - 1].Arrival? then [events[|events| - 1]] else []
  }

  lemma {:induction false} TotalOfArrivals(events: seq<Event>, a: nat, b: nat)
    ensures Total(events, a, b) == Total(Arrivals(events), a, b)
  {
    if events != [] {
      var init, e := events[..|events| - 1], events[|events| - 1];
      TotalOfArrivals(init, a, b);
      if e.Arrival? {
        TotalAppend(Arrivals(init), e, a, b);
      } else {
        PlusZero(Total(init, a, b));
        assert Arrivals(events) == Arrivals(init);
      }
    }
  }

  lemma {:induction false} ClosedOfArrivals(duration: nat, t0: nat, events: seq<Event>, now: nat)
    requires duration > 0 && t0 <= now
    ensures Closed(duration, t0, events, now) == Closed(duration, t0, Arrivals(events), now)
  {
    var k := (now - t0) / duration;
    TotalOfArrivals(events, Start(duration, t0, k), now + 1);
    if k > 0 {
      TotalOfArrivals(events, Start(duration, t0, k - 1), Start(duration, t0, k));
    }
  }

  lemma {:induction false} ClosedAfterTick(duration: nat, t0: nat, events: seq<Event>, now: nat)
    requires duration > 0 && InOrder(events, t0) && End(events, t0) <= now
    ensures StateAfter(duration, t0, events + [Tick(now)]) == Closed(duration, t0, Arrivals(events), now)
  {
    AppendEvent(duration, t0, events, Tick(now));
    TumblingWindow(duration, t0, events, now);
    ClosedOfArrivals(duration, t0, events, now);
  }

  /** Two runs with the same arrivals, whatever their ticks, report the same after a later tick. */
  lemma {:induction false} TicksInvisible(duration: nat, t0: nat, xs: seq<Event>, ys: seq<Event>, now: nat)
    requires duration > 0 && InOrder(xs, t0) && InOrder(ys, t0) && End(xs, t0) <= now && End(ys, t0) <= now
    requires Arrivals(xs) == Arrivals(ys)
    ensures StateAfter(duration, t0, xs + [Tick(now)]) == StateAfter(duration, t0, ys + [Tick(now)])
  {
    ClosedAfterTick(duration, t0, xs, now);
    ClosedAfterTick(duration, t0, ys, now);
  }

  // ---- Windows nest ----

  /** The part of a run before an instant. */
  ghost function Before(events: seq<Event>, now: nat): seq<Event> {
    if events == [] then []
    else Before(events[..|events| - 1], now) + if events[|events| - 1].now < now then [events[|events| - 1]] else []
  }

  /** The sample reported when window number k (from 1) is finalized on time. */
  ghost function Sample(duration: nat, t0: nat, events: seq<Event>, k: nat): Option<Counts>
    requires duration > 0
  {
    var due := Start(duration, t0, k);
    StateAfter(duration, t0, Before(events, due) + [Tick(due)]).last
  }

  lemma {:induction false} BeforeBounds(events: seq<Event>, t0: nat, now: nat)
    requires InOrder(events, t0) && t0 <= now
    ensures forall i :: 0 <= i < |Before(events, now)| ==> t0 <= Before(events, now)[i].now < now
    ensures forall i :: 0 <= i < |Before(events, now)| ==> Before(events, now)[i].now <= End(events, t0)
  {
    if events != [] {
      BeforeBounds(events[..|events| - 1], t0, now);
    }
  }

  lemma {:induction false} BeforeInOrder(events: seq<Event>, t0: nat, now: nat)
    requires InOrder(events, t0) && t0 <= now
    ensures InOrder(Before(events, now), t0)
  {
    if events != [] {
      BeforeInOrder(events[..|events| - 1], t0, now);
      BeforeBounds(events[..|events| - 1], t0, now);
    }
  }

  lemma {:induction false} TotalBefore(events: seq<Event>, a: nat, b: nat)
    ensures Total(Before(events, b), a, b) == Total(events, a, b)
  {
    if events != [] {
      var init, e := events[..|events| - 1], events[|events| - 1];
      TotalBefore(init, a, b);
      if e.now < b {
        TotalAppend(Before(init, b), e, a, b);
      } else {
        PlusZero(Total(init, a, b));
        assert Before(events, b) == Before(init, b);
      }
    }
  }

  /** A finalized sample is exactly the arrivals of its window. */
  lemma {:induction false} SampleIsTotal(duration: nat, t0: nat, events: seq<Event>, k: nat)
    requires duration > 0 && k >= 1 && InOrder(events, t0)
    ensures Sample(duration, t0, events, k)
         == Some(Total(events, Start(duration, t0, k - 1), Start(duration, t0, k)).Saturated())
  {
    var due := Start(duration, t0, k);
    BeforeInOrder(events, t0, due);
    BeforeBounds(events, t0, due);
    AppendEvent(duration, t0, Before(events, due), Tick(due));
    TumblingWindow(duration, t0, Before(events, due), due);
    DivMod(k * duration, duration, k, 0);
    TotalBefore(events, Start(duration, t0, k - 1), due);
  }

  lemma {:induction false} TotalSplits(events: seq<Event>, a: nat, b: nat, c: nat)
    requires a <= b <= c
    ensures Total(events, a, c) == Total(events, a, b).Plus(Total(events, b, c))
  {
    if events != [] {
      var init, e := events[..|events| - 1], events[|events| - 1];
      TotalSplits(init, a, b, c);
      WeightSplits(e, a, b, c);
      PlusMoves(Total(init, a, b), Total(init, b, c), Weight(e, a, b), Weight(e, b, c));
    }
  }

  lemma {:induction false} WeightSplits(e: Event, a: nat, b: nat, c: nat)
    requires a <= b <= c
    ensures Weight(e, a, c) == Weight(e, a, b).Plus(Weight(e, b, c))
  {
  }

  lemma {:induction false} PlusMoves(x: Counts, y: Counts, u: Counts, v: Counts)
    ensures x.Plus(y).Plus(u.Plus(v)) == x.Plus(u).Plus(y.Plus(v))
  {
  }

  /** The sum of f(first + 1) .. f(first + n). */
  ghost function SumOf(f: nat -> Counts, first: nat, n: nat): Counts {
    if n == 0 then Zero() else SumOf(f, first, n - 1).Plus(f(first + n))
  }

  /** The counts a window reports as number k. */
  ghost function SampleCounts(duration: nat, t0: nat, events: seq<Event>): nat -> Counts
    requires duration > 0
  {
    (k: nat) => var sample := Sample(duration, t0, events, k); if sample.Some? then sample.value else Zero()
  }

  lemma {:induction false} SaturatedBoth(c: Counts, d: Counts)
    ensures c.Saturated().Plus(d.Saturated()).Saturated() == c.Plus(d).Saturated()
  {
    SaturatedPlus(c, d.Saturated());
    SaturatedPlus(d, c);
  }

  /** Counts of consecutive intervals add up to the counts of their union. */
  lemma {:induction false} IntervalsAddUp(events: seq<Event>, start: nat -> nat, f: nat -> Counts, first: nat, n: nat)
    requires forall k, l :: k <= l ==> start(k) <= start(l)
    requires forall k :: first < k <= first + n ==> f(k) == Total(events, start(k - 1), start(k)).Saturated()
    ensures SumOf(f, first, n).Saturated() == Total(events, start(first), start(first + n)).Saturated()
  {
    if n == 0 {
      TotalAbsent(events, start(first), start(first));
    } else {
      IntervalsAddUp(events, start, f, first, n - 1);
      assert start(first) <= start(first + n - 1) <= start(first + n);
      TotalsAddUp(events, start(first), start(first + n - 1), start(first + n), SumOf(f, first, n - 1));
    }
  }

  lemma {:induction false} TotalsAddUp(events: seq<Event>, a: nat, b: nat, c: nat, sum: Counts)
    requires a <= b <= c && sum.Saturated() == Total(events, a, b).Saturated()
    ensures sum.Plus(Total(events, b, c).Saturated()).Saturated() == Total(events, a, c).Saturated()
  {
    TotalSplits(events, a, b, c);
    var last := Total(events, b, c);
    SaturatedPlus(sum, last.Saturated());
    SaturatedBoth(Total(events, a, b), last);
  }

  lemma {:induction false} StartScaled(duration: nat, n: nat, t0: nat, k: nat)
    ensures Start(n * duration, t0, k) == Start(duration, t0, k * n)
  {
    MulAssoc(k, n, duration);
  }

  lemma {:induction false} SamplesAddUp(duration: nat, t0: nat, events: seq<Event>, first: nat, n: nat)
    requires duration > 0 && InOrder(events, t0)
    ensures SumOf(SampleCounts(duration, t0, events), first, n).Saturated()
         == Total(events, Start(duration, t0, first), Start(duration, t0, first + n)).Saturated()
  {
    var start := (k: nat) => Start(duration, t0, k);
    forall k: nat, l: nat | k <= l ensures start(k) <= start(l) {
      StartsIncrease(duration, t0, k, l);
    }
    var f := SampleCounts(duration, t0, events);
    forall k: nat | first < k <= first + n ensures f(k) == Total(events, start(k - 1), start(k)).Saturated() {
      SampleIsTotal(duration, t0, events, k);
    }
    IntervalsAddUp(events, start, f, first, n);
  }

  /** Windows nest: a finalized sample of a window n times as long is the (saturated) sum of the n
      shorter samples finalized inside it. */
  lemma {:induction false} WindowsNest(duration: nat, n: nat, long: nat, t0: nat, events: seq<Event>, k: nat)
    requires duration > 0 && n >= 1 && long == n * duration > 0 && k >= 1 && InOrder(events, t0)
    ensures Sample(long, t0, events, k) == Some(SumOf(SampleCounts(duration, t0, events), (k - 1) * n, n).Saturated())
  {
    SampleIsTotal(long, t0, events, k);
    StartScaled(duration, n, t0, k - 1);
    StartScaled(duration, n, t0, k);
    SamplesAddUp(duration, t0, events, (k - 1) * n, n);
    NextMultiple(k, n);
  }

  lemma {:induction false} NextMultiple(k: nat, n: nat)
    requires k >= 1
    ensures (k - 1) * n + n == k * n
  {
  }

  /** The five durations are such multiples: 5, 3, 4 and 5 times the next shorter one. */
  lemma {:induction false} DurationsNest(i: nat, t0: nat, events: seq<Event>, k: nat)
    requires 1 <= i < |WINDOW_DURATIONS| && k >= 1 && InOrder(events, t0)
    ensures var long, short := WINDOW_DURATIONS[i], WINDOW_DURATIONS[i - 1];
            var n := if i == 2 then 3 else if i == 3 then 4 else 5;
            && long == n * short
            && Sample(long, t0, events, k) == Some(SumOf(SampleCounts(short, t0, events), (k - 1) * n, n).Saturated())
  {
    WindowsNest(WINDOW_DURATIONS[i - 1], if i == 2 then 3 else if i == 3 then 4 else 5, WINDOW_DURATIONS[i], t0, events, k);
  }
}
