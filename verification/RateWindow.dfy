/** Tumbling rate windows on arrival time. A reported rate is its exact counts
    divided by a constant, so samples are kept as counts. Times are nanoseconds. */
module RateWindow {
  import opened Wrappers
  import Bits
  import opened Net

  datatype Counts = Counts(bytes: nat, packets: nat, flows: nat) {
    function Plus(o: Counts): Counts {
      Counts(bytes + o.bytes, packets + o.packets, flows + o.flows)
    }

    function Saturated(): Counts {
      Counts(Sat(bytes), Sat(packets), Sat(flows))
    }
  }

  function Zero(): Counts {
    Counts(0, 0, 0)
  }

  // ---- One window ----

  datatype WindowState = WindowState(start: nat, open: Counts, last: Option<Counts>)

  /** Whole windows elapsed at `now`; `duration_since` is zero for an earlier instant. */
  function Elapsed(duration: nat, start: nat, now: nat): nat
    requires duration > 0
  {
    if now < start then 0 else (now - start) / duration
  }

  /** The window after k of its durations have elapsed without a record. */
  function AfterRolls(duration: nat, w: WindowState, k: nat): WindowState {
    if k == 0 then w else WindowState(w.start + k * duration, Zero(), Some(if k == 1 then w.open else Zero()))
  }

  /** What rolling comes to, without the loop. */
  function Rolled(duration: nat, w: WindowState, now: nat): WindowState
    requires duration > 0
  {
    AfterRolls(duration, w, Elapsed(duration, w.start, now))
  }

  function Recorded(duration: nat, w: WindowState, now: nat, bytes: nat, packets: nat): WindowState
    requires duration > 0
  {
    var r := Rolled(duration, w, now);
    r.(open := r.open.Plus(Counts(bytes, packets, 1)).Saturated())
  }

  lemma {:induction false} ElapsedStep(duration: nat, start: nat, now: nat)
    requires duration > 0 && now >= start + duration
    ensures Elapsed(duration, start, now) == Elapsed(duration, start + duration, now) + 1
  {
    DivShift(now - start - duration, duration);
  }

  lemma {:induction false} NotElapsed(duration: nat, start: nat, now: nat)
    requires duration > 0 && now < start + duration
    ensures Elapsed(duration, start, now) == 0
  {
    if now >= start { Bits.DivMod(now - start, duration, 0, now - start); }
  }

  /** One turn of the roll loop. */
  lemma {:induction false} RollOnce(duration: nat, w: WindowState, k: nat)
    ensures var r := AfterRolls(duration, w, k);
            AfterRolls(duration, w, k + 1) == WindowState(r.start + duration, Zero(), Some(r.open))
  {
    assert (k + 1) * duration == k * duration + duration;
    assert 1 * duration == duration;
  }

  lemma {:induction false} DivShift(a: nat, d: nat)
    requires d > 0
    ensures (a + d) / d == a / d + 1
  {
    var q := a / d;
    assert (q + 1) * d == q * d + d;
    Bits.DivMod(a + d, d, q + 1, a % d);
  }

  class Window {
    const duration: nat
    var windowStart: nat
    var bytes: nat
    var packets: nat
    var flows: nat
    var lastFinalized: Option<Counts>

    ghost function State(): WindowState
      reads this
    {
      WindowState(windowStart, Counts(bytes, packets, flows), lastFinalized)
    }

    constructor (duration: nat, now: nat)
      ensures this.duration == duration && State() == WindowState(now, Zero(), None)
    {
      this.duration, windowStart, bytes, packets, flows, lastFinalized := duration, now, 0, 0, 0, None;
    }

    /** Finalizes every window that has fully elapsed. */
    method RollIfElapsed(now: nat)
      requires duration > 0
      modifies this
      ensures State() == Rolled(duration, old(State()), now)
    {
      ghost var w, k := State(), 0;
      while now >= windowStart && now - windowStart >= duration
        invariant Elapsed(duration, w.start, now) == k + Elapsed(duration, windowStart, now)
        invariant State() == AfterRolls(duration, w, k)
        decreases if now >= windowStart then now - windowStart + 1 else 0
      {
        ElapsedStep(duration, windowStart, now);
        RollOnce(duration, w, k);
        lastFinalized := Some(Counts(bytes, packets, flows));
        windowStart := windowStart + duration;
        bytes, packets, flows := 0, 0, 0;
        k := k + 1;
      }
      NotElapsed(duration, windowStart, now);
    }

    method Record(now: nat, bytes: nat, packets: nat)
      requires duration > 0
      modifies this
      ensures State() == Recorded(duration, old(State()), now, bytes, packets)
    {
      RollIfElapsed(now);
      this.bytes := Sat(this.bytes + bytes);
      this.packets := Sat(this.packets + packets);
      flows := Sat(flows + 1);
    }
  }

  // ---- Runs ----

  datatype Event = Arrival(now: nat, bytes: nat, packets: nat) | Tick(now: nat)

  function Apply(duration: nat, w: WindowState, e: Event): WindowState
    requires duration > 0
  {
    match e
    case Arrival(now, bytes, packets) => Recorded(duration, w, now, bytes, packets)
    case Tick(now) => Rolled(duration, w, now)
  }

  /** The window after a run of events since its creation at t0. */
  ghost function StateAfter(duration: nat, t0: nat, events: seq<Event>): WindowState
    requires duration > 0
  {
    if events == [] then WindowState(t0, Zero(), None)
    else Apply(duration, StateAfter(duration, t0, events[..|events| - 1]), events[|events| - 1])
  }

  lemma {:induction false} AppendEvent(duration: nat, t0: nat, events: seq<Event>, e: Event)
    requires duration > 0
    ensures StateAfter(duration, t0, events + [e]) == Apply(duration, StateAfter(duration, t0, events), e)
  {
    assert (events + [e])[..|events|] == events;
  }

  /** The five window durations: 1, 5, 15, 60 and 300 seconds. */
  const WINDOW_DURATIONS: seq<nat> := [1_000_000_000, 5_000_000_000, 15_000_000_000, 60_000_000_000, 300_000_000_000]

  class RateWindowSet {
    const windows: seq<Window>
    ghost const t0: nat
    ghost var events: seq<Event>

    ghost predicate Valid()
      reads this`events, windows
    {
      && |windows| == |WINDOW_DURATIONS|
      && (forall i, j :: 0 <= i < j < |windows| ==> windows[i] != windows[j])
      && forall i :: 0 <= i < |windows| ==>
           && windows[i].duration == WINDOW_DURATIONS[i]
           && windows[i].State() == StateAfter(WINDOW_DURATIONS[i], t0, events)
    }

    constructor (now: nat)
      ensures Valid() && t0 == now && events == []
      ensures forall i :: 0 <= i < |windows| ==> fresh(windows[i])
    {
      t0, events := now, [];
      var list: seq<Window> := [];
      for i := 0 to |WINDOW_DURATIONS|
        invariant |list| == i && forall j :: 0 <= j < i ==> fresh(list[j])
        invariant forall j, k :: 0 <= j < k < i ==> list[j] != list[k]
        invariant forall j :: 0 <= j < i ==>
                    list[j].duration == WINDOW_DURATIONS[j] && list[j].State() == WindowState(now, Zero(), None)
      {
        var w := new Window(WINDOW_DURATIONS[i], now);
        list := list + [w];
      }
      windows := list;
    }

    method Record(now: nat, bytes: nat, packets: nat)
      requires Valid()
      modifies this`events, windows
      ensures Valid() && events == old(events) + [Arrival(now, bytes, packets)]
    {
      ghost var e := Arrival(now, bytes, packets);
      for i := 0 to |windows|
        invariant events == old(events)
        invariant forall j :: 0 <= j < |windows| ==>
                    windows[j].State() == StateAfter(WINDOW_DURATIONS[j], t0, if j < i then events + [e] else events)
      {
        AppendEvent(WINDOW_DURATIONS[i], t0, events, e);
        windows[i].Record(now, bytes, packets);
      }
      events := events + [e];
    }

    method Tick(now: nat)
      requires Valid()
      modifies this`events, windows
      ensures Valid() && events == old(events) + [Event.Tick(now)]
    {
      ghost var e := Event.Tick(now);
      for i := 0 to |windows|
        invariant events == old(events)
        invariant forall j :: 0 <= j < |windows| ==>
                    windows[j].State() == StateAfter(WINDOW_DURATIONS[j], t0, if j < i then events + [e] else events)
      {
        AppendEvent(WINDOW_DURATIONS[i], t0, events, e);
        windows[i].RollIfElapsed(now);
      }
      events := events + [e];
    }

    /** The last finalized sample of each window, in the order of the durations. */
    method Rates() returns (rates: seq<(nat, Option<Counts>)>)
      requires Valid()
      ensures |rates| == |WINDOW_DURATIONS| == 5
      ensures [rates[0].0, rates[1].0, rates[2].0, rates[3].0, rates[4].0] ==
              [1_000_000_000, 5_000_000_000, 15_000_000_000, 60_000_000_000, 300_000_000_000]
      ensures forall i :: 0 <= i < |rates| ==>
                rates[i] == (WINDOW_DURATIONS[i], StateAfter(WINDOW_DURATIONS[i], t0, events).last)
    {
      rates := [];
      for i := 0 to |windows|
        invariant |rates| == i
        invariant forall j :: 0 <= j < i ==> rates[j] == (windows[j].duration, windows[j].lastFinalized)
      {
        rates := rates + [(windows[i].duration, windows[i].lastFinalized)];
      }
      assert forall i :: 0 <= i < |windows| ==> windows[i].lastFinalized == windows[i].State().last;
    }
  }
}
