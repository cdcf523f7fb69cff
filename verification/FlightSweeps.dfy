/** Requests in flight with more sources than places in the table: a rejection is counted with the
    time its request began, so the limiter sees times out of order and a sweep can forget too much. */
module FlightSweeps {
  import Bits
  import opened RateLimiter
  import opened LimiterRuns
  import opened Auth
  import opened Flights
  import opened Sums

  // ---- The limiter's view of a run ----

  /** The calls of the limiter in the first n turns. */
  ghost function Checks<K>(turns: seq<Turn<K>>, n: nat): seq<Request<K>>
    requires n <= |turns|
  {
    if n == 0 then []
    else Checks(turns, n - 1) + if Rejects(turns, n - 1) then [Request(SourceOf(turns, n - 1), TimeOf(turns, n - 1))] else []
  }

  /** These calls leave this table, with c of the source allowed between s and t. Said of every number
      equal to c, so that a proof unfolds it only where it names it. */
  ghost predicate Leaves<K(!new)>(l: Limits, reqs: seq<Request<K>>, source: K, s: nat, t: nat, tats: map<K, nat>, c: nat) {
    forall n: nat :: n == c ==> LeavesExactly(l, reqs, source, s, t, tats, n)
  }

  ghost predicate LeavesExactly<K>(l: Limits, reqs: seq<Request<K>>, source: K, s: nat, t: nat, tats: map<K, nat>, c: nat) {
    TableAfter(l.quota, l.maxKeys, reqs) == tats && AllowedIn(l.quota, l.maxKeys, reqs, source, s, t) == c
  }

  lemma {:induction false} NoCall<K(!new)>(l: Limits, source: K, s: nat, t: nat)
    ensures Leaves(l, [], source, s, t, map[], 0)
  {
    assert LeavesExactly<K>(l, [], source, s, t, map[], 0);
  }

  lemma {:induction false} OneMoreCall<K(!new)>(l: Limits, reqs: seq<Request<K>>, req: Request<K>, source: K, s: nat, t: nat,
      tats: map<K, nat>, c: nat, tats': map<K, nat>, c': nat)
    requires Leaves(l, reqs, source, s, t, tats, c) && tats' == CheckTable(l.quota, l.maxKeys, tats, req.key, req.now)
    requires c' == c + if req.key == source && s <= req.now <= t && CheckAnswer(l.quota, l.maxKeys, tats, req.key, req.now) == Allowed
                       then 1 else 0
    ensures Leaves(l, reqs + [req], source, s, t, tats', c')
  {
    assert LeavesExactly(l, reqs, source, s, t, tats, c);
    assert (reqs + [req])[..|reqs|] == reqs;
  }

  lemma {:induction false} OneMoreTurn<K(!new)>(l: Limits, turns: seq<Turn<K>>, n: nat, source: K, s: nat, t: nat, c: nat)
    requires n < |turns| && Leaves(l, Checks(turns, n), source, s, t, TableAt(l, turns, n), c)
    ensures Leaves(l, Checks(turns, n + 1), source, s, t, TableAt(l, turns, n + 1),
                   c + if Counts(l, turns, n, source) && s <= TimeOf(turns, n) <= t then 1 else 0)
  {
    if Rejects(turns, n) {
      OneMoreCall(l, Checks(turns, n), Request(SourceOf(turns, n), TimeOf(turns, n)), source, s, t, TableAt(l, turns, n), c,
                  TableAt(l, turns, n + 1), c + if Counts(l, turns, n, source) && s <= TimeOf(turns, n) <= t then 1 else 0);
    } else {
      assert Checks(turns, n + 1) == Checks(turns, n);
    }
  }

  lemma {:induction false} ChecksLeave<K(!new)>(l: Limits, turns: seq<Turn<K>>, n: nat, source: K, s: nat, t: nat) returns (c: nat)
    requires n <= |turns|
    ensures Leaves(l, Checks(turns, n), source, s, t, TableAt(l, turns, n), c)
  {
    if n == 0 {
      c := 0;
      NoCall(l, source, s, t);
    } else {
      c := ChecksLeave(l, turns, n - 1, source, s, t);
      OneMoreTurn(l, turns, n - 1, source, s, t, c);
      c := c + if Counts(l, turns, n - 1, source) && s <= TimeOf(turns, n - 1) <= t then 1 else 0;
    }
  }

  /** The limiter's table is that of its calls, in the order the rejections came. */
  lemma {:induction false} TableIsRun<K(!new)>(l: Limits, turns: seq<Turn<K>>, n: nat)
    requires n <= |turns|
    ensures TableAt(l, turns, n) == TableAfter(l.quota, l.maxKeys, Checks(turns, n))
  {
    if p :| 0 <= p < |turns| && turns[p].Begin? {
      var c := ChecksLeave(l, turns, n, turns[p].source, 0, 0);
      assert LeavesExactly(l, Checks(turns, n), turns[p].source, 0, 0, TableAt(l, turns, n), c);
    } else {
      NothingBegun(l, turns, n);
    }
  }

  lemma {:induction false} NothingBegun<K>(l: Limits, turns: seq<Turn<K>>, n: nat)
    requires n <= |turns| && forall p :: 0 <= p < |turns| ==> turns[p].End?
    ensures TableAt(l, turns, n) == map[] && Checks(turns, n) == []
  {
    if n > 0 { NothingBegun(l, turns, n - 1); }
  }

  lemma {:induction false} StretchLeaves<K(!new)>(l: Limits, turns: seq<Turn<K>>, a: nat, n: nat, source: K, s: nat, t: nat, c: nat)
    requires a <= n <= |turns| && BeganWithin(turns, a, n, source, s, t)
    requires Leaves(l, Checks(turns, a), source, s, t, TableAt(l, turns, a), c)
    ensures Leaves(l, Checks(turns, n), source, s, t, TableAt(l, turns, n), c + CountedBy(l, turns, a, n, source))
  {
    if a < n {
      StretchLeaves(l, turns, a, n - 1, source, s, t, c);
      OneMoreTurn(l, turns, n - 1, source, s, t, c + CountedBy(l, turns, a, n - 1, source));
    }
  }

  /** What is counted in a stretch is what the limiter allowed in it. */
  lemma {:induction false} CountedAreAllowed<K(!new)>(l: Limits, turns: seq<Turn<K>>, a: nat, n: nat, source: K, s: nat, t: nat)
    requires a <= n <= |turns| && BeganWithin(turns, a, n, source, s, t)
    ensures AllowedIn(l.quota, l.maxKeys, Checks(turns, n), source, s, t)
         == AllowedIn(l.quota, l.maxKeys, Checks(turns, a), source, s, t) + CountedBy(l, turns, a, n, source)
  {
    var c := ChecksLeave(l, turns, a, source, s, t);
    StretchLeaves(l, turns, a, n, source, s, t, c);
    assert LeavesExactly(l, Checks(turns, a), source, s, t, TableAt(l, turns, a), c);
    assert LeavesExactly(l, Checks(turns, n), source, s, t, TableAt(l, turns, n), c + CountedBy(l, turns, a, n, source));
  }

  // ---- Rejections in the order the requests began ----

  ghost predicate RejectedInOrder<K>(turns: seq<Turn<K>>) {
    forall p, q :: 0 <= p <= q < |turns| && Rejects(turns, p) && Rejects(turns, q) ==> TimeOf(turns, p) <= TimeOf(turns, q)
  }

  lemma {:induction false} ChecksOrdered<K>(turns: seq<Turn<K>>, n: nat)
    requires n <= |turns| && RejectedInOrder(turns)
    ensures Ordered(Checks(turns, n))
    ensures forall i, q :: 0 <= i < |Checks(turns, n)| && n <= q < |turns| && Rejects(turns, q) ==>
              Checks(turns, n)[i].now <= TimeOf(turns, q)
  {
    if n > 0 {
      ChecksOrdered(turns, n - 1);
    }
  }

  /** If the rejections come in the order their requests began, counting conforms whatever the size
      of the table. */
  lemma {:induction false} CountedInOrder<K(!new)>(l: Limits, turns: seq<Turn<K>>, a: nat, n: nat, source: K, s: nat, t: nat)
    requires a <= n <= |turns| && RejectedInOrder(turns) && BeganWithin(turns, a, n, source, s, t) && s <= t
    ensures CountWithin(l, turns, a, n, source, s, t)
  {
    ChecksOrdered(turns, n);
    CountedAreAllowed(l, turns, a, n, source, s, t);
    Conformance(l.quota, l.maxKeys, Checks(turns, n), source, s, t);
    Bits.MulMono(CountedBy(l, turns, a, n, source) - l.quota.Burst(),
             AllowedIn(l.quota, l.maxKeys, Checks(turns, n), source, s, t) - l.quota.Burst(), l.quota.EmissionInterval());
  }

  ghost predicate CountWithin<K>(l: Limits, turns: seq<Turn<K>>, a: nat, n: nat, source: K, s: nat, t: nat)
    requires a <= n <= |turns|
  {
    (CountedBy(l, turns, a, n, source) - l.quota.Burst()) * l.quota.EmissionInterval() <= t - s
  }

  // ---- A table with a single place ----

  /** Every entry is at least v, and there is one. */
  ghost predicate AtLeast<K(!new)>(tats: map<K, nat>, v: nat) {
    |tats| == 1 && forall k :: k in tats ==> v <= tats[k]
  }

  /** Whoever takes the only place has waited for the entry that was there, so the entry never goes
      back, whatever the order of times. */
  lemma {:induction false} OnePlaceStep<K(!new)>(quota: Quota, tats: map<K, nat>, key: K, now: nat, v: nat)
    requires AtLeast(tats, v)
    ensures AtLeast(CheckTable(quota, 1, tats, key, now), v)
    ensures CheckAnswer(quota, 1, tats, key, now) == Allowed ==>
              && AtLeast(CheckTable(quota, 1, tats, key, now), Max(v, now) + quota.EmissionInterval())
              && v <= now + quota.Tolerance()
  {
    var k :| k in tats;
    assert tats.Keys == {k} by { OnlyOne(tats.Keys, k); }
    if key != k {
      assert Sweep(tats, now) == if tats[k] > now then tats else map[];
    }
  }

  lemma {:induction false} OnlyOne<K>(s: set<K>, x: K)
    requires |s| == 1 && x in s
    ensures s == {x}
  {
    assert |s - {x}| == 0;
    assert s == {x} + (s - {x});
  }

  lemma {:induction false} OnePlaceHeld<K(!new)>(l: Limits, turns: seq<Turn<K>>, n: nat)
    requires n <= |turns| && l.maxKeys == 1
    ensures TableAt(l, turns, n) == map[] || AtLeast(TableAt(l, turns, n), 0)
  {
    TableIsRun(l, turns, n);
    TableBounded(l.quota, 1, Checks(turns, n));
  }

  /** The entry after some counts of a source. */
  ghost predicate PushedTo<K(!new)>(l: Limits, turns: seq<Turn<K>>, n: nat, s: nat, c: nat)
    requires n <= |turns|
  {
    c > 0 ==> AtLeast(TableAt(l, turns, n), s + c * l.quota.EmissionInterval())
  }

  lemma {:induction false} OnePlaceTurn<K(!new)>(l: Limits, turns: seq<Turn<K>>, n: nat, source: K, s: nat, c: nat)
    requires n < |turns| && l.maxKeys == 1 && PushedTo(l, turns, n, s, c)
    requires RejectsOf(turns, n, source) ==> s <= TimeOf(turns, n)
    ensures PushedTo(l, turns, n + 1, s, c)
    ensures Counts(l, turns, n, source) ==> PushedTo(l, turns, n + 1, s, c + 1)
    ensures Counts(l, turns, n, source) && c > 0 ==>
              s + c * l.quota.EmissionInterval() <= TimeOf(turns, n) + l.quota.Tolerance()
  {
    if Rejects(turns, n) {
      OnePlaceHeld(l, turns, n);
      var tats, key, now := TableAt(l, turns, n), SourceOf(turns, n), TimeOf(turns, n);
      AddInterval(c, l.quota.EmissionInterval());
      if tats == map[] {
        assert CheckTable(l.quota, 1, tats, key, now) == map[key := now + l.quota.EmissionInterval()];
      } else {
        OnePlaceStep(l.quota, tats, key, now, if c > 0 then s + c * l.quota.EmissionInterval() else 0);
      }
    }
  }

  lemma {:induction false} OnePlaceGrows<K(!new)>(l: Limits, turns: seq<Turn<K>>, a: nat, n: nat, source: K, s: nat, t: nat)
    requires a <= n <= |turns| && l.maxKeys == 1 && BeganWithin(turns, a, n, source, s, t)
    ensures PushedTo(l, turns, n, s, CountedBy(l, turns, a, n, source))
  {
    if a < n {
      OnePlaceGrows(l, turns, a, n - 1, source, s, t);
      OnePlaceTurn(l, turns, n - 1, source, s, CountedBy(l, turns, a, n - 1, source));
    }
  }

  /** With a single place counting conforms, however many sources there are. */
  lemma {:induction false} CountedInOnePlace<K(!new)>(l: Limits, turns: seq<Turn<K>>, a: nat, n: nat, source: K, s: nat, t: nat)
    requires a <= n <= |turns| && l.maxKeys == 1 && BeganWithin(turns, a, n, source, s, t) && s <= t
    ensures CountWithin(l, turns, a, n, source, s, t)
  {
    if n == a {
      NothingAllowed(l.quota.Burst(), l.quota.EmissionInterval());
    } else if Counts(l, turns, n - 1, source) {
      OnePlaceGrows(l, turns, a, n - 1, source, s, t);
      OnePlaceTurn(l, turns, n - 1, source, s, CountedBy(l, turns, a, n - 1, source));
      ConformanceStep(CountedBy(l, turns, a, n - 1, source), l.quota.Burst(), l.quota.EmissionInterval(), l.quota.Tolerance(),
                      s, t, TimeOf(turns, n - 1));
    } else {
      CountedInOnePlace(l, turns, a, n - 1, source, s, t);
    }
  }

  // ---- A sweep that forgets a source with requests in flight ----

  /** Requests that begin in this order, but for the last, which begins before them; then all are
      rejected in this order. */
  ghost function Overtaking<K>(reqs: seq<Request<K>>): seq<Turn<K>>
    requires reqs != []
  {
    var n := |reqs|;
    seq(2 * n, i =>
      if i < n then var r := reqs[if i <= 0 then n - 1 else i - 1]; Begin(r.key, r.now)
      else End(if i == 2 * n - 1 then 0 else i - n + 1, Rejected))
  }

  lemma {:induction false} OvertakingEnd<K>(reqs: seq<Request<K>>, j: nat)
    requires j < |reqs|
    ensures var turns, p := Overtaking(reqs), |reqs| + j;
            Rejects(turns, p) && SourceOf(turns, p) == reqs[j].key && TimeOf(turns, p) == reqs[j].now
  {
  }

  lemma {:induction false} OvertakingChecks<K>(reqs: seq<Request<K>>, n: nat)
    requires reqs != [] && n <= 2 * |reqs|
    ensures Checks(Overtaking(reqs), n) == reqs[..if n <= |reqs| then 0 else n - |reqs|]
  {
    if n > 0 {
      OvertakingChecks(reqs, n - 1);
      if n > |reqs| {
        var j := n - 1 - |reqs|;
        OvertakingEnd(reqs, j);
        assert reqs[..j + 1] == reqs[..j] + [reqs[j]];
      } else {
        assert Overtaking(reqs)[n - 1].Begin?;
      }
    }
  }

  lemma {:induction false} OvertakingRun<K(!new)>(l: Limits, reqs: seq<Request<K>>)
    requires reqs != []
    ensures IsRun(l, Overtaking(reqs))
  {
    var turns := Overtaking(reqs);
    forall p | 0 <= p < |turns| && turns[p].End? ensures Open(l, turns, p, turns[p].began) {
      var b := turns[p].began;
      TableIsRun(l, turns, b);
      OvertakingChecks(reqs, b);
    }
  }

  /** The table is full of passed entries, one for each of some keys. */
  ghost predicate Passed<K(!new)>(tats: map<K, nat>, keys: seq<K>, now: nat) {
    |tats| == |keys| && (forall k :: k in tats <==> k in keys) && forall k :: k in tats ==> tats[k] <= now
  }

  /** The burst of a source at time zero, one request of each of the others, a newcomer once all that
      has passed, and a last request of the source begun at time zero. */
  ghost function Script<K>(quota: Quota, source: K, others: seq<K>, newcomer: K): seq<Request<K>> {
    Opening(quota.Burst(), source, others) + [Request(newcomer, Times(quota.Burst(), quota.EmissionInterval())), Request(source, 0)]
  }

  ghost function Opening<K>(n: nat, source: K, others: seq<K>): seq<Request<K>>
    decreases |others|, n
  {
    if others != [] then Opening(n, source, others[..|others| - 1]) + [Request(others[|others| - 1], 0)]
    else if n == 0 then []
    else Opening(n - 1, source, []) + [Request(source, 0)]
  }

  /** The table of one source after n counts. */
  ghost function Alone<K>(source: K, n: nat, entry: nat): map<K, nat> {
    if n == 0 then map[] else map[source := entry]
  }

  lemma {:induction false} CountedOnce<K>(l: Limits, source: K, n: nat, entry: nat)
    requires l.maxKeys >= 1 && entry <= l.quota.Tolerance() && (n == 0 ==> entry == 0)
    ensures CheckAnswer(l.quota, l.maxKeys, Alone(source, n, entry), source, 0) == Allowed
    ensures CheckTable(l.quota, l.maxKeys, Alone(source, n, entry), source, 0) == Alone(source, n + 1, entry + l.quota.EmissionInterval())
  {
    AllowedBound(l.quota, entry, 0);
  }

  /** The burst is counted. */
  lemma {:induction false} BurstCounted<K(!new)>(l: Limits, source: K, n: nat)
    requires l.maxKeys >= 1 && n <= l.quota.Burst()
    ensures Leaves(l, Opening(n, source, []), source, 0, 0, Alone(source, n, Times(n, l.quota.EmissionInterval())), n)
  {
    if n == 0 {
      NoCall(l, source, 0, 0);
    } else {
      BurstCounted(l, source, n - 1);
      var entry := Times(n - 1, l.quota.EmissionInterval());
      TimesTolerance(l.quota, n - 1);
      CountedOnce(l, source, n - 1, entry);
      OneMoreCall(l, Opening(n - 1, source, []), Request(source, 0), source, 0, 0, Alone(source, n - 1, entry), n - 1,
                  Alone(source, n, Times(n, l.quota.EmissionInterval())), n);
    }
  }

  /** Then the others take the places that are left. */
  lemma {:induction false} PlacesTaken<K(!new)>(l: Limits, source: K, others: seq<K>) returns (tats: map<K, nat>)
    requires Distinct(others) && source !in others && |others| + 1 <= l.maxKeys
    ensures Leaves(l, Opening(l.quota.Burst(), source, others), source, 0, 0, tats, l.quota.Burst())
    ensures Passed(tats, [source] + others, Times(l.quota.Burst(), l.quota.EmissionInterval()))
  {
    if others == [] {
      tats := Alone(source, l.quota.Burst(), Times(l.quota.Burst(), l.quota.EmissionInterval()));
      BurstCounted(l, source, l.quota.Burst());
    } else {
      var n := |others| - 1;
      var before := PlacesTaken(l, source, others[..n]);
      tats := CheckTable(l.quota, l.maxKeys, before, others[n], 0);
      OneMoreCall(l, Opening(l.quota.Burst(), source, others[..n]), Request(others[n], 0), source, 0, 0, before, l.quota.Burst(),
                  tats, l.quota.Burst());
      OneTakesPlace(l, before, [source] + others[..n], others[n]);
      assert [source] + others == [source] + others[..n] + [others[n]];
    }
  }

  lemma {:induction false} OneTakesPlace<K(!new)>(l: Limits, tats: map<K, nat>, keys: seq<K>, key: K)
    requires Passed(tats, keys, Times(l.quota.Burst(), l.quota.EmissionInterval())) && key !in keys && |keys| < l.maxKeys
    ensures Passed(CheckTable(l.quota, l.maxKeys, tats, key, 0), keys + [key], Times(l.quota.Burst(), l.quota.EmissionInterval()))
  {
    assert key !in tats;
    assert CheckTable(l.quota, l.maxKeys, tats, key, 0) == tats[key := l.quota.EmissionInterval()];
  }

  /** The newcomer sweeps the whole table, and the source is counted as if for the first time. */
  lemma {:induction false} CountedAfresh<K(!new)>(l: Limits, tats: map<K, nat>, keys: seq<K>, newcomer: K, source: K, now: nat)
    requires Passed(tats, keys, now) && newcomer !in keys && |keys| == l.maxKeys >= 2 && source != newcomer
    ensures CheckAnswer(l.quota, l.maxKeys, CheckTable(l.quota, l.maxKeys, tats, newcomer, now), source, 0) == Allowed
  {
    assert newcomer !in tats;
    assert Sweep(tats, now) == map[];
    assert CheckTable(l.quota, l.maxKeys, tats, newcomer, now) == map[newcomer := now + l.quota.EmissionInterval()];
  }

  lemma {:induction false} ScriptCounted<K(!new)>(l: Limits, source: K, others: seq<K>, newcomer: K)
    requires Distinct(others) && source !in others && newcomer !in others && source != newcomer && |others| + 1 == l.maxKeys >= 2
    ensures AllowedIn(l.quota, l.maxKeys, Script(l.quota, source, others, newcomer), source, 0, 0) == l.quota.Burst() + 1
  {
    var opening, now := Opening(l.quota.Burst(), source, others), Times(l.quota.Burst(), l.quota.EmissionInterval());
    var tats := PlacesTaken(l, source, others);
    var tats' := CheckTable(l.quota, l.maxKeys, tats, newcomer, now);
    var last := CheckTable(l.quota, l.maxKeys, tats', source, 0);
    CountedAfresh(l, tats, [source] + others, newcomer, source, now);
    OneMoreCall(l, opening, Request(newcomer, now), source, 0, 0, tats, l.quota.Burst(), tats', l.quota.Burst());
    OneMoreCall(l, opening + [Request(newcomer, now)], Request(source, 0), source, 0, 0, tats', l.quota.Burst(),
                last, l.quota.Burst() + 1);
    assert Script(l.quota, source, others, newcomer) == opening + [Request(newcomer, now)] + [Request(source, 0)];
    assert LeavesExactly(l, Script(l.quota, source, others, newcomer), source, 0, 0, last, l.quota.Burst() + 1);
  }

  lemma {:induction false} OpeningFrom<K>(n: nat, source: K, others: seq<K>, sources: set<K>)
    requires source in sources && forall i :: 0 <= i < |others| ==> others[i] in sources
    ensures forall i :: 0 <= i < |Opening(n, source, others)| ==>
              Opening(n, source, others)[i].key in sources && Opening(n, source, others)[i].now == 0
    decreases |others|, n
  {
    if others != [] {
      OpeningFrom(n, source, others[..|others| - 1], sources);
    } else if n > 0 {
      OpeningFrom(n - 1, source, [], sources);
    }
  }

  /** Requests of these sources, all at time zero but for the last but one, which is another's than `source`. */
  ghost predicate AtZero<K>(reqs: seq<Request<K>>, sources: set<K>, source: K) {
    && |reqs| >= 2 && reqs[|reqs| - 2].key != source
    && forall i :: 0 <= i < |reqs| ==> reqs[i].key in sources && (i != |reqs| - 2 ==> reqs[i].now == 0)
  }

  lemma {:induction false} OvertakingTimes<K>(reqs: seq<Request<K>>, sources: set<K>, source: K)
    requires AtZero(reqs, sources, source)
    ensures FromSources(Overtaking(reqs), sources) && ClockForward(Overtaking(reqs))
  {
    var turns := Overtaking(reqs);
    forall p | 0 <= p < |turns| && turns[p].Begin?
      ensures turns[p].source in sources && (p != |reqs| - 1 ==> turns[p].now == 0) && p < |reqs|
    {
    }
  }

  lemma {:induction false} OvertakingBegan<K>(reqs: seq<Request<K>>, sources: set<K>, source: K)
    requires AtZero(reqs, sources, source)
    ensures BeganWithin(Overtaking(reqs), 0, |Overtaking(reqs)|, source, 0, 0)
  {
    var turns := Overtaking(reqs);
    forall p | 0 <= p < |turns| && RejectsOf(turns, p, source) ensures TimeOf(turns, p) == 0 {
      assert turns[p].began == if p == 2 * |reqs| - 1 then 0 else p - |reqs| + 1;
    }
  }

  lemma {:induction false} OvertakingCounted<K(!new)>(l: Limits, reqs: seq<Request<K>>, source: K)
    requires reqs != [] && BeganWithin(Overtaking(reqs), 0, |Overtaking(reqs)|, source, 0, 0)
    ensures CountedBy(l, Overtaking(reqs), 0, |Overtaking(reqs)|, source) == AllowedIn(l.quota, l.maxKeys, reqs, source, 0, 0)
  {
    OvertakingChecks(reqs, 2 * |reqs|);
    assert reqs[..|reqs|] == reqs;
    CountedAreAllowed(l, Overtaking(reqs), 0, 2 * |reqs|, source, 0, 0);
  }

  lemma {:induction false} ScriptAtZero<K>(quota: Quota, source: K, others: seq<K>, newcomer: K, sources: set<K>)
    requires source in sources && newcomer in sources && source != newcomer && forall i :: 0 <= i < |others| ==> others[i] in sources
    ensures AtZero(Script(quota, source, others, newcomer), sources, source)
  {
    OpeningFrom(quota.Burst(), source, others, sources);
    var reqs := Script(quota, source, others, newcomer);
    assert forall i :: 0 <= i < |reqs| - 2 ==> reqs[i] == Opening(quota.Burst(), source, others)[i];
  }

  /** With more sources than places, and more than one place: a run with a clock that never steps back
      in which one more than the burst of a source is counted, all begun at time zero. */
  lemma {:induction false} SweptAndForgotten<K(!new)>(l: Limits, source: K, others: seq<K>, newcomer: K, sources: set<K>)
    requires Distinct(others) && source !in others && newcomer !in others && source != newcomer && |others| + 1 == l.maxKeys >= 2
    requires source in sources && newcomer in sources && forall i :: 0 <= i < |others| ==> others[i] in sources
    ensures var turns := Overtaking(Script(l.quota, source, others, newcomer));
            && IsRun(l, turns) && FromSources(turns, sources) && ClockForward(turns) && BeganWithin(turns, 0, |turns|, source, 0, 0)
            && CountedBy(l, turns, 0, |turns|, source) == l.quota.Burst() + 1
  {
    var reqs := Script(l.quota, source, others, newcomer);
    var turns := Overtaking(reqs);
    OvertakingRun(l, reqs);
    ScriptAtZero(l.quota, source, others, newcomer, sources);
    OvertakingTimes(reqs, sources, source);
    OvertakingBegan(reqs, sources, source);
    OvertakingCounted(l, reqs, source);
    ScriptCounted(l, source, others, newcomer);
  }

  // ---- Exactly ----

  ghost predicate RunOf<K>(l: Limits, turns: seq<Turn<K>>, sources: set<K>, steadyClock: bool) {
    IsRun(l, turns) && FromSources(turns, sources) && (steadyClock ==> ClockForward(turns))
  }

  /** In every run of these sources, what is counted of a source in any stretch is within the quota. */
  ghost predicate CountingConforms<K(!new)>(l: Limits, sources: set<K>, steadyClock: bool) {
    forall turns: seq<Turn<K>>, a: nat, n: nat, source: K, s: nat, t: nat ::
      RunOf(l, turns, sources, steadyClock) && a <= n <= |turns| && BeganWithin(turns, a, n, source, s, t) && s <= t
      ==> CountWithin(l, turns, a, n, source, s, t)
  }

  lemma {:induction false} CountConforms<K(!new)>(l: Limits, turns: seq<Turn<K>>, a: nat, n: nat, sources: set<K>, source: K,
      s: nat, t: nat)
    requires a <= n <= |turns| && FromSources(turns, sources) && BeganWithin(turns, a, n, source, s, t) && s <= t
    requires |sources| <= l.maxKeys || l.maxKeys == 1 || l.quota.EmissionInterval() == 0
    ensures CountWithin(l, turns, a, n, source, s, t)
  {
    if |sources| <= l.maxKeys {
      CountedWithin(l, turns, a, n, sources, source, s, t);
    } else if l.maxKeys == 1 {
      CountedInOnePlace(l, turns, a, n, source, s, t);
    }
  }

  lemma {:induction false} SomeForgotten<K(!new)>(l: Limits, sources: set<K>) returns (turns: seq<Turn<K>>, source: K)
    requires |sources| > l.maxKeys >= 2 && l.quota.EmissionInterval() > 0
    ensures RunOf(l, turns, sources, true) && BeganWithin(turns, 0, |turns|, source, 0, 0)
    ensures !CountWithin(l, turns, 0, |turns|, source, 0, 0)
  {
    var xs := Pick(sources, l.maxKeys + 1);
    source := xs[0];
    SweptAndForgotten(l, source, xs[1..l.maxKeys], xs[l.maxKeys], sources);
    turns := Overtaking(Script(l.quota, source, xs[1..l.maxKeys], xs[l.maxKeys]));
    assert (l.quota.Burst() + 1 - l.quota.Burst()) * l.quota.EmissionInterval() == l.quota.EmissionInterval();
  }

  /** However requests interleave, counting conforms exactly when every source has a place, or there
      is only one, or the quota does not space requests at all. */
  lemma {:induction false} CountingConformsExactly<K(!new)>(l: Limits, sources: set<K>, steadyClock: bool)
    requires l.maxKeys >= 1
    ensures CountingConforms(l, sources, steadyClock) <==>
              |sources| <= l.maxKeys || l.maxKeys == 1 || l.quota.EmissionInterval() == 0
  {
    if |sources| <= l.maxKeys || l.maxKeys == 1 || l.quota.EmissionInterval() == 0 {
      forall turns: seq<Turn<K>>, a: nat, n: nat, source: K, s: nat, t: nat |
        RunOf(l, turns, sources, steadyClock) && a <= n <= |turns| && BeganWithin(turns, a, n, source, s, t) && s <= t
        ensures CountWithin(l, turns, a, n, source, s, t)
      {
        CountConforms(l, turns, a, n, sources, source, s, t);
      }
    } else {
      var turns, source := SomeForgotten(l, sources);
    }
  }
}
