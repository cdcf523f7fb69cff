/** Whole runs of the exporter registry: who is tracked, what each cache holds
    and where it was learned, whatever the other exporters do. */
module ExporterRuns {
  import opened Wrappers
  import opened Net
  import opened Allowlist
  import opened Templates
  import opened Exporters
  import BoundedMap

  ghost function Init(events: seq<Event>): seq<Event>
    requires events != []
  {
    events[..|events| - 1]
  }

  ghost predicate Own(limits: ExporterLimits, e: Event, key: ExporterKey) {
    e.Arrive? && Permits(limits.allowed, e.datagram.addr) && e.datagram.header.Some? && KeyOf(e.datagram) == key
  }

  /** What one event does to the state of one key. */
  lemma {:induction false} OneKey(limits: ExporterLimits, events: seq<Event>, key: ExporterKey)
    requires events != []
    ensures var before, after, e := TableAfter(limits, Init(events)), TableAfter(limits, events), events[|events| - 1];
            && (Own(limits, e, key) && Room(limits, before, key) ==>
                  key in after &&
                  after[key] == Heard(StateFor(before, key, e.now), e.datagram.header.value.sequence, e.datagram.items, e.now))
            && (e.Arrive? && !(Own(limits, e, key) && Room(limits, before, key)) ==>
                  (key in after <==> key in before) && (key in before ==> after[key] == before[key]))
            && (e.Evict? ==>
                  (key in after <==> key in before && e.now <= before[key].lastSeen + limits.idleTimeout)
                  && (key in after ==> after[key] == before[key]))
  {
  }

  /** A refused datagram changes nothing. */
  lemma {:induction false} RefusedChangesNothing(limits: ExporterLimits, events: seq<Event>, d: Datagram, now: nat)
    requires !VerdictOn(limits, TableAfter(limits, events), d, now).Accepted?
    ensures TableAfter(limits, events + [Arrive(d, now)]) == TableAfter(limits, events)
  {
    AppendEvent(limits, events, Arrive(d, now));
  }

  /** Never more exporters than the limit. */
  lemma {:induction false} CountBounded(limits: ExporterLimits, events: seq<Event>)
    ensures |TableAfter(limits, events)| <= limits.maxExporters
  {
    if events != [] {
      CountBounded(limits, Init(events));
      var before, after := TableAfter(limits, Init(events)), TableAfter(limits, events);
      if events[|events| - 1].Evict? {
        BoundedMap.SubsetSize(after.Keys, before.Keys);
      }
    }
  }

  /** Every tracked source is permitted. */
  lemma {:induction false} TrackedPermitted(limits: ExporterLimits, events: seq<Event>, key: ExporterKey)
    requires key in TableAfter(limits, events)
    ensures Permits(limits.allowed, key.addr)
  {
    OneKey(limits, events, key);
    if key in TableAfter(limits, Init(events)) {
      TrackedPermitted(limits, Init(events), key);
    }
  }

  /** A tracked exporter is never refused. */
  lemma {:induction false} TrackedNeverRefused(limits: ExporterLimits, events: seq<Event>, d: Datagram, now: nat)
    requires d.header.Some? && KeyOf(d) in TableAfter(limits, events)
    ensures VerdictOn(limits, TableAfter(limits, events), d, now).Accepted?
  {
    TrackedPermitted(limits, events, KeyOf(d));
  }

  // ---- One exporter's life ----

  /** An accepted datagram. */
  datatype Report = Report(sequence: U32, items: seq<Item>, now: nat)

  /** The key's datagrams since it was last admitted; empty when it is not tracked. */
  ghost function Life(limits: ExporterLimits, events: seq<Event>, key: ExporterKey): seq<Report> {
    if events == [] then []
    else
      var life, e := Life(limits, Init(events), key), events[|events| - 1];
      match e
      case Arrive(d, now) =>
        if Own(limits, e, key) && Room(limits, TableAfter(limits, Init(events)), key)
        then life + [Report(d.header.value.sequence, d.items, now)] else life
      case Evict(now) =>
        if life != [] && now <= life[|life| - 1].now + limits.idleTimeout then life else []
  }

  /** The state of an exporter that has heard just these reports. */
  ghost function Replay(reports: seq<Report>): Exporter
    requires reports != []
  {
    var r := reports[|reports| - 1];
    if |reports| == 1 then Heard(NewExporter(r.now), r.sequence, r.items, r.now)
    else Heard(Replay(reports[..|reports| - 1]), r.sequence, r.items, r.now)
  }

  /** An exporter's state is made of its own datagrams since its admission, and of nothing else. */
  lemma {:induction false} StateIsOwnLife(limits: ExporterLimits, events: seq<Event>, key: ExporterKey)
    ensures key in TableAfter(limits, events) <==> Life(limits, events, key) != []
    ensures key in TableAfter(limits, events) ==> TableAfter(limits, events)[key] == Replay(Life(limits, events, key))
  {
    if events != [] {
      StateIsOwnLife(limits, Init(events), key);
      OneKey(limits, events, key);
      var life := Life(limits, Init(events), key);
      if life != [] { ReplayLast(life); }
      if events[|events| - 1].Arrive? {
        var d := events[|events| - 1].datagram;
        if d.header.Some? {
          var r := Report(d.header.value.sequence, d.items, events[|events| - 1].now);
          assert (life + [r])[..|life|] == life;
        }
      }
    }
  }

  lemma {:induction false} ReplayLast(reports: seq<Report>)
    requires reports != []
    ensures var r, e := reports[|reports| - 1], Replay(reports);
            e.lastSeen == r.now && e.lastSequence == Some(r.sequence)
  {
  }

  /** What a tracked exporter shows: when it was admitted, the time and the number of its last
      datagram, and how many there were, in 64 bits. */
  lemma {:induction false} LifeShows(limits: ExporterLimits, events: seq<Event>, key: ExporterKey)
    requires key in TableAfter(limits, events)
    ensures var e, life := TableAfter(limits, events)[key], Life(limits, events, key);
            && life != [] && e.firstSeen == life[0].now && e.lastSeen == life[|life| - 1].now
            && e.lastSequence == Some(life[|life| - 1].sequence)
            && e.packetsReceived == |life| % 0x1_0000_0000_0000_0000
  {
    StateIsOwnLife(limits, events, key);
    ReplayShows(Life(limits, events, key));
  }

  lemma {:induction false} ReplayShows(reports: seq<Report>)
    requires reports != []
    ensures var e := Replay(reports);
            && e.firstSeen == reports[0].now && e.lastSeen == reports[|reports| - 1].now
            && e.lastSequence == Some(reports[|reports| - 1].sequence)
            && e.packetsReceived == |reports| % 0x1_0000_0000_0000_0000
  {
    if |reports| > 1 { ReplayShows(reports[..|reports| - 1]); }
  }

  /** Datagrams share a state exactly when they come from the same address, port and domain. */
  lemma {:induction false} SameExporter(a: Datagram, b: Datagram)
    requires a.header.Some? && b.header.Some?
    ensures KeyOf(a) == KeyOf(b) <==>
            a.addr == b.addr && a.port == b.port && a.header.value.domain == b.header.value.domain
  {
  }

  /** A datagram is turned away by the allowlist exactly when there is one and no network of it is of
      the family of the canonical sender and shares its quotient. */
  lemma {:induction false} NotAllowedExactly(limits: ExporterLimits, events: seq<Event>, d: Datagram, now: nat)
    ensures VerdictOn(limits, TableAfter(limits, events), d, now) == NotAllowed <==>
            && limits.allowed != []
            && forall i :: 0 <= i < |limits.allowed| ==>
                 var n, c := limits.allowed[i], ToCanonical(d.addr);
                 !(c.V4? == n.network.V4? && Quotient(c, n.length) == Quotient(n.network, n.length))
  {
    assert forall i :: 0 <= i < |limits.allowed| ==>
      (Contains(limits.allowed[i], d.addr) <==>
         var n, c := limits.allowed[i], ToCanonical(d.addr);
         c.V4? == n.network.V4? && Quotient(c, n.length) == Quotient(n.network, n.length));
  }

  /** The verdict on a datagram of a permitted sender, in any run: without a header it is bad; one of a
      new key is turned away exactly when as many exporters are tracked as may be; any other is
      accepted, as a restart exactly when its number is below that of the key's last one. */
  lemma {:induction false} VerdictExactly(limits: ExporterLimits, events: seq<Event>, d: Datagram, now: nat)
    requires Permits(limits.allowed, d.addr)
    ensures var v, table := VerdictOn(limits, TableAfter(limits, events), d, now), TableAfter(limits, events);
            && (v == BadHeader <==> d.header.None?)
            && (v == LimitReached <==>
                  d.header.Some? && Life(limits, events, KeyOf(d)) == [] && |table| >= limits.maxExporters)
            && (v.Accepted? && v.restart <==>
                  && d.header.Some? && Life(limits, events, KeyOf(d)) != []
                  && var life := Life(limits, events, KeyOf(d)); d.header.value.sequence < life[|life| - 1].sequence)
  {
    if d.header.Some? {
      StateIsOwnLife(limits, events, KeyOf(d));
      if Life(limits, events, KeyOf(d)) != [] { ReplayLast(Life(limits, events, KeyOf(d))); }
    }
  }

  /** A sweep forgets exactly the exporters whose last datagram is older than the timeout. */
  lemma {:induction false} SweepForgetsTheSilent(limits: ExporterLimits, events: seq<Event>, now: nat, key: ExporterKey)
    ensures key in TableAfter(limits, events + [Evict(now)]) <==>
            var life := Life(limits, events, key);
            life != [] && now <= life[|life| - 1].now + limits.idleTimeout
  {
    StateIsOwnLife(limits, events, key);
    AppendEvent(limits, events, Evict(now));
    var life := Life(limits, events, key);
    if life != [] { ReplayLast(life); }
  }

  // ---- What a cache holds ----

  /** Where the last restart among some reports is: the last that went back in sequence, or the first of all. */
  ghost function RestartAt(reports: seq<Report>): (r: nat)
    requires reports != []
    ensures r < |reports|
    ensures r == 0 || reports[r].sequence < reports[r - 1].sequence
    ensures forall i :: r < i < |reports| ==> reports[i - 1].sequence <= reports[i].sequence
  {
    var n := |reports| - 1;
    if n == 0 || reports[n].sequence < reports[n - 1].sequence then n else RestartAt(reports[..n])
  }

  ghost function LearnAll(c: Cache, reports: seq<Report>): Cache {
    if reports == [] then c
    else Decoded(LearnAll(c, reports[..|reports| - 1]), reports[|reports| - 1].items).cache
  }

  lemma {:induction false} LearnAppend(c: Cache, reports: seq<Report>, r: Report)
    ensures LearnAll(c, reports + [r]) == Decoded(LearnAll(c, reports), r.items).cache
  {
    assert (reports + [r])[..|reports|] == reports;
  }

  lemma {:induction false} ReplayStep(reports: seq<Report>)
    requires reports != []
    ensures var n := |reports| - 1;
            var restarted := n == 0 || reports[n].sequence < reports[n - 1].sequence;
            Replay(reports).cache == Decoded(if restarted then EmptyCache() else Replay(reports[..n]).cache, reports[n].items).cache
  {
    var n := |reports| - 1;
    if n > 0 { ReplayLast(reports[..n]); }
  }

  lemma {:induction false} LearnSuffix(reports: seq<Report>, r: nat)
    requires r < |reports|
    ensures var n := |reports| - 1;
            LearnAll(EmptyCache(), reports[r..]) == Decoded(LearnAll(EmptyCache(), reports[..n][r..]), reports[n].items).cache
  {
    var n := |reports| - 1;
    LearnAppend(EmptyCache(), reports[..n][r..], reports[n]);
    assert reports[r..] == reports[..n][r..] + [reports[n]];
  }

  lemma {:induction false} CacheSinceRestart(reports: seq<Report>)
    requires reports != []
    ensures Replay(reports).cache == LearnAll(EmptyCache(), reports[RestartAt(reports)..])
  {
    var n := |reports| - 1;
    ReplayStep(reports);
    LearnSuffix(reports, RestartAt(reports));
    if n == 0 || reports[n].sequence < reports[n - 1].sequence {
      assert reports[..n][n..] == [];
    } else {
      CacheSinceRestart(reports[..n]);
    }
  }

  ghost predicate DefinedIn(reports: seq<Report>, t: Template) {
    exists i :: 0 <= i < |reports| && Defines(reports[i].items, t)
  }

  lemma {:induction false} LearnedFrom(reports: seq<Report>, id: TemplateId)
    requires id in LearnAll(EmptyCache(), reports).templates
    ensures var t := LearnAll(EmptyCache(), reports).templates[id]; t.id == id && DefinedIn(reports, t)
  {
    var n := |reports| - 1;
    var before := LearnAll(EmptyCache(), reports[..n]);
    var t := LearnAll(EmptyCache(), reports).templates[id];
    DecodedLearns(before, reports[n].items, id);
    if id in before.templates && before.templates[id] == t {
      LearnedFrom(reports[..n], id);
      var i :| 0 <= i < n && Defines(reports[..n][i].items, t);
      assert Defines(reports[i].items, t);
    } else {
      assert Defines(reports[n].items, t);
    }
  }

  /** A tracked exporter's cache is what its own datagrams taught it since its admission or its last
      sequence regression, and every template in it was defined, with fields, in one of those. */
  lemma {:induction false} LearnedSinceRestart(limits: ExporterLimits, events: seq<Event>, key: ExporterKey)
    requires key in TableAfter(limits, events)
    ensures Life(limits, events, key) != []
    ensures var life, cache := Life(limits, events, key), TableAfter(limits, events)[key].cache;
            var recent := life[RestartAt(life)..];
            && cache == LearnAll(EmptyCache(), recent)
            && forall id :: id in cache.templates ==> cache.templates[id].id == id && DefinedIn(recent, cache.templates[id])
  {
    StateIsOwnLife(limits, events, key);
    var life := Life(limits, events, key);
    CacheSinceRestart(life);
    var recent := life[RestartAt(life)..];
    forall id | id in LearnAll(EmptyCache(), recent).templates
      ensures var t := LearnAll(EmptyCache(), recent).templates[id]; t.id == id && DefinedIn(recent, t)
    {
      LearnedFrom(recent, id);
    }
  }

  /** No exporter's cache ever passes its limits. */
  lemma {:induction false} CachesBounded(limits: ExporterLimits, events: seq<Event>, key: ExporterKey)
    requires key in TableAfter(limits, events)
    ensures Bounded(TableAfter(limits, events)[key].cache)
  {
    OneKey(limits, events, key);
    var before, e := TableAfter(limits, Init(events)), events[|events| - 1];
    EmptyBounded();
    if key in before { CachesBounded(limits, Init(events), key); }
    if e.Arrive? && e.datagram.header.Some? {
      var o := Observed(StateFor(before, key, e.now), e.datagram.header.value.sequence, e.now);
      DecodedBounded(o.cache, e.datagram.items);
    }
  }

  // ---- Independence ----

  /** The run as it would be without the other exporters. */
  ghost function Only(limits: ExporterLimits, events: seq<Event>, key: ExporterKey): seq<Event> {
    if events == [] then []
    else
      var e := events[|events| - 1];
      Only(limits, Init(events), key) + if e.Evict? || Own(limits, e, key) then [e] else []
  }

  /** The key was always tracked or there was room for it when it was heard. */
  ghost predicate NeverTurnedAway(limits: ExporterLimits, events: seq<Event>, key: ExporterKey) {
    forall i :: 0 <= i < |events| && Own(limits, events[i], key) ==> Room(limits, TableAfter(limits, events[..i]), key)
  }

  lemma {:induction false} OnlyKey(limits: ExporterLimits, events: seq<Event>, key: ExporterKey)
    ensures TableAfter(limits, Only(limits, events, key)).Keys <= {key}
  {
    if events != [] {
      OnlyKey(limits, Init(events), key);
      var e := events[|events| - 1];
      if e.Evict? || Own(limits, e, key) {
        AppendEvent(limits, Only(limits, Init(events), key), e);
      } else {
        assert Only(limits, events, key) == Only(limits, Init(events), key);
      }
    }
  }

  lemma {:induction false} LifeAppend(limits: ExporterLimits, events: seq<Event>, e: Event, key: ExporterKey)
    ensures Life(limits, events + [e], key) ==
            var life := Life(limits, events, key);
            match e
            case Arrive(d, now) =>
              if Own(limits, e, key) && Room(limits, TableAfter(limits, events), key)
              then life + [Report(d.header.value.sequence, d.items, now)] else life
            case Evict(now) =>
              if life != [] && now <= life[|life| - 1].now + limits.idleTimeout then life else []
  {
    assert Init(events + [e]) == events;
  }

  lemma {:induction false} SameLife(limits: ExporterLimits, events: seq<Event>, key: ExporterKey)
    requires NeverTurnedAway(limits, events, key)
    ensures Life(limits, Only(limits, events, key), key) == Life(limits, events, key)
  {
    if events != [] {
      var n := |events| - 1;
      var e, only := events[n], Only(limits, Init(events), key);
      forall i | 0 <= i < n && Own(limits, Init(events)[i], key) ensures Room(limits, TableAfter(limits, Init(events)[..i]), key) {
        assert Init(events)[..i] == events[..i] && events[i] == Init(events)[i];
      }
      SameLife(limits, Init(events), key);
      if e.Evict? || Own(limits, e, key) {
        LifeAppend(limits, only, e, key);
        RoomAlone(limits, events, key);
      } else {
        assert Only(limits, events, key) == only;
      }
    }
  }

  lemma {:induction false} RoomAlone(limits: ExporterLimits, events: seq<Event>, key: ExporterKey)
    requires events != [] && Life(limits, Only(limits, Init(events), key), key) == Life(limits, Init(events), key)
    ensures Room(limits, TableAfter(limits, Init(events)), key) ==> Room(limits, TableAfter(limits, Only(limits, Init(events), key)), key)
  {
    var alone := TableAfter(limits, Only(limits, Init(events), key));
    OnlyKey(limits, Init(events), key);
    StateIsOwnLife(limits, Init(events), key);
    StateIsOwnLife(limits, Only(limits, Init(events), key), key);
    if key !in alone { assert alone.Keys == {}; }
  }

  /** Unless the limit ever turned it away, an exporter is tracked, and in the same state, exactly as
      if the other exporters had sent nothing. */
  lemma {:induction false} OthersNeverMatter(limits: ExporterLimits, events: seq<Event>, key: ExporterKey)
    requires NeverTurnedAway(limits, events, key)
    ensures var all, alone := TableAfter(limits, events), TableAfter(limits, Only(limits, events, key));
            (key in all <==> key in alone) && (key in all ==> all[key] == alone[key])
  {
    SameLife(limits, events, key);
    StateIsOwnLife(limits, events, key);
    StateIsOwnLife(limits, Only(limits, events, key), key);
  }
}
