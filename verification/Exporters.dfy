/** The exporter registry: admission, restart detection and idle eviction. */
module Exporters {
  import opened Wrappers
  import opened Net
  import opened Allowlist
  import opened Templates
  import BoundedMap

  /** A source socket and an observation domain. */
  datatype ExporterKey = ExporterKey(addr: IpAddr, port: U16, domain: U32)

  datatype ExporterLimits = ExporterLimits(allowed: seq<AllowedNetwork>, maxExporters: nat, idleTimeout: nat)

  datatype Header = Header(sequence: U32, domain: U32)

  /** A received datagram; no header when it does not parse. */
  datatype Datagram = Datagram(addr: IpAddr, port: U16, header: Option<Header>, items: seq<Item>)

  datatype Verdict = NotAllowed | BadHeader | LimitReached | Accepted(restart: bool, complete: bool)

  function Silence(now: nat, lastSeen: nat): nat {
    BoundedMap.Age(now, lastSeen)
  }

  /** The plain comparison of the source: a wrap-around counts as a restart. */
  predicate Regressed(last: Option<U32>, sequence: U32) {
    last.Some? && sequence < last.value
  }

  /** A 64-bit counter starts over. */
  function Wrapped(n: nat): U64 {
    n % 0x1_0000_0000_0000_0000
  }

  // ---- What a datagram means ----

  datatype Exporter = Exporter(cache: Cache, lastSequence: Option<U32>, firstSeen: nat, lastSeen: nat, packetsReceived: U64)

  type Table = map<ExporterKey, Exporter>

  ghost function NewExporter(now: nat): Exporter {
    Exporter(EmptyCache(), None, now, now, 0)
  }

  ghost function Observed(e: Exporter, sequence: U32, now: nat): Exporter {
    Exporter(if Regressed(e.lastSequence, sequence) then EmptyCache() else e.cache,
             Some(sequence), e.firstSeen, now, Wrapped(e.packetsReceived + 1))
  }

  ghost function Heard(e: Exporter, sequence: U32, items: seq<Item>, now: nat): Exporter {
    var o := Observed(e, sequence, now);
    o.(cache := Decoded(o.cache, items).cache)
  }

  function KeyOf(d: Datagram): ExporterKey
    requires d.header.Some?
  {
    ExporterKey(d.addr, d.port, d.header.value.domain)
  }

  ghost predicate Room(limits: ExporterLimits, table: Table, key: ExporterKey) {
    key in table || |table| < limits.maxExporters
  }

  ghost predicate Accepts(limits: ExporterLimits, table: Table, d: Datagram) {
    Permits(limits.allowed, d.addr) && d.header.Some? && Room(limits, table, KeyOf(d))
  }

  ghost function StateFor(table: Table, key: ExporterKey, now: nat): Exporter {
    if key in table then table[key] else NewExporter(now)
  }

  ghost function AfterDatagram(limits: ExporterLimits, table: Table, d: Datagram, now: nat): Table {
    if Accepts(limits, table, d)
    then table[KeyOf(d) := Heard(StateFor(table, KeyOf(d), now), d.header.value.sequence, d.items, now)]
    else table
  }

  ghost function VerdictOn(limits: ExporterLimits, table: Table, d: Datagram, now: nat): Verdict {
    if !Permits(limits.allowed, d.addr) then NotAllowed
    else if d.header.None? then BadHeader
    else if !Room(limits, table, KeyOf(d)) then LimitReached
    else
      var e, sequence := StateFor(table, KeyOf(d), now), d.header.value.sequence;
      Accepted(Regressed(e.lastSequence, sequence), Decoded(Observed(e, sequence, now).cache, d.items).ok)
  }

  ghost function AfterSweep(limits: ExporterLimits, table: Table, now: nat): Table {
    map k | k in table && now <= table[k].lastSeen + limits.idleTimeout :: table[k]
  }

  datatype Event = Arrive(datagram: Datagram, now: nat) | Evict(now: nat)

  ghost function TableAfter(limits: ExporterLimits, events: seq<Event>): Table {
    if events == [] then map[]
    else
      var table := TableAfter(limits, events[..|events| - 1]);
      match events[|events| - 1]
      case Arrive(d, now) => AfterDatagram(limits, table, d, now)
      case Evict(now) => AfterSweep(limits, table, now)
  }

  // ---- The registry ----

  class ExporterState {
    const templateCache: TemplateCache
    var lastSequence: Option<U32>
    const firstSeen: nat
    var lastSeen: nat
    var packetsReceived: U64

    ghost function View(): Exporter
      reads this, templateCache
    {
      Exporter(templateCache.View(), lastSequence, firstSeen, lastSeen, packetsReceived)
    }

    constructor (now: nat)
      ensures View() == NewExporter(now) && templateCache.Valid() && fresh(templateCache)
    {
      templateCache := new TemplateCache();
      lastSequence, firstSeen, lastSeen, packetsReceived := None, now, now, 0;
    }

    /** Records a sequence number; true, with an emptied cache, when it went back. */
    method ObserveSequence(sequence: U32, now: nat) returns (restart: bool)
      requires templateCache.Valid()
      modifies this, templateCache
      ensures templateCache.Valid() && View() == Observed(old(View()), sequence, now)
      ensures restart == Regressed(old(lastSequence), sequence)
    {
      lastSeen := now;
      packetsReceived := Wrapped(packetsReceived + 1);
      restart := match lastSequence
        case Some(last) => sequence < last
        case None => false;
      if restart {
        templateCache.Clear();
      }
      lastSequence := Some(sequence);
    }
  }

  /** One message of an exporter: its sequence number, then its records. */
  method HearMessage(state: ExporterState, sequence: U32, items: seq<Item>, now: nat) returns (restart: bool, complete: bool)
    requires state.templateCache.Valid()
    modifies state, state.templateCache
    ensures state.templateCache.Valid() && state.View() == Heard(old(state.View()), sequence, items, now)
    ensures restart == Regressed(old(state.lastSequence), sequence)
    ensures complete == Decoded(Observed(old(state.View()), sequence, now).cache, items).ok
  {
    restart := state.ObserveSequence(sequence, now);
    complete := state.templateCache.DecodeMessage(items);
  }

  class ExporterRegistry {
    const limits: ExporterLimits
    var exporters: map<ExporterKey, ExporterState>
    ghost var repr: set<object>
    ghost var table: Table
    ghost var events: seq<Event>

    ghost predicate Holds(k: ExporterKey)
      reads this`exporters, this`table, this`repr, repr
    {
      k in exporters ==>
        && k in table && exporters[k] in repr && exporters[k].templateCache in repr
        && exporters[k].templateCache.Valid() && exporters[k].View() == table[k]
    }

    ghost predicate Apart(j: ExporterKey, k: ExporterKey)
      reads this`exporters
    {
      j in exporters && k in exporters && j != k ==>
        exporters[j] != exporters[k] && exporters[j].templateCache != exporters[k].templateCache
    }

    /** The states held are those of `table`, in objects of their own. */
    ghost predicate Represents()
      reads this`exporters, this`table, this`repr, repr
    {
      exporters.Keys == table.Keys && this !in repr && (forall k :: Holds(k)) && forall j, k :: Apart(j, k)
    }

    ghost predicate Valid()
      reads this, repr
    {
      Represents() && table == TableAfter(limits, events)
    }

    constructor (limits: ExporterLimits)
      ensures Valid() && this.limits == limits && events == [] && repr == {}
    {
      this.limits, exporters, repr, table, events := limits, map[], {}, map[], [];
    }

    /** The state for a key, created if there is room for it. */
    method GetOrCreate(key: ExporterKey, now: nat) returns (state: Option<ExporterState>)
      requires Represents()
      modifies this`exporters, this`repr, this`table
      ensures Represents() && fresh(repr - old(repr))
      ensures state.Some? <==> old(Room(limits, table, key))
      ensures table == if state.Some? then old(table)[key := StateFor(old(table), key, now)] else old(table)
      ensures state.Some? ==> key in exporters && exporters[key] == state.value
    {
      var full := |exporters| >= limits.maxExporters;
      assert |exporters| == |table| by { assert |exporters.Keys| == |table.Keys|; }
      assert Holds(key);
      if key in exporters {
        assert table[key := table[key]] == table;
        return Some(exporters[key]);
      }
      if full {
        return None;
      }
      var created := new ExporterState(now);
      Admit(key, created, now);
      state := Some(created);
    }

    method Admit(key: ExporterKey, created: ExporterState, ghost now: nat)
      requires Represents() && key !in exporters && created !in repr && created.templateCache !in repr
      requires created.templateCache.Valid() && created.View() == NewExporter(now)
      modifies this`exporters, this`repr, this`table
      ensures Represents() && repr == old(repr) + {created, created.templateCache}
      ensures table == old(table)[key := NewExporter(now)] && exporters == old(exporters)[key := created]
    {
      exporters := exporters[key := created];
      repr, table := repr + {created, created.templateCache}, table[key := NewExporter(now)];
      forall k ensures Holds(k) {
        assert old(Holds(k));
      }
      forall j, k ensures Apart(j, k) {
        assert old(Apart(j, k)) && old(Holds(j)) && old(Holds(k));
      }
    }

    /** An admitted datagram reaches the state of its own key only. */
    method Hear(key: ExporterKey, sequence: U32, items: seq<Item>, now: nat) returns (restart: bool, complete: bool)
      requires Represents() && key in exporters
      modifies exporters[key], exporters[key].templateCache, this`table
      ensures Represents() && table == old(table)[key := Heard(old(table)[key], sequence, items, now)]
      ensures restart == Regressed(old(table)[key].lastSequence, sequence)
      ensures complete == Decoded(Observed(old(table)[key], sequence, now).cache, items).ok
    {
      assert Holds(key);
      var state := exporters[key];
      restart, complete := HearMessage(state, sequence, items, now);
      table := table[key := Heard(table[key], sequence, items, now)];
      forall k ensures Holds(k) {
        assert old(Holds(k)) && old(Apart(k, key));
      }
    }

    /** Admission in the source's order: the allowlist, the header, the limit. */
    method Decide(d: Datagram, now: nat) returns (verdict: Verdict)
      requires Represents()
      modifies this`exporters, this`repr, this`table, repr
      ensures Represents() && fresh(repr - old(repr))
      ensures verdict == VerdictOn(limits, old(table), d, now)
      ensures table == AfterDatagram(limits, old(table), d, now)
    {
      if !Permits(limits.allowed, d.addr) {
        return NotAllowed;
      }
      if d.header.None? {
        return BadHeader;
      }
      verdict := Receive(KeyOf(d), d.header.value.sequence, d.items, now);
    }

    method Receive(key: ExporterKey, sequence: U32, items: seq<Item>, now: nat) returns (verdict: Verdict)
      requires Represents()
      modifies this`exporters, this`repr, this`table, repr
      ensures Represents() && fresh(repr - old(repr))
      ensures !Room(limits, old(table), key) ==> verdict == LimitReached && table == old(table)
      ensures Room(limits, old(table), key) ==>
                var e := StateFor(old(table), key, now);
                && verdict == Accepted(Regressed(e.lastSequence, sequence), Decoded(Observed(e, sequence, now).cache, items).ok)
                && table == old(table)[key := Heard(e, sequence, items, now)]
    {
      var state := GetOrCreate(key, now);
      if state.None? {
        return LimitReached;
      }
      assert Holds(key);
      var restart, complete := Hear(key, sequence, items, now);
      return Accepted(restart, complete);
    }

    /** Decides on a datagram and, when it is accepted, decodes it into the cache of its exporter. */
    method ProcessDatagram(d: Datagram, now: nat) returns (verdict: Verdict)
      requires Valid()
      modifies this, repr
      ensures Valid() && events == old(events) + [Arrive(d, now)] && fresh(repr - old(repr))
      ensures verdict == VerdictOn(limits, old(table), d, now)
      ensures table == AfterDatagram(limits, old(table), d, now)
    {
      AppendEvent(limits, events, Arrive(d, now));
      verdict := Decide(d, now);
      events := events + [Arrive(d, now)];
    }

    method Retain(now: nat) returns (forgotten: nat)
      requires Represents()
      modifies this`exporters, this`table
      ensures Represents() && table == AfterSweep(limits, old(table), now) && forgotten == |old(table)| - |table|
    {
      ghost var swept := AfterSweep(limits, table, now);
      forall k ensures k in exporters ==> exporters[k].lastSeen == table[k].lastSeen {
        assert Holds(k);
      }
      var kept := map k | k in exporters && Silence(now, exporters[k].lastSeen) <= limits.idleTimeout :: exporters[k];
      assert kept.Keys == swept.Keys;
      BoundedMap.SubsetSize(kept.Keys, exporters.Keys);
      assert |kept| == |kept.Keys| == |swept| && |exporters| == |exporters.Keys| == |table|;
      forgotten := |exporters| - |kept|;
      exporters, table := kept, swept;
      forall k ensures Holds(k) {
        assert old(Holds(k));
      }
      forall j, k ensures Apart(j, k) {
        assert old(Apart(j, k));
      }
    }

    /** The idle sweep: what was last heard within the timeout stays, and the result is how many went. */
    method EvictIdle(now: nat) returns (forgotten: nat)
      requires Valid()
      modifies this
      ensures Valid() && events == old(events) + [Evict(now)] && repr == old(repr)
      ensures table == AfterSweep(limits, old(table), now) && forgotten == |old(table)| - |table|
    {
      AppendEvent(limits, events, Evict(now));
      forgotten := Retain(now);
      events := events + [Evict(now)];
    }
  }

  lemma {:induction false} AppendEvent(limits: ExporterLimits, events: seq<Event>, e: Event)
    ensures TableAfter(limits, events + [e]) ==
            match e
            case Arrive(d, now) => AfterDatagram(limits, TableAfter(limits, events), d, now)
            case Evict(now) => AfterSweep(limits, TableAfter(limits, events), now)
  {
    assert (events + [e])[..|events|] == events;
  }
}
