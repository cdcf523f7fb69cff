/** The local-prefix registry over one trie per address family, its
    construction from configuration, and traffic direction. */
module Registry {
  import opened Wrappers
  import opened Net
  import opened PrefixTable
  import opened Trie

  datatype PrefixEntry = PrefixEntry(tenant: string, hostgroup: Option<string>, prefixLen: U8)

  datatype ConfigEntry = ConfigEntry(network: IpAddr, prefixLen: U8, tenant: string, hostgroup: Option<string>) {
    function Entry(): PrefixEntry {
      PrefixEntry(tenant, hostgroup, prefixLen)
    }

    function AsPrefix(): Prefix<PrefixEntry> {
      Prefix(network.Value(), prefixLen, Entry())
    }
  }

  datatype PrefixMatch = PrefixMatch(entry: PrefixEntry, matchedLen: nat)

  datatype RegistryError = TooLong(got: nat, max: nat) | Duplicate

  /** An overlap diagnostic; the message is a rendering of the reported overlap. */
  datatype OverlapDiagnostic = OverlapDiagnostic(network: IpAddr, prefixLen: U8, overlap: Overlap)

  datatype RegistryResult = Added(warnings: seq<OverlapDiagnostic>) | Refused(error: RegistryError)

  datatype InvalidEntry = InvalidEntry(index: nat, entry: ConfigEntry, source: RegistryError)

  // ---- What a list of configured prefixes means ----

  predicate CoversAddr(e: ConfigEntry, addr: IpAddr) {
    SameFamily(e.network, addr) && Covers(e.AsPrefix(), addr.Value(), addr.Width())
  }

  predicate Same(e: ConfigEntry, f: ConfigEntry) {
    SameFamily(e.network, f.network) && SamePrefix(e.AsPrefix(), f.AsPrefix(), e.network.Width())
  }

  /** One of the two strictly contains the other. */
  predicate Nested(e: ConfigEntry, f: ConfigEntry) {
    && SameFamily(e.network, f.network)
    && (Contains(e.AsPrefix(), f.AsPrefix(), e.network.Width()) || Contains(f.AsPrefix(), e.AsPrefix(), e.network.Width()))
  }

  /** The longest covering entry, by linear scan. */
  function Scan(entries: seq<ConfigEntry>, addr: IpAddr): Option<PrefixMatch> {
    if entries == [] then None
    else
      var best, e := Scan(entries[..|entries| - 1], addr), entries[|entries| - 1];
      if CoversAddr(e, addr) && (best.None? || best.value.matchedLen < e.prefixLen)
      then Some(PrefixMatch(e.Entry(), e.prefixLen))
      else best
  }

  /** What the scan finds, without its order. */
  ghost predicate IsLookup(entries: seq<ConfigEntry>, addr: IpAddr, r: Option<PrefixMatch>) {
    && (r.None? ==> forall e :: e in entries ==> !CoversAddr(e, addr))
    && (r.Some? ==>
          && (exists e :: e in entries && CoversAddr(e, addr) && r.value == PrefixMatch(e.Entry(), e.prefixLen))
          && (forall e :: e in entries && CoversAddr(e, addr) ==> e.prefixLen <= r.value.matchedLen))
  }

  lemma {:induction false} ScanIsLookup(entries: seq<ConfigEntry>, addr: IpAddr)
    ensures IsLookup(entries, addr, Scan(entries, addr))
  {
    if entries != [] {
      var init, e := entries[..|entries| - 1], entries[|entries| - 1];
      ScanIsLookup(init, addr);
      assert forall f :: f in entries <==> f in init || f == e;
    }
  }

  ghost predicate TooLongEntry(e: ConfigEntry) {
    e.prefixLen > e.network.Width()
  }

  /** Entry i is invalid: too long for its family, or the same prefix as an earlier entry. */
  ghost predicate Bad(entries: seq<ConfigEntry>, i: nat)
    requires i < |entries|
  {
    TooLongEntry(entries[i]) || exists j :: 0 <= j < i && Same(entries[j], entries[i])
  }

  ghost predicate Clean(entries: seq<ConfigEntry>) {
    forall i :: 0 <= i < |entries| ==> !Bad(entries, i)
  }

  /** The errors of the first n entries, in order. */
  ghost function Errors(entries: seq<ConfigEntry>, n: nat): seq<InvalidEntry>
    requires n <= |entries|
  {
    if n == 0 then []
    else
      Errors(entries, n - 1) +
      if Bad(entries, n - 1) then
        var e := entries[n - 1];
        [InvalidEntry(n - 1, e, if TooLongEntry(e) then TooLong(e.prefixLen, e.network.Width()) else Duplicate)]
      else []
  }

  /** The valid ones among the first n entries, in order. */
  ghost function Accepted(entries: seq<ConfigEntry>, n: nat): seq<ConfigEntry>
    requires n <= |entries|
  {
    if n == 0 then []
    else Accepted(entries, n - 1) + if Bad(entries, n - 1) then [] else [entries[n - 1]]
  }

  // ---- Same is an equivalence, so the first of its kind is the one accepted ----

  lemma {:induction false} SameTransitive(e: ConfigEntry, f: ConfigEntry, g: ConfigEntry)
    requires Same(e, f) && Same(f, g)
    ensures Same(e, g) && Same(f, e)
  {
  }

  lemma {:induction false} AcceptedMembers(entries: seq<ConfigEntry>, n: nat, e: ConfigEntry)
    requires n <= |entries|
    ensures e in Accepted(entries, n) <==> exists j :: 0 <= j < n && entries[j] == e && !Bad(entries, j)
  {
    if n > 0 {
      AcceptedMembers(entries, n - 1, e);
    }
  }

  /** A repeated prefix repeats an accepted one. */
  lemma {:induction false} FirstIsAccepted(entries: seq<ConfigEntry>, n: nat, j: nat, e: ConfigEntry)
    requires j < n <= |entries| && Same(entries[j], e)
    ensures exists f :: f in Accepted(entries, n) && Same(f, e)
    decreases j
  {
    if Bad(entries, j) {
      var i :| 0 <= i < j && Same(entries[i], entries[j]);
      SameTransitive(entries[i], entries[j], e);
      FirstIsAccepted(entries, n, i, e);
    } else {
      AcceptedMembers(entries, n, entries[j]);
    }
  }

  lemma {:induction false} DuplicateOfAccepted(entries: seq<ConfigEntry>, n: nat)
    requires n < |entries| && !TooLongEntry(entries[n])
    ensures Bad(entries, n) <==> exists f :: f in Accepted(entries, n) && Same(f, entries[n])
  {
    if Bad(entries, n) {
      var j :| 0 <= j < n && Same(entries[j], entries[n]);
      FirstIsAccepted(entries, n, j, entries[n]);
    }
    forall f | f in Accepted(entries, n) && Same(f, entries[n]) ensures Bad(entries, n) {
      AcceptedMembers(entries, n, f);
    }
  }

  lemma {:induction false} NoErrorsMeansClean(entries: seq<ConfigEntry>, n: nat)
    requires n <= |entries|
    ensures Errors(entries, n) == [] <==> forall i :: 0 <= i < n ==> !Bad(entries, i)
    ensures Errors(entries, n) == [] ==> Accepted(entries, n) == entries[..n]
  {
    if n > 0 {
      NoErrorsMeansClean(entries, n - 1);
    }
  }

  // ---- One family of the registry as a prefix table ----

  ghost function Family(entries: seq<ConfigEntry>, v4: bool): seq<Prefix<PrefixEntry>> {
    if entries == [] then []
    else
      var e := entries[|entries| - 1];
      Family(entries[..|entries| - 1], v4) + if e.network.V4? == v4 then [e.AsPrefix()] else []
  }

  lemma {:induction false} FamilyAppend(entries: seq<ConfigEntry>, e: ConfigEntry, v4: bool)
    ensures Family(entries + [e], v4) == Family(entries, v4) + if e.network.V4? == v4 then [e.AsPrefix()] else []
  {
    assert (entries + [e])[..|entries|] == entries;
  }

  lemma {:induction false} FamilyMembers(entries: seq<ConfigEntry>, v4: bool, p: Prefix<PrefixEntry>)
    ensures p in Family(entries, v4) <==> exists e :: e in entries && e.network.V4? == v4 && e.AsPrefix() == p
  {
    if entries != [] {
      var init, e := entries[..|entries| - 1], entries[|entries| - 1];
      FamilyMembers(init, v4, p);
      assert forall f :: f in entries <==> f in init || f == e;
    }
  }

  lemma {:induction false} RegisteredInFamily(entries: seq<ConfigEntry>, e: ConfigEntry)
    requires !TooLongEntry(e)
    ensures Registered(Family(entries, e.network.V4?), e.AsPrefix(), e.network.Width())
       <==> exists f :: f in entries && Same(f, e)
  {
    var table := Family(entries, e.network.V4?);
    if Registered(table, e.AsPrefix(), e.network.Width()) {
      var i :| 0 <= i < |table| && SamePrefix(table[i], e.AsPrefix(), e.network.Width());
      FamilyMembers(entries, e.network.V4?, table[i]);
    }
    forall f | f in entries && Same(f, e) ensures Registered(table, e.AsPrefix(), e.network.Width()) {
      FamilyMembers(entries, e.network.V4?, f.AsPrefix());
      var i :| 0 <= i < |table| && table[i] == f.AsPrefix();
      assert SamePrefix(table[i], e.AsPrefix(), e.network.Width());
    }
  }

  /** The family trie's best match is the scan of all entries. */
  lemma {:induction false} BestMatchIsScan(entries: seq<ConfigEntry>, addr: IpAddr, r: Option<(PrefixEntry, nat)>)
    requires WellFormed(Family(entries, addr.V4?), addr.Width())
    requires IsBestMatch(Family(entries, addr.V4?), addr.Width(), addr.Value(), r)
    ensures Scan(entries, addr) == match r case None => None case Some((e, l)) => Some(PrefixMatch(e, l))
  {
    var table := Family(entries, addr.V4?);
    var m := Scan(entries, addr);
    ScanIsLookup(entries, addr);
    var s: Option<(PrefixEntry, nat)> := if m.None? then None else Some((m.value.entry, m.value.matchedLen));
    assert IsBestMatch(table, addr.Width(), addr.Value(), s) by {
      forall i | 0 <= i < |table| && Covers(table[i], addr.Value(), addr.Width())
        ensures m.Some? && table[i].len <= m.value.matchedLen
      {
        FamilyMembers(entries, addr.V4?, table[i]);
      }
      if m.Some? {
        var e :| e in entries && CoversAddr(e, addr) && m.value == PrefixMatch(e.Entry(), e.prefixLen);
        FamilyMembers(entries, addr.V4?, e.AsPrefix());
        var i :| 0 <= i < |table| && table[i] == e.AsPrefix();
      }
    }
    BestMatchUnique(table, addr.Width(), addr.Value(), r, s);
  }

  // ---- Overlap warnings ----

  function Diagnose(e: ConfigEntry, overlaps: seq<Overlap>): (r: seq<OverlapDiagnostic>)
    ensures |r| == |overlaps|
  {
    if overlaps == [] then []
    else Diagnose(e, overlaps[..|overlaps| - 1]) + [OverlapDiagnostic(e.network, e.prefixLen, overlaps[|overlaps| - 1])]
  }

  lemma {:induction false} DiagnoseLast(e: ConfigEntry, overlaps: seq<Overlap>)
    requires overlaps != []
    ensures var init, last := overlaps[..|overlaps| - 1], overlaps[|overlaps| - 1];
            multiset(Diagnose(e, overlaps))
            == multiset(Diagnose(e, init)) + multiset{OverlapDiagnostic(e.network, e.prefixLen, last)}
  {
  }

  lemma {:induction false} DiagnoseCounts(e: ConfigEntry, overlaps: seq<Overlap>, d: OverlapDiagnostic)
    ensures multiset(Diagnose(e, overlaps))[d]
         == if d.network == e.network && d.prefixLen == e.prefixLen then multiset(overlaps)[d.overlap] else 0
  {
    if overlaps != [] {
      DiagnoseCounts(e, overlaps[..|overlaps| - 1], d);
      DiagnoseLast(e, overlaps);
      CountLast(overlaps, d.overlap);
      CountLast(Diagnose(e, overlaps), d);
    }
  }

  lemma {:induction false} CountLast<A>(xs: seq<A>, x: A)
    requires xs != []
    ensures multiset(xs)[x] == multiset(xs[..|xs| - 1])[x] + if xs[|xs| - 1] == x then 1 else 0
  {
    assert xs == xs[..|xs| - 1] + [xs[|xs| - 1]];
  }

  lemma {:induction false} DiagnosePermuted(e: ConfigEntry, xs: seq<Overlap>, ys: seq<Overlap>)
    requires multiset(xs) == multiset(ys)
    ensures multiset(Diagnose(e, xs)) == multiset(Diagnose(e, ys))
  {
    forall d: OverlapDiagnostic ensures multiset(Diagnose(e, xs))[d] == multiset(Diagnose(e, ys))[d] {
      DiagnoseCounts(e, xs, d);
      DiagnoseCounts(e, ys, d);
    }
  }

  /** The warnings of one entry against the entries before it. */
  ghost function WarningsOf(earlier: seq<ConfigEntry>, e: ConfigEntry): seq<OverlapDiagnostic> {
    Diagnose(e, Reports(Family(earlier, e.network.V4?), e.AsPrefix(), e.network.Width()))
  }

  lemma {:induction false} Diagnosed(earlier: seq<ConfigEntry>, e: ConfigEntry, overlaps: seq<Overlap>)
    requires multiset(overlaps) == multiset(Reports(Family(earlier, e.network.V4?), e.AsPrefix(), e.network.Width()))
    ensures multiset(Diagnose(e, overlaps)) == multiset(WarningsOf(earlier, e))
  {
    DiagnosePermuted(e, overlaps, Reports(Family(earlier, e.network.V4?), e.AsPrefix(), e.network.Width()));
  }

  ghost function AllWarnings(entries: seq<ConfigEntry>): seq<OverlapDiagnostic> {
    if entries == [] then []
    else
      var init := entries[..|entries| - 1];
      AllWarnings(init) + WarningsOf(init, entries[|entries| - 1])
  }

  lemma {:induction false} AllWarningsAppend(entries: seq<ConfigEntry>, e: ConfigEntry)
    ensures AllWarnings(entries + [e]) == AllWarnings(entries) + WarningsOf(entries, e)
  {
    assert (entries + [e])[..|entries|] == entries;
  }

  /** The unordered same-family pairs of which one strictly contains the other. */
  ghost function NestedPairs(entries: seq<ConfigEntry>): set<(int, int)> {
    set i, j | 0 <= i < j < |entries| && Nested(entries[i], entries[j]) :: (i, j)
  }

  ghost function NestedWith(entries: seq<ConfigEntry>, e: ConfigEntry): set<int> {
    set i | 0 <= i < |entries| && Nested(entries[i], e)
  }

  lemma {:induction false} WarningsOfAppend(entries: seq<ConfigEntry>, f: ConfigEntry, e: ConfigEntry)
    ensures |WarningsOf(entries + [f], e)| == |WarningsOf(entries, e)| + if Nested(f, e) then 1 else 0
  {
    FamilyAppend(entries, f, e.network.V4?);
    var table := Family(entries, e.network.V4?);
    assert table + [] == table;
    ReportsAppend(table, f.AsPrefix(), e.AsPrefix(), e.network.Width());
  }

  lemma {:induction false} NestedWithLast(entries: seq<ConfigEntry>, n: nat, e: ConfigEntry)
    requires |entries| == n + 1
    ensures |NestedWith(entries, e)| == |NestedWith(entries[..n], e)| + if Nested(entries[n], e) then 1 else 0
  {
    assert NestedWith(entries, e) == NestedWith(entries[..n], e) + if Nested(entries[n], e) then {n} else {};
  }

  lemma {:induction false} WarningsCountNested(entries: seq<ConfigEntry>, e: ConfigEntry)
    ensures |WarningsOf(entries, e)| == |NestedWith(entries, e)|
  {
    if entries == [] {
      assert NestedWith(entries, e) == {};
    } else {
      var n := |entries| - 1;
      var init := entries[..n];
      WarningsCountNested(init, e);
      WarningsOfAppend(init, entries[n], e);
      assert init + [entries[n]] == entries;
      NestedWithLast(entries, n, e);
    }
  }

  lemma {:induction false} PairsWithLast(n: nat, nested: set<int>, m: nat)
    requires forall i :: i in nested ==> 0 <= i < m
    ensures |set i | i in nested :: (i, n)| == |nested|
    decreases m
  {
    var pairs := set i | i in nested :: (i, n);
    if m == 0 {
      assert forall i :: i in nested <==> i in {};
      assert nested == {} && pairs == {};
    } else {
      var rest := nested - {m - 1};
      PairsWithLast(n, rest, m - 1);
      assert pairs == (set i | i in rest :: (i, n)) + if m - 1 in nested then {(m - 1, n)} else {};
      assert nested == rest + if m - 1 in nested then {m - 1} else {};
    }
  }

  lemma {:induction false} PairsSplit(entries: seq<ConfigEntry>, n: nat)
    requires |entries| == n + 1
    ensures |NestedPairs(entries)| == |NestedPairs(entries[..n])| + |NestedWith(entries[..n], entries[n])|
  {
    var init, e := entries[..n], entries[n];
    PairsWithLast(n, NestedWith(init, e), n);
    var last := set i | i in NestedWith(init, e) :: (i, n);
    var all, before := NestedPairs(entries), NestedPairs(init);
    forall p ensures p in all <==> p in before || p in last {
      assert p in all <==> 0 <= p.0 < p.1 < |entries| && Nested(entries[p.0], entries[p.1]);
      assert p in last <==> p.1 == n && p.0 in NestedWith(init, e);
    }
    assert all == before + last && before !! last;
  }

  /** A configuration draws one warning per strictly nested pair. */
  lemma {:induction false} WarningsCountPairs(entries: seq<ConfigEntry>)
    ensures |AllWarnings(entries)| == |NestedPairs(entries)|
  {
    if entries == [] {
      assert NestedPairs(entries) == {};
    } else {
      var n := |entries| - 1;
      WarningsCountPairs(entries[..n]);
      WarningsCountNested(entries[..n], entries[n]);
      PairsSplit(entries, n);
    }
  }

  // ---- The registry ----

  /** What inserting an entry into a table of its family answers. */
  ghost predicate Decided(table: seq<Prefix<PrefixEntry>>, e: ConfigEntry, r: InsertResult) {
    match r
    case PrefixTooLong(got, max) => TooLongEntry(e) && got == e.prefixLen && max == e.network.Width()
    case DuplicatePrefix => !TooLongEntry(e) && Registered(table, e.AsPrefix(), e.network.Width())
    case Inserted(overlaps) =>
      && !TooLongEntry(e) && !Registered(table, e.AsPrefix(), e.network.Width())
      && multiset(overlaps) == multiset(Reports(table, e.AsPrefix(), e.network.Width()))
  }

  class PrefixRegistry {
    const ipv4: PrefixTrie<PrefixEntry>
    const ipv6: PrefixTrie<PrefixEntry>
    var len: nat
    /** The accepted entries of both families, in insertion order. */
    ghost var entries: seq<ConfigEntry>

    /** The registry and everything its tries are made of. */
    ghost function Repr(): set<object>
      reads this, ipv4, ipv6
    {
      {this, ipv4, ipv6} + ipv4.repr + ipv6.repr
    }

    function TrieOf(v4: bool): PrefixTrie<PrefixEntry> {
      if v4 then ipv4 else ipv6
    }

    ghost predicate Tries()
      reads ipv4, ipv6, ipv4.repr, ipv6.repr
    {
      && ipv4 != ipv6 && ipv4.repr !! ipv6.repr
      && ipv4.maxBits == 32 && ipv6.maxBits == 128
      && forall v4 :: TrieOf(v4).Valid()
    }

    ghost predicate Valid()
      reads Repr()
    {
      && Tries()
      && len == |entries|
      && Matches(entries)
    }

    /** The tries have accepted these entries, each in its family. */
    ghost predicate Matches(es: seq<ConfigEntry>)
      reads ipv4, ipv6
    {
      forall v4 :: Table(v4) == Family(es, v4)
    }

    constructor ()
      ensures Valid() && entries == []
      ensures fresh(ipv4) && fresh(ipv6) && fresh(ipv4.repr) && fresh(ipv6.repr)
    {
      var a := new PrefixTrie<PrefixEntry>(32);
      var b := new PrefixTrie<PrefixEntry>(128);
      ipv4, ipv6, len, entries := a, b, 0, [];
    }

    ghost function Table(v4: bool): seq<Prefix<PrefixEntry>>
      reads ipv4, ipv6
    {
      TrieOf(v4).accepted
    }

    /** Inserts into the trie of the address's family and leaves the other alone. */
    method InsertInFamily(e: ConfigEntry) returns (r: InsertResult)
      requires Tries()
      modifies ipv4, ipv6, ipv4.repr, ipv6.repr
      ensures Tries() && fresh(ipv4.repr - old(ipv4.repr)) && fresh(ipv6.repr - old(ipv6.repr))
      ensures Table(!e.network.V4?) == old(Table(!e.network.V4?))
      ensures Table(e.network.V4?) == if r.Inserted? then old(Table(e.network.V4?)) + [e.AsPrefix()] else old(Table(e.network.V4?))
      ensures Decided(old(Table(e.network.V4?)), e, r)
    {
      var trie := TrieOf(e.network.V4?);
      ghost var other := TrieOf(!e.network.V4?);
      r := trie.Insert(e.network.Value(), e.prefixLen, e.Entry());
      assert trie.repr !! other.repr;
    }

    /** The same, with the entry recorded when its prefix is new. */
    method Register(e: ConfigEntry) returns (r: InsertResult)
      requires Valid()
      modifies Repr()
      ensures Valid() && fresh(ipv4.repr - old(ipv4.repr)) && fresh(ipv6.repr - old(ipv6.repr))
      ensures entries == if r.Inserted? then old(entries) + [e] else old(entries)
      ensures Decided(Family(old(entries), e.network.V4?), e, r)
    {
      r := InsertInFamily(e);
      if r.Inserted? {
        MatchesMore(e);
        Record(e);
      } else {
        MatchesStill(old(Table(true)), old(Table(false)));
      }
    }

    /** Inserts one prefix: an error exactly when it is too long or registered already, and then
        nothing changes; otherwise its overlaps with what was registered before. */
    method Insert(e: ConfigEntry) returns (r: RegistryResult)
      requires Valid()
      modifies Repr()
      ensures Valid() && fresh(ipv4.repr - old(ipv4.repr)) && fresh(ipv6.repr - old(ipv6.repr))
      ensures r.Refused? <==> TooLongEntry(e) || exists f :: f in old(entries) && Same(f, e)
      ensures r.Refused? ==> r.error == if TooLongEntry(e) then TooLong(e.prefixLen, e.network.Width()) else Duplicate
      ensures entries == if r.Added? then old(entries) + [e] else old(entries)
      ensures r.Added? ==> multiset(r.warnings) == multiset(WarningsOf(old(entries), e))
    {
      if !TooLongEntry(e) { RegisteredInFamily(entries, e); }
      var outcome := Register(e);
      match outcome
      case PrefixTooLong(got, max) => r := Refused(TooLong(got, max));
      case DuplicatePrefix => r := Refused(Duplicate);
      case Inserted(overlaps) =>
        Diagnosed(old(entries), e, overlaps);
        r := Added(Diagnose(e, overlaps));
    }

    lemma {:induction false} MatchesMore(e: ConfigEntry)
      requires Table(e.network.V4?) == Family(entries, e.network.V4?) + [e.AsPrefix()]
      requires Table(!e.network.V4?) == Family(entries, !e.network.V4?)
      ensures Matches(entries + [e])
    {
      forall v4 ensures Table(v4) == Family(entries + [e], v4) {
        FamilyAppend(entries, e, v4);
        assert v4 == e.network.V4? || v4 == !e.network.V4?;
      }
    }

    lemma {:induction false} MatchesStill(ipv4Table: seq<Prefix<PrefixEntry>>, ipv6Table: seq<Prefix<PrefixEntry>>)
      requires Table(true) == ipv4Table == Family(entries, true) && Table(false) == ipv6Table == Family(entries, false)
      ensures Matches(entries)
    {
      forall v4 ensures Table(v4) == Family(entries, v4) {
        assert v4 == true || v4 == false;
      }
    }

    method Record(e: ConfigEntry)
      requires Tries() && len == |entries| && Matches(entries + [e])
      modifies this`len, this`entries
      ensures Valid() && entries == old(entries) + [e] && ipv4.repr == old(ipv4.repr) && ipv6.repr == old(ipv6.repr)
    {
      len := len + 1;
      entries := entries + [e];
    }

    /** Longest-prefix match within the address's own family. */
    method Lookup(addr: IpAddr) returns (r: Option<PrefixMatch>)
      requires Valid()
      ensures r == Scan(entries, addr)
    {
      var found := TrieOf(addr.V4?).Lookup(addr.Value());
      BestMatchIsScan(entries, addr, found);
      match found
      case None => r := None;
      case Some((entry, length)) => r := Some(PrefixMatch(entry, length));
    }
  }

  datatype BuildResult = Built(warnings: seq<OverlapDiagnostic>) | Failed(errors: seq<InvalidEntry>)

  /** Builds a registry from configuration, reporting every invalid entry in one pass. A
      configuration without invalid entries is registered whole and draws one warning per
      strictly nested pair. */
  method BuildRegistry(config: seq<ConfigEntry>) returns (registry: PrefixRegistry, r: BuildResult)
    ensures registry.Valid() && fresh(registry)
    ensures fresh(registry.ipv4) && fresh(registry.ipv6) && fresh(registry.ipv4.repr) && fresh(registry.ipv6.repr)
    ensures r.Built? <==> Clean(config)
    ensures r.Failed? ==> r.errors == Errors(config, |config|)
    ensures r.Built? ==> registry.entries == config
    ensures r.Built? ==> multiset(r.warnings) == multiset(AllWarnings(config)) && |r.warnings| == |NestedPairs(config)|
  {
    var warnings, errors;
    registry, warnings, errors := NewRegistry(config);
    assert Reached(registry, config, |config|, warnings, errors);
    r := if errors == [] then Built(warnings) else Failed(errors);
    BuildOutcome(config, registry.entries, warnings, errors, r);
  }

  /** What it means that no error was reported. */
  lemma {:induction false} BuildOutcome(config: seq<ConfigEntry>, entries: seq<ConfigEntry>, warnings: seq<OverlapDiagnostic>,
      errors: seq<InvalidEntry>, r: BuildResult)
    requires entries == Accepted(config, |config|) && errors == Errors(config, |config|)
    requires multiset(warnings) == multiset(AllWarnings(entries)) && r == if errors == [] then Built(warnings) else Failed(errors)
    ensures r.Built? <==> Clean(config)
    ensures r.Built? ==> entries == config && multiset(r.warnings) == multiset(AllWarnings(config)) && |r.warnings| == |NestedPairs(config)|
  {
    NoErrorsMeansClean(config, |config|);
    WarningsCountPairs(config);
    assert config[..|config|] == config;
    assert |warnings| == |multiset(warnings)| && |AllWarnings(entries)| == |multiset(AllWarnings(entries))|;
  }

  /** The first n entries have been registered with their warnings, or reported. Said of every number
      equal to n, so that a proof unfolds it only where it names it. */
  ghost predicate Done(registry: PrefixRegistry, config: seq<ConfigEntry>, n: nat,
      warnings: seq<OverlapDiagnostic>, errors: seq<InvalidEntry>)
    reads registry.Repr()
  {
    forall k: nat :: k == n ==> Reached(registry, config, k, warnings, errors)
  }

  ghost predicate Reached(registry: PrefixRegistry, config: seq<ConfigEntry>, n: nat,
      warnings: seq<OverlapDiagnostic>, errors: seq<InvalidEntry>)
    reads registry.Repr()
  {
    && n <= |config| && registry.Valid() && registry.entries == Accepted(config, n) && errors == Errors(config, n)
    && multiset(warnings) == multiset(AllWarnings(registry.entries))
  }

  method AddAll(registry: PrefixRegistry, config: seq<ConfigEntry>)
    returns (warnings: seq<OverlapDiagnostic>, errors: seq<InvalidEntry>)
    requires registry.Valid() && registry.entries == []
    modifies registry.Repr()
    ensures fresh(registry.ipv4.repr - old(registry.ipv4.repr)) && fresh(registry.ipv6.repr - old(registry.ipv6.repr))
    ensures Done(registry, config, |config|, warnings, errors)
  {
    warnings, errors := [], [];
    assert Reached(registry, config, 0, warnings, errors);
    for n := 0 to |config|
      invariant fresh(registry.ipv4.repr - old(registry.ipv4.repr)) && fresh(registry.ipv6.repr - old(registry.ipv6.repr))
      invariant Done(registry, config, n, warnings, errors)
    {
      warnings, errors := AddEntry(registry, config, n, warnings, errors);
    }
  }

  method NewRegistry(config: seq<ConfigEntry>)
    returns (registry: PrefixRegistry, warnings: seq<OverlapDiagnostic>, errors: seq<InvalidEntry>)
    ensures fresh(registry) && fresh(registry.ipv4) && fresh(registry.ipv6) && fresh(registry.ipv4.repr) && fresh(registry.ipv6.repr)
    ensures Done(registry, config, |config|, warnings, errors)
  {
    registry := new PrefixRegistry();
    warnings, errors := AddAll(registry, config);
  }

  /** One turn of the loop: entry n is registered with its warnings, or reported. */
  method AddEntry(registry: PrefixRegistry, config: seq<ConfigEntry>, n: nat,
                  warnings: seq<OverlapDiagnostic>, errors: seq<InvalidEntry>)
    returns (warnings': seq<OverlapDiagnostic>, errors': seq<InvalidEntry>)
    requires n < |config| && Done(registry, config, n, warnings, errors)
    modifies registry.Repr()
    ensures fresh(registry.ipv4.repr - old(registry.ipv4.repr)) && fresh(registry.ipv6.repr - old(registry.ipv6.repr))
    ensures Done(registry, config, n + 1, warnings', errors')
  {
    assert Reached(registry, config, n, warnings, errors);
    var e := config[n];
    TurnOutcome(config, n, registry.entries);
    var inserted := registry.Insert(e);
    match inserted
    case Added(overlaps) => warnings', errors' := warnings + overlaps, errors;
    case Refused(source) => warnings', errors' := warnings, errors + [InvalidEntry(n, e, source)];
    assert Reached(registry, config, n + 1, warnings', errors');
  }

  lemma {:induction false} TurnOutcome(config: seq<ConfigEntry>, n: nat, accepted: seq<ConfigEntry>)
    requires n < |config| && accepted == Accepted(config, n)
    ensures var e := config[n];
            var refused := TooLongEntry(e) || exists f :: f in accepted && Same(f, e);
            && (refused ==>
                  && Accepted(config, n + 1) == accepted
                  && Errors(config, n + 1) == Errors(config, n) +
                       [InvalidEntry(n, e, if TooLongEntry(e) then TooLong(e.prefixLen, e.network.Width()) else Duplicate)])
            && (!refused ==>
                  && Accepted(config, n + 1) == accepted + [e]
                  && Errors(config, n + 1) == Errors(config, n)
                  && AllWarnings(accepted + [e]) == AllWarnings(accepted) + WarningsOf(accepted, e))
  {
    AllWarningsAppend(accepted, config[n]);
    InsertDecidesBad(config, n);
  }

  lemma {:induction false} InsertDecidesBad(config: seq<ConfigEntry>, n: nat)
    requires n < |config|
    ensures Bad(config, n) <==> TooLongEntry(config[n]) || exists f :: f in Accepted(config, n) && Same(f, config[n])
  {
    if !TooLongEntry(config[n]) { DuplicateOfAccepted(config, n); }
  }

  // ---- Direction ----

  datatype Direction = Incoming | Outgoing | Internal | Other | Unknown

  datatype Classification = Classification(
    direction: Direction,
    sourceLocal: Option<bool>, destinationLocal: Option<bool>,
    sourceTenant: Option<string>, destinationTenant: Option<string>,
    sourceHostgroup: Option<string>, destinationHostgroup: Option<string>)

  function TenantOf(m: Option<PrefixMatch>): Option<string> {
    if m.Some? then Some(m.value.entry.tenant) else None
  }

  function HostgroupOf(m: Option<PrefixMatch>): Option<string> {
    if m.Some? then m.value.entry.hostgroup else None
  }

  function Classified(isEmpty: bool, source: Option<PrefixMatch>, destination: Option<PrefixMatch>): Classification {
    if isEmpty then Classification(Unknown, None, None, None, None, None, None)
    else
      var direction :=
        match (source.Some?, destination.Some?)
        case (false, true) => Incoming
        case (true, false) => Outgoing
        case (true, true) => Internal
        case (false, false) => Other;
      Classification(direction, Some(source.Some?), Some(destination.Some?),
                     TenantOf(source), TenantOf(destination), HostgroupOf(source), HostgroupOf(destination))
  }

  /** The classification of a flow between two addresses by a list of prefixes. */
  function Classify(entries: seq<ConfigEntry>, source: IpAddr, destination: IpAddr): Classification {
    Classified(entries == [], Scan(entries, source), Scan(entries, destination))
  }

  method ClassifyFlow(registry: PrefixRegistry, source: IpAddr, destination: IpAddr) returns (c: Classification)
    requires registry.Valid()
    ensures c == Classify(registry.entries, source, destination)
  {
    if registry.len == 0 {
      return Classified(true, None, None);
    }
    var s := registry.Lookup(source);
    var d := registry.Lookup(destination);
    c := Classified(false, s, d);
  }

  /** The directions by coverage: Unknown exactly without prefixes, otherwise decided by which
      ends some prefix covers. */
  lemma {:induction false} DirectionMeaning(entries: seq<ConfigEntry>, source: IpAddr, destination: IpAddr)
    ensures var d := Classify(entries, source, destination).direction;
            var local := (addr: IpAddr) => exists e :: e in entries && CoversAddr(e, addr);
            && (d == Unknown <==> entries == [])
            && (d == Incoming <==> !local(source) && local(destination))
            && (d == Outgoing <==> local(source) && !local(destination))
            && (d == Internal <==> local(source) && local(destination))
            && (d == Other <==> entries != [] && !local(source) && !local(destination))
  {
    ScanIsLookup(entries, source);
    ScanIsLookup(entries, destination);
  }

  /** The longest of these entries that cover an address. */
  ghost predicate Longest(entries: seq<ConfigEntry>, addr: IpAddr, e: ConfigEntry) {
    && e in entries && CoversAddr(e, addr)
    && forall f :: f in entries && CoversAddr(f, addr) ==> f.prefixLen <= e.prefixLen
  }

  ghost predicate Uncovered(entries: seq<ConfigEntry>, addr: IpAddr) {
    forall f :: f in entries ==> !CoversAddr(f, addr)
  }

  /** In a valid configuration the longest entry that covers an address is what a lookup finds, with
      its own tenant, hostgroup and length; without one it finds nothing. */
  lemma {:induction false} LookupFinds(entries: seq<ConfigEntry>, addr: IpAddr, e: ConfigEntry)
    requires Clean(entries)
    ensures Longest(entries, addr, e) ==>
              Scan(entries, addr) == Some(PrefixMatch(PrefixEntry(e.tenant, e.hostgroup, e.prefixLen), e.prefixLen))
    ensures Uncovered(entries, addr) <==> Scan(entries, addr) == None
  {
    ScanIsLookup(entries, addr);
    if Longest(entries, addr, e) {
      assert IsLookup(entries, addr, Some(PrefixMatch(e.Entry(), e.prefixLen)));
      LookupUnique(entries, addr, Scan(entries, addr), Some(PrefixMatch(e.Entry(), e.prefixLen)));
    }
  }

  /** What a classification says about each end of a flow: the tenant and the hostgroup of the longest
      entry that covers it, nothing but that it is not local when none does, nothing at all without
      entries. */
  lemma {:induction false} EndsMeaning(entries: seq<ConfigEntry>, source: IpAddr, destination: IpAddr, e: ConfigEntry)
    requires Clean(entries)
    ensures var c := Classify(entries, source, destination);
            && (Longest(entries, source, e) ==>
                  c.sourceLocal == Some(true) && c.sourceTenant == Some(e.tenant) && c.sourceHostgroup == e.hostgroup)
            && (Longest(entries, destination, e) ==>
                  c.destinationLocal == Some(true) && c.destinationTenant == Some(e.tenant) && c.destinationHostgroup == e.hostgroup)
            && (entries != [] && Uncovered(entries, source) ==>
                  c.sourceLocal == Some(false) && c.sourceTenant == None && c.sourceHostgroup == None)
            && (entries != [] && Uncovered(entries, destination) ==>
                  c.destinationLocal == Some(false) && c.destinationTenant == None && c.destinationHostgroup == None)
            && (entries == [] ==>
                  && c.sourceLocal == None && c.sourceTenant == None && c.sourceHostgroup == None
                  && c.destinationLocal == None && c.destinationTenant == None && c.destinationHostgroup == None)
  {
    LookupFinds(entries, source, e);
    LookupFinds(entries, destination, e);
  }

  function Reversed(c: Classification): Classification {
    Classification(
      match c.direction case Incoming => Outgoing case Outgoing => Incoming case d => d,
      c.destinationLocal, c.sourceLocal, c.destinationTenant, c.sourceTenant, c.destinationHostgroup, c.sourceHostgroup)
  }

  /** Swapping the ends of a flow swaps incoming with outgoing and every matched field. */
  lemma {:induction false} ClassifySwapped(entries: seq<ConfigEntry>, source: IpAddr, destination: IpAddr)
    ensures Classify(entries, destination, source) == Reversed(Classify(entries, source, destination))
  {
    var s, d := Scan(entries, source), Scan(entries, destination);
    assert s.Some? || s.None?;
  }

  // ---- Order independence ----

  lemma {:induction false} LookupUnique(entries: seq<ConfigEntry>, addr: IpAddr, r: Option<PrefixMatch>, s: Option<PrefixMatch>)
    requires Clean(entries) && IsLookup(entries, addr, r) && IsLookup(entries, addr, s)
    ensures r == s
  {
    if r.Some? && s.Some? {
      var e :| e in entries && CoversAddr(e, addr) && r.value == PrefixMatch(e.Entry(), e.prefixLen);
      var f :| f in entries && CoversAddr(f, addr) && s.value == PrefixMatch(f.Entry(), f.prefixLen);
      var i :| 0 <= i < |entries| && entries[i] == e;
      var j :| 0 <= j < |entries| && entries[j] == f;
      assert Same(entries[i], entries[j]) && Same(entries[j], entries[i]);
      assert !Bad(entries, i) && !Bad(entries, j);
    }
  }

  lemma {:induction false} Twice<A>(xs: seq<A>, x: A)
    ensures multiset(xs)[x] >= 2 <==> exists i, j :: 0 <= i < j < |xs| && xs[i] == x && xs[j] == x
  {
    if xs != [] {
      var n := |xs| - 1;
      var init := xs[..n];
      Twice(init, x);
      assert xs == init + [xs[n]];
      if xs[n] == x && x in init {
        assert x in multiset(init);
        var i :| 0 <= i < n && init[i] == x;
        assert xs[i] == x;
      }
    }
  }

  /** A permutation of a valid configuration is valid. */
  lemma {:induction false} CleanPermuted(xs: seq<ConfigEntry>, ys: seq<ConfigEntry>)
    requires multiset(xs) == multiset(ys) && Clean(xs)
    ensures Clean(ys)
  {
    forall j | 0 <= j < |ys| ensures !Bad(ys, j) {
      assert ys[j] in multiset(ys) && ys[j] in xs;
      DistinctInClean(xs, ys[j], ys[j]);
      forall i | 0 <= i < j ensures !Same(ys[i], ys[j]) {
        assert ys[i] in multiset(ys) && ys[i] in xs;
        DistinctInClean(xs, ys[i], ys[j]);
        Twice(xs, ys[j]);
        Twice(ys, ys[j]);
      }
    }
  }

  lemma {:induction false} DistinctInClean(xs: seq<ConfigEntry>, e: ConfigEntry, f: ConfigEntry)
    requires Clean(xs) && e in xs && f in xs
    ensures !TooLongEntry(f)
    ensures e != f ==> !Same(e, f)
    ensures forall i, j :: 0 <= i < j < |xs| ==> !(xs[i] == f && xs[j] == f)
  {
    var i :| 0 <= i < |xs| && xs[i] == e;
    var j :| 0 <= j < |xs| && xs[j] == f;
    assert !Bad(xs, i) && !Bad(xs, j);
    forall k, l | 0 <= k < l < |xs| && xs[k] == f ensures xs[l] != f {
      assert Same(f, f);
      assert !Bad(xs, l);
    }
  }

  /** Any order of a valid configuration is valid and answers every lookup and every
      classification the same. */
  lemma {:induction false} OrderIndependence(xs: seq<ConfigEntry>, ys: seq<ConfigEntry>, source: IpAddr, destination: IpAddr)
    requires multiset(xs) == multiset(ys) && Clean(xs)
    ensures Clean(ys)
    ensures Scan(xs, source) == Scan(ys, source)
    ensures Classify(xs, source, destination) == Classify(ys, source, destination)
  {
    CleanPermuted(xs, ys);
    assert |xs| == |multiset(xs)| == |multiset(ys)| == |ys|;
    ScanPermuted(xs, ys, source);
    ScanPermuted(xs, ys, destination);
  }

  lemma {:induction false} ScanPermuted(xs: seq<ConfigEntry>, ys: seq<ConfigEntry>, addr: IpAddr)
    requires multiset(xs) == multiset(ys) && Clean(xs)
    ensures Scan(xs, addr) == Scan(ys, addr)
  {
    ScanIsLookup(xs, addr);
    ScanIsLookup(ys, addr);
    assert forall e :: e in xs <==> e in multiset(xs);
    assert forall e :: e in ys <==> e in multiset(ys);
    LookupUnique(xs, addr, Scan(xs, addr), Scan(ys, addr));
  }
}
