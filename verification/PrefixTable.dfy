/** What a set of prefixes means, independently of the trie: a list of
    accepted prefixes scanned linearly, compared by the numeric value of
    their top bits. */
module PrefixTable {
  import opened Wrappers
  import opened Bits

  datatype Prefix<+T> = Prefix(addr: nat, len: nat, entry: T)

  /** One already registered prefix that strictly contains (`broader`) or is
      strictly contained in the prefix being inserted. */
  datatype Overlap = Overlap(broader: bool, existingLen: nat)

  /** The prefix covers the address: their top bits are the same number. */
  predicate Covers<T>(p: Prefix<T>, addr: nat, width: nat) {
    p.len <= width && TopBits(p.addr, p.len, width) == TopBits(addr, p.len, width)
  }

  predicate SamePrefix<T>(p: Prefix<T>, q: Prefix<T>, width: nat) {
    p.len == q.len && Covers(p, q.addr, width)
  }

  /** `p` strictly contains `q`. */
  predicate Contains<T>(p: Prefix<T>, q: Prefix<T>, width: nat) {
    p.len < q.len && Covers(p, q.addr, width)
  }

  /** A table of prefixes that fit the family and are pairwise distinct. */
  ghost predicate WellFormed<T>(table: seq<Prefix<T>>, width: nat) {
    && (forall i :: 0 <= i < |table| ==> table[i].len <= width)
    && (forall i, j :: 0 <= i < j < |table| ==> !SamePrefix(table[i], table[j], width))
  }

  /** The table already has this exact prefix. */
  ghost predicate Registered<T>(table: seq<Prefix<T>>, p: Prefix<T>, width: nat) {
    exists i :: 0 <= i < |table| && SamePrefix(table[i], p, width)
  }

  /** `r` is what a linear scan for the longest covering prefix finds. */
  ghost predicate IsBestMatch<T>(table: seq<Prefix<T>>, width: nat, addr: nat, r: Option<(T, nat)>) {
    match r
    case None => forall i :: 0 <= i < |table| ==> !Covers(table[i], addr, width)
    case Some((entry, len)) =>
      && (exists i :: 0 <= i < |table| && Covers(table[i], addr, width)
                      && table[i].len == len && table[i].entry == entry)
      && (forall j :: 0 <= j < |table| && Covers(table[j], addr, width) ==> table[j].len <= len)
  }

  /** The overlaps of a new prefix with a table, one per strictly nested entry. */
  function Reports<T>(table: seq<Prefix<T>>, p: Prefix<T>, width: nat): seq<Overlap> {
    if table == [] then []
    else
      var q := table[|table| - 1];
      Reports(table[..|table| - 1], p, width) +
      if Contains(q, p, width) then [Overlap(true, q.len)]
      else if Contains(p, q, width) then [Overlap(false, q.len)]
      else []
  }

  lemma {:induction false} ReportsAppend<T>(table: seq<Prefix<T>>, q: Prefix<T>, p: Prefix<T>, width: nat)
    ensures |Reports(table + [q], p, width)|
         == |Reports(table, p, width)| + if Contains(q, p, width) || Contains(p, q, width) then 1 else 0
  {
    assert (table + [q])[..|table|] == table;
  }

  /** A well-formed table has one best match per address. */
  lemma {:induction false} BestMatchUnique<T>(table: seq<Prefix<T>>, width: nat, addr: nat, r: Option<(T, nat)>,
      s: Option<(T, nat)>)
    requires WellFormed(table, width)
    requires IsBestMatch(table, width, addr, r) && IsBestMatch(table, width, addr, s)
    ensures r == s
  {
    if r.Some? && s.Some? {
      var i :| 0 <= i < |table| && Covers(table[i], addr, width) && table[i].len == r.value.1 && table[i].entry == r.value.0;
      var j :| 0 <= j < |table| && Covers(table[j], addr, width) && table[j].len == s.value.1 && table[j].entry == s.value.0;
      assert SamePrefix(table[i], table[j], width) && SamePrefix(table[j], table[i], width);
    }
  }

  // ---- The same table keyed by trie path ----

  function Key<T>(p: Prefix<T>, width: nat): seq<Bit>
    requires p.len <= width
  {
    Path(p.addr, p.len, width)
  }

  lemma {:induction false} CoversIsPath<T>(p: Prefix<T>, addr: nat, width: nat)
    requires p.len <= width
    ensures Covers(p, addr, width) <==> Key(p, width) == Path(addr, p.len, width)
  {
    SamePathSameTop(p.addr, addr, p.len, width);
  }

  ghost predicate Fits<T>(table: seq<Prefix<T>>, width: nat) {
    forall i :: 0 <= i < |table| ==> table[i].len <= width
  }

  /** The entry registered at each trie path. */
  ghost function Marks<T>(table: seq<Prefix<T>>, width: nat): map<seq<Bit>, T>
    requires Fits(table, width)
  {
    if table == [] then map[]
    else
      var q := table[|table| - 1];
      Marks(table[..|table| - 1], width)[Key(q, width) := q.entry]
  }

  lemma {:induction false} MarksAppend<T>(table: seq<Prefix<T>>, p: Prefix<T>, width: nat)
    requires Fits(table, width) && p.len <= width
    ensures Fits(table + [p], width)
    ensures Marks(table + [p], width) == Marks(table, width)[Key(p, width) := p.entry]
  {
    assert (table + [p])[..|table|] == table;
  }

  lemma {:induction false} MarkedBy<T>(table: seq<Prefix<T>>, width: nat, path: seq<Bit>)
    requires Fits(table, width)
    ensures path in Marks(table, width) <==> exists i :: 0 <= i < |table| && Key(table[i], width) == path
    ensures path in Marks(table, width) ==>
              exists i :: 0 <= i < |table| && Key(table[i], width) == path && table[i].entry == Marks(table, width)[path]
  {
    if table != [] {
      var n := |table| - 1;
      var init := table[..n];
      assert Fits(init, width);
      MarkedBy(init, width, path);
      if Key(table[n], width) == path {
        assert Marks(table, width)[path] == table[n].entry;
      } else if path in Marks(init, width) {
        var i :| 0 <= i < n && Key(init[i], width) == path && init[i].entry == Marks(init, width)[path];
        assert Key(table[i], width) == path && table[i].entry == Marks(table, width)[path];
      }
    }
  }

  /** A prefix is a duplicate exactly when its path is already marked. */
  lemma {:induction false} DuplicateIsMarked<T>(table: seq<Prefix<T>>, p: Prefix<T>, width: nat)
    requires Fits(table, width) && p.len <= width
    ensures Key(p, width) in Marks(table, width) <==> Registered(table, p, width)
  {
    MarkedBy(table, width, Key(p, width));
    forall i | 0 <= i < |table|
      ensures SamePrefix(table[i], p, width) <==> Key(table[i], width) == Key(p, width)
    {
      CoversIsPath(table[i], p.addr, width);
    }
  }

  lemma {:induction false} WellFormedAppend<T>(table: seq<Prefix<T>>, p: Prefix<T>, width: nat)
    requires WellFormed(table, width) && p.len <= width && Key(p, width) !in Marks(table, width)
    ensures WellFormed(table + [p], width)
  {
    DuplicateIsMarked(table, p, width);
  }

  /** The longest marked prefix of an address's path is its best match. */
  lemma {:induction false} LongestMarkIsBest<T>(table: seq<Prefix<T>>, width: nat, addr: nat, r: Option<(T, nat)>)
    requires WellFormed(table, width)
    requires r.Some? ==> r.value.1 <= width
    requires r.Some? ==> Path(addr, r.value.1, width) in Marks(table, width)
                         && Marks(table, width)[Path(addr, r.value.1, width)] == r.value.0
    requires forall l :: (if r.Some? then r.value.1 + 1 else 0) <= l <= width ==> Path(addr, l, width) !in Marks(table, width)
    ensures IsBestMatch(table, width, addr, r)
  {
    forall j | 0 <= j < |table| && Covers(table[j], addr, width)
      ensures r.Some? && table[j].len <= r.value.1
    {
      CoversIsPath(table[j], addr, width);
      MarkedBy(table, width, Path(addr, table[j].len, width));
    }
    if r.Some? {
      var path := Path(addr, r.value.1, width);
      MarkedBy(table, width, path);
      var i :| 0 <= i < |table| && Key(table[i], width) == path && table[i].entry == r.value.0;
      CoversIsPath(table[i], addr, width);
    }
  }

  // ---- Overlap reports by path ----

  ghost predicate NoDup<A>(xs: seq<A>) {
    forall i, j :: 0 <= i < j < |xs| ==> xs[i] != xs[j]
  }

  ghost predicate SameElements<A(!new)>(xs: seq<A>, ys: seq<A>) {
    forall x :: x in xs <==> x in ys
  }

  /** The report a marked path gives to a new prefix of length `len`. */
  function ReportOf(len: nat, path: seq<Bit>): Overlap {
    Overlap(|path| < len, |path|)
  }

  function ReportsOf(len: nat, paths: seq<seq<Bit>>): (r: seq<Overlap>)
    ensures |r| == |paths|
  {
    if paths == [] then [] else ReportsOf(len, paths[..|paths| - 1]) + [ReportOf(len, paths[|paths| - 1])]
  }

  lemma {:induction false} ReportsOfAppend(len: nat, xs: seq<seq<Bit>>, ys: seq<seq<Bit>>)
    ensures ReportsOf(len, xs + ys) == ReportsOf(len, xs) + ReportsOf(len, ys)
  {
    if ys == [] {
      assert xs + ys == xs;
    } else {
      var n := |ys| - 1;
      ReportsOfAppend(len, xs, ys[..n]);
      assert (xs + ys)[..|xs + ys| - 1] == xs + ys[..n];
    }
  }

  lemma {:induction false} ReportsOfInsert(len: nat, left: seq<seq<Bit>>, p: seq<Bit>, right: seq<seq<Bit>>)
    ensures multiset(ReportsOf(len, left + [p] + right))
         == multiset(ReportsOf(len, left + right)) + multiset{ReportOf(len, p)}
  {
    ReportsOfAppend(len, left, right);
    ReportsOfAppend(len, left + [p], right);
    assert (left + [p])[..|left|] == left;
  }

  lemma {:induction false} RemoveOne(xs: seq<seq<Bit>>, ys: seq<seq<Bit>>, k: nat)
    requires NoDup(xs) && NoDup(ys) && xs != [] && k < |ys| && ys[k] == xs[|xs| - 1]
    requires SameElements(xs, ys)
    ensures NoDup(ys[..k] + ys[k + 1..])
    ensures SameElements(xs[..|xs| - 1], ys[..k] + ys[k + 1..])
  {
    var init, rest := xs[..|xs| - 1], ys[..k] + ys[k + 1..];
    forall q ensures q in init <==> q in rest {
      assert xs == init + [xs[|xs| - 1]];
      assert ys == ys[..k] + [ys[k]] + ys[k + 1..];
      assert q in xs <==> q in init || q == ys[k];
      assert q in ys <==> q in rest || q == ys[k];
    }
  }

  lemma {:induction false} ReportsOfLast(len: nat, xs: seq<seq<Bit>>)
    requires xs != []
    ensures multiset(ReportsOf(len, xs))
         == multiset(ReportsOf(len, xs[..|xs| - 1])) + multiset{ReportOf(len, xs[|xs| - 1])}
  {
  }

  /** Reports depend on which paths are reported, not on their order. */
  lemma {:induction false} ReportsOfPermuted(len: nat, xs: seq<seq<Bit>>, ys: seq<seq<Bit>>)
    requires NoDup(xs) && NoDup(ys) && SameElements(xs, ys)
    ensures multiset(ReportsOf(len, xs)) == multiset(ReportsOf(len, ys))
    decreases |xs|
  {
    assert ys != [] ==> ys[0] in ys;
    if xs != [] {
      var n := |xs| - 1;
      var p := xs[n];
      assert p in xs;
      var k :| 0 <= k < |ys| && ys[k] == p;
      RemoveOne(xs, ys, k);
      var left, right := ys[..k], ys[k + 1..];
      assert ys == left + [p] + right;
      ReportsOfPermuted(len, xs[..n], left + right);
      ReportsOfInsert(len, left, p, right);
      ReportsOfLast(len, xs);
    }
  }

  predicate ProperPrefix(p: seq<Bit>, q: seq<Bit>) {
    p < q
  }

  /** The paths of the table strictly nested with `path`, in table order. */
  ghost function NestedPaths<T>(table: seq<Prefix<T>>, path: seq<Bit>, width: nat): seq<seq<Bit>>
    requires Fits(table, width)
  {
    if table == [] then []
    else
      var key := Key(table[|table| - 1], width);
      NestedPaths(table[..|table| - 1], path, width) +
      if ProperPrefix(key, path) || ProperPrefix(path, key) then [key] else []
  }

  lemma {:induction false} ContainsIsProperPrefix<T>(p: Prefix<T>, q: Prefix<T>, width: nat)
    requires p.len <= width && q.len <= width
    ensures Contains(p, q, width) <==> ProperPrefix(Key(p, width), Key(q, width))
  {
    if p.len < q.len {
      CoversIsPath(p, q.addr, width);
      PathPrefix(q.addr, p.len, q.len, width);
    }
  }

  lemma {:induction false} ReportsByPath<T>(table: seq<Prefix<T>>, p: Prefix<T>, width: nat)
    requires Fits(table, width) && p.len <= width
    ensures Reports(table, p, width) == ReportsOf(p.len, NestedPaths(table, Key(p, width), width))
  {
    if table != [] {
      var init, q := table[..|table| - 1], table[|table| - 1];
      ReportsByPath(init, p, width);
      ContainsIsProperPrefix(p, q, width);
      ContainsIsProperPrefix(q, p, width);
      var nested := NestedPaths(init, Key(p, width), width);
      assert (nested + [Key(q, width)])[..|nested|] == nested;
      assert nested + [] == nested;
    }
  }

  lemma {:induction false} NestedPathsExact<T>(table: seq<Prefix<T>>, path: seq<Bit>, width: nat)
    requires WellFormed(table, width)
    ensures NoDup(NestedPaths(table, path, width))
    ensures forall q :: q in NestedPaths(table, path, width) <==>
              q in Marks(table, width) && (ProperPrefix(q, path) || ProperPrefix(path, q))
  {
    if table != [] {
      var init, last := table[..|table| - 1], table[|table| - 1];
      assert WellFormed(init, width);
      NestedPathsExact(init, path, width);
      DuplicateIsMarked(init, last, width);
      assert Key(last, width) !in Marks(init, width);
    }
  }

  /** Any duplicate-free listing of the marked paths nested with a new prefix reports exactly
      the table's overlaps. */
  lemma {:induction false} ReportsExact<T>(table: seq<Prefix<T>>, p: Prefix<T>, width: nat, paths: seq<seq<Bit>>)
    requires WellFormed(table, width) && p.len <= width && NoDup(paths)
    requires forall q :: q in paths <==>
               q in Marks(table, width) && (ProperPrefix(q, Key(p, width)) || ProperPrefix(Key(p, width), q))
    ensures multiset(ReportsOf(p.len, paths)) == multiset(Reports(table, p, width))
  {
    ReportsByPath(table, p, width);
    NestedPathsExact(table, Key(p, width), width);
    ReportsOfPermuted(p.len, paths, NestedPaths(table, Key(p, width), width));
  }
}
