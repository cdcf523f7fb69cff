/** The binary trie of the classifier, one bit per level, changed in place. */
module Trie {
  import opened Wrappers
  import opened Bits
  import opened PrefixTable

  datatype InsertResult =
    | Inserted(overlaps: seq<Overlap>)
    | PrefixTooLong(got: nat, max: nat)
    | DuplicatePrefix

  class Node<T> {
    var children: seq<Node?<T>>
    var entry: Option<T>

    constructor ()
      ensures children == [null, null] && entry == None
    {
      children, entry := [null, null], None;
    }
  }

  function Child(path: seq<Bit>, bit: Bit): seq<Bit> {
    path + [bit]
  }

  lemma {:induction false} ChildInjective(p: seq<Bit>, b: Bit, q: seq<Bit>, c: Bit)
    requires Child(p, b) == Child(q, c)
    ensures p == q && b == c
  {
    assert Child(p, b)[..|p|] == p && Child(q, c)[..|q|] == q && Child(p, b)[|p|] == b;
  }

  /** The marked proper prefixes of `path` shorter than `depth`, shortest first. */
  ghost function Ancestors<T>(marks: map<seq<Bit>, T>, path: seq<Bit>, depth: nat): seq<seq<Bit>>
    requires depth <= |path|
  {
    if depth == 0 then []
    else Ancestors(marks, path, depth - 1) + if path[..depth - 1] in marks then [path[..depth - 1]] else []
  }

  lemma {:induction false} AncestorsExact<T>(marks: map<seq<Bit>, T>, path: seq<Bit>, depth: nat)
    requires depth <= |path|
    ensures NoDup(Ancestors(marks, path, depth))
    ensures forall q :: q in Ancestors(marks, path, depth) <==> q in marks && |q| < depth && ProperPrefix(q, path)
  {
    if depth > 0 {
      AncestorsExact(marks, path, depth - 1);
      var last := path[..depth - 1];
      forall q | q in marks && |q| < depth && ProperPrefix(q, path) && q !in Ancestors(marks, path, depth - 1)
        ensures q == last
      {
        assert |q| == depth - 1;
      }
    }
  }

  /** The lengths of deeper descendants are reported the same way from any depth above them. */
  lemma {:induction false} NarrowerFromAbove(depth: nat, paths: seq<seq<Bit>>)
    requires forall q :: q in paths ==> depth < |q|
    ensures ReportsOf(depth, paths) == ReportsOf(depth + 1, paths)
  {
    if paths != [] {
      NarrowerFromAbove(depth, paths[..|paths| - 1]);
      assert paths[|paths| - 1] in paths;
    }
  }

  lemma {:induction false} AppendReports(overlaps: seq<Overlap>, depth: nat, found: seq<seq<Bit>>, more: seq<seq<Bit>>)
    ensures overlaps + ReportsOf(depth, found) + ReportsOf(depth, more) == overlaps + ReportsOf(depth, found + more)
  {
    ReportsOfAppend(depth, found, more);
  }

  /** `found` lists, each once, the marked paths strictly below `path` through a child before `b`. */
  ghost predicate Found<T>(marks: map<seq<Bit>, T>, path: seq<Bit>, b: nat, found: seq<seq<Bit>>) {
    && NoDup(found)
    && forall q :: q in found <==> q in marks && ProperPrefix(path, q) && q[|path|] < b
  }

  lemma {:induction false} ThroughChild(path: seq<Bit>, b: Bit, q: seq<Bit>)
    ensures ProperPrefix(path, q) && q[|path|] == b <==> q == Child(path, b) || ProperPrefix(Child(path, b), q)
  {
    if ProperPrefix(path, q) && q[|path|] == b {
      assert q[..|path| + 1] == Child(path, b);
    }
  }

  /** `found` lists, each once, the marked paths that pass through `below`. */
  ghost predicate FoundThrough<T>(marks: map<seq<Bit>, T>, below: seq<Bit>, found: seq<seq<Bit>>) {
    && NoDup(found)
    && forall q :: q in found <==> q in marks && (q == below || ProperPrefix(below, q))
  }

  ghost function WithChild<T>(marks: map<seq<Bit>, T>, below: seq<Bit>, deeper: seq<seq<Bit>>): seq<seq<Bit>> {
    if below in marks then [below] + deeper else deeper
  }

  lemma {:induction false} ChildFound<T>(marks: map<seq<Bit>, T>, below: seq<Bit>, deeper: seq<seq<Bit>>)
    requires Found(marks, below, 2, deeper)
    ensures FoundThrough(marks, below, WithChild(marks, below, deeper))
  {
    var found := WithChild(marks, below, deeper);
    forall q ensures q in found <==> q in marks && (q == below || ProperPrefix(below, q)) {
      assert q in found <==> (q == below && below in marks) || q in deeper;
    }
    forall i | 0 <= i < |deeper| ensures deeper[i] != below {
      assert deeper[i] in deeper;
    }
  }

  lemma {:induction false} FirstReport(depth: nat, below: seq<Bit>, deeper: seq<seq<Bit>>)
    requires |below| > depth
    ensures ReportsOf(depth, [below] + deeper) == [Overlap(false, |below|)] + ReportsOf(depth, deeper)
  {
    ReportsOfAppend(depth, [below], deeper);
    assert [below][..0] == [];
  }

  lemma {:induction false} Assoc<A>(a: seq<A>, b: seq<A>, c: seq<A>)
    ensures a + b + c == a + (b + c)
  {
  }

  lemma {:induction false} ChildReports<T>(overlaps: seq<Overlap>, marks: map<seq<Bit>, T>, below: seq<Bit>,
      deeper: seq<seq<Bit>>)
    requires below != [] && forall q :: q in deeper ==> |below| < |q|
    ensures overlaps + (if below in marks then [Overlap(false, |below|)] else []) + ReportsOf(|below|, deeper)
         == overlaps + ReportsOf(|below| - 1, WithChild(marks, below, deeper))
  {
    NarrowerFromAbove(|below| - 1, deeper);
    FirstReport(|below| - 1, below, deeper);
    Assoc(overlaps, if below in marks then [Overlap(false, |below|)] else [], ReportsOf(|below|, deeper));
    assert [] + ReportsOf(|below|, deeper) == ReportsOf(|below|, deeper);
  }

  lemma {:induction false} ChildCollected<T>(overlaps: seq<Overlap>, marks: map<seq<Bit>, T>, below: seq<Bit>, depth: nat,
      deeper: seq<seq<Bit>>)
    requires Found(marks, below, 2, deeper) && |below| == depth + 1
    ensures overlaps + (if below in marks then [Overlap(false, depth + 1)] else []) + ReportsOf(depth + 1, deeper)
         == overlaps + ReportsOf(depth, WithChild(marks, below, deeper))
    ensures FoundThrough(marks, below, WithChild(marks, below, deeper))
  {
    ChildReports(overlaps, marks, below, deeper);
    ChildFound(marks, below, deeper);
  }

  lemma {:induction false} FoundNextChild<T>(marks: map<seq<Bit>, T>, path: seq<Bit>, b: Bit, before: seq<seq<Bit>>,
      through: seq<seq<Bit>>)
    requires Found(marks, path, b, before) && FoundThrough(marks, Child(path, b), through)
    ensures Found(marks, path, b + 1, before + through)
  {
    forall q ensures q in before + through <==> q in marks && ProperPrefix(path, q) && q[|path|] < b + 1 {
      ThroughChild(path, b, q);
      assert q in before + through <==> q in before || q in through;
    }
    forall i | 0 <= i < |before| ensures before[i] !in through {
      assert before[i] in before;
      ThroughChild(path, b, before[i]);
    }
  }

  lemma {:induction false} AncestorReports<T>(marks: map<seq<Bit>, T>, path: seq<Bit>, depth: nat)
    requires depth < |path|
    ensures ReportsOf(|path|, Ancestors(marks, path, depth + 1))
         == ReportsOf(|path|, Ancestors(marks, path, depth)) + if path[..depth] in marks then [Overlap(true, depth)] else []
  {
    var before := Ancestors(marks, path, depth);
    assert (before + [path[..depth]])[..|before|] == before;
    assert before + [] == before;
  }

  /** Ancestors from the walk and descendants from the sweep are together the table's overlaps. */
  lemma {:induction false} NestedReports<T>(table: seq<Prefix<T>>, marks: map<seq<Bit>, T>, p: Prefix<T>, width: nat,
      overlaps: seq<Overlap>, found: seq<seq<Bit>>)
    requires WellFormed(table, width) && p.len <= width && marks == Marks(table, width)
    requires Found(marks, Key(p, width), 2, found)
    requires overlaps == ReportsOf(p.len, Ancestors(marks, Key(p, width), p.len)) + ReportsOf(p.len, found)
    requires Key(p, width) !in marks
    ensures multiset(overlaps) == multiset(Reports(table, p, width))
    ensures WellFormed(table + [p], width) && Marks(table + [p], width) == marks[Key(p, width) := p.entry]
  {
    var path := Key(p, width);
    var above := Ancestors(marks, path, p.len);
    AncestorsExact(marks, path, p.len);
    ReportsOfAppend(p.len, above, found);
    var paths := above + found;
    forall q ensures q in paths <==> q in marks && (ProperPrefix(q, path) || ProperPrefix(path, q)) {
      assert q in paths <==> q in above || q in found;
    }
    forall i | 0 <= i < |above| ensures above[i] !in found {
      assert above[i] in above;
    }
    ReportsExact(table, p, width, paths);
    MarksAppend(table, p, width);
    WellFormedAppend(table, p, width);
  }

  /** `best` is the longest marked path of the address among lengths up to `depth`. */
  ghost predicate LongestUpTo<T>(marks: map<seq<Bit>, T>, addr: nat, depth: nat, width: nat, best: Option<(T, nat)>)
    requires depth <= width
  {
    && (best.Some? ==>
          && best.value.1 <= depth
          && Path(addr, best.value.1, width) in marks
          && marks[Path(addr, best.value.1, width)] == best.value.0)
    && forall l :: (if best.Some? then best.value.1 + 1 else 0) <= l <= depth ==> Path(addr, l, width) !in marks
  }

  class PrefixTrie<T> {
    const maxBits: nat
    const root: Node<T>

    /** The node at each bit path of the trie. */
    ghost var nodes: map<seq<Bit>, Node<T>>
    /** The trie's nodes, for framing. */
    ghost var repr: set<Node<T>>
    /** The entry registered at each marked path. */
    ghost var marks: map<seq<Bit>, T>
    /** The prefixes accepted so far, in insertion order. */
    ghost var accepted: seq<Prefix<T>>

    /** The shape: `nodes` lists exactly the nodes reachable from the root, each once. */
    ghost predicate Shape()
      reads this, repr
    {
      && [] in nodes && nodes[[]] == root
      && (forall p :: p in nodes ==> nodes[p] in repr && |p| <= maxBits && |nodes[p].children| == 2)
      && (forall p, b: Bit :: p in nodes && nodes[p].children[b] != null ==>
            Child(p, b) in nodes && nodes[p].children[b] == nodes[Child(p, b)])
      && (forall p, b: Bit {:trigger Child(p, b)} :: Child(p, b) in nodes ==> p in nodes && nodes[p].children[b] != null)
      && (forall p, q :: p in nodes && q in nodes && p != q ==> nodes[p] != nodes[q])
    }

    /** The entries: a node carries one exactly when its path is marked. */
    ghost predicate Core()
      reads this, repr
    {
      && Shape()
      && marks.Keys <= nodes.Keys
      && forall p :: p in nodes ==> nodes[p].entry == if p in marks then Some(marks[p]) else None
    }

    ghost predicate Valid()
      reads this, repr
    {
      && Core()
      && WellFormed(accepted, maxBits)
      && marks == Marks(accepted, maxBits)
    }

    constructor (maxBits: nat)
      ensures Valid() && this.maxBits == maxBits && accepted == []
      ensures fresh(repr)
    {
      this.maxBits := maxBits;
      var node := new Node();
      root := node;
      nodes, repr := map[[] := node], {node};
      marks, accepted := map[], [];
    }

    lemma {:induction false} PathsClosed(path: seq<Bit>, k: nat)
      requires Shape() && path in nodes && k <= |path|
      ensures path[..k] in nodes
      decreases |path|
    {
      if k < |path| {
        var init := path[..|path| - 1];
        assert path == Child(init, path[|path| - 1]);
        PathsClosed(init, k);
        assert init[..k] == path[..k];
      } else {
        assert path[..k] == path;
      }
    }

    /** Hangs a new empty node below `node`. */
    method Attach(node: Node<T>, bit: Bit, ghost path: seq<Bit>) returns (created: Node<T>)
      requires Shape() && path in nodes && nodes[path] == node && |path| < maxBits && node.children[bit] == null
      modifies this`nodes, this`repr, node`children
      ensures Shape()
      ensures Child(path, bit) !in old(nodes) && nodes == old(nodes)[Child(path, bit) := created]
      ensures created.entry == None && fresh(created) && repr == old(repr) + {created}
    {
      created := new Node();
      ghost var below := Child(path, bit);
      assert below !in nodes;
      node.children := node.children[bit := created];
      nodes, repr := nodes[below := created], repr + {created};
      forall p, b: Bit | p in nodes && nodes[p].children[b] != null
        ensures Child(p, b) in nodes && nodes[p].children[b] == nodes[Child(p, b)]
      {
        if Child(p, b) == below { ChildInjective(p, b, path, bit); }
        assert p != below;
        assert (p == path && b == bit) || old(nodes[p].children[b]) == nodes[p].children[b];
      }
      forall p, b: Bit | Child(p, b) in nodes ensures p in nodes && nodes[p].children[b] != null {
        if Child(p, b) == below { ChildInjective(p, b, path, bit); }
      }
    }

    /** One step of the insertion walk: the child of `node` for `bit`, created when missing. */
    method ChildOrNew(node: Node<T>, bit: Bit, ghost path: seq<Bit>) returns (next: Node<T>)
      requires Core() && path in nodes && nodes[path] == node && |path| < maxBits
      modifies this`nodes, this`repr, node`children
      ensures Core()
      ensures Child(path, bit) in nodes && nodes[Child(path, bit)] == next
      ensures forall p :: p in old(nodes) ==> p in nodes && nodes[p] == old(nodes[p])
      ensures fresh(repr - old(repr))
    {
      if node.children[bit] == null {
        next := Attach(node, bit, path);
      } else {
        next := node.children[bit];
      }
    }

    /** Appends one narrower overlap per marked path strictly below `path`, children in order.
        `found` lists those paths, each once. */
    method CollectDescendantLengths(node: Node<T>, depth: nat, overlaps: seq<Overlap>, ghost path: seq<Bit>)
      returns (all: seq<Overlap>, ghost found: seq<seq<Bit>>)
      requires Core() && path in nodes && nodes[path] == node && depth == |path|
      ensures all == overlaps + ReportsOf(depth, found)
      ensures Found(marks, path, 2, found)
      decreases maxBits - depth, 1
    {
      all, found := overlaps, [];
      for b := 0 to 2
        invariant all == overlaps + ReportsOf(depth, found)
        invariant Found(marks, path, b, found)
      {
        var child := node.children[b];
        if child != null {
          ghost var through;
          all, through := CollectChild(child, b, depth, all, path);
          AppendReports(overlaps, depth, found, through);
          FoundNextChild(marks, path, b, found, through);
          found := found + through;
        } else {
          NothingBelow(path, b, found);
        }
      }
    }

    method CollectChild(child: Node<T>, ghost b: Bit, depth: nat, overlaps: seq<Overlap>, ghost path: seq<Bit>)
      returns (all: seq<Overlap>, ghost found: seq<seq<Bit>>)
      requires Core() && path in nodes && depth == |path| && nodes[path].children[b] == child
      ensures all == overlaps + ReportsOf(depth, found)
      ensures FoundThrough(marks, Child(path, b), found)
      decreases maxBits - depth, 0
    {
      ghost var below := Child(path, b);
      ChildAt(child, b, path);
      all := overlaps;
      if child.entry.Some? {
        all := all + [Overlap(false, depth + 1)];
      }
      assert all == overlaps + if below in marks then [Overlap(false, depth + 1)] else [];
      ghost var deeper;
      all, deeper := CollectDescendantLengths(child, depth + 1, all, below);
      found := WithChild(marks, below, deeper);
      ChildCollected(overlaps, marks, below, depth, deeper);
    }

    lemma {:induction false} ChildAt(child: Node<T>, b: Bit, path: seq<Bit>)
      requires Core() && path in nodes && nodes[path].children[b] == child
      ensures var below := Child(path, b);
              below in nodes && nodes[below] == child && |below| == |path| + 1 <= maxBits && (child.entry.Some? <==> below in marks)
    {
    }

    lemma {:induction false} NothingBelow(path: seq<Bit>, b: Bit, found: seq<seq<Bit>>)
      requires Core() && path in nodes && nodes[path].children[b] == null
      requires Found(marks, path, b, found)
      ensures Found(marks, path, b + 1, found)
    {
      forall q | q in marks && ProperPrefix(path, q) ensures q[|path|] != b {
        PathsClosed(q, |path| + 1);
        assert q[..|path| + 1] == Child(path, q[|path|]);
      }
    }

    lemma {:induction false} ChildOnPath(addr: nat, depth: nat, len: nat)
      requires Shape() && depth < len <= maxBits && Path(addr, len, maxBits) in nodes
      ensures Path(addr, depth, maxBits) in nodes
      ensures nodes[Path(addr, depth, maxBits)].children[BitAt(addr, depth, maxBits)] != null
    {
      PathsClosed(Path(addr, len, maxBits), depth + 1);
      PathPrefix(addr, depth + 1, len, maxBits);
      PathExtends(addr, depth, maxBits);
      assert Child(Path(addr, depth, maxBits), BitAt(addr, depth, maxBits)) in nodes;
    }

    lemma {:induction false} DeadEnd(addr: nat, depth: nat, best: Option<(T, nat)>)
      requires Core() && depth < maxBits
      requires Path(addr, depth, maxBits) in nodes
      requires nodes[Path(addr, depth, maxBits)].children[BitAt(addr, depth, maxBits)] == null
      requires LongestUpTo(marks, addr, depth, maxBits, best)
      ensures LongestUpTo(marks, addr, maxBits, maxBits, best)
    {
      forall l | depth < l <= maxBits ensures Path(addr, l, maxBits) !in marks {
        if Path(addr, l, maxBits) in marks { ChildOnPath(addr, depth, l); }
      }
    }

    /** Longest-prefix match: the trie answers what a linear scan of the accepted prefixes would. */
    method Lookup(addr: nat) returns (best: Option<(T, nat)>)
      requires Valid()
      ensures IsBestMatch(accepted, maxBits, addr, best)
    {
      best := LongestMark(addr);
      LongestMarkIsBest(accepted, maxBits, addr, best);
    }

    method LongestMark(addr: nat) returns (best: Option<(T, nat)>)
      requires Core()
      ensures LongestUpTo(marks, addr, maxBits, maxBits, best)
    {
      var node := root;
      best := None;
      if node.entry.Some? {
        best := Some((node.entry.value, 0));
      }
      assert Path(addr, 0, maxBits) == [];
      for depth := 0 to maxBits
        invariant Path(addr, depth, maxBits) in nodes && nodes[Path(addr, depth, maxBits)] == node
        invariant LongestUpTo(marks, addr, depth, maxBits, best)
      {
        var bit := BitAt(addr, depth, maxBits);
        var child := node.children[bit];
        if child == null {
          DeadEnd(addr, depth, best);
          return;
        }
        PathExtends(addr, depth, maxBits);
        assert Path(addr, depth + 1, maxBits) == Child(Path(addr, depth, maxBits), bit);
        node := child;
        if node.entry.Some? {
          best := Some((node.entry.value, depth + 1));
        }
      }
    }

    /** Walks to the node of a prefix, creating missing nodes and collecting broader overlaps. */
    method Walk(addr: nat, len: nat) returns (node: Node<T>, overlaps: seq<Overlap>)
      requires Core() && len <= maxBits
      modifies this`nodes, this`repr, repr
      ensures Core() && fresh(repr - old(repr))
      ensures Path(addr, len, maxBits) in nodes && nodes[Path(addr, len, maxBits)] == node
      ensures overlaps == ReportsOf(len, Ancestors(marks, Path(addr, len, maxBits), len))
    {
      node, overlaps := root, [];
      assert Path(addr, 0, maxBits) == [];
      for depth := 0 to len
        invariant Core() && fresh(repr - old(repr))
        invariant Path(addr, depth, maxBits) in nodes && nodes[Path(addr, depth, maxBits)] == node
        invariant overlaps == ReportsOf(len, Ancestors(marks, Path(addr, len, maxBits), depth))
      {
        node, overlaps := WalkStep(node, addr, depth, len, overlaps);
      }
    }

    method WalkStep(node: Node<T>, addr: nat, depth: nat, len: nat, overlaps: seq<Overlap>)
      returns (next: Node<T>, overlaps': seq<Overlap>)
      requires Core() && depth < len <= maxBits
      requires Path(addr, depth, maxBits) in nodes && nodes[Path(addr, depth, maxBits)] == node
      requires overlaps == ReportsOf(len, Ancestors(marks, Path(addr, len, maxBits), depth))
      modifies this`nodes, this`repr, node`children
      ensures Core() && fresh(repr - old(repr))
      ensures Path(addr, depth + 1, maxBits) in nodes && nodes[Path(addr, depth + 1, maxBits)] == next
      ensures overlaps' == ReportsOf(len, Ancestors(marks, Path(addr, len, maxBits), depth + 1))
    {
      overlaps' := overlaps;
      if node.entry.Some? {
        overlaps' := overlaps' + [Overlap(true, depth)];
      }
      PathPrefix(addr, depth, len, maxBits);
      AncestorReports(marks, Path(addr, len, maxBits), depth);
      PathExtends(addr, depth, maxBits);
      next := ChildOrNew(node, BitAt(addr, depth, maxBits), Path(addr, depth, maxBits));
    }

    method SetEntry(node: Node<T>, entry: T, ghost path: seq<Bit>)
      requires Core() && path in nodes && nodes[path] == node
      modifies node`entry, this`marks
      ensures Core() && marks == old(marks)[path := entry]
    {
      node.entry := Some(entry);
      marks := marks[path := entry];
    }

    /** Insertion by path: refused exactly when the path is already marked. */
    method InsertPath(addr: nat, len: nat, entry: T) returns (duplicate: bool, overlaps: seq<Overlap>, ghost found: seq<seq<Bit>>)
      requires Core() && len <= maxBits
      modifies this`nodes, this`repr, this`marks, repr
      ensures Core() && fresh(repr - old(repr))
      ensures var path := Path(addr, len, maxBits);
              && (duplicate <==> path in old(marks))
              && marks == (if duplicate then old(marks) else old(marks)[path := entry])
              && (!duplicate ==>
                    && Found(old(marks), path, 2, found)
                    && overlaps == ReportsOf(len, Ancestors(old(marks), path, len)) + ReportsOf(len, found))
    {
      var node;
      node, overlaps := Walk(addr, len);
      duplicate, found := node.entry.Some?, [];
      if !duplicate {
        overlaps, found := CollectDescendantLengths(node, len, overlaps, Path(addr, len, maxBits));
        SetEntry(node, entry, Path(addr, len, maxBits));
      }
    }

    /** Inserts a prefix. Only a prefix that is too long or already present is refused, and a
        refusal changes no later answer; otherwise the overlaps are exactly the accepted prefixes
        strictly nested with the new one, each reported once with its own length. */
    method Insert(addr: nat, len: nat, entry: T) returns (r: InsertResult)
      requires Valid()
      modifies this`nodes, this`repr, this`marks, this`accepted, repr
      ensures Valid() && fresh(repr - old(repr))
      ensures r.PrefixTooLong? <==> len > maxBits
      ensures r.PrefixTooLong? ==> r == PrefixTooLong(len, maxBits)
      ensures r.DuplicatePrefix? <==>
                len <= maxBits && Registered(old(accepted), Prefix(addr, len, entry), maxBits)
      ensures !r.Inserted? ==> accepted == old(accepted)
      ensures r.Inserted? ==> accepted == old(accepted) + [Prefix(addr, len, entry)]
      ensures r.Inserted? ==> multiset(r.overlaps) == multiset(Reports(old(accepted), Prefix(addr, len, entry), maxBits))
    {
      if len > maxBits {
        return PrefixTooLong(len, maxBits);
      }
      ghost var p, before := Prefix(addr, len, entry), marks;
      DuplicateIsMarked(accepted, p, maxBits);
      var duplicate, overlaps, found := InsertPath(addr, len, entry);
      if duplicate {
        r := DuplicatePrefix;
      } else {
        NestedReports(accepted, before, p, maxBits, overlaps, found);
        Accept(p);
        r := Inserted(overlaps);
      }
    }

    ghost method Accept(p: Prefix<T>)
      requires Core() && p.len <= maxBits
      requires WellFormed(accepted + [p], maxBits) && marks == Marks(accepted + [p], maxBits)
      modifies this`accepted
      ensures Valid() && accepted == old(accepted) + [p]
    {
      accepted := accepted + [p];
    }
  }
}
