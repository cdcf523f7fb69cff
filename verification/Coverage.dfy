/** How the trie, the aggregator and the allowlist see which addresses a network covers: the
    first two on the address as it is, the last on its canonical form. */
module Coverage {
  import opened Bits
  import opened Net
  import opened Allowlist
  import Aggregator

  /** The trie's notion: the same path for the length of the network. */
  ghost predicate SamePath(n: AllowedNetwork, addr: IpAddr)
    requires SameFamily(addr, n.network)
  {
    Path(addr.Value(), n.length, addr.Width()) == Path(n.network.Value(), n.length, addr.Width())
  }

  /** Trie paths, aggregator masks and quotients agree on every address of the family. */
  lemma {:induction false} PathsMasksQuotients(n: AllowedNetwork, addr: IpAddr)
    requires SameFamily(addr, n.network)
    ensures SamePath(n, addr) <==> Quotient(addr, n.length) == Quotient(n.network, n.length)
    ensures SamePath(n, addr) <==> Aggregator.MaskAddr(addr, n.length) == Aggregator.MaskAddr(n.network, n.length)
    ensures SamePath(n, addr) <==> Aggregator.MaskAddr(addr, n.length) == n.network
  {
    ValueInWidth(addr);
    ValueInWidth(n.network);
    MaskedIsMultiple(n.network, n.length);
    CoverageAgrees(addr.Value(), n.network.Value(), n.length, addr.Width());
  }

  /** Within the family, an allowed network contains exactly the addresses that share its path, or
      its mask, and are not the IPv4-mapped form of another address. */
  lemma {:induction false} OneCoverage(n: AllowedNetwork, addr: IpAddr)
    requires SameFamily(addr, n.network)
    ensures Contains(n, addr) <==> addr == ToCanonical(addr) && SamePath(n, addr)
    ensures Contains(n, addr) <==>
            addr == ToCanonical(addr) && Aggregator.MaskAddr(addr, n.length) == Aggregator.MaskAddr(n.network, n.length)
    ensures Contains(n, addr) <==> addr == ToCanonical(addr) && Aggregator.MaskAddr(addr, n.length) == n.network
  {
    PathsMasksQuotients(n, addr);
  }

  /** Across families: an IPv4 network contains exactly the mapped forms of the addresses on its
      path, and an IPv6 network contains no IPv4 address. */
  lemma {:induction false} CoverageAcross(n: AllowedNetwork, addr: IpAddr)
    requires !SameFamily(addr, n.network)
    ensures Contains(n, addr) <==> n.network.V4? && ToCanonical(addr).V4? && SamePath(n, ToCanonical(addr))
    ensures ToCanonical(addr).V4? && addr.V6? ==> addr == Mapped(ToCanonical(addr).v4)
  {
    if SameFamily(ToCanonical(addr), n.network) {
      PathsMasksQuotients(n, ToCanonical(addr));
    }
  }

  /** The default IPv6 route is on the path of every IPv6 address, and contains no mapped one. */
  lemma {:induction false} MappedLeftOut(v4: U32)
    ensures var n: AllowedNetwork := Network(V6(0), 0);
            SamePath(n, Mapped(v4)) && Aggregator.MaskAddr(Mapped(v4), 0) == n.network && !Contains(n, Mapped(v4))
  {
    var n: AllowedNetwork := Network(V6(0), 0);
    PathsMasksQuotients(n, Mapped(v4));
    MappedIsNotCanonical(v4);
    WholeFamily(Mapped(v4));
    WholeFamily(V6(0));
  }

  lemma {:induction false} WholeFamily(addr: IpAddr)
    ensures Quotient(addr, 0) == 0
  {
    ValueInWidth(addr);
    DivMod(addr.Value(), Pow2(addr.Width()), 0, addr.Value());
  }

  lemma {:induction false} MappedIsNotCanonical(v4: U32)
    ensures ToCanonical(Mapped(v4)) == V4(v4)
  {
    assert (0xFFFF_0000_0000 + v4) / 0x1_0000_0000 == 0xFFFF;
  }

  // ---- Where the allowlist and the trie agree ----

  lemma {:induction false} DivNested(a: nat, m: nat, k: nat)
    requires m > 0 && k > 0
    ensures k * m > 0 && a / (k * m) == a / m / k
  {
    MulMono(1, k, m);
    SplitQuotient(a / m, m, k);
    DivNestAt(a, m, k * m, a / m / k, a / m % k * m);
  }

  lemma {:induction false} QuotientOfQuotient(a: nat, shift: nat, more: nat)
    ensures a / Pow2(more + shift) == a / Pow2(shift) / Pow2(more)
  {
    Pow2Add(more, shift);
    DivNested(a, Pow2(shift), Pow2(more));
  }

  /** Down to /96 the mapped addresses share one quotient; beyond it, sharing the quotient of a
      mapped address makes a network mapped itself. */
  lemma {:induction false} MappedQuotients(n: AllowedNetwork, v4: U32)
    requires n.network.V6?
    ensures n.length <= 96 ==> Quotient(Mapped(v4), n.length) == Quotient(Mapped(0), n.length)
    ensures n.length > 96 ==> Quotient(Mapped(v4), n.length) != Quotient(n.network, n.length)
  {
    Pow2Of32();
    var a := Mapped(v4).Value();
    assert a / 0x1_0000_0000 == 0xFFFF == Mapped(0).Value() / 0x1_0000_0000;
    if n.length <= 96 {
      QuotientOfQuotient(a, 32, 96 - n.length);
      QuotientOfQuotient(Mapped(0).Value(), 32, 96 - n.length);
    } else {
      QuotientOfQuotient(a, 128 - n.length, n.length - 96);
      QuotientOfQuotient(n.network.Value(), 128 - n.length, n.length - 96);
    }
  }

  ghost predicate AgreesWithTrie(n: AllowedNetwork) {
    forall addr: IpAddr :: SameFamily(addr, n.network) ==> (Contains(n, addr) <==> SamePath(n, addr))
  }

  /** An allowed network and the trie agree on all addresses of the family exactly when the network
      is IPv4 or does not cover ::ffff:0:0. */
  lemma {:induction false} AgreesExactly(n: AllowedNetwork)
    ensures AgreesWithTrie(n) <==> n.network.V4? || Quotient(n.network, n.length) != Quotient(Mapped(0), n.length)
  {
    if n.network.V6? && Quotient(n.network, n.length) == Quotient(Mapped(0), n.length) {
      OneCoverage(n, Mapped(0));
      PathsMasksQuotients(n, Mapped(0));
      MappedIsNotCanonical(0);
    } else {
      forall addr: IpAddr | SameFamily(addr, n.network) ensures Contains(n, addr) <==> SamePath(n, addr) {
        OneCoverage(n, addr);
        PathsMasksQuotients(n, addr);
        if addr != ToCanonical(addr) { MappedQuotients(n, ToCanonical(addr).v4); }
      }
    }
  }

  /** Masking is idempotent, and masking twice is masking to the shorter of the lengths the masks work at. */
  lemma {:induction false} MaskTwice(addr: IpAddr, first: U8, second: U8)
    ensures var a, b := Aggregator.MaskLength(first, addr.Width()), Aggregator.MaskLength(second, addr.Width());
            Aggregator.MaskAddr(Aggregator.MaskAddr(addr, first), second) == Aggregator.MaskAddr(addr, if a <= b then a else b)
  {
    ValueInWidth(addr);
    MasksCompose(addr.Value(), Aggregator.MaskLength(first, addr.Width()), Aggregator.MaskLength(second, addr.Width()), addr.Width());
  }
}
