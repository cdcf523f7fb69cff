/** The networks datagrams are accepted from. */
module Allowlist {
  import opened Wrappers
  import opened Bits
  import opened Net

  /** `IpAddr::to_canonical`: an IPv4-mapped IPv6 address (::ffff:0:0/96) is its IPv4 address. */
  function ToCanonical(addr: IpAddr): (r: IpAddr)
    ensures r.V6? ==> r == addr && r.v6 / 0x1_0000_0000 != 0xFFFF
    ensures r.V4? ==> addr == r || addr == Mapped(r.v4)
  {
    match addr
    case V4(_) => addr
    case V6(v6) => if v6 / 0x1_0000_0000 == 0xFFFF then V4(v6 % 0x1_0000_0000) else addr
  }

  /** The IPv4-mapped form of an IPv4 address. */
  function Mapped(v4: U32): IpAddr {
    V6(0xFFFF_0000_0000 + v4)
  }

  function MaskOf(addr: IpAddr, length: nat): IpAddr
    requires length <= addr.Width()
  {
    MaskFits(addr, length);
    match addr
    case V4(v4) => V4(Mask(v4, length, 32))
    case V6(v6) => V6(Mask(v6, length, 128))
  }

  lemma {:induction false} MaskFits(addr: IpAddr, length: nat)
    requires length <= addr.Width()
    ensures Mask(addr.Value(), length, addr.Width()) <= addr.Value()
  {
    ValueInWidth(addr);
    MaskQuotient(addr.Value(), length, addr.Width());
  }

  /** The address divided by the size of a network of this length. */
  function Quotient(addr: IpAddr, length: nat): int
    requires length <= addr.Width()
  {
    addr.Value() / Pow2(addr.Width() - length)
  }

  datatype Network = Network(network: IpAddr, length: U8) {
    /** Not IPv4-mapped, a length of the family, and no bit set below it. */
    predicate Canonical() {
      && network == ToCanonical(network) && length <= network.Width()
      && network.Value() % Pow2(network.Width() - length) == 0
    }
  }

  type AllowedNetwork = n: Network | n.Canonical() witness Network(V4(0), 0)

  lemma {:induction false} MaskedIsMultiple(addr: IpAddr, length: nat)
    requires length <= addr.Width()
    ensures MaskOf(addr, length) == addr <==> addr.Value() % Pow2(addr.Width() - length) == 0
  {
    ValueInWidth(addr);
    MaskQuotient(addr.Value(), length, addr.Width());
    FloorIsWhole(addr.Value(), Pow2(addr.Width() - length));
  }

  lemma {:induction false} FloorIsWhole(a: nat, n: nat)
    requires n > 0
    ensures a / n * n == a <==> a % n == 0
  {
    assert a == a / n * n + a % n;
  }

  /** `AllowedNetwork::new`: accepted exactly when its canonical form is a network. */
  function NewNetwork(network: IpAddr, length: U8): (r: Option<AllowedNetwork>)
    ensures r.Some? <==> Network(ToCanonical(network), length).Canonical()
    ensures r.Some? ==> r.value == Network(ToCanonical(network), length)
  {
    var c := ToCanonical(network);
    if length > (if c.V4? then 32 else 128) then None
    else
      MaskedIsMultiple(c, length);
      if MaskOf(c, length) != c then None else Some(Network(c, length))
  }

  /** `AllowedNetwork::contains`: the addresses that share the network's quotient. */
  predicate Contains(n: AllowedNetwork, addr: IpAddr)
    ensures Contains(n, addr) <==>
            var c := ToCanonical(addr); SameFamily(c, n.network) && Quotient(c, n.length) == Quotient(n.network, n.length)
  {
    var c := ToCanonical(addr);
    c.V4? == n.network.V4? && (CoverageOf(c, n); MaskOf(c, n.length) == n.network)
  }

  lemma {:induction false} CoverageOf(c: IpAddr, n: AllowedNetwork)
    requires SameFamily(c, n.network)
    ensures MaskOf(c, n.length) == n.network <==> Quotient(c, n.length) == Quotient(n.network, n.length)
  {
    ValueInWidth(c);
    ValueInWidth(n.network);
    MaskedIsMultiple(n.network, n.length);
    CoverageAgrees(c.Value(), n.network.Value(), n.length, c.Width());
  }

  /** A sender on a dual-stack socket is judged like the same sender over IPv4. */
  lemma {:induction false} MappedAlike(n: AllowedNetwork, v4: U32)
    ensures Contains(n, Mapped(v4)) == Contains(n, V4(v4))
  {
    assert (0xFFFF_0000_0000 + v4) / 0x1_0000_0000 == 0xFFFF;
  }

  /** `ExporterRegistry::permits`. An empty list permits every source. */
  predicate Permits(allowed: seq<AllowedNetwork>, addr: IpAddr) {
    allowed == [] || exists i :: 0 <= i < |allowed| && Contains(allowed[i], addr)
  }
}
