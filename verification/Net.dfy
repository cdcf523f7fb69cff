/** Machine words, and addresses of both families. */
module Net {
  import opened Bits

  type U8 = x: int | 0 <= x < 0x100
  type U16 = x: int | 0 <= x < 0x1_0000
  type U32 = x: int | 0 <= x < 0x1_0000_0000
  type U64 = x: int | 0 <= x < 0x1_0000_0000_0000_0000
  type U128 = x: int | 0 <= x < 0x1_0000_0000_0000_0000_0000_0000_0000_0000

  const U64_MAX: nat := 0xFFFF_FFFF_FFFF_FFFF

  /** Saturation at the largest 64-bit value. */
  function Sat(x: nat): U64 {
    if x <= U64_MAX then x else U64_MAX
  }

  datatype IpAddr = V4(v4: U32) | V6(v6: U128) {
    function Width(): nat {
      if V4? then 32 else 128
    }

    function Value(): nat {
      if V4? then v4 else v6
    }
  }

  predicate SameFamily(a: IpAddr, b: IpAddr) {
    a.V4? == b.V4?
  }

  lemma {:induction false} Pow2Of32()
    ensures Pow2(32) == 0x1_0000_0000
  {
    assert Pow2(4) == 16;
    Pow2Add(4, 4);
    Pow2Add(8, 8);
    Pow2Add(16, 16);
  }

  lemma {:induction false} Pow2Of128()
    ensures Pow2(128) == 0x1_0000_0000_0000_0000_0000_0000_0000_0000
  {
    Pow2Of32();
    Pow2Add(32, 32);
    Pow2Add(64, 64);
  }

  lemma {:induction false} ValueInWidth(a: IpAddr)
    ensures a.Value() < Pow2(a.Width())
  {
    Pow2Of32();
    Pow2Of128();
  }
}
