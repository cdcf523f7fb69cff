/** Address bits as the three users of prefixes see them: the trie's bit
    paths, the aggregator's and exporter registry's masks, and the plain
    quotient of an address by a power of two. */
module Bits {

  type Bit = b: nat | b < 2

  function Pow2(n: nat): (r: nat)
    ensures r > 0
  {
    if n == 0 then 1 else 2 * Pow2(n - 1)
  }

  /** The bit the trie branches on at `depth`, most significant first. */
  function BitAt(addr: nat, depth: nat, width: nat): Bit
    requires depth < width
  {
    addr / Pow2(width - 1 - depth) % 2
  }

  /** The trie path of the top `len` bits of an address. */
  function Path(addr: nat, len: nat, width: nat): (p: seq<Bit>)
    requires len <= width
    ensures |p| == len
  {
    seq(len, d requires 0 <= d < len => BitAt(addr, d, width))
  }

  /** The top `len` bits of the low `width` bits of an address, as a number. */
  function TopBits(addr: nat, len: nat, width: nat): nat
    requires len <= width
  {
    addr / Pow2(width - len) % Pow2(len)
  }

  // ---- Arithmetic of powers of two ----

  lemma {:induction false} MulMono(a: int, b: int, n: nat)
    requires a <= b
    ensures a * n <= b * n
  {
    assert (b - a) * n >= 0;
  }

  lemma {:induction false} DivMod(x: nat, n: nat, q: nat, r: nat)
    requires n > 0 && x == q * n + r && r < n
    ensures x / n == q && x % n == r
  {
    var q', r' := x / n, x % n;
    assert x == q' * n + r';
    if q' > q {
      MulMono(q + 1, q', n);
    } else if q' < q {
      MulMono(q' + 1, q, n);
    }
  }

  lemma {:induction false} MulAssoc(a: nat, b: nat, c: nat)
    ensures a * b * c == a * (b * c)
  {
  }

  lemma {:induction false} DivTwice(a: nat, n: nat)
    requires n > 0
    ensures a / (2 * n) == a / n / 2
  {
    var q, r := a / n, a % n;
    DivMod(a, 2 * n, q / 2, q % 2 * n + r);
  }

  lemma {:induction false} ModTwice(x: nat, n: nat)
    requires n > 0
    ensures x % (2 * n) == 2 * (x / 2 % n) + x % 2
  {
    var h := x / 2;
    assert h == h / n * n + h % n;
    DivMod(x, 2 * n, h / n, 2 * (h % n) + x % 2);
  }

  lemma {:induction false} Pow2Add(a: nat, b: nat)
    ensures Pow2(a + b) == Pow2(a) * Pow2(b)
  {
    if a > 0 {
      Pow2Add(a - 1, b);
      MulAssoc(2, Pow2(a - 1), Pow2(b));
    }
  }

  // ---- Paths and quotients ----

  lemma {:induction false} TopBitsStep(addr: nat, len: nat, width: nat)
    requires len < width
    ensures TopBits(addr, len + 1, width) == 2 * TopBits(addr, len, width) + BitAt(addr, len, width)
  {
    var n := Pow2(width - len - 1);
    assert Pow2(width - len) == 2 * n;
    DivTwice(addr, n);
    ModTwice(addr / n, Pow2(len));
  }

  lemma {:induction false} PathExtends(addr: nat, len: nat, width: nat)
    requires len < width
    ensures Path(addr, len + 1, width) == Path(addr, len, width) + [BitAt(addr, len, width)]
  {
  }

  lemma {:induction false} PathPrefix(addr: nat, shorter: nat, len: nat, width: nat)
    requires shorter <= len <= width
    ensures Path(addr, len, width)[..shorter] == Path(addr, shorter, width)
  {
  }

  /** Two addresses follow the same trie path exactly when their top bits are the same number. */
  lemma {:induction false} SamePathSameTop(a: nat, b: nat, len: nat, width: nat)
    requires len <= width
    ensures Path(a, len, width) == Path(b, len, width) <==> TopBits(a, len, width) == TopBits(b, len, width)
  {
    if len == 0 {
      assert Path(a, 0, width) == Path(b, 0, width);
    } else {
      SamePathSameTop(a, b, len - 1, width);
      PathExtends(a, len - 1, width);
      PathExtends(b, len - 1, width);
      TopBitsStep(a, len - 1, width);
      TopBitsStep(b, len - 1, width);
      var pa, pb := Path(a, len, width), Path(b, len, width);
      assert pa == pb ==> pa[..len - 1] == pb[..len - 1] && pa[len - 1] == pb[len - 1];
    }
  }

  /** Within the family's width the top bits are the plain quotient. */
  lemma {:induction false} TopBitsQuotient(addr: nat, len: nat, width: nat)
    requires len <= width && addr < Pow2(width)
    ensures TopBits(addr, len, width) == addr / Pow2(width - len)
  {
    Pow2Add(len, width - len);
    QuotientBelow(addr, Pow2(len), Pow2(width - len));
    DivMod(addr / Pow2(width - len), Pow2(len), 0, addr / Pow2(width - len));
  }

  lemma {:induction false} QuotientBelow(a: nat, p: nat, n: nat)
    requires n > 0 && a < p * n
    ensures a / n < p
  {
    if p <= a / n { MulMono(p, a / n, n); }
  }

  // ---- Masks ----

  /** Bitwise and of two unsigned words. */
  function And(a: nat, b: nat): nat
    decreases a
  {
    if a == 0 then 0 else a % 2 * (b % 2) + 2 * And(a / 2, b / 2)
  }

  /** All ones shifted left within the word, or zero when the shift is the whole width
      (`checked_shl` with `unwrap_or(0)`). */
  function OnesShifted(shift: nat, width: nat): nat {
    if shift >= width then 0 else (Pow2(width) - 1) * Pow2(shift) % Pow2(width)
  }

  /** `addr` with every bit below `len` cleared. */
  function Mask(addr: nat, len: nat, width: nat): nat
    requires len <= width
  {
    And(addr, OnesShifted(width - len, width))
  }

  lemma {:induction false} AndOnes(a: nat, width: nat)
    requires a < Pow2(width)
    ensures And(a, Pow2(width) - 1) == a
  {
    if a > 0 {
      assert width > 0;
      AndOnes(a / 2, width - 1);
      assert (Pow2(width) - 1) % 2 == 1 && (Pow2(width) - 1) / 2 == Pow2(width - 1) - 1;
    }
  }

  lemma {:induction false} AndHighOnes(a: nat, shift: nat, width: nat)
    requires shift <= width && a < Pow2(width)
    ensures Pow2(shift) <= Pow2(width)
    ensures And(a, Pow2(width) - Pow2(shift)) == a / Pow2(shift) * Pow2(shift)
    decreases shift
  {
    if shift == 0 {
      AndOnes(a, width);
    } else {
      AndHighOnes(a / 2, shift - 1, width - 1);
      var n, half := Pow2(shift - 1), Pow2(width - 1) - Pow2(shift - 1);
      AndDouble(a, half);
      DivHalf(a, n);
      MulAssoc(2, a / 2 / n, n);
      MulAssoc(a / 2 / n, 2, n);
    }
  }

  lemma {:induction false} AndDouble(a: nat, half: nat)
    ensures And(a, 2 * half) == 2 * And(a / 2, half)
  {
    assert 2 * half % 2 == 0 && 2 * half / 2 == half;
  }

  lemma {:induction false} DivHalf(a: nat, n: nat)
    requires n > 0
    ensures a / (2 * n) == a / 2 / n
  {
    var h := a / 2;
    DivMod(a, 2 * n, h / n, 2 * (h % n) + a % 2);
  }

  lemma {:induction false} OnesShiftedValue(shift: nat, width: nat)
    requires shift < width
    ensures Pow2(shift) <= Pow2(width)
    ensures OnesShifted(shift, width) == Pow2(width) - Pow2(shift)
  {
    var w, s := Pow2(width), Pow2(shift);
    Pow2Add(shift, width - shift);
    MulMono(1, Pow2(width - shift), s);
    TopOnes(w, s);
  }

  lemma {:induction false} TopOnes(w: nat, s: nat)
    requires 0 < s <= w
    ensures (w - 1) * s % w == w - s
  {
    assert (w - 1) * s == (s - 1) * w + (w - s);
    DivMod((w - 1) * s, w, s - 1, w - s);
  }

  lemma {:induction false} FloorBelow(a: nat, n: nat)
    requires n > 0
    ensures a / n * n <= a
  {
  }

  /** Masking keeps the quotient and clears the remainder. */
  lemma {:induction false} MaskQuotient(addr: nat, len: nat, width: nat)
    requires len <= width && addr < Pow2(width)
    ensures Mask(addr, len, width) == addr / Pow2(width - len) * Pow2(width - len)
    ensures Mask(addr, len, width) <= addr
  {
    var shift := width - len;
    if len == 0 {
      AndZero(addr);
      DivMod(addr, Pow2(width), 0, addr);
    } else {
      AndHighOnes(addr, shift, width);
      OnesShiftedValue(shift, width);
    }
    FloorBelow(addr, Pow2(shift));
  }

  lemma {:induction false} AndZero(a: nat)
    ensures And(a, 0) == 0
    decreases a
  {
    if a > 0 { AndZero(a / 2); }
  }

  /** One notion of coverage: equal trie paths, equal masks, equal quotients, and an address
      whose mask is a canonical network is exactly one that shares its quotient. */
  lemma {:induction false} CoverageAgrees(a: nat, b: nat, len: nat, width: nat)
    requires len <= width && a < Pow2(width) && b < Pow2(width)
    ensures Path(a, len, width) == Path(b, len, width) <==> a / Pow2(width - len) == b / Pow2(width - len)
    ensures Mask(a, len, width) == Mask(b, len, width) <==> a / Pow2(width - len) == b / Pow2(width - len)
    ensures Mask(b, len, width) == b ==>
              (Mask(a, len, width) == b <==> a / Pow2(width - len) == b / Pow2(width - len))
  {
    SamePathSameTop(a, b, len, width);
    TopBitsQuotient(a, len, width);
    TopBitsQuotient(b, len, width);
    MaskQuotient(a, len, width);
    MaskQuotient(b, len, width);
    var n, qa, qb := Pow2(width - len), a / Pow2(width - len), b / Pow2(width - len);
    if qa * n == qb * n {
      DivMod(qa * n, n, qa, 0);
      DivMod(qb * n, n, qb, 0);
    }
  }

  /** Masking twice is masking once to the shorter length; in particular masking is idempotent. */
  lemma {:induction false} MasksCompose(addr: nat, first: nat, second: nat, width: nat)
    requires first <= width && second <= width && addr < Pow2(width)
    ensures Mask(addr, first, width) < Pow2(width)
    ensures Mask(Mask(addr, first, width), second, width)
         == Mask(addr, if first <= second then first else second, width)
  {
    MaskQuotient(addr, first, width);
    MaskQuotient(addr, second, width);
    MaskQuotient(Mask(addr, first, width), second, width);
    if first <= second {
      Pow2Add(second - first, width - second);
      DivMultiple(addr / Pow2(width - first), Pow2(second - first), Pow2(width - second));
    } else {
      Pow2Add(first - second, width - first);
      DivNest(addr, Pow2(width - first), Pow2(first - second));
    }
  }

  lemma {:induction false} DivMultiple(q: nat, k: nat, n: nat)
    requires n > 0
    ensures q * (k * n) / n * n == q * (k * n)
  {
    MulAssoc(q, k, n);
    DivMod(q * (k * n), n, q * k, 0);
  }

  lemma {:induction false} DivNest(a: nat, m: nat, k: nat)
    requires m > 0 && k > 0
    ensures k * m > 0 && a / m * m / (k * m) == a / (k * m)
  {
    SplitQuotient(a / m, m, k);
    DivNestAt(a, m, k * m, a / m / k, a / m % k * m);
  }

  lemma {:induction false} DivNestAt(a: nat, m: nat, n: nat, h: nat, t: nat)
    requires m > 0 && n > 0 && a / m * m == h * n + t && t + m <= n
    ensures a / m * m / n == a / n == h
  {
    DivMod(a / m * m, n, h, t);
    DivMod(a, n, h, t + a % m);
  }

  lemma {:induction false} SplitQuotient(q: nat, m: nat, k: nat)
    requires m > 0 && k > 0
    ensures q * m == q / k * (k * m) + q % k * m
    ensures q % k * m + m <= k * m
  {
    var h, l := q / k, q % k;
    MulMono(l + 1, k, m);
    assert (l + 1) * m == l * m + m;
    MulAssoc(h, k, m);
    assert (h * k + l) * m == h * k * m + l * m;
  }
}
