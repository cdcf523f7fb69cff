/** Finite sums over sequences and sets, and multiples. */
module Sums {

  ghost function SumSeq<A>(w: A -> nat, xs: seq<A>): nat {
    if xs == [] then 0 else SumSeq(w, xs[..|xs| - 1]) + w(xs[|xs| - 1])
  }

  lemma {:induction false} SumSeqAppend<A>(w: A -> nat, xs: seq<A>, x: A)
    ensures SumSeq(w, xs + [x]) == SumSeq(w, xs) + w(x)
  {
    assert (xs + [x])[..|xs|] == xs;
  }

  lemma {:induction false} SumSeqConcat<A>(w: A -> nat, xs: seq<A>, ys: seq<A>)
    ensures SumSeq(w, xs + ys) == SumSeq(w, xs) + SumSeq(w, ys)
  {
    if ys == [] {
      assert xs + ys == xs;
    } else {
      var n := |ys| - 1;
      SumSeqConcat(w, xs, ys[..n]);
      assert xs + ys == xs + ys[..n] + [ys[n]];
      SumSeqAppend(w, xs + ys[..n], ys[n]);
    }
  }

  lemma {:induction false} SumSeqWithout<A>(w: A -> nat, xs: seq<A>, k: nat)
    requires k < |xs|
    ensures SumSeq(w, xs) == SumSeq(w, xs[..k] + xs[k + 1..]) + w(xs[k])
    decreases |xs|
  {
    var n := |xs| - 1;
    var rest := xs[..k] + xs[k + 1..];
    if k == n {
      assert rest == xs[..n];
    } else {
      SumSeqWithout(w, xs[..n], k);
      assert rest[..n - 1] == xs[..n][..k] + xs[..n][k + 1..] && rest[n - 1] == xs[n];
    }
  }

  lemma {:induction false} WithoutOne<A>(xs: seq<A>, ys: seq<A>, k: nat)
    requires multiset(xs) == multiset(ys) && xs != [] && k < |ys| && ys[k] == xs[|xs| - 1]
    ensures multiset(xs[..|xs| - 1]) == multiset(ys[..k] + ys[k + 1..])
  {
    var init, rest, x := xs[..|xs| - 1], ys[..k] + ys[k + 1..], ys[k];
    assert xs == init + [x];
    assert ys == ys[..k] + [x] + ys[k + 1..];
    assert multiset(xs) == multiset(init) + multiset{x};
    assert multiset(ys) == multiset(ys[..k]) + multiset{x} + multiset(ys[k + 1..]);
    assert multiset(rest) == multiset(ys[..k]) + multiset(ys[k + 1..]);
    assert multiset(init) == multiset(xs) - multiset{x} && multiset(rest) == multiset(ys) - multiset{x};
  }

  lemma {:induction false} SumSeqPermuted<A>(w: A -> nat, xs: seq<A>, ys: seq<A>)
    requires multiset(xs) == multiset(ys)
    ensures SumSeq(w, xs) == SumSeq(w, ys)
    decreases |xs|
  {
    assert |xs| == |multiset(xs)| == |multiset(ys)| == |ys|;
    if xs != [] {
      var n := |xs| - 1;
      assert xs[n] in multiset(ys);
      var k :| 0 <= k < |ys| && ys[k] == xs[n];
      WithoutOne(xs, ys, k);
      SumSeqPermuted(w, xs[..n], ys[..k] + ys[k + 1..]);
      SumSeqWithout(w, ys, k);
    }
  }

  lemma {:induction false} SumSeqMono<A(!new)>(v: A -> nat, w: A -> nat, xs: seq<A>)
    requires forall x :: v(x) <= w(x)
    ensures SumSeq(v, xs) <= SumSeq(w, xs)
  {
    if xs != [] { SumSeqMono(v, w, xs[..|xs| - 1]); }
  }

  // ---- Sets ----

  ghost function Sum<K(!new)>(w: K -> nat, s: set<K>): nat
    decreases |s|
  {
    if s == {} then 0
    else
      var k :| k in s;
      Sum(w, s - {k}) + w(k)
  }

  /** The sum does not depend on the order of its terms. */
  lemma {:induction false} SumWithout<K(!new)>(w: K -> nat, s: set<K>, x: K)
    requires x in s
    ensures Sum(w, s) == Sum(w, s - {x}) + w(x)
    decreases |s|
  {
    var k :| k in s && Sum(w, s) == Sum(w, s - {k}) + w(k);
    if k != x {
      SumWithout(w, s - {k}, x);
      SumWithout(w, s - {x}, k);
      assert s - {k} - {x} == s - {x} - {k};
    }
  }

  lemma {:induction false} SumSame<K(!new)>(v: K -> nat, w: K -> nat, s: set<K>)
    requires forall k :: k in s ==> v(k) == w(k)
    ensures Sum(v, s) == Sum(w, s)
    decreases |s|
  {
    if s != {} {
      var k :| k in s;
      SumWithout(v, s, k);
      SumWithout(w, s, k);
      SumSame(v, w, s - {k});
    }
  }

  lemma {:induction false} SumSubset<K(!new)>(w: K -> nat, s: set<K>, t: set<K>)
    requires s <= t
    ensures Sum(w, t) == Sum(w, s) + Sum(w, t - s)
    decreases |t - s|
  {
    if t - s == {} {
      assert t == s;
    } else {
      var k :| k in t - s;
      SumWithout(w, t, k);
      SumWithout(w, t - s, k);
      SumSubset(w, s, t - {k});
      assert t - {k} - s == t - s - {k};
    }
  }

  // ---- Multiples ----

  /** `n * x`, unfolded as repeated addition. */
  ghost function Times(n: nat, x: nat): nat {
    if n == 0 then 0 else Times(n - 1, x) + x
  }

  lemma {:induction false} TimesSum(n: nat, x: nat, y: nat)
    ensures Times(n, x + y) == Times(n, x) + Times(n, y)
    ensures n >= 1 ==> Times(n, x) >= x
  {
    if n > 0 { TimesSum(n - 1, x, y); }
  }

  lemma {:induction false} TimesMono(n: nat, x: nat, y: nat)
    requires x <= y
    ensures Times(n, x) <= Times(n, y)
  {
    TimesSum(n, x, y - x);
  }

  lemma {:induction false} TimesPlus(m: nat, n: nat, x: nat)
    ensures Times(m + n, x) == Times(m, x) + Times(n, x)
  {
    if n > 0 { TimesPlus(m, n - 1, x); }
  }

  lemma {:induction false} TimesIsProduct(n: nat, x: nat)
    ensures Times(n, x) == n * x
  {
    if n > 0 {
      TimesIsProduct(n - 1, x);
      assert n * x == (n - 1) * x + x;
    }
  }
}
