/** Decimal digits and splitting, as the timestamp printer and parser use them. */
module Text {
  import opened Wrappers

  function Pow10(n: nat): (r: nat)
    ensures r >= 1
  {
    if n == 0 then 1 else 10 * Pow10(n - 1)
  }

  predicate IsDigit(c: char) {
    '0' <= c <= '9'
  }

  predicate AllDigits(s: string) {
    forall i :: 0 <= i < |s| ==> IsDigit(s[i])
  }

  function Digit(d: nat): (c: char)
    requires d < 10
    ensures IsDigit(c)
  {
    '0' + d as char
  }

  function DigitValue(c: char): nat
    requires IsDigit(c)
  {
    (c - '0') as nat
  }

  function NumberValue(s: string): nat
    requires AllDigits(s)
  {
    if s == [] then 0 else 10 * NumberValue(s[..|s| - 1]) + DigitValue(s[|s| - 1])
  }

  /** A natural number in decimal, without leading zeros. */
  function Decimal(n: nat): (s: string)
    ensures s != [] && AllDigits(s)
  {
    if n < 10 then [Digit(n)] else Decimal(n / 10) + [Digit(n % 10)]
  }

  function Zeros(n: nat): (s: string)
    ensures |s| == n && forall i :: 0 <= i < n ==> s[i] == '0'
  {
    if n == 0 then [] else ['0'] + Zeros(n - 1)
  }

  function ZeroPadded(s: string, width: nat): string {
    if |s| >= width then s else Zeros(width - |s|) + s
  }

  /** The format `{:0width}`: the sign counts towards the width. */
  function Padded(n: int, width: nat): string {
    if n >= 0 then ZeroPadded(Decimal(n), width)
    else ['-'] + ZeroPadded(Decimal(-n), if width == 0 then 0 else width - 1)
  }

  lemma {:induction false} DecimalValue(n: nat)
    ensures NumberValue(Decimal(n)) == n
  {
    var s := Decimal(n);
    if n < 10 {
      assert s[..0] == [];
      assert NumberValue([]) == 0;
    } else {
      DecimalValue(n / 10);
      assert s[..|s| - 1] == Decimal(n / 10);
    }
  }

  lemma {:induction false} DecimalLength(n: nat, width: nat)
    requires width >= 1
    ensures n < Pow10(width) <==> |Decimal(n)| <= width
    decreases width
  {
    assert Pow10(1) == 10 * Pow10(0);
    if width > 1 && n >= 10 {
      DecimalLength(n / 10, width - 1);
    } else if n < 10 {
      assert Pow10(width) == 10 * Pow10(width - 1);
    }
  }

  lemma {:induction false} LeadingZeros(k: nat, s: string)
    requires AllDigits(s)
    ensures AllDigits(Zeros(k) + s) && NumberValue(Zeros(k) + s) == NumberValue(s)
    decreases |s|, k
  {
    var t := Zeros(k) + s;
    if s != [] {
      LeadingZeros(k, s[..|s| - 1]);
      assert t[..|t| - 1] == Zeros(k) + s[..|s| - 1];
    } else if k > 0 {
      assert t == Zeros(k) && t[..|t| - 1] == Zeros(k - 1) + s;
      LeadingZeros(k - 1, s);
    }
  }

  lemma {:induction false} PadWidth(s: string, width: nat)
    requires |s| <= width
    ensures ZeroPadded(s, width) == Zeros(width - |s|) + s
  {
    assert Zeros(0) + s == s;
  }

  /** A number that fits the width prints as exactly that many digits of its value. */
  lemma {:induction false} PaddedFits(n: nat, width: nat)
    requires width >= 1 && n < Pow10(width)
    ensures |Padded(n, width)| == width && AllDigits(Padded(n, width)) && NumberValue(Padded(n, width)) == n
  {
    DecimalLength(n, width);
    DecimalValue(n);
    PadWidth(Decimal(n), width);
    LeadingZeros(width - |Decimal(n)|, Decimal(n));
  }

  /** A number with its sign, in at least `width` characters: zeros fill up what is missing, and a
      number that needs more is written without any. */
  ghost predicate Spells(s: string, n: int, width: nat) {
    var digits := if n < 0 then s[if s == [] then 0 else 1..] else s;
    && (n < 0 ==> s != [] && s[0] == '-')
    && digits != [] && AllDigits(digits) && NumberValue(digits) == (if n < 0 then -n else n)
    && |s| >= width && (|s| > width ==> digits[0] != '0' || |digits| == 1)
  }

  lemma {:induction false} NoLeadingZero(n: nat)
    requires n >= 1
    ensures Decimal(n)[0] != '0'
  {
    if n >= 10 { NoLeadingZero(n / 10); }
  }

  lemma {:induction false} ZeroPaddedSpells(n: nat, width: nat)
    ensures var s := ZeroPadded(Decimal(n), width);
            && s != [] && AllDigits(s) && NumberValue(s) == n && |s| >= width
            && (|s| > width ==> s[0] != '0' || |s| == 1)
  {
    DecimalValue(n);
    if |Decimal(n)| < width {
      LeadingZeros(width - |Decimal(n)|, Decimal(n));
    } else if n >= 1 {
      NoLeadingZero(n);
    }
  }

  /** What `Padded` writes, for every number and width. */
  lemma {:induction false} PaddedSpells(n: int, width: nat)
    requires width >= 1
    ensures Spells(Padded(n, width), n, width)
  {
    if n >= 0 {
      ZeroPaddedSpells(n, width);
    } else {
      ZeroPaddedSpells(-n, width - 1);
      assert Padded(n, width)[1..] == ZeroPadded(Decimal(-n), width - 1);
    }
  }

  lemma {:induction false} ValueBelow(s: string)
    requires AllDigits(s)
    ensures NumberValue(s) < Pow10(|s|)
  {
    if s != [] { ValueBelow(s[..|s| - 1]); }
  }

  // ---- Splitting ----

  /** `str::split_once`: around the first occurrence. */
  function SplitOnce(s: string, c: char): Option<(string, string)> {
    if s == [] then None
    else if s[0] == c then Some(([], s[1..]))
    else
      match SplitOnce(s[1..], c)
      case None => None
      case Some((a, b)) => Some(([s[0]] + a, b))
  }

  /** `str::split`: the parts between occurrences. */
  function Split(s: string, c: char): (parts: seq<string>)
    ensures parts != []
    decreases |s|
  {
    match SplitOnce(s, c)
    case None => [s]
    case Some((a, b)) =>
      assert |b| < |s| by { SplitOnceJoins(s, c); }
      [a] + Split(b, c)
  }

  lemma {:induction false} SplitOnceJoins(s: string, c: char)
    ensures match SplitOnce(s, c)
            case None => c !in s
            case Some((a, b)) => s == a + [c] + b && c !in a
  {
    if s != [] && s[0] != c {
      SplitOnceJoins(s[1..], c);
    }
  }

  lemma {:induction false} SplitOnceAt(a: string, c: char, b: string)
    requires c !in a
    ensures SplitOnce(a + [c] + b, c) == Some((a, b))
  {
    var s := a + [c] + b;
    if a == [] {
      assert s[1..] == b;
    } else {
      SplitOnceAt(a[1..], c, b);
      assert s[1..] == a[1..] + [c] + b;
      assert [a[0]] + a[1..] == a;
    }
  }

  lemma {:induction false} SplitOnceAbsent(s: string, c: char)
    requires c !in s
    ensures SplitOnce(s, c) == None
  {
    SplitOnceJoins(s, c);
  }

  /** Three parts around two separators, both ways. */
  lemma {:induction false} SplitThree(s: string, c: char, x: string, y: string, z: string)
    ensures Split(s, c) == [x, y, z] <==> s == x + [c] + y + [c] + z && c !in x && c !in y && c !in z
  {
    if s == x + [c] + y + [c] + z && c !in x && c !in y && c !in z {
      assert s == x + [c] + (y + [c] + z);
      SplitOnceAt(x, c, y + [c] + z);
      SplitOnceAt(y, c, z);
      SplitOnceAbsent(z, c);
    }
    if Split(s, c) == [x, y, z] {
      SplitOnceJoins(s, c);
      var rest := SplitOnce(s, c).value.1;
      assert Split(rest, c) == Split(s, c)[1..] == [y, z];
      SplitOnceJoins(rest, c);
      assert SplitOnce(rest, c).Some?;
      var last := SplitOnce(rest, c).value.1;
      assert Split(last, c) == Split(rest, c)[1..] == [z];
      SplitOnceJoins(last, c);
      assert SplitOnce(last, c) == None && last == z;
      assert Split(s, c)[0] == SplitOnce(s, c).value.0 && Split(rest, c)[0] == SplitOnce(rest, c).value.0;
      assert s == x + [c] + rest && rest == y + [c] + z;
    }
  }
}
