/**
 * Positional numerals shared by the type printer (array lengths and the
 * subscript digits of type parameters) and the archive writer of the build
 * tool (the decimal and octal fields of an archive member header).
 */
module Numerals {

  /** 10^k, used to bound the number of digits of a machine word. */
  function Pow(base: nat, k: nat): (p: nat)
    ensures base >= 1 ==> p >= 1
  {
    if k == 0 then 1 else base * Pow(base, k - 1)
  }

  /**
   * The digits of n in the given base, most significant first, every digit
   * below the base. Zero is the single digit 0; any other number has no
   * leading zero.
   */
  function Digits(n: nat, base: nat): (ds: seq<nat>)
    requires base >= 2
    ensures 1 <= |ds|
    ensures forall i :: 0 <= i < |ds| ==> ds[i] < base
    ensures 1 < |ds| ==> ds[0] != 0
    ensures n < base <==> |ds| == 1
    decreases n
  {
    if n < base then [n]
    else
      DivModFacts(n, base);
      Digits(n / base, base) + [n % base]
  }

  /** Euclidean division facts for a base of at least 2. */
  lemma DivModFacts(n: nat, base: nat)
    requires base >= 2
    ensures n % base < base
    ensures n == (n / base) * base + n % base
    ensures n >= base ==> 1 <= n / base < n
  {
  }

  /** The number written by a digit list, most significant first. */
  function FromDigits(ds: seq<nat>, base: nat): nat
  {
    if ds == [] then 0 else FromDigits(ds[..|ds| - 1], base) * base + ds[|ds| - 1]
  }

  /** Reading back the digits of n gives n. */
  lemma {:induction false} FromDigitsOfDigits(n: nat, base: nat)
    requires base >= 2
    ensures FromDigits(Digits(n, base), base) == n
    decreases n
  {
    if n >= base {
      DivModFacts(n, base);
      var ds := Digits(n, base);
      assert ds == Digits(n / base, base) + [n % base];
      assert ds[..|ds| - 1] == Digits(n / base, base);
      FromDigitsOfDigits(n / base, base);
    }
  }

  /** A number below base^k has at most k digits. */
  lemma {:induction false} DigitsLengthBound(n: nat, base: nat, k: nat)
    requires base >= 2 && 1 <= k && n < Pow(base, k)
    ensures |Digits(n, base)| <= k
    decreases k
  {
    if n >= base {
      assert k != 1 by {
        assert Pow(base, 1) == base;
      }
      assert n / base < Pow(base, k - 1) by {
        assert Pow(base, k) == base * Pow(base, k - 1);
        DivBelow(n, base, Pow(base, k - 1));
      }
      DigitsLengthBound(n / base, base, k - 1);
    }
  }

  lemma DivBelow(n: nat, base: nat, p: nat)
    requires base >= 2 && n < base * p
    ensures n / base < p
  {
    DivModFacts(n, base);
    if n / base >= p {
      MulMonotone(base, p, n / base);
    }
  }

  lemma MulMonotone(base: nat, p: nat, q: nat)
    requires p <= q
    ensures base * p <= base * q
  {
  }

  /** An unsigned 64-bit number has at most 20 decimal digits. */
  lemma Uint64DecimalDigits(n: nat)
    requires n < 0x1_0000_0000_0000_0000
    ensures |Digits(n, 10)| <= 20
  {
    PowTen20();
    DigitsLengthBound(n, 10, 20);
  }

  lemma PowTen20()
    ensures Pow(10, 20) == 100_000_000_000_000_000_000
  {
    assert Pow(10, 5) == 100_000;
    assert Pow(10, 10) == 10_000_000_000 by { PowAdd(10, 5, 5); }
    PowAdd(10, 10, 10);
  }

  lemma {:induction false} PowAdd(base: nat, a: nat, b: nat)
    ensures Pow(base, a + b) == Pow(base, a) * Pow(base, b)
    decreases a
  {
    if a > 0 {
      PowAdd(base, a - 1, b);
      calc {
        Pow(base, a + b);
        base * Pow(base, a - 1 + b);
        base * (Pow(base, a - 1) * Pow(base, b));
        { MulAssoc(base, Pow(base, a - 1), Pow(base, b)); }
        (base * Pow(base, a - 1)) * Pow(base, b);
        Pow(base, a) * Pow(base, b);
      }
    }
  }

  lemma MulAssoc(x: nat, y: nat, z: nat)
    ensures x * (y * z) == (x * y) * z
  {
  }
}
