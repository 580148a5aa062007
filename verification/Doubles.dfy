/** The default for T2 (ClntOptions/ClntOptIA_NA.cpp:272): a lifetime times 0.7 as IEEE 754
    double arithmetic computes it, cut down to an integer. */
module Doubles {
  const TWO53: nat := 0x20_0000_0000_0000

  /** The double nearest to 0.7, in units of 2^-53. */
  const SEVENTENTHS: nat := 6305039478318694

  /** The distance of the doubles around `n`: 53 bits are kept. */
  function Ulp(n: nat): (u: nat)
    ensures u > 0 && n < TWO53 * u
  {
    if n < TWO53 then 1 else 2 * Ulp(n / 2)
  }

  /** To the nearest double; ties go to the even one. */
  function Rounded(n: nat): nat {
    var u := Ulp(n);
    var f, rest := n / u, n % u;
    u * if 2 * rest > u || (2 * rest == u && f % 2 == 1) then f + 1 else f
  }

  /** The integer part of the product of `p`, made a double, and 0.7. */
  function Seventy(p: nat): nat {
    Rounded(Rounded(p) * SEVENTENTHS) / TWO53
  }

  lemma {:induction false} RoundedNear(n: nat)
    ensures 0 - Ulp(n) <= 2 * (Rounded(n) - n) <= Ulp(n)
  {
    var u := Ulp(n);
    var f, rest := n / u, n % u;
    assert n == u * f + rest;
    hide Ulp;
    assert u * (f + 1) == u * f + u;
  }

  function Pow2(i: nat): nat {
    if i == 0 then 1 else 2 * Pow2(i - 1)
  }

  lemma {:induction false} Pow2Four(i: nat)
    ensures Pow2(i + 4) == 16 * Pow2(i)
  {
    assert Pow2(i + 1) == 2 * Pow2(i);
    assert Pow2(i + 2) == 2 * Pow2(i + 1);
    assert Pow2(i + 3) == 2 * Pow2(i + 2);
  }

  lemma {:induction false} Pow32()
    ensures Pow2(32) == 0x1_0000_0000
  {
    Pow2Four(0);
    Pow2Four(4);
    Pow2Four(8);
    Pow2Four(12);
    Pow2Four(16);
    Pow2Four(20);
    Pow2Four(24);
    Pow2Four(28);
    hide Pow2;
    PowZero();
  }

  lemma {:induction false} PowZero()
    ensures Pow2(0) == 1
  {
  }

  lemma {:induction false} UlpDivides(n: nat, i: nat) returns (d: nat)
    requires n < TWO53 * Pow2(i)
    ensures Ulp(n) * d == Pow2(i) && Ulp(n) <= Pow2(i)
  {
    if n < TWO53 {
      d := Pow2(i);
    } else {
      d := UlpDivides(n / 2, i - 1);
      assert Ulp(n) * d == 2 * (Ulp(n / 2) * d);
    }
  }

  /** Just below an even multiple of the distance, at most half of it away. */
  lemma {:induction false} RoundsUp(n: nat, g: nat, c: nat)
    requires g % 2 == 0 && g > 0 && 0 < 2 * c <= Ulp(n) && n == Ulp(n) * g - c
    ensures Rounded(n) == Ulp(n) * g
  {
    var u := Ulp(n);
    hide Ulp;
    assert n == u * (g - 1) + (u - c);
    DivMod(n, u, g - 1, u - c);
  }

  lemma {:induction false} DivMod(n: nat, u: nat, f: nat, rest: nat)
    requires n == u * f + rest && rest < u
    ensures n / u == f && n % u == rest
  {
    var x := n / u - f;
    assert u * x == rest - n % u by {
      assert n == u * (n / u) + n % u;
    }
    Small(u, x);
  }

  lemma {:induction false} Small(u: nat, x: int)
    requires 0 - u < u * x < u
    ensures x == 0
  {
    if x > 0 {
      assert u * x == u * (x - 1) + u;
      NonNegative(u, x - 1);
    } else if x < 0 {
      assert u * x == 0 - u * (-1 - x) - u;
      NonNegative(u, -1 - x);
    }
  }

  lemma {:induction false} NonNegative(u: nat, x: nat)
    ensures u * x >= 0
  {
  }

  lemma {:induction false} ProductUlp(p: nat) returns (d: nat)
    requires p < 0x1_0000_0000
    ensures var u := Ulp(p * SEVENTENTHS);
            u <= 0x1_0000_0000 && u * d == 0x1_0000_0000
  {
    Pow32();
    hide Ulp, Pow2;
    d := UlpDivides(p * SEVENTENTHS, 32);
  }

  /** The product with 0.7 lies within a second of the exact one; where 10 divides `p`, it
      lies below. */
  lemma {:induction false} Falls(p: nat, u: nat, r: nat)
    requires p < 0x1_0000_0000 && u <= 0x1_0000_0000
    requires 0 - u <= 2 * (r - p * SEVENTENTHS) <= u
    ensures p % 10 != 0 ==> r / TWO53 == 7 * p / 10
    ensures p % 10 == 0 && 8 * (p / 10) > u ==> r / TWO53 == 7 * p / 10 - 1
    ensures p % 10 == 0 && r == 7 * (p / 10) * TWO53 ==> r / TWO53 == 7 * p / 10
  {
  }

  lemma {:induction false} Multiple(q: nat, u: nat, d: nat)
    requires u * d == 0x1_0000_0000
    ensures u * (7 * q * (d * 0x20_0000)) == 7 * q * TWO53 && 7 * q * (d * 0x20_0000) % 2 == 0
  {
    calc {
      u * (7 * q * (d * 0x20_0000));
    ==
      7 * q * 0x20_0000 * (u * d);
    }
    assert 7 * q * (d * 0x20_0000) == 2 * (7 * q * (d * 0x10_0000));
  }

  /** Where it falls short by no more than half the distance of the doubles, rounding makes
      up for that. */
  lemma {:induction false} Regained(p: nat, q: nat)
    requires p == 10 * q && p < 0x1_0000_0000 && 0 < 8 * q <= Ulp(p * SEVENTENTHS)
    ensures Rounded(p * SEVENTENTHS) == 7 * q * TWO53
  {
    var u := Ulp(p * SEVENTENTHS);
    var d := ProductUlp(p);
    hide Rounded, Ulp;
    Multiple(q, u, d);
    RoundsUp(p * SEVENTENTHS, 7 * q * (d * 0x20_0000), 4 * q);
  }

  lemma {:induction false} ProductRounded(p: nat)
    requires p < 0x1_0000_0000
    ensures Seventy(p) == Rounded(p * SEVENTENTHS) / TWO53
  {
    assert Rounded(p) == p;
    hide Rounded;
  }

  /** For a lifetime of 32 bits that is 70% rounded down, or one second less: exactly for
      some of the multiples of 10, where 0.7 falls short by enough to be noticed. */
  lemma {:induction false} SeventyExactly(p: nat)
    requires p < 0x1_0000_0000
    ensures Seventy(p) == 7 * p / 10 - if p % 10 == 0 && 8 * (p / 10) > Ulp(p * SEVENTENTHS) then 1 else 0
  {
    ProductRounded(p);
    var n := p * SEVENTENTHS;
    var u := Ulp(n);
    RoundedNear(n);
    var _ := ProductUlp(p);
    hide Rounded, Ulp, Seventy;
    Falls(p, u, Rounded(n));
    if p % 10 == 0 && 0 < 8 * (p / 10) <= u {
      Regained(p, p / 10);
    }
  }
}
