/** Bitwise operators on natural numbers, one binary digit at a time. */
module Bits {

  function And(a: nat, b: nat): (r: nat)
    ensures r <= a && r <= b
  {
    if a == 0 || b == 0 then 0 else (if a % 2 == 1 && b % 2 == 1 then 1 else 0) + 2 * And(a / 2, b / 2)
  }

  function Xor(a: nat, b: nat): nat {
    if a == 0 then b else if b == 0 then a else (a + b) % 2 + 2 * Xor(a / 2, b / 2)
  }

  function Pow2(n: nat): (p: nat)
    ensures p > 0
  {
    if n == 0 then 1 else 2 * Pow2(n - 1)
  }

  // ---- Masking ------------------------------------------------------------------------

  /** Masking with one less than a power of two is the remainder modulo that power. */
  lemma {:induction false} MaskIsMod(x: nat, m: nat)
    ensures And(x, Pow2(m) - 1) == x % Pow2(m)
    decreases m
  {
    hide And;
    if m > 0 {
      assert Pow2(m) == 2 * Pow2(m - 1);
      hide Pow2;
      MaskIsMod(x / 2, m - 1);
      MaskStep(x, Pow2(m - 1));
    } else {
      ModOne(x);
    }
  }

  lemma ModOne(x: nat)
    ensures x % 1 == 0
  {
  }

  lemma MaskStep(x: nat, p: nat)
    requires p > 0 && And(x / 2, p - 1) == (x / 2) % p
    ensures And(x, 2 * p - 1) == x % (2 * p)
  {
    hide And;
    assert (2 * p - 1) / 2 == p - 1 && (2 * p - 1) % 2 == 1;
    AndOdd(x, 2 * p - 1);
    ModHalf(x, p);
  }

  lemma AndOdd(a: nat, b: nat)
    requires b % 2 == 1
    ensures And(a, b) == a % 2 + 2 * And(a / 2, b / 2)
  {
  }

  lemma ModHalf(x: nat, p: nat)
    requires p > 0
    ensures x % (2 * p) == x % 2 + 2 * ((x / 2) % p)
  {
    var q, r := (x / 2) / p, (x / 2) % p;
    assert x == 2 * (x / 2) + x % 2;
    assert x / 2 == q * p + r;
    assert x == q * (2 * p) + (2 * r + x % 2);
    ModUnique(x, 2 * p, q, 2 * r + x % 2);
  }

  lemma ModUnique(x: int, d: int, q: int, r: int)
    requires d > 0 && x == q * d + r && 0 <= r < d
    ensures x % d == r && x / d == q
  {
    var e := x / d - q;
    assert x == (x / d) * d + x % d;
    assert e * d == r - x % d;
    MulAway(e, d);
  }

  lemma MulAway(e: int, d: int)
    requires d > 0
    ensures e >= 1 ==> e * d >= d
    ensures e <= -1 ==> e * d <= -d
  {
  }

  lemma AndEven(a: nat, b: nat)
    requires a % 2 == 0
    ensures And(a, b) == 2 * And(a / 2, b / 2)
  {
  }

  ghost predicate PowerOfTwo(n: nat) {
    exists m: nat :: n == Pow2(m)
  }

  lemma DoubledPower(h: nat)
    ensures PowerOfTwo(2 * h) <==> PowerOfTwo(h)
  {
    if m: nat :| h == Pow2(m) {
      assert 2 * h == Pow2(m + 1);
    }
    if m: nat :| 2 * h == Pow2(m) {
      assert m > 0 && h == Pow2(m - 1);
    }
  }

  lemma OddPower(n: nat)
    requires n % 2 == 1
    ensures PowerOfTwo(n) <==> n == 1
  {
    assert Pow2(0) == 1;
    if m: nat :| n == Pow2(m) {
      assert m > 0 ==> n == 2 * Pow2(m - 1);
    }
  }

  /** The test n & (n - 1) == 0 recognises exactly the powers of two. */
  lemma {:induction false} PowerOfTwoIff(n: nat)
    requires n > 0
    ensures And(n, n - 1) == 0 <==> PowerOfTwo(n)
    decreases n
  {
    hide PowerOfTwo;
    if n % 2 == 0 {
      PowerOfTwoIff(n / 2);
      AndEven(n, n - 1);
      assert (n - 1) / 2 == n / 2 - 1;
      DoubledPower(n / 2);
      hide And;
    } else {
      OddPower(n);
      AndSelf(n / 2);
      assert (n - 1) / 2 == n / 2;
    }
  }

  lemma {:induction false} AndSelf(n: nat)
    ensures And(n, n) == n
    decreases n
  {
    if n > 0 {
      AndSelf(n / 2);
    }
  }

  lemma {:induction false} Pow2Add(m: nat, n: nat)
    ensures Pow2(m + n) == Pow2(m) * Pow2(n)
    decreases m
  {
    if m > 0 {
      Pow2Add(m - 1, n);
      Pow2Next(m);
      Pow2Next(m + n);
      hide Pow2;
      TwiceProduct(Pow2(m - 1), Pow2(n));
    }
  }

  lemma Pow2Next(n: nat)
    requires n > 0
    ensures Pow2(n) == 2 * Pow2(n - 1)
  {
  }

  lemma TwiceProduct(a: nat, b: nat)
    ensures 2 * (a * b) == (2 * a) * b
  {
  }

  lemma {:induction false} Pow2Monotone(m: nat, n: nat)
    requires m <= n
    ensures Pow2(m) <= Pow2(n)
    decreases n
  {
    if m < n {
      Pow2Monotone(m, n - 1);
    }
  }

  // ---- Exclusive or -------------------------------------------------------------------

  lemma XorNothing(a: nat)
    ensures Xor(a, 0) == a && Xor(0, a) == a
  {
  }

  lemma {:induction false} XorSwap(a: nat, b: nat)
    ensures Xor(a, b) == Xor(b, a)
    decreases a + b
  {
    if a != 0 && b != 0 {
      XorSwap(a / 2, b / 2);
    }
  }

  lemma {:induction false} XorUndoes(a: nat, b: nat)
    ensures Xor(Xor(a, b), b) == a
    decreases a + b
  {
    if a == 0 {
      XorSelf(b);
    } else if b != 0 {
      XorUndoes(a / 2, b / 2);
      XorHalves(a, b);
      XorHalves(Xor(a, b), b);
      Digits(a, b, Xor(a / 2, b / 2));
    }
  }

  lemma Digits(a: nat, b: nat, y: nat)
    ensures var x := (a + b) % 2 + 2 * y; x / 2 == y && (x + b) % 2 == a % 2
  {
  }

  lemma XorHalves(a: nat, b: nat)
    ensures Xor(a, b) == (a + b) % 2 + 2 * Xor(a / 2, b / 2)
  {
  }

  lemma {:induction false} XorSelf(a: nat)
    ensures Xor(a, a) == 0
    decreases a
  {
    if a > 0 {
      XorSelf(a / 2);
    }
  }

  lemma {:induction false} XorBound(a: nat, b: nat, m: nat)
    requires a < Pow2(m) && b < Pow2(m)
    ensures Xor(a, b) < Pow2(m)
    decreases m
  {
    if m > 0 {
      XorBound(a / 2, b / 2, m - 1);
      XorHalves(a, b);
    }
  }
}
