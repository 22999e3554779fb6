// Powers of two and the bitwise operations of C on natural numbers.
module Bits {
  function Pow2(k: nat): (p: nat)
    ensures p > 0
  {
    if k == 0 then 1 else 2 * Pow2(k - 1)
  }

  function And(a: nat, b: nat): nat
    decreases a
  {
    if a == 0 || b == 0 then 0 else 2 * And(a / 2, b / 2) + (if a % 2 == 1 && b % 2 == 1 then 1 else 0)
  }

  function Or(a: nat, b: nat): nat
    decreases a + b
  {
    if a == 0 then b
    else if b == 0 then a
    else 2 * Or(a / 2, b / 2) + (if a % 2 == 1 || b % 2 == 1 then 1 else 0)
  }

  // Masking with 2^k - 1 leaves what is left after taking out multiples of 2^k.
  lemma {:induction false} AndSplit(a: nat, k: nat) returns (q: nat)
    ensures a == q * Pow2(k) + And(a, Pow2(k) - 1) && 0 <= And(a, Pow2(k) - 1) < Pow2(k)
    decreases k
  {
    if k == 0 {
      q := a;
    } else {
      var p := Pow2(k - 1);
      q := AndSplit(a / 2, k - 1);
      AndOdd(a, p - 1);
      Twice(q, p);
    }
  }

  lemma Twice(q: int, p: int)
    ensures q * (2 * p) == 2 * (q * p)
  {}

  // Masking with 2^k - 1 is the remainder modulo 2^k.
  lemma AndMask(a: nat, k: nat)
    ensures And(a, Pow2(k) - 1) == a % Pow2(k)
  {
    var q := AndSplit(a, k);
    DivModUnique(a, Pow2(k), q, And(a, Pow2(k) - 1));
  }

  lemma AndOdd(a: nat, b: nat)
    ensures And(a, 2 * b + 1) == 2 * And(a / 2, b) + a % 2
  {
    assert (2 * b + 1) / 2 == b && (2 * b + 1) % 2 == 1;
  }

  // Setting the bit above a full mask gives the next full mask.
  lemma {:induction false} OrMask(k: nat)
    ensures Or(Pow2(k) - 1, Pow2(k)) == Pow2(k + 1) - 1
  {
    if k > 0 {
      var p := Pow2(k - 1);
      OrMask(k - 1);
      assert (2 * p - 1) / 2 == p - 1 && (2 * p - 1) % 2 == 1 && (2 * p) / 2 == p;
    }
  }

  // ----- products and quotients -----

  lemma MulMono(a: int, b: int, c: int)
    requires a <= b && c >= 0
    ensures a * c <= b * c
  {}

  lemma MulNat(a: nat, b: nat)
    ensures a * b >= 0
  {}

  lemma Distribute(a: int, b: int, c: int)
    ensures (a + b) * c == a * c + b * c
  {}

  lemma Reassociate(a: int, b: int, c: int)
    ensures a * b * c == b * c * a
  {}

  // A quotient is smaller than any bound on its dividend in units of the divisor.
  lemma Cancel(a: int, b: int, d: int)
    requires d > 0 && a * d < (b + 1) * d
    ensures a <= b
  {
    if a > b {
      MulMono(b + 1, a, d);
    }
  }

  lemma DivMod(a: nat, d: nat)
    requires d > 0
    ensures a == a / d * d + a % d && 0 <= a % d < d && a / d >= 0
    ensures a / d * d <= a < (a / d + 1) * d
  {
    var q := a / d;
    assert (q + 1) * d == q * d + d;
    if q < 0 {
      MulMono(q, -1, d);
    }
  }

  lemma DivModUnique(a: nat, d: nat, q: int, r: int)
    requires d > 0 && a == q * d + r && 0 <= r < d
    ensures a / d == q && a % d == r
  {
    DivMod(a, d);
    QuotientUnique(d, a / d, a % d, q, r);
  }

  lemma QuotientUnique(d: int, q: int, r: int, q': int, r': int)
    requires q * d + r == q' * d + r' && 0 <= r < d && 0 <= r' < d
    ensures q == q' && r == r'
  {
    assert (q + 1) * d == q * d + d && (q' + 1) * d == q' * d + d;
    if q < q' {
      MulMono(q + 1, q', d);
    } else if q' < q {
      MulMono(q' + 1, q, d);
    }
  }

  // ----- quotients of reals -----

  lemma ToReal(a: int, b: int)
    ensures (a * b) as real == a as real * b as real
  {}

  lemma AssocReal(a: real, b: real, c: real)
    ensures a * b * c == a * (b * c)
  {}

  lemma DivideReal(y: real, d: real)
    requires d > 0.0
    ensures y / d * d == y
  {}

  lemma CancelReal(a: real, b: real, d: real)
    requires d > 0.0
    ensures a * d <= b * d ==> a <= b
    ensures a * d < b * d ==> a < b
  {}

  // ----- sums of powers -----

  lemma {:induction false} Pow2Sum(a: nat, b: nat)
    ensures Pow2(a + b) == Pow2(a) * Pow2(b)
    decreases a
  {
    if a > 0 {
      Pow2Sum(a - 1, b);
      Doubled(a - 1);
      Doubled(a - 1 + b);
      Twice(Pow2(b), Pow2(a - 1));
    }
  }

  lemma {:induction false} Pow2Monotone(a: nat, b: nat)
    requires a <= b
    ensures Pow2(a) <= Pow2(b)
    decreases b
  {
    if a < b {
      Pow2Monotone(a, b - 1);
    }
  }

  lemma Four(k: nat)
    ensures Pow2(k + 4) == 16 * Pow2(k)
  {
    assert Pow2(k + 4) == 2 * Pow2(k + 3) && Pow2(k + 3) == 2 * Pow2(k + 2) && Pow2(k + 2) == 2 * Pow2(k + 1);
  }

  lemma Sixteen(k: nat)
    ensures Pow2(k + 16) == 0x1_0000 * Pow2(k)
  {
    Four(k);
    Four(k + 4);
    Four(k + 8);
    Four(k + 12);
  }

  lemma Word32(k: nat)
    requires k == 32
    ensures Pow2(k) == 0x1_0000_0000
  {
    Sixteen(k - 32);
    Sixteen(k - 16);
  }

  lemma Word64(k: nat)
    requires k == 64
    ensures Pow2(k) == 0x1_0000_0000_0000_0000
  {
    Word32(k - 32);
    Sixteen(k - 32);
    Sixteen(k - 16);
  }

  lemma Pow2Words()
    ensures Pow2(32) == 0x1_0000_0000 && Pow2(63) == 0x8000_0000_0000_0000 && Pow2(64) == 0x1_0000_0000_0000_0000
  {
    Word32(32);
    Word64(64);
    Doubled(63);
  }

  lemma Doubled(k: nat)
    ensures Pow2(k + 1) == 2 * Pow2(k)
  {}

  // How often n can be halved until it is at most 1.
  function Log2(n: nat): nat {
    if n <= 1 then 0 else 1 + Log2(n / 2)
  }

  lemma {:induction false} Log2Bounds(n: nat)
    requires n >= 1
    ensures Pow2(Log2(n)) <= n < Pow2(Log2(n) + 1)
  {
    if n > 1 {
      Log2Bounds(n / 2);
    }
  }
}
