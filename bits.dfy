/**
 * Go's bitwise operators on unsigned integers, bit by bit over the low w
 * bits, and the facts about them that an IPv4 netmask needs.
 */
module Bits {

  function Pow2(n: nat): (r: nat)
    ensures r >= 1
  {
    if n == 0 then 1 else 2 * Pow2(n - 1)
  }

  /** `a & b` on w-bit values. */
  function And(a: nat, b: nat, w: nat): (r: nat)
    ensures r < Pow2(w)
  {
    if w == 0 then 0 else (a % 2) * (b % 2) + 2 * And(a / 2, b / 2, w - 1)
  }

  /** `a | b` on w-bit values. */
  function Or(a: nat, b: nat, w: nat): (r: nat)
    ensures r < Pow2(w)
  {
    if w == 0 then 0 else (if a % 2 == 1 || b % 2 == 1 then 1 else 0) + 2 * Or(a / 2, b / 2, w - 1)
  }

  /** `^a` on w-bit values. */
  function Not(a: nat, w: nat): (r: nat)
    ensures r < Pow2(w)
  {
    if w == 0 then 0 else (1 - a % 2) + 2 * Not(a / 2, w - 1)
  }

  lemma Pow2Split(k: nat)
    requires k > 0
    ensures Pow2(k) == 2 * Pow2(k - 1)
  {
  }

  lemma Pow2Monotone(j: nat, k: nat)
    requires j <= k
    ensures Pow2(j) <= Pow2(k)
    decreases k - j
  {
    if j < k {
      Pow2Monotone(j, k - 1);
    }
  }

  lemma {:induction false} Pow2Add(a: nat, b: nat)
    ensures Pow2(a + b) == Pow2(a) * Pow2(b)
  {
    if a > 0 {
      Pow2Add(a - 1, b);
    }
  }

  /** Dividing by two and splitting off the low bit, for remainders by a power of two. */
  lemma ModPow2Split(x: nat, k: nat)
    requires k > 0
    ensures x % Pow2(k) == x % 2 + 2 * ((x / 2) % Pow2(k - 1))
  {
    var p := Pow2(k - 1);
    var q := x / 2;
    assert x == 2 * q + x % 2;
    assert q == p * (q / p) + q % p;
    var rem := x % 2 + 2 * (q % p);
    assert 0 <= rem < 2 * p;
    assert x == 2 * p * (q / p) + rem;
    DivModUnique(x, 2 * p, q / p, rem);
  }

  lemma MulMonotone(d: nat, a: int, b: int)
    requires a <= b
    ensures d * a <= d * b
  {
    var k: nat := b - a;
    assert d * b == d * a + d * k;
  }

  lemma DivModUnique(x: int, d: int, q: int, r: int)
    requires d > 0 && 0 <= r < d && x == d * q + r
    ensures x % d == r && x / d == q
  {
    var q', r' := x / d, x % d;
    assert x == d * q' + r';
    if q' < q {
      MulMonotone(d, q' + 1, q);
      assert false;
    } else if q < q' {
      MulMonotone(d, q + 1, q');
      assert false;
    }
  }

  /** Complement is subtraction from all ones. */
  lemma {:induction false} NotValue(a: nat, w: nat)
    requires a < Pow2(w)
    ensures Not(a, w) == Pow2(w) - 1 - a
  {
    if w > 0 {
      NotValue(a / 2, w - 1);
    }
  }

  /** Masking with all ones changes nothing. */
  lemma {:induction false} AndAllOnes(x: nat, w: nat)
    requires x < Pow2(w)
    ensures And(x, Pow2(w) - 1, w) == x
  {
    if w > 0 {
      assert (Pow2(w) - 1) / 2 == Pow2(w - 1) - 1;
      AndAllOnes(x / 2, w - 1);
    }
  }

  /** w - k one-bits over k zero-bits. */
  function HighMask(w: nat, k: nat): (m: nat)
    requires k <= w
    ensures m == Pow2(w) - Pow2(k)
  {
    Pow2Monotone(k, w);
    Pow2(w) - Pow2(k)
  }

  /** Masking with w - k ones over k zeros clears the low k bits. */
  lemma {:induction false} AndHighMask(x: nat, w: nat, k: nat)
    requires k <= w && x < Pow2(w)
    ensures And(x, HighMask(w, k), w) == x - x % Pow2(k)
  {
    if k == 0 {
      AndAllOnes(x, w);
    } else {
      var m := HighMask(w, k);
      assert m % 2 == 0 && m / 2 == HighMask(w - 1, k - 1);
      AndHighMask(x / 2, w - 1, k - 1);
      ModPow2Split(x, k);
    }
  }

  /** Or with zero changes nothing. */
  lemma {:induction false} OrZero(x: nat, w: nat)
    requires x < Pow2(w)
    ensures Or(x, 0, w) == x
  {
    if w > 0 {
      OrZero(x / 2, w - 1);
    }
  }

  /** Setting the low k bits of a value whose low k bits are clear adds 2^k - 1. */
  lemma {:induction false} OrLowOnes(x: nat, w: nat, k: nat)
    requires k <= w && x < Pow2(w) && x % Pow2(k) == 0
    ensures Or(x, Pow2(k) - 1, w) == x + Pow2(k) - 1
  {
    if k == 0 {
      OrZero(x, w);
    } else {
      ModPow2Split(x, k);
      assert x % 2 == 0 && (x / 2) % Pow2(k - 1) == 0;
      assert (Pow2(k) - 1) % 2 == 1 && (Pow2(k) - 1) / 2 == Pow2(k - 1) - 1;
      OrLowOnes(x / 2, w - 1, k - 1);
    }
  }

  /** A remainder never exceeds what it is taken of. */
  lemma ModAtMost(x: nat, d: nat)
    requires d > 0
    ensures x % d <= x
  {
    if x < d {
      DivModUnique(x, d, 0, x);
    }
  }

  /** Rounding down to a multiple of d leaves no remainder. */
  lemma RoundedDownAligned(x: nat, d: nat)
    requires d > 0
    ensures (x - x % d) % d == 0
  {
    assert x - x % d == d * (x / d);
    DivModUnique(x - x % d, d, x / d, 0);
  }

  /** `x & mask` for a mask of w - k ones over k zeros: x rounded down to a multiple of 2^k. */
  lemma NetworkPart(x: nat, w: nat, k: nat)
    requires k <= w && x < Pow2(w)
    ensures And(x, HighMask(w, k), w) == x - x % Pow2(k)
    ensures (x - x % Pow2(k)) % Pow2(k) == 0
  {
    AndHighMask(x, w, k);
    RoundedDownAligned(x, Pow2(k));
  }

  /** `(x & mask) | ^mask` for an x whose low k bits are clear: x with its low k bits set. */
  lemma BroadcastPart(x: nat, w: nat, k: nat)
    requires k <= w && x < Pow2(w) && x % Pow2(k) == 0
    ensures Or(And(x, HighMask(w, k), w), Not(HighMask(w, k), w), w) == x + Pow2(k) - 1
  {
    AndHighMask(x, w, k);
    NotValue(HighMask(w, k), w);
    OrLowOnes(x, w, k);
  }
}
