/** Bitwise operations on unbounded naturals, defined bit by bit, and the facts
    about masks and disjoint fields that the identifier layout relies on. */
module Bits {

  function Pow2(k: nat): (p: nat)
    ensures p >= 1
  {
    if k == 0 then 1 else 2 * Pow2(k - 1)
  }

  lemma {:induction false} Pow2Add(a: nat, b: nat)
    ensures Pow2(a + b) == Pow2(a) * Pow2(b)
    decreases a
  {
    if a > 0 {
      Pow2Add(a - 1, b);
    }
  }

  /** Bitwise AND (Go's `&`), least significant bit first. */
  function And(a: nat, b: nat): (r: nat)
    decreases a + b
  {
    if a == 0 && b == 0 then 0
    else 2 * And(a / 2, b / 2) + (if a % 2 == 1 && b % 2 == 1 then 1 else 0)
  }

  /** Bitwise OR (Go's `|`), least significant bit first. */
  function Or(a: nat, b: nat): (r: nat)
    decreases a + b
  {
    if a == 0 && b == 0 then 0
    else 2 * Or(a / 2, b / 2) + (if a % 2 == 1 || b % 2 == 1 then 1 else 0)
  }

  lemma {:induction false} AndZero(a: nat)
    ensures And(a, 0) == 0
    decreases a
  {
    if a != 0 {
      AndZero(a / 2);
    }
  }

  lemma {:induction false} OrZero(a: nat)
    ensures Or(a, 0) == a
    decreases a
  {
    if a != 0 {
      OrZero(a / 2);
    }
  }

  /** Euclidean remainder by 2p, split into its lowest bit and the rest. */
  lemma ModDouble(x: nat, p: nat)
    requires p > 0
    ensures x % (2 * p) == 2 * ((x / 2) % p) + x % 2
  {
    var q, r := x / 2, x % 2;
    var t, u := q / p, q % p;
    assert x == (2 * p) * t + (2 * u + r);
    ModUnique(x, 2 * p, t, 2 * u + r);
  }

  lemma ModUnique(x: int, d: int, t: int, w: int)
    requires d > 0 && 0 <= w < d && x == d * t + w
    ensures x % d == w && x / d == t
  {
    var t', w' := x / d, x % d;
    assert x == d * t' + w';
    MulDistance(d, t, t');
    if t > t' {
      MulAtLeast(d, t - t');
    } else if t < t' {
      MulAtLeast(d, t' - t);
    }
  }

  lemma MulDistance(d: int, t: int, t': int)
    ensures d * t - d * t' == d * (t - t')
  {
  }

  lemma MulAtLeast(d: int, a: int)
    requires d > 0 && a >= 1
    ensures d * a >= d
  {
  }

  /** Masking with 2^k - 1 keeps exactly the k low bits. */
  lemma {:induction false} AndLowMask(x: nat, k: nat)
    ensures And(x, Pow2(k) - 1) == x % Pow2(k)
    decreases k
  {
    if k == 0 {
      AndZero(x);
    } else {
      var p := Pow2(k - 1);
      var m := Pow2(k) - 1;
      assert Pow2(k) == 2 * p;
      assert m / 2 == p - 1 && m % 2 == 1;
      calc {
        And(x, m);
        2 * And(x / 2, p - 1) + x % 2;
        { AndLowMask(x / 2, k - 1); }
        2 * ((x / 2) % p) + x % 2;
        { ModDouble(x, p); }
        x % (2 * p);
      }
    }
  }

  /** OR of a multiple of 2^k with a value below 2^k is their sum:
      the two occupy disjoint bit ranges. */
  lemma {:induction false} OrDisjoint(q: nat, b: nat, k: nat)
    requires b < Pow2(k)
    ensures Or(q * Pow2(k), b) == q * Pow2(k) + b
    decreases k
  {
    if k == 0 {
      OrZero(q);
    } else {
      var p := Pow2(k - 1);
      var a := q * Pow2(k);
      assert a == 2 * (q * p);
      if a != 0 || b != 0 {
        OrDisjoint(q, b / 2, k - 1);
        assert Or(a, b) == 2 * Or(q * p, b / 2) + b % 2;
      }
    }
  }

  /** OR never leaves the width of its operands. */
  lemma {:induction false} OrBound(a: nat, b: nat, k: nat)
    requires a < Pow2(k) && b < Pow2(k)
    ensures Or(a, b) < Pow2(k)
    decreases k
  {
    if k > 0 && (a != 0 || b != 0) {
      OrBound(a / 2, b / 2, k - 1);
    }
  }
}
