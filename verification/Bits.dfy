/** Bytes, powers of two, and the bit masks the queues use to turn a ticket into a slot number. */
module Bits {
  type u8 = x: int | 0 <= x < 0x100

  function Pow2(k: nat): (p: nat)
    ensures 1 <= p
  {
    if k == 0 then 1 else 2 * Pow2(k - 1)
  }

  /** Exactly one bit of n is set. */
  ghost predicate IsPow2(n: nat) {
    exists k: nat :: n == Pow2(k)
  }

  /** Bitwise conjunction of two unsigned words. */
  function And(x: nat, y: nat): nat {
    if x == 0 || y == 0 then 0 else (x % 2) * (y % 2) + 2 * And(x / 2, y / 2)
  }

  lemma ModDouble(x: nat, p: nat)
    requires 1 <= p
    ensures x % (2 * p) == x % 2 + 2 * ((x / 2) % p)
  {
    var q, r := (x / 2) / p, (x / 2) % p;
    assert x / 2 == q * p + r;
    assert x == (2 * p) * q + (2 * r + x % 2) by {
      assert 2 * (q * p) == (2 * p) * q;
    }
    ModUnique(x, 2 * p, q, 2 * r + x % 2);
  }

  lemma ModUnique(x: int, d: int, q: int, r: int)
    requires 0 <= r < d && x == d * q + r
    ensures x % d == r && x / d == q
  {
    var q', r' := x / d, x % d;
    assert x == d * q' + r';
    assert d * (q - q') == r' - r;
    if q' < q {
      MulMono(d, 1, q - q');
    } else if q < q' {
      MulMono(d, q - q', -1);
    }
  }

  lemma MulMono(d: int, a: int, b: int)
    requires 0 <= d && a <= b
    ensures d * a <= d * b
  {
    assert d * b - d * a == d * (b - a);
  }

  /** Masking with N - 1 reduces modulo N, for every power of two N. */
  lemma {:induction false} MaskIsMod(x: nat, k: nat)
    ensures And(x, Pow2(k) - 1) == x % Pow2(k)
    decreases k
  {
    if k > 0 {
      var p := Pow2(k - 1);
      ModDouble(x, p);
      MaskIsMod(x / 2, k - 1);
      assert (2 * p - 1) % 2 == 1 && (2 * p - 1) / 2 == p - 1;
      if x != 0 {
        assert And(x, 2 * p - 1) == (x % 2) * 1 + 2 * And(x / 2, p - 1);
      }
    }
  }

  /** The slot a ticket maps to: ticket & MASK. */
  function Slot(n: nat, t: nat): (i: nat)
    requires IsPow2(n)
    ensures i == t % n && i < n
  {
    ghost var k :| n == Pow2(k);
    MaskIsMod(t, k);
    And(t, n - 1)
  }

  /** Two tickets less than a lap apart never share a slot. */
  lemma SlotsDistinct(n: nat, a: nat, b: nat)
    requires IsPow2(n) && a != b && a < b + n && b < a + n
    ensures Slot(n, a) != Slot(n, b)
  {
    if a < b { Apart(n, a, b - a); } else { Apart(n, b, a - b); }
  }

  lemma Apart(n: nat, a: nat, d: nat)
    requires 0 < d < n
    ensures (a + d) % n != a % n
  {
    var q, r := a / n, a % n;
    assert a == n * q + r;
    if r + d < n {
      ModUnique(a + d, n, q, r + d);
    } else {
      assert n * (q + 1) == n * q + n;
      ModUnique(a + d, n, q + 1, r + d - n);
    }
  }

  /** A ticket one lap later uses the same slot. */
  lemma SlotNextLap(n: nat, t: nat)
    requires IsPow2(n)
    ensures Slot(n, t + n) == Slot(n, t)
  {
    ModUnique(t + n, n, t / n + 1, t % n);
  }
}
