/** Natural-number facts about powers and flat-buffer offsets (slot * length + offset). */
module Arith {

  /** b raised to the e-th power. */
  function Pow(b: nat, e: nat): nat
  {
    if e == 0 then 1 else b * Pow(b, e - 1)
  }

  lemma {:induction false} PowPositive(b: nat, e: nat)
    requires b > 0
    ensures Pow(b, e) > 0
  {
    if e > 0 {
      PowPositive(b, e - 1);
    }
  }

  /** d copies of a are at least one a. */
  lemma MulAtLeast(d: int, a: int)
    requires d >= 1 && a >= 0
    ensures d * a >= a
  {
    assert d * a == a + (d - 1) * a;
  }

  /** Euclidean division has exactly one quotient and remainder. */
  lemma DivModUnique(x: int, a: int, q: int, r: int)
    requires 0 < a && 0 <= r < a && x == q * a + r
    ensures x / a == q && x % a == r
  {
    var q0, r0 := x / a, x % a;
    assert x == q0 * a + r0;
    assert (q0 - q) * a == r - r0;
    if q0 > q {
      MulAtLeast(q0 - q, a);
    } else if q > q0 {
      MulAtLeast(q - q0, a);
    }
  }

  /** Entry t of slot s of a buffer built from slots of length len. */
  lemma SlotDecompose(s: nat, t: nat, len: nat)
    requires t < len
    ensures (s * len + t) / len == s && (s * len + t) % len == t
  {
    DivModUnique(s * len + t, len, s, t);
  }

  /** The slot of an index below n slots is below n. */
  lemma SlotBelow(k: nat, len: nat, n: nat)
    requires 0 < len && k < n * len
    ensures k / len < n
  {
    var q := k / len;
    assert k == q * len + k % len;
    if q >= n {
      MulAtLeast(q - n + 1, len);
    }
  }

  /** Slot m ends where slot m + 1 begins, and within n slots when m < n. */
  lemma SlotEnd(m: nat, len: nat, n: nat)
    requires m < n
    ensures (m + 1) * len == m * len + len && (m + 1) * len <= n * len
  {
    assert n * len == (m + 1) * len + (n - m - 1) * len;
  }

  /** Reducing modulo a*m and then modulo a is reducing modulo a. */
  lemma ModOfMod(k: nat, a: nat, m: nat)
    requires 0 < a && 0 < m
    ensures (k % (a * m)) % a == k % a
  {
    var q, r := k / (a * m), k % (a * m);
    var q2, r2 := r / a, r % a;
    assert k == q * (a * m) + r;
    assert r == q2 * a + r2;
    assert k == (q * m + q2) * a + r2;
    DivModUnique(k, a, q * m + q2, r2);
  }

  /** Entry i of tuple v of a buffer whose length is m tuples of width w, reduced modulo that length. */
  lemma TupleMod(v: nat, i: nat, w: nat, m: nat)
    requires i < w && 0 < m
    ensures (w * v + i) % (w * m) == w * (v % m) + i
  {
    var q, r := v / m, v % m;
    assert v == q * m + r;
    assert w * v + i == q * (w * m) + (w * r + i);
    assert w * r + i < w * m by {
      MulAtLeast(m - r, w);
      assert w * m == w * r + w * (m - r);
    }
    DivModUnique(w * v + i, w * m, q, w * r + i);
  }

  /** In a buffer made of slots of whole w-tuples, entry j of slot s sits at tuple position j % w. */
  lemma SlotTuplePosition(s: nat, j: nat, len: nat, w: nat)
    requires 0 < w && len % w == 0
    ensures (s * len + j) % w == j % w
  {
    var t := len / w;
    assert len == w * t;
    assert s * len == w * (s * t);
    assert s * len + j == (s * t + j / w) * w + j % w;
    DivModUnique(s * len + j, w, s * t + j / w, j % w);
  }
}
