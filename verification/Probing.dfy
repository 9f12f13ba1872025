/** The probe order of khash: triangular steps over a power-of-two table
    (paxos/include/khash.h, lines 43-52 and 198-211). */
module Probing {
  import opened FiniteSets

  ghost predicate IsPow2(n: nat) {
    n == 1 || (n % 2 == 0 && 0 < n && IsPow2(n / 2))
  }

  /** Sum of the steps 1, 2, ..., s taken so far. */
  function Tri(s: nat): nat {
    s * (s + 1) / 2
  }

  /** Bucket reached from the home bucket of `key` after `s` steps of `i = (i + ++step) & mask`. */
  function Probe(key: nat, s: nat, n: nat): (i: nat)
    requires 0 < n
    ensures i < n
  {
    if s == 0 then key % n else (Probe(key, s - 1, n) + s) % n
  }

  lemma ProbeNext(key: nat, s: nat, n: nat)
    requires 0 < n
    ensures Probe(key, s + 1, n) == (Probe(key, s, n) + (s + 1)) % n
  {
  }

  lemma TriDouble(s: nat)
    ensures 2 * Tri(s) == s * (s + 1)
  {
    if s % 2 == 0 {
      assert s == 2 * (s / 2);
      assert s * (s + 1) == 2 * (s / 2 * (s + 1));
    } else {
      assert s + 1 == 2 * ((s + 1) / 2);
      assert s * (s + 1) == 2 * (s * ((s + 1) / 2));
    }
  }

  lemma TriSucc(s: nat)
    ensures Tri(s + 1) == Tri(s) + s + 1
  {
    TriDouble(s);
    TriDouble(s + 1);
    assert (s + 1) * (s + 2) == s * (s + 1) + 2 * (s + 1);
  }

  lemma ModUnique(x: int, q: int, r: int, n: int)
    requires 0 < n && x == n * q + r && 0 <= r < n
    ensures x / n == q && x % n == r
  {
    var d := x / n - q;
    assert n * d == r - x % n;
    MulBound(n, d);
  }

  lemma MulBound(n: int, d: int)
    requires 0 < n
    ensures 1 <= d ==> n <= n * d
    ensures d <= -1 ==> n * d <= -n
  {
    if 1 <= d {
      assert n * d == n * (d - 1) + n;
    } else if d <= -1 {
      assert n * d == n * (d + 1) - n;
    }
  }

  lemma ModShift(x: nat, q: int, n: nat)
    requires 0 < n
    ensures (x + n * q) % n == x % n
  {
    assert n * (x / n + q) == n * (x / n) + n * q;
    ModUnique(x + n * q, x / n + q, x % n, n);
  }

  lemma ModAdd(a: nat, b: nat, n: nat)
    requires 0 < n
    ensures (a % n + b) % n == (a + b) % n
  {
    ModShift(a % n + b, a / n, n);
  }

  /** The walk in closed form: `s` steps lead s(s+1)/2 buckets away from home. */
  lemma {:induction false} ProbeClosedForm(key: nat, s: nat, n: nat)
    requires 0 < n
    ensures Probe(key, s, n) == (key + Tri(s)) % n
  {
    if s == 0 {
      assert Tri(0) == 0;
    } else {
      ProbeClosedForm(key, s - 1, n);
      TriSucc(s - 1);
      ModAdd(key + Tri(s - 1), s, n);
    }
  }

  /** A power of two that divides a product with one odd factor divides the other factor. */
  lemma {:induction false} Pow2DividesCofactor(m: nat, a: nat, b: nat, q: nat) returns (p: nat)
    requires IsPow2(m) && b % 2 == 1 && a * b == m * q
    ensures a == m * p
  {
    if m == 1 {
      p := a;
    } else {
      var h := m / 2;
      assert m * q == 2 * (h * q);
      EvenCofactor(a, b, h * q);
      var a' := a / 2;
      assert 2 * (a' * b) == a * b;
      p := Pow2DividesCofactor(h, a', b, q);
      assert 2 * (h * p) == m * p;
    }
  }

  lemma EvenCofactor(a: nat, b: nat, c: nat)
    requires b % 2 == 1 && a * b == 2 * c
    ensures a % 2 == 0
  {
    assert a * b == 2 * (a * (b / 2)) + a;
  }

  /** No product of two integers of opposite parity, both positive and below m, is a multiple of m. */
  lemma OppositeParityProduct(m: nat, a: nat, b: nat, q: nat)
    requires IsPow2(m) && 0 < a < m && 0 < b < m && a % 2 != b % 2
    ensures a * b != m * q
  {
    if a * b == m * q {
      if b % 2 == 1 {
        NoMultipleBelow(m, a, b, q);
      } else {
        NoMultipleBelow(m, b, a, q);
      }
    }
  }

  lemma NoMultipleBelow(m: nat, a: nat, b: nat, q: nat)
    requires IsPow2(m) && b % 2 == 1 && a * b == m * q
    ensures a == 0 || m <= a
  {
    var p := Pow2DividesCofactor(m, a, b, q);
    MulBound(m, p);
  }

  lemma Pow2Double(n: nat)
    requires IsPow2(n)
    ensures IsPow2(2 * n)
  {
    assert 2 * n / 2 == n;
  }

  /** Congruent numbers differ by a multiple of the modulus. */
  lemma ModEqual(x: nat, y: nat, n: nat) returns (q: nat)
    requires 0 < n && x <= y && x % n == y % n
    ensures y - x == n * q
  {
    var d := y / n - x / n;
    assert y - x == n * d;
    MulBound(n, d);
    q := d;
  }

  /** In a power-of-two table the first n probes are pairwise different. */
  lemma ProbesDistinct(key: nat, s: nat, t: nat, n: nat)
    requires IsPow2(n) && s < t < n
    ensures Probe(key, s, n) != Probe(key, t, n)
  {
    ProbeClosedForm(key, s, n);
    ProbeClosedForm(key, t, n);
    if Probe(key, s, n) == Probe(key, t, n) {
      TriDifference(s, t);
      var q := ModEqual(key + Tri(s), key + Tri(t), n);
      Regroup(n, q);
      OppositeParity(s, t - s);
      Pow2Double(n);
      OppositeParityProduct(2 * n, t - s, t + s + 1, q);
    }
  }

  lemma OppositeParity(s: nat, d: nat)
    ensures d % 2 != (d + s + s + 1) % 2
  {
  }

  lemma TriDifference(s: nat, t: nat)
    requires s <= t
    ensures (t - s) * (t + s + 1) == 2 * (Tri(t) - Tri(s))
    ensures Tri(s) <= Tri(t)
  {
    TriDouble(s);
    TriDouble(t);
    assert (t - s) * (t + s + 1) == t * (t + 1) - s * (s + 1);
  }

  lemma Regroup(n: nat, q: nat)
    ensures 2 * (n * q) == 2 * n * q
  {
  }

  /** The walk is back at its start for the first time only after 2n - 1 steps. */
  lemma ReturnsLate(key: nat, s: nat, n: nat)
    requires IsPow2(n) && 0 < s && Probe(key, s, n) == Probe(key, 0, n)
    ensures 2 * n - 1 <= s
  {
    if s < 2 * n - 1 {
      var q := ReturnDivides(key, s, n);
      Pow2Double(n);
      hide Probe, IsPow2;
      OppositeParityProduct(2 * n, s, s + 1, q);
    }
  }

  lemma ReturnDivides(key: nat, s: nat, n: nat) returns (q: nat)
    requires 0 < n && Probe(key, s, n) == Probe(key, 0, n)
    ensures s * (s + 1) == 2 * n * q
  {
    ProbeClosedForm(key, s, n);
    TriDouble(s);
    q := ModEqual(key, key + Tri(s), n);
    Regroup(n, q);
  }

  /** It is indeed back then, so the loops' test for the start fires by step 2n - 1. */
  lemma ReturnsEventually(key: nat, n: nat)
    requires 0 < n
    ensures Probe(key, 2 * n - 1, n) == Probe(key, 0, n)
  {
    var s := 2 * n - 1;
    ProbeClosedForm(key, s, n);
    TriDouble(s);
    assert s * (s + 1) == 2 * (s * n);
    assert Tri(s) == n * s;
    ModShift(key, s, n);
  }

  /** The set of buckets touched by the first `s` probes. */
  ghost function Visited(key: nat, s: nat, n: nat): set<nat>
    requires 0 < n
  {
    set t: nat | t < s :: Probe(key, t, n)
  }

  lemma {:induction false} VisitedCount(key: nat, s: nat, n: nat)
    requires IsPow2(n) && s <= n
    ensures |Visited(key, s, n)| == s
  {
    if s != 0 {
      VisitedCount(key, s - 1, n);
      FreshBucket(key, s - 1, n);
      VisitedNext(key, s - 1, n);
    }
  }

  lemma FreshBucket(key: nat, s: nat, n: nat)
    requires IsPow2(n) && s < n
    ensures Probe(key, s, n) !in Visited(key, s, n)
  {
    forall t: nat | t < s ensures Probe(key, t, n) != Probe(key, s, n) {
      ProbesDistinct(key, t, s, n);
    }
  }

  lemma VisitedNext(key: nat, s: nat, n: nat)
    requires 0 < n
    ensures Visited(key, s + 1, n) == Visited(key, s, n) + {Probe(key, s, n)}
  {
  }

  /** The first n probes visit every bucket. */
  lemma ProbesCover(key: nat, n: nat, i: nat) returns (s: nat)
    requires IsPow2(n) && i < n
    ensures s < n && Probe(key, s, n) == i
  {
    VisitedCount(key, n, n);
    SubsetSameSize(Visited(key, n, n), Below(n));
    assert i in Visited(key, n, n);
    s :| s < n && Probe(key, s, n) == i;
  }
}
