/** Triangular ("quadratic") probing over a power of two of buckets. */
module Probing {
  import opened Bits
  import opened Division

  ghost predicate IsPow2(n: nat) {
    exists p: nat :: n == Pow2(p)
  }

  /** 1 + 2 + ... + k, the distance of the k-th probe from the home bucket. */
  function Triangle(k: nat): nat {
    if k == 0 then 0 else Triangle(k - 1) + k
  }

  /** The bucket of the k-th probe of a hash value; masking with n - 1 is reduction modulo n (MaskIsModulo). */
  function Probe(hash: nat, k: nat, n: nat): (b: nat)
    requires n > 0
    ensures b < n
  {
    (hash + Triangle(k)) % n
  }

  // ----- masking is reduction

  lemma HalfMod(x: nat, m: nat)
    requires m > 0
    ensures x % (2 * m) == 2 * (x / 2 % m) + x % 2
  {
    var q, r := x / 2 / m, x / 2 % m;
    assert x / 2 == m * q + r;
    assert 2 * (m * q) == 2 * m * q;
    ModUnique(x, 2 * m, q, 2 * r + x % 2);
  }

  lemma {:induction false} MaskIsModulo(x: nat, m: nat, p: nat)
    requires m == Pow2(p)
    ensures And(x, m - 1) == x % m
  {
    if p > 0 {
      var h := Pow2(p - 1);
      MaskIsModulo(x / 2, h, p - 1);
      HalfMod(x, h);
      AndOddMask(x, h - 1);
    }
  }

  lemma AndOddMask(x: nat, t: nat)
    ensures And(x, 2 * t + 1) == 2 * And(x / 2, t) + x % 2
  {
    assert (2 * t + 1) / 2 == t;
  }

  /** The loop step of the source: adding the probe number to the previous bucket gives the next probe. */
  lemma ProbeStep(hash: nat, k: nat, n: nat)
    requires n > 0
    ensures Probe(hash, k + 1, n) == (Probe(hash, k, n) + (k + 1)) % n
    ensures Probe(hash, 0, n) == hash % n
  {
    AddModulo(hash + Triangle(k), k + 1, n);
  }

  lemma AddModulo(x: nat, d: nat, n: nat)
    requires n > 0
    ensures (x + d) % n == (x % n + d) % n
  {
    var q, r := x / n, x % n;
    assert x == n * q + r;
    ModShift(r + d, n, q);
  }

  lemma {:induction false} TriangleTwice(k: nat)
    ensures 2 * Triangle(k) == k * (k + 1)
  {
    if k > 0 {
      TriangleTwice(k - 1);
    }
  }

  lemma {:induction false} TriangleGrows(i: nat, j: nat)
    requires i <= j
    ensures Triangle(i) <= Triangle(j)
    decreases j
  {
    if i < j {
      TriangleGrows(i, j - 1);
    }
  }

  ghost predicate Multiple(x: nat, n: nat) {
    exists q: nat :: x == n * q
  }

  lemma SmallMultiple(x: nat, n: nat)
    requires 0 < x < n
    ensures !Multiple(x, n)
  {
    if q: nat :| x == n * q {
      if q > 0 {
        MulAtLeast(n, q);
      }
    }
  }

  lemma OddTimes(a: nat, b: nat)
    requires b % 2 == 1 && a * b % 2 == 0
    ensures a % 2 == 0
  {
    var c := b / 2;
    assert a * b == 2 * (a * c) + a by {
      assert a * (2 * c + 1) == 2 * (a * c) + a;
    }
  }

  lemma HalfMultiple(a: nat, b: nat, m: nat)
    requires b % 2 == 1 && Multiple(a * b, 2 * m)
    ensures a % 2 == 0 && Multiple(a / 2 * b, m)
  {
    var q: nat :| a * b == 2 * m * q;
    DoubleProduct(m, q);
    OddTimes(a, b);
    DoubleProduct(a / 2, b);
    assert a / 2 * b == m * q;
  }

  /** A power of two that divides a product divides the one factor when the other is odd. */
  lemma {:induction false} OddFactorDrops(a: nat, b: nat, p: nat)
    requires b % 2 == 1 && Multiple(a * b, Pow2(p))
    ensures Multiple(a, Pow2(p))
  {
    if p == 0 {
      assert a == Pow2(0) * a;
    } else {
      HalfMultiple(a, b, Pow2(p - 1));
      OddFactorDrops(a / 2, b, p - 1);
      var r: nat :| a / 2 == Pow2(p - 1) * r;
      DoubleProduct(Pow2(p - 1), r);
      assert a == Pow2(p) * r;
    }
  }

  lemma DoubleProduct(m: nat, r: nat)
    ensures 2 * (m * r) == 2 * m * r
  {
  }

  lemma AddResidues(q: nat, k: nat, r: nat, s: nat, n: nat)
    requires r < n && s < n
    ensures (n * q + r + (n * k + s)) % n == if r + s < n then r + s else r + s - n
  {
    assert n * q + n * k == n * (q + k);
    if r + s < n {
      ModUnique(n * q + r + (n * k + s), n, q + k, r + s);
    } else {
      assert n * (q + k) + n == n * (q + k + 1);
      ModUnique(n * q + r + (n * k + s), n, q + k + 1, r + s - n);
    }
  }

  lemma SameResidue(x: nat, y: nat, n: nat)
    requires n > 0 && x <= y && x % n == y % n
    ensures Multiple(y - x, n)
  {
    var d := y - x;
    assert x == n * (x / n) + x % n && d == n * (d / n) + d % n;
    AddResidues(x / n, d / n, x % n, d % n, n);
    assert d == n * (d / n);
  }

  /** Twice the distance between two probes is a product of factors of different parity. */
  lemma TriangleDifference(i: nat, j: nat)
    requires i < j
    ensures Triangle(i) <= Triangle(j)
    ensures 2 * (Triangle(j) - Triangle(i)) == (j - i) * (j + i + 1)
  {
    TriangleGrows(i, j);
    TriangleTwice(i);
    TriangleTwice(j);
    assert (j - i) * (j + i + 1) == j * (j + 1) - i * (i + 1);
  }

  lemma OddProduct(d: nat, s: nat, q: nat, m: nat, p: nat)
    requires m == Pow2(p) && 0 < s < m && d % 2 == 1
    ensures s * d != m * q
  {
    if s * d == m * q {
      OddFactorDrops(s, d, p);
      SmallMultiple(s, m);
    }
  }

  lemma MixedParityProduct(d: nat, s: nat, q: nat, m: nat, p: nat)
    requires m == Pow2(p) && 0 < d < m && 0 < s < m && (d + s) % 2 == 1
    ensures d * s != m * q
  {
    if d % 2 == 1 {
      OddProduct(d, s, q, m, p);
    } else {
      OddProduct(s, d, q, m, p);
    }
  }

  /** Two of the first n probes never meet: triangular numbers are distinct modulo a power of two. */
  lemma ProbesDistinct(hash: nat, i: nat, j: nat, n: nat)
    requires IsPow2(n) && i < j < n
    ensures Probe(hash, i, n) != Probe(hash, j, n)
  {
    if Probe(hash, i, n) == Probe(hash, j, n) {
      TriangleDifference(i, j);
      var t := Triangle(j) - Triangle(i);
      SameResidue(hash + Triangle(i), hash + Triangle(j), n);
      assert Multiple(t, n);
      var q: nat :| t == n * q;
      var p: nat :| n == Pow2(p);
      NoDoubleMultiple(j - i, j + i + 1, t, q, n, p);
    }
  }

  lemma NoDoubleMultiple(d: nat, s: nat, t: nat, q: nat, n: nat, p: nat)
    requires n == Pow2(p) && t == n * q && 0 < d < 2 * n && 0 < s < 2 * n && (d + s) % 2 == 1
    ensures d * s != 2 * t
  {
    assert 2 * t == 2 * n * q;
    MixedParityProduct(d, s, q, 2 * n, p + 1);
  }

  /** The buckets of the first j probes. */
  function ProbeSet(hash: nat, j: nat, n: nat): (s: set<nat>)
    requires n > 0
    ensures forall b :: b in s ==> b < n
  {
    if j == 0 then {} else ProbeSet(hash, j - 1, n) + {Probe(hash, j - 1, n)}
  }

  lemma {:induction false} ProbeSetMember(hash: nat, j: nat, n: nat, b: nat)
    requires n > 0 && b in ProbeSet(hash, j, n)
    ensures exists k: nat :: k < j && Probe(hash, k, n) == b
  {
    if b != Probe(hash, j - 1, n) {
      ProbeSetMember(hash, j - 1, n, b);
    }
  }

  lemma {:induction false} ProbeSetSize(hash: nat, j: nat, n: nat)
    requires IsPow2(n) && j <= n
    ensures |ProbeSet(hash, j, n)| == j
  {
    if j > 0 {
      ProbeSetSize(hash, j - 1, n);
      if Probe(hash, j - 1, n) in ProbeSet(hash, j - 1, n) {
        ProbeSetMember(hash, j - 1, n, Probe(hash, j - 1, n));
        var k: nat :| k < j - 1 && Probe(hash, k, n) == Probe(hash, j - 1, n);
        ProbesDistinct(hash, k, j - 1, n);
      }
    }
  }

  lemma {:induction false} FullSubset(s: set<nat>, n: nat)
    requires (forall b :: b in s ==> b < n) && |s| == n
    ensures forall b: nat :: b < n ==> b in s
  {
    if n > 0 {
      if n - 1 !in s {
        BoundedSize(s, n - 1);
      } else {
        assert |s - {n - 1}| == n - 1;
        FullSubset(s - {n - 1}, n - 1);
      }
    }
  }

  lemma {:induction false} BoundedSize(s: set<nat>, n: nat)
    requires forall b :: b in s ==> b < n
    ensures |s| <= n
  {
    if n == 0 {
      assert s == {};
    } else {
      BoundedSize(s - {n - 1}, n - 1);
    }
  }

  /** The first n probes visit every one of the n buckets ... */
  lemma ProbesCover(hash: nat, n: nat, b: nat)
    requires IsPow2(n) && b < n
    ensures exists k: nat :: k < n && Probe(hash, k, n) == b
  {
    ProbeSetSize(hash, n, n);
    FullSubset(ProbeSet(hash, n, n), n);
    ProbeSetMember(hash, n, n, b);
  }

  /** ... and each exactly once. */
  lemma ProbesOnce(hash: nat, n: nat, i: nat, j: nat)
    requires IsPow2(n) && i < n && j < n && Probe(hash, i, n) == Probe(hash, j, n)
    ensures i == j
  {
    if i < j {
      ProbesDistinct(hash, i, j, n);
    } else if j < i {
      ProbesDistinct(hash, j, i, n);
    }
  }

  lemma Pow2Doubles(n: nat)
    requires IsPow2(n)
    ensures IsPow2(2 * n) && n > 0
    ensures n > 1 ==> n % 2 == 0 && IsPow2(n / 2)
  {
    var p: nat :| n == Pow2(p);
    assert 2 * n == Pow2(p + 1);
    if n > 1 {
      assert n / 2 == Pow2(p - 1);
    }
  }
}
