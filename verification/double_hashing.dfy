/**
 * The arithmetic of double hashing used by `getHashPositions` (bloom/bloom.go):
 * from two 64-bit hashes h1, h2 the i-th probe is
 *   ((h1 + uint64(i) * h2) mod 2^64) mod bitSize
 * with h2 first forced odd. Every uint64 operation wraps before the final
 * modulo; the wrap is written out explicitly here.
 */
module DoubleHashing {

  const TWO_64: int := 0x1_0000_0000_0000_0000

  /** Go's uint64. */
  type u64 = x: int | 0 <= x < TWO_64

  /** Step used for the probe sequence: `h2`, incremented when even. */
  function OddStep(h2: u64): (s: u64)
    ensures s % 2 == 1
    ensures h2 % 2 == 1 ==> s == h2
    ensures h2 % 2 == 0 ==> s == h2 + 1
  {
    if h2 % 2 == 0 then h2 + 1 else h2
  }

  /** Go's `a + b` on uint64. */
  function Add64(a: u64, b: u64): (r: u64)
    ensures r == (a + b) % TWO_64
  {
    if a + b < TWO_64 then a + b else a + b - TWO_64
  }

  /** Go's `a * b` on uint64. */
  function Mul64(a: u64, b: u64): (r: u64)
  {
    (a * b) % TWO_64
  }

  /** Probe number `i`: `(h1 + uint64(i)*step) % bitSize`, each uint64 operation wrapping. */
  function Position(h1: u64, step: u64, i: u64, bitSize: nat): (p: nat)
    requires bitSize >= 1
    ensures p < bitSize
  {
    Add64(h1, Mul64(i, step)) % bitSize
  }

  /** The whole probe sequence for hashes h1 (round 0) and h2 (round 1). */
  function Probe(h1: u64, h2: u64, hashCount: u64, bitSize: nat): (ps: seq<nat>)
    requires bitSize >= 1
    ensures |ps| == hashCount
    ensures forall i :: 0 <= i < hashCount ==> ps[i] < bitSize
  {
    seq(hashCount, i requires 0 <= i < hashCount => Position(h1, OddStep(h2), i, bitSize))
  }

  function Pow2(j: nat): (r: nat)
    ensures r >= 1
  {
    if j == 0 then 1 else 2 * Pow2(j - 1)
  }

  lemma {:induction false} Pow2Split(a: nat, b: nat)
    ensures Pow2(a + b) == Pow2(a) * Pow2(b)
  {
    if a > 0 {
      Pow2Split(a - 1, b);
      assert Pow2(a + b) == 2 * Pow2(a - 1 + b);
    }
  }

  lemma Pow2At64()
    ensures Pow2(64) == TWO_64
  {
    assert Pow2(8) == 256;
    Pow2Split(8, 8);
    Pow2Split(16, 16);
    Pow2Split(32, 32);
  }

  /** Euclidean division is unique: a decomposition x = q*n + r with 0 <= r < n gives x % n. */
  lemma ModUnique(x: int, n: int, q: int, r: int)
    requires n > 0 && 0 <= r < n && x == q * n + r
    ensures x % n == r
  {
    var q', r' := x / n, x % n;
    assert x == q' * n + r';
    assert (q - q') * n == r' - r;
    if q > q' {
      assert (q - q') * n >= n by { MulAtLeast(q - q', n); }
    } else if q < q' {
      assert (q' - q) * n >= n by { MulAtLeast(q' - q, n); }
    }
  }

  lemma MulAtLeast(d: int, n: int)
    requires d >= 1 && n > 0
    ensures d * n >= n
  {
    assert d * n == (d - 1) * n + n;
  }

  /** Reducing modulo a multiple of n first does not change the residue modulo n. */
  lemma ModOfMultipleMod(x: int, n: int, c: int)
    requires x >= 0 && n > 0 && c > 0
    ensures (x % (c * n)) % n == x % n
  {
    var q, r := x / (c * n), x % (c * n);
    assert x == q * (c * n) + r;
    ModUnique(r, n, r / n, r % n);
    assert x == (q * c + r / n) * n + r % n;
    ModUnique(x, n, q * c + r / n, r % n);
  }

  /** Adding a multiple of n leaves the residue unchanged. */
  lemma ModAddMultiple(x: int, n: int, c: int)
    requires n > 0
    ensures (x + c * n) % n == x % n
  {
    ModUnique(x + c * n, n, x / n + c, x % n);
  }

  /** Wrapping the product before the sum is the same as wrapping once. */
  lemma WrapOnce(h1: u64, step: u64, i: u64)
    ensures Add64(h1, Mul64(i, step)) == (h1 + i * step) % TWO_64
  {
    var p := i * step;
    assert p == (p / TWO_64) * TWO_64 + p % TWO_64;
    ModAddMultiple(h1 + p % TWO_64, TWO_64, p / TWO_64);
  }

  /** An odd factor never contributes a power of two: 2^j | d*s with s odd forces 2^j | d. */
  lemma {:induction false} OddFactor(d: nat, s: nat, j: nat)
    requires s % 2 == 1
    requires (d * s) % Pow2(j) == 0
    ensures d % Pow2(j) == 0
  {
    if j == 0 {
    } else {
      var m := Pow2(j - 1);
      var c := (d * s) / Pow2(j);
      assert d * s == c * (2 * m);
      var t := s / 2;
      assert s == 2 * t + 1;
      assert d * s == 2 * (d * t) + d;
      // d * s is even, so d is even
      assert d % 2 == 0 by {
        ModUnique(d * s, 2, c * m, 0);
        if d % 2 == 1 {
          ModUnique(d * s, 2, d * t + d / 2, 1);
        }
      }
      var e := d / 2;
      assert d == 2 * e;
      assert 2 * (e * s) == 2 * (c * m);
      assert e * s == c * m;
      ModUnique(e * s, m, c, 0);
      OddFactor(e, s, j - 1);
      var f := e / m;
      assert e == f * m;
      assert d == f * Pow2(j);
      ModUnique(d, Pow2(j), f, 0);
    }
  }

  /**
   * Why the step is made odd: when bitSize is a power of two (up to 2^64), the
   * first min(hashCount, bitSize) probes are pairwise distinct, whatever h1 and h2 are.
   */
  lemma ProbesDistinctForPowerOfTwo(h1: u64, h2: u64, hashCount: u64, j: nat)
    requires j <= 64
    requires hashCount <= Pow2(j)
    ensures var ps := Probe(h1, h2, hashCount, Pow2(j));
            forall a, b :: 0 <= a < b < hashCount ==> ps[a] != ps[b]
  {
    var m := Pow2(j);
    var ps := Probe(h1, h2, hashCount, m);
    forall a, b | 0 <= a < b < hashCount
      ensures ps[a] != ps[b]
    {
      ProbePairDistinct(h1, OddStep(h2), a, b, j);
    }
  }

  /** Equal residues differ by a multiple. */
  lemma CongruentDifference(x: int, y: int, m: int)
    requires m > 0 && x % m == y % m
    ensures (y - x) % m == 0
  {
    assert x == (x / m) * m + x % m;
    assert y == (y / m) * m + y % m;
    assert y - x == (y / m - x / m) * m;
    ModUnique(y - x, m, y / m - x / m, 0);
  }

  /** 2^j divides 2^64, so reducing modulo 2^64 first does not change a residue modulo 2^j. */
  lemma ModPow2Of64(x: int, j: nat)
    requires x >= 0 && j <= 64
    ensures (x % TWO_64) % Pow2(j) == x % Pow2(j)
  {
    Pow2At64();
    Pow2Split(64 - j, j);
    ModOfMultipleMod(x, Pow2(j), Pow2(64 - j));
  }

  /** The probe before the final modulo, reduced modulo a power of two that divides 2^64. */
  lemma PositionModPow2(h1: u64, s: u64, i: u64, j: nat)
    requires j <= 64
    ensures Position(h1, s, i, Pow2(j)) == (h1 + i * s) % Pow2(j)
  {
    WrapOnce(h1, s, i);
    ModPow2Of64(h1 + i * s, j);
  }

  lemma ProbePairDistinct(h1: u64, s: u64, a: u64, b: u64, j: nat)
    requires j <= 64 && s % 2 == 1
    requires a < b && b - a < Pow2(j)
    ensures Position(h1, s, a, Pow2(j)) != Position(h1, s, b, Pow2(j))
  {
    var m := Pow2(j);
    PositionModPow2(h1, s, a, j);
    PositionModPow2(h1, s, b, j);
    if (h1 + a * s) % m == (h1 + b * s) % m {
      CongruentDifference(h1 + a * s, h1 + b * s, m);
      assert (h1 + b * s) - (h1 + a * s) == (b - a) * s;
      OddFactor(b - a, s, j);
      ModUnique(b - a, m, 0, b - a);
      assert false;
    }
  }
}
