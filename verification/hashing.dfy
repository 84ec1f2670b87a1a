/**
 * The three hash strategies of bloom/hash.go. Each is a pure function of the
 * element bytes and the round index `i` (Go `uint`, 64 bits here): the
 * strategy values carry no state. FNV-1a 64 is written out; the xxhash and
 * murmur3 libraries are not part of this model and stand as uninterpreted
 * functions.
 */
module Hashing {

  type byte = bv8
  type bytes = seq<byte>

  /** One-shot 64-bit xxhash of a message (the library's digest after all writes). Uninterpreted. */
  const XXH64: bytes -> bv64

  /** murmur3.Sum32WithSeed(data, seed). Uninterpreted. */
  const Murmur3Sum32: (bytes, bv32) -> bv32

  const FNV64_OFFSET_BASIS: bv64 := 14695981039346656037
  const FNV64_PRIME: bv64 := 1099511628211

  const LOW32: bv64 := 0xFFFF_FFFF

  /** `[]byte{byte(x), byte(x >> 8), byte(x >> 16), byte(x >> 24)}`: the low four bytes, little-endian. */
  function Le32(x: bv64): (b: bytes)
    ensures |b| == 4
  {
    [(x & 0xFF) as byte, ((x >> 8) & 0xFF) as byte, ((x >> 16) & 0xFF) as byte, ((x >> 24) & 0xFF) as byte]
  }

  /** Reads four little-endian bytes back as a number. */
  function Le32Value(b: bytes): (x: bv64)
    requires |b| == 4
    ensures x <= LOW32
  {
    (b[0] as bv64) | (b[1] as bv64 << 8) | (b[2] as bv64 << 16) | (b[3] as bv64 << 24)
  }

  /** The four prefix bytes encode exactly the low 32 bits of x. */
  lemma Le32RoundTrip(x: bv64)
    ensures Le32Value(Le32(x)) == x & LOW32
  {
  }

  /** Each prefix byte is a byte of the low 32 bits. */
  lemma Le32OfLow32(x: bv64)
    ensures Le32(x) == Le32(x & LOW32)
  {
    assert (x & 0xFF) == ((x & LOW32) & 0xFF);
    assert ((x >> 8) & 0xFF) == (((x & LOW32) >> 8) & 0xFF);
    assert ((x >> 16) & 0xFF) == (((x & LOW32) >> 16) & 0xFF);
    assert ((x >> 24) & 0xFF) == (((x & LOW32) >> 24) & 0xFF);
  }

  /** Two values give the same prefix exactly when their low 32 bits agree. */
  lemma Le32SameIffLow32(x: bv64, y: bv64)
    ensures Le32(x) == Le32(y) <==> x & LOW32 == y & LOW32
  {
    Le32RoundTrip(x);
    Le32RoundTrip(y);
    if x & LOW32 == y & LOW32 {
      Le32OfLow32(x);
      Le32OfLow32(y);
    }
  }

  /** One FNV-1a round: xor in the byte, then multiply by the prime modulo 2^64. */
  function Fnv1aStep(h: bv64, b: byte): bv64
  {
    (h ^ b as bv64) * FNV64_PRIME
  }

  /** FNV-1a 64 state after writing `s` to a hasher whose state is `h`. */
  function Fnv1aFrom(h: bv64, s: bytes): bv64
    decreases |s|
  {
    if s == [] then h else Fnv1aFrom(Fnv1aStep(h, s[0]), s[1..])
  }

  /** `fnv.New64a()` followed by writes of `s`, then `Sum64()`. */
  function Fnv1a64(s: bytes): bv64
  {
    Fnv1aFrom(FNV64_OFFSET_BASIS, s)
  }

  /** Writing `a` then `b` to the hasher is the same as writing `a + b`. */
  lemma {:induction false} Fnv1aWriteSplit(h: bv64, a: bytes, b: bytes)
    ensures Fnv1aFrom(h, a + b) == Fnv1aFrom(Fnv1aFrom(h, a), b)
    decreases |a|
  {
    if a == [] {
      assert a + b == b;
    } else {
      assert (a + b)[0] == a[0];
      assert (a + b)[1..] == a[1..] + b;
      Fnv1aWriteSplit(Fnv1aStep(h, a[0]), a[1..], b);
    }
  }

  /** Published FNV-1a 64 check values: the empty string and "a". */
  lemma Fnv1aKnownAnswers()
    ensures Fnv1a64([]) == 0xcbf29ce484222325
    ensures Fnv1a64([0x61]) == 0xaf63dc4c8601ec8c
  {
    assert Fnv1a64([0x61]) == Fnv1aFrom(Fnv1aStep(FNV64_OFFSET_BASIS, 0x61), []);
  }

  /** Seed of the XXHash strategy: `uint64(i) * 0x9e3779b185ebca87`, wrapping. */
  function XXSeed(i: bv64): bv64
  {
    i * 0x9e3779b185ebca87
  }

  /** Go's `uint32(i)`: truncation to the low 32 bits. */
  function Uint32(i: bv64): (r: bv32)
    ensures r as bv64 == i & LOW32
  {
    (i & 0xFFFF_FFFF) as bv32
  }

  /** Two round indices give the same Murmur3 seed input exactly when their low 32 bits agree. */
  lemma Uint32SameIffLow32(i: bv64, j: bv64)
    ensures Uint32(i) == Uint32(j) <==> i & LOW32 == j & LOW32
  {
    var a, b := Uint32(i), Uint32(j);
    if a == b {
      assert a as bv64 == b as bv64;
    } else {
      assert a as bv64 != b as bv64 by { ZeroExtendInjective(a, b); }
    }
  }

  lemma ZeroExtendInjective(a: bv32, b: bv32)
    requires a != b
    ensures a as bv64 != b as bv64
  {
  }

  /** Seed of the Murmur3 strategy from `u = uint32(i)`: `u * 0x9e3779b9`, wrapping at 32 bits. */
  function MurmurSeed(u: bv32): bv32
  {
    u * 0x9e3779b9
  }

  datatype HashStrategy = XXHashStrategy | Murmur3Strategy | FNVStrategy
  {
    /** `Hash(data, i)` of the strategy. */
    function Hash(data: bytes, i: bv64): (h: bv64)
      ensures Murmur3Strategy? ==> h <= LOW32
    {
      match this
      case XXHashStrategy => XXH64(Le32(XXSeed(i)) + data)
      case Murmur3Strategy => Murmur3Sum32(data, MurmurSeed(Uint32(i))) as bv64
      case FNVStrategy => Fnv1a64(Le32(i) + data)
    }

    /** The bytes written to the hasher before the element (none for Murmur3, which takes a seed). */
    function SeedPrefix(i: bv64): (p: bytes)
      ensures Murmur3Strategy? <==> p == []
    {
      match this
      case XXHashStrategy => Le32(XXSeed(i))
      case Murmur3Strategy => []
      case FNVStrategy => Le32(i)
    }
  }

  /**
   * The element is written after the round's prefix, unchanged: rounds differ
   * only through the prefix (XXHash, FNV) or the seed (Murmur3). The XXHash
   * and Murmur3 clauses are definitional; the FNV clause is the content: the
   * two `h.Write` calls give the digest of the concatenation.
   */
  lemma HashIsPrefixedDigest(s: HashStrategy, data: bytes, i: bv64)
    ensures s.XXHashStrategy? ==> s.Hash(data, i) == XXH64(s.SeedPrefix(i) + data)
    ensures s.FNVStrategy? ==> s.Hash(data, i) == Fnv1aFrom(Fnv1a64(s.SeedPrefix(i)), data)
    ensures s.Murmur3Strategy? ==> s.Hash(data, i) == Murmur3Sum32(data, MurmurSeed(Uint32(i))) as bv64
  {
    Fnv1aWriteSplit(FNV64_OFFSET_BASIS, Le32(i), data);
  }

  /**
   * Only four bytes of seed material reach each digest: the low 32 bits of the
   * XXHash seed, and the low 32 bits of `i` for FNV and Murmur3.
   */
  lemma HashUsesLow32OfSeed(s: HashStrategy, data: bytes, i: bv64, j: bv64)
    requires s.XXHashStrategy? ==> XXSeed(i) & LOW32 == XXSeed(j) & LOW32
    requires !s.XXHashStrategy? ==> i & LOW32 == j & LOW32
    ensures s.Hash(data, i) == s.Hash(data, j)
  {
    match s
    case XXHashStrategy =>
      Le32SameIffLow32(XXSeed(i), XXSeed(j));
      assert s.SeedPrefix(i) == s.SeedPrefix(j);
      HashIsPrefixedDigest(s, data, i);
      HashIsPrefixedDigest(s, data, j);
    case Murmur3Strategy =>
      assert Uint32(i) as bv64 == Uint32(j) as bv64;
      HashIsPrefixedDigest(s, data, i);
      HashIsPrefixedDigest(s, data, j);
    case FNVStrategy =>
      Le32SameIffLow32(i, j);
      assert s.SeedPrefix(i) == s.SeedPrefix(j);
      HashIsPrefixedDigest(s, data, i);
      HashIsPrefixedDigest(s, data, j);
  }

  /** The seed material of the two rounds used for double hashing. */
  lemma RoundSeeds()
    ensures Le32(XXSeed(0)) == [0, 0, 0, 0]
    ensures Le32(XXSeed(1)) == [0x87, 0xca, 0xeb, 0x85]
    ensures MurmurSeed(Uint32(0)) == 0 && MurmurSeed(Uint32(1)) == 0x9e3779b9
    ensures Le32(0) == [0, 0, 0, 0] && Le32(1) == [1, 0, 0, 0]
  {
  }
}
