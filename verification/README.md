# redis-bloom-go: a verified model of the filter engine

redis-bloom-go is a Go library for a Bloom filter whose bit array lives in
Redis. This project models two parts of it in Dafny:

- the filter engine of `bloom/bloom.go`;
- the seeded hash strategies of `bloom/hash.go`.

A filter is built from a `Config`:

- `NewBloomFilter` checks the config in a fixed order.
- It sizes the filter with `calculateOptimalParameters`.
- It defaults the hash strategy to XXHash.

For an element, the filter computes `hashCount` bit offsets by double hashing:

- h1 is the round-0 hash and h2 the round-1 hash.
- h2 is made odd.
- Probe i is `((h1 + i*h2) mod 2^64) mod bitSize`.

Sending the offsets to Redis:

- `Add` queues one SETBIT per offset on a pipeline and executes it. On success it may add an EXPIRE.
- `Exists` queues one GETBIT per offset. It answers true exactly when every bit is 1.
- Either way, a pipeline error is returned to the caller.

Files:

- `wrappers.dfy`: `Option`, `Result` and `Min`.
- `hashing.dfy`: module `Hashing`, covering `bloom/hash.go`.
  - The 4-byte little-endian seed prefix.
  - FNV-1a 64, written out in full.
  - The XXHash and Murmur3 seed derivations.
  - The three strategies.
  - The xxhash and murmur3 digests are uninterpreted functions.
- `double_hashing.dfy`: module `DoubleHashing`, the uint64 arithmetic of `getHashPositions`.
  - The wrap-around is written explicitly on unbounded integers.
  - It proves that an odd step gives distinct probes when the filter size is a power of two.
- `store.dfy`: module `RedisStore`, the Redis key space as a `Store` class.
  - Each key maps to the set of offsets whose bit is 1.
  - A pipelined `Exec` runs a batch of SETBIT/GETBIT commands in order.
  - A failing store has a fault: the first `flushed` commands reach the server, then the error is returned, with no rollback.
  - EXPIRE requests are recorded in a log.
- `bloom.dfy`: module `Bloom`, covering `bloom/bloom.go`.
  - The errors and the validation chain.
  - The `Filter` value, with `GetHashPositions` (a loop over an array), `Add` and `Exists` (methods on the store).
  - The lemmas about filter state.
  - Two client scenarios taken from the integration tests.

## Model

| member | source | states |
|---|---|---|
| Bloom.FirstViolation | bloom/bloom.go:41-52 | The constructor fails exactly when one of four checks fails: no expected insertions, a rate that is not a number strictly between 0 and 1 (the corrected rate check), an empty key, a nil client. A store error is never one of these. |
| Bloom.FirstViolationAsWritten | bloom/bloom.go:41-52 | The chain as written passes exactly when there are expected insertions, `p <= 0 \|\| p >= 1` is false, the key is non-empty and the client is non-nil. A store error is never one of its results. |
| Bloom.NaNConfigPassesAsWritten | bloom/bloom.go:41-52 | A NaN rate with the other three checks passing gets through the written chain but is stopped by the corrected one with `ErrInvalidFalsePositiveRate`. For every rate other than NaN the two chains agree. |
| Bloom.NewBloomFilter | bloom/bloom.go:40-68 | The checks run in order and the first failing one gives its own error. It succeeds exactly when all pass, and then gives a valid filter. The filter keeps the config as given, with the strategy filled in. Its `bitSize` and `hashCount` are `calculateOptimalParameters(ExpectedInsertions, FalsePositiveRate)`, so two filters built from one config probe the same offsets. The strategy is XXHash when none is given; otherwise it is the one supplied. |
| Bloom.NaNPassesRateCheckAsWritten | bloom/bloom.go:44 | As written, `p <= 0 \|\| p >= 1` does not reject NaN. It still accepts 0.5 and rejects +Inf. |
| Bloom.RateRejectedCorrectsNaN | bloom/bloom.go:44 | The corrected rate check rejects what the written one rejects, plus NaN. A rate it accepts is a finite number strictly between 0 and 1. |
| Bloom.Filter.Positions | bloom/bloom.go:134-152 | The probe sequence has exactly `hashCount` entries. Each is below `bitSize`, and so is a valid int64 Redis offset. |
| Bloom.Filter.PositionsFormula | bloom/bloom.go:138-148 | Probe i equals `((h1 + i*h2) mod 2^64) mod bitSize`. h1 is the round-0 hash; h2 is the round-1 hash made odd, and it is odd. |
| Bloom.Filter.PositionsIgnoreStore | bloom/bloom.go:134-152 | The positions are determined by the strategy, `bitSize` and `hashCount` alone. This is why `Add` and `Exists` probe the same offsets for the same data. |
| Bloom.Filter.GetHashPositions | bloom/bloom.go:134-152 | The loop fills an array of `hashCount` slots with the probe sequence. Each slot is below `bitSize`. |
| Bloom.Filter.Add | bloom/bloom.go:71-98 | With no pipeline it returns `ErrNilRedisClient` and changes nothing. On a healthy store the key's bitmap gains exactly the derived offsets. In that case an EXPIRE is logged exactly when TTL > 0 and the client is the adapter, and the result is nil. On a failing store the error is returned: only the flushed prefix of SETBITs took effect and no EXPIRE is sent. |
| Bloom.Filter.Exists | bloom/bloom.go:101-130 | The store is never changed. With no pipeline the result is `(false, ErrNilRedisClient)`. On a healthy store it is true exactly when every derived offset reads 1. On a failing store it is false together with the store's error. |
| Bloom.NoFalseNegatives | bloom/bloom.go:80-88 | After the SETBIT batch of an element's offsets, every one of them reads 1. |
| Bloom.AddIdempotent | bloom/bloom.go:80-88 | Setting the same offsets twice gives the same key space as setting them once. |
| Bloom.AddTouchesOnlyItsOffsets | bloom/bloom.go:80-88 | Every bit of another key, and every other offset of the same key, reads as before. |
| Bloom.FreshKeyHoldsNothing | bloom/bloom.go:123-129 | On a key with no bit set (absent or all zeros), no non-empty offset sequence is all set, so `Exists` answers false. |
| Bloom.PresenceSurvives | bloom/bloom.go:80-129 | Once an element's offsets all read 1, they still do after any later SETBIT/GETBIT batches of the filter, including partially flushed ones. |
| Bloom.FilterBatchesNeverClear | bloom/bloom.go:80-82 | A prefix of an `Add` batch never clears a bit, and neither does an `Exists` batch. |
| Bloom.BasicAddAndExists | bloom/bloom_integration_test.go:36-67 | On a fresh store an element is absent. After `Add` it is present. |
| Bloom.AddedElementsExist | bloom/bloom_integration_test.go:83-100 | After adding any list of elements to a fresh filter, each of them is reported present. |
| DoubleHashing.OddStep | bloom/bloom.go:141-144 | The step is odd. It is h2 when h2 is odd and h2 + 1 when h2 is even. |
| DoubleHashing.Add64 | bloom/bloom.go:147 | uint64 addition is addition modulo 2^64. |
| DoubleHashing.Position | bloom/bloom.go:147 | A probe lies in [0, bitSize). |
| DoubleHashing.Probe | bloom/bloom.go:146-149 | The probe sequence has `hashCount` entries, each in [0, bitSize). |
| DoubleHashing.WrapOnce | bloom/bloom.go:147 | Wrapping the product and then the sum equals wrapping `h1 + i*h2` once. |
| DoubleHashing.ProbesDistinctForPowerOfTwo | bloom/bloom.go:141-149 | When bitSize = 2^j with j <= 64 and hashCount <= bitSize, the probes are pairwise distinct for every h1 and h2. This is what forcing h2 odd buys. |
| DoubleHashing.PositionModPow2 | bloom/bloom.go:147 | Modulo a power of two up to 2^64, the uint64 wrap has no effect on the probe. |
| DoubleHashing.ProbePairDistinct | bloom/bloom.go:147 | With an odd step, two probes less than 2^j apart differ modulo 2^j. |
| Hashing.Le32 | bloom/hash.go:28 | The seed prefix is four bytes. |
| Hashing.Le32RoundTrip | bloom/hash.go:28 | The four prefix bytes, read back little-endian, give exactly the low 32 bits of the seed. |
| Hashing.Le32SameIffLow32 | bloom/hash.go:28 | Two seeds give the same prefix if and only if their low 32 bits agree. |
| Hashing.Fnv1aWriteSplit | bloom/hash.go:58-65 | Writing a and then b to an FNV-1a hasher equals writing a + b. |
| Hashing.Fnv1aKnownAnswers | bloom/hash.go:58 | FNV-1a 64 of "" is 0xcbf29ce484222325, and of "a" it is 0xaf63dc4c8601ec8c. |
| Hashing.Uint32SameIffLow32 | bloom/hash.go:44 | Two round indices give the same `uint32(i)` if and only if their low 32 bits agree. |
| Hashing.HashStrategy.Hash | bloom/hash.go:24-66 | Murmur3 digests are zero-extended 32-bit values, below 2^32. |
| Hashing.HashStrategy.SeedPrefix | bloom/hash.go:24-66 | A strategy writes seed bytes before the element exactly when it is not Murmur3. Murmur3 passes a seed instead. |
| Hashing.HashIsPrefixedDigest | bloom/hash.go:57-66 | FNV's two `h.Write` calls, of the round's prefix and then the unchanged element, give the FNV-1a digest of their concatenation. The XXHash and Murmur3 clauses only restate those strategies' definitions, for use in other proofs. |
| Hashing.HashUsesLow32OfSeed | bloom/hash.go:24-66 | Only four bytes of seed reach a digest. For XXHash these are the low 32 bits of the seed; for FNV and Murmur3, the low 32 bits of i. Rounds that agree there give equal hashes. |
| Hashing.RoundSeeds | bloom/hash.go:26-63 | Round 0 prefixes four zero bytes for XXHash and FNV, and gives Murmur3 seed 0. Round 1 prefixes 87 ca eb 85 for XXHash and 01 00 00 00 for FNV, and gives Murmur3 seed 0x9e3779b9. |
| RedisStore.ReadAfterWrite | bloom/bloom.go:81 | After SETBIT key o v, GETBIT key o reads v. Every other offset of that key, and every offset of every other key, reads as before. |
| RedisStore.Store.Exec | bloom/bloom.go:84-88 | A healthy pipeline applies the batch in order and answers every command. A failing one applies only the flushed prefix, returns its error and no replies. Neither changes the fault state or the EXPIRE log. |
| RedisStore.Store.Expire | bloom/bloom.go:93 | Appends the EXPIRE request to the log and changes no bit. |
| RedisStore.SetAll | bloom/bloom.go:80-82 | The result has the same keys, plus the given key when there are offsets. Other keys are unchanged. The key's bitmap is the old bitmap plus the offsets. |
| RedisStore.RunSetBitBatch | bloom/bloom.go:80-88 | Executing SETBIT key p 1 for each p equals `SetAll`. |
| RedisStore.SetBitBatchPrefix | bloom/bloom.go:80-82 | The first n commands of a SETBIT batch are the batch of the first n offsets. |
| RedisStore.RunGetBitBatch | bloom/bloom.go:112-124 | A GETBIT batch leaves the key space unchanged. Its replies are the bits at the offsets, in order. |
| RedisStore.RunKeepsSetBits | bloom/bloom.go:80-88 | A batch that clears no bit keeps every bit that was 1. |

## Left out

- Bloom.FirstViolation, Bloom.NewBloomFilter: use the corrected rate check, which rejects NaN. The written check at bloom/bloom.go:44 lets NaN through to the sizing step; that chain is `Bloom.FirstViolationAsWritten` (see Findings). A filter sized from `math.Log(NaN)` is not modelled, because the sizing is floating-point.
- `calculateOptimalParameters` (bloom/config.go): float64 maths with `math.Log` and `math.Ceil`.
  - It is the uninterpreted `Bloom.OptimalParameters`, and only its range is known: `bitSize >= 1` and `1 <= hashCount < 2^64`.
  - Its range also includes `bitSize <= 2^63`, so that every offset fits Redis's int64 offsets. The Go code converts with `int64(pos)` and does not check this itself.
  - The reference sizes (9586 bits, 7 hashes for 1000 elements at 1%) cannot be derived without floats.
- The xxhash and murmur3 digests are third-party code and are uninterpreted (`Hashing.XXH64`, `Hashing.Murmur3Sum32`).
  - The XXHash strategy writes the prefix and then the element to one streaming hasher. This is modelled as the one-shot digest of their concatenation, which is what xxhash's streaming interface computes.
- The false-positive rate is a statistical property of the hash functions and is not modelled.
- `bloom/redis.go`, go-redis, the network, `context.Background()` and cluster routing are replaced by the `Store` class.
  - Its `hasPipeline` flag is whether `Pipeline()` returns a usable pipeline.
  - Its `isAdapter` flag is whether the client is a `*RedisAdapter`.
- TTL expiry timing: an EXPIRE request is only logged. Its outcome is discarded by `Add` and is not modelled.
- Concurrency: several callers interleaving their batches, and the non-atomic write of an element's bits. A batch here runs as one step, either whole or up to its flushed prefix.
- Go's `uint` is taken as 64 bits wide, as on the 64-bit platforms the library targets.
- Redis's own limit on bit offsets (2^32 - 1) is not modelled; the store accepts any int64 offset.

## Findings

| source | as written | input that shows it | evidently intended | confidence | as-written member | corrected member |
|---|---|---|---|---|---|---|
| bloom/bloom.go:44 | `cfg.FalsePositiveRate <= 0 \|\| cfg.FalsePositiveRate >= 1` rejects rates outside (0, 1) | `FalsePositiveRate: math.NaN()` passes the check, because IEEE comparisons with NaN are false; the filter is then sized from `math.Log(NaN)` | reject every rate that is not a number strictly between 0 and 1 (`!(p > 0 && p < 1)`) | high, not executed | Bloom.NaNConfigPassesAsWritten | Bloom.RateRejectedCorrectsNaN |
