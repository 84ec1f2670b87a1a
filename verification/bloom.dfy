/**
 * The filter engine of bloom/bloom.go: validated construction, the k probe
 * positions of an element, and `Add`/`Exists` as one pipelined batch against
 * the shared bit store.
 */
module Bloom {
  import opened Wrappers
  import opened Hashing
  import opened DoubleHashing
  import opened RedisStore

  /** The four sentinel errors of bloom/errors.go, and an error surfaced by the store. */
  datatype Error =
    | ErrInvalidExpectedInsertions
    | ErrInvalidFalsePositiveRate
    | ErrEmptyRedisKey
    | ErrNilRedisClient
    | ErrStore(message: string)

  /** A Go float64 as the validation's comparisons see it. */
  datatype Float64 = Finite(value: real) | PosInf | NegInf | NaN

  /** IEEE `x <= c` for a finite constant c: false for NaN. */
  predicate AtMost(x: Float64, c: real)
  {
    match x
    case Finite(v) => v <= c
    case NegInf => true
    case PosInf => false
    case NaN => false
  }

  /** IEEE `x >= c` for a finite constant c: false for NaN. */
  predicate AtLeast(x: Float64, c: real)
  {
    match x
    case Finite(v) => v >= c
    case PosInf => true
    case NegInf => false
    case NaN => false
  }

  /** The rate check as written, `p <= 0 || p >= 1`. */
  predicate RateRejectedAsWritten(p: Float64)
  {
    AtMost(p, 0.0) || AtLeast(p, 1.0)
  }

  /** The written check lets NaN through: every IEEE comparison with NaN is false. */
  lemma NaNPassesRateCheckAsWritten()
    ensures !RateRejectedAsWritten(NaN)
    ensures !RateRejectedAsWritten(Finite(0.5)) && RateRejectedAsWritten(PosInf)
  {
  }

  /** The rate check as intended: anything but a number strictly between 0 and 1 is rejected. */
  predicate RateRejected(p: Float64)
  {
    !(p.Finite? && 0.0 < p.value < 1.0)
  }

  /** The corrected check agrees with the written one everywhere except NaN, which it rejects. */
  lemma RateRejectedCorrectsNaN(p: Float64)
    ensures RateRejected(p) <==> (RateRejectedAsWritten(p) || p.NaN?)
    ensures !RateRejected(p) ==> p.Finite? && 0.0 < p.value < 1.0
  {
  }

  /** Bloom filter sizes whose offsets fit Redis's signed 64-bit offsets. */
  const MAX_BIT_SIZE: nat := MAX_OFFSET + 1

  datatype Sizing = Sizing(bitSize: nat, hashCount: nat)

  /** What bloom/config.go may return: at least one bit and at least one hash round. */
  type ValidSizing = s: Sizing | 1 <= s.bitSize <= MAX_BIT_SIZE && 1 <= s.hashCount < TWO_64
    witness Sizing(1, 1)

  /**
   * `calculateOptimalParameters(n, p)` of bloom/config.go (floating-point
   * maths, not part of this model). Uninterpreted: only its range is known.
   */
  const OptimalParameters: (nat, real) -> ValidSizing

  /** `Config` of bloom/config.go. */
  datatype Config = Config(
    redisKey: string,
    redisClient: Store?,
    expectedInsertions: nat,
    falsePositiveRate: Float64,
    ttl: int,
    hashStrategy: Option<HashStrategy>)

  /** The construction checks, in order; None when all pass. */
  function FirstViolation(cfg: Config): (e: Option<Error>)
    ensures e.None? <==>
      cfg.expectedInsertions > 0 && !RateRejected(cfg.falsePositiveRate) &&
      cfg.redisKey != [] && cfg.redisClient != null
    ensures e.Some? ==> !e.value.ErrStore?
  {
    if cfg.expectedInsertions == 0 then Some(ErrInvalidExpectedInsertions)
    else if RateRejected(cfg.falsePositiveRate) then Some(ErrInvalidFalsePositiveRate)
    else if cfg.redisKey == [] then Some(ErrEmptyRedisKey)
    else if cfg.redisClient == null then Some(ErrNilRedisClient)
    else None
  }

  /** The construction checks exactly as written, with the rate test `p <= 0 || p >= 1`. */
  function FirstViolationAsWritten(cfg: Config): (e: Option<Error>)
    ensures e.None? <==>
      cfg.expectedInsertions > 0 && !RateRejectedAsWritten(cfg.falsePositiveRate) &&
      cfg.redisKey != [] && cfg.redisClient != null
    ensures e.Some? ==> !e.value.ErrStore?
  {
    if cfg.expectedInsertions == 0 then Some(ErrInvalidExpectedInsertions)
    else if RateRejectedAsWritten(cfg.falsePositiveRate) then Some(ErrInvalidFalsePositiveRate)
    else if cfg.redisKey == [] then Some(ErrEmptyRedisKey)
    else if cfg.redisClient == null then Some(ErrNilRedisClient)
    else None
  }

  /**
   * The written chain lets a NaN rate through to the sizing step; the
   * corrected chain stops it with `ErrInvalidFalsePositiveRate`. Otherwise
   * the two chains agree.
   */
  lemma NaNConfigPassesAsWritten(cfg: Config)
    ensures cfg.falsePositiveRate.NaN? && cfg.expectedInsertions > 0 && cfg.redisKey != [] &&
            cfg.redisClient != null ==>
      FirstViolationAsWritten(cfg).None? && FirstViolation(cfg) == Some(ErrInvalidFalsePositiveRate)
    ensures !cfg.falsePositiveRate.NaN? ==> FirstViolationAsWritten(cfg) == FirstViolation(cfg)
  {
    RateRejectedCorrectsNaN(cfg.falsePositiveRate);
  }

  /** `NewBloomFilter`: validation chain, sizing, default hash strategy. */
  function NewBloomFilter(cfg: Config): (r: Result<Filter, Error>)
    ensures cfg.expectedInsertions == 0 ==> r == Failure(ErrInvalidExpectedInsertions)
    ensures cfg.expectedInsertions > 0 && RateRejected(cfg.falsePositiveRate) ==>
      r == Failure(ErrInvalidFalsePositiveRate)
    ensures cfg.expectedInsertions > 0 && !RateRejected(cfg.falsePositiveRate) && cfg.redisKey == [] ==>
      r == Failure(ErrEmptyRedisKey)
    ensures (cfg.expectedInsertions > 0 && !RateRejected(cfg.falsePositiveRate) && cfg.redisKey != [] &&
             cfg.redisClient == null) ==> r == Failure(ErrNilRedisClient)
    ensures r.Success? <==> FirstViolation(cfg).None?
    ensures r.Success? ==> r.value.Valid()
    ensures r.Success? ==>
      r.value.config.redisKey == cfg.redisKey && r.value.config.redisClient == cfg.redisClient &&
      r.value.config.ttl == cfg.ttl
    ensures r.Success? ==> r.value.config == cfg.(hashStrategy := Some(r.value.hashStrategy))
    ensures r.Success? ==>
      var sizing := OptimalParameters(cfg.expectedInsertions, cfg.falsePositiveRate.value);
      r.value.bitSize == sizing.bitSize && r.value.hashCount == sizing.hashCount
    ensures r.Success? && cfg.hashStrategy.None? ==> r.value.hashStrategy == XXHashStrategy
    ensures r.Success? && cfg.hashStrategy.Some? ==> r.value.hashStrategy == cfg.hashStrategy.value
  {
    match FirstViolation(cfg)
    case Some(e) => Failure(e)
    case None =>
      var sizing := OptimalParameters(cfg.expectedInsertions, cfg.falsePositiveRate.value);
      var strategy := if cfg.hashStrategy.None? then XXHashStrategy else cfg.hashStrategy.value;
      Success(Filter(cfg.(hashStrategy := Some(strategy)), sizing.bitSize, sizing.hashCount, strategy))
  }

  /** Every offset of `ps` reads 1 in `key`. */
  predicate AllSet(ks: Keyspace, key: string, ps: seq<Offset>)
  {
    forall i :: 0 <= i < |ps| ==> ps[i] in Bitmap(ks, key)
  }

  /** `bloomFilter`: immutable once built. */
  datatype Filter = Filter(config: Config, bitSize: nat, hashCount: nat, hashStrategy: HashStrategy)
  {
    predicate Valid()
    {
      && config.redisKey != []
      && config.redisClient != null
      && 1 <= bitSize <= MAX_BIT_SIZE
      && 1 <= hashCount < TWO_64
    }

    /** The probe positions of `data`: double hashing over rounds 0 and 1. */
    function Positions(data: bytes): (ps: seq<Offset>)
      requires Valid()
      ensures |ps| == hashCount
      ensures forall i :: 0 <= i < |ps| ==> ps[i] < bitSize
    {
      var ps := Probe(Round(data, 0), Round(data, 1), hashCount, bitSize);
      assert forall i :: 0 <= i < |ps| ==> ps[i] <= MAX_OFFSET;
      ps
    }

    /** The hash of round `i` as a uint64. */
    function Round(data: bytes, i: bv64): (h: u64)
    {
      hashStrategy.Hash(data, i) as int
    }

    /**
     * Probe i is `((h1 + i*h2') mod 2^64) mod bitSize` with h1 the round-0
     * hash and h2' the round-1 hash made odd: the uint64 sum wraps once,
     * before the reduction modulo the filter size.
     */
    lemma PositionsFormula(data: bytes, i: nat)
      requires Valid() && i < hashCount
      ensures var h1 := Round(data, 0);
              var h2 := OddStep(Round(data, 1));
              h2 % 2 == 1 && Positions(data)[i] == ((h1 + i * h2) % TWO_64) % bitSize
    {
      WrapOnce(Round(data, 0), OddStep(Round(data, 1)), i);
    }

    /** Positions depend on the strategy and the sizes only, never on the key, client or TTL. */
    lemma PositionsIgnoreStore(other: Filter, data: bytes)
      requires Valid() && other.Valid()
      requires other.hashStrategy == hashStrategy && other.bitSize == bitSize && other.hashCount == hashCount
      ensures other.Positions(data) == Positions(data)
    {
    }

    /** `getHashPositions`: fills a slice of `hashCount` positions. */
    method GetHashPositions(data: bytes) returns (positions: seq<Offset>)
      requires Valid()
      ensures positions == Positions(data)
      ensures |positions| == hashCount
      ensures forall i :: 0 <= i < |positions| ==> positions[i] < bitSize
    {
      var h1 := Round(data, 0);
      // h2 is made odd: `if h2%2 == 0 { h2++ }`
      var h2 := OddStep(Round(data, 1));
      var a := new Offset[hashCount];
      for i := 0 to hashCount
        invariant forall j :: 0 <= j < i ==> a[j] == Positions(data)[j]
      {
        a[i] := Add64(h1, Mul64(i, h2)) % bitSize;
      }
      positions := a[..];
    }

    /**
     * `Add`: one pipelined batch of SETBIT key p 1; on success, an EXPIRE when
     * a positive TTL is configured and the client is a `*RedisAdapter`.
     */
    method Add(data: bytes) returns (err: Option<Error>)
      requires Valid()
      modifies config.redisClient
      ensures var store := config.redisClient;
        store.fault == old(store.fault) &&
        (!store.hasPipeline ==>
          err == Some(ErrNilRedisClient) &&
          store.keyspace == old(store.keyspace) && store.expiries == old(store.expiries)) &&
        (store.hasPipeline && old(store.fault).None? ==>
          err.None? &&
          store.keyspace == SetAll(old(store.keyspace), config.redisKey, Positions(data)) &&
          store.expiries == old(store.expiries) +
            (if config.ttl > 0 && store.isAdapter then [(config.redisKey, config.ttl)] else [])) &&
        (store.hasPipeline && old(store.fault).Some? ==>
          err == Some(ErrStore(old(store.fault).value.message)) &&
          store.keyspace == SetAll(old(store.keyspace), config.redisKey,
                                   Positions(data)[..Min(old(store.fault).value.flushed, hashCount)]) &&
          store.expiries == old(store.expiries))
    {
      var store, key := config.redisClient, config.redisKey;
      var positions := GetHashPositions(data);
      if !store.hasPipeline {
        return Some(ErrNilRedisClient);
      }
      var pipe: seq<Command> := [];
      for i := 0 to |positions|
        invariant pipe == SetBitBatch(key, positions[..i])
      {
        pipe := pipe + [SetBit(key, positions[i], 1)];
      }
      assert positions[..|positions|] == positions;
      var _, execErr := store.Exec(pipe);
      if execErr.Some? {
        SetBitBatchPrefix(key, positions, Min(old(store.fault).value.flushed, hashCount));
        RunSetBitBatch(old(store.keyspace), key, positions[..Min(old(store.fault).value.flushed, hashCount)]);
        return Some(ErrStore(execErr.value));
      }
      RunSetBitBatch(old(store.keyspace), key, positions);
      if config.ttl > 0 && store.isAdapter {
        store.Expire(key, config.ttl);
      }
      return None;
    }

    /**
     * `Exists`: one pipelined batch of GETBIT key p; present exactly when every
     * answer is 1. A failed batch is an error, never "absent".
     */
    method Exists(data: bytes) returns (present: bool, err: Option<Error>)
      requires Valid()
      modifies config.redisClient
      ensures var store := config.redisClient;
        store.keyspace == old(store.keyspace) && store.fault == old(store.fault) &&
        store.expiries == old(store.expiries) &&
        (!store.hasPipeline ==> !present && err == Some(ErrNilRedisClient)) &&
        (store.hasPipeline && old(store.fault).None? ==>
          err.None? && (present <==> AllSet(store.keyspace, config.redisKey, Positions(data)))) &&
        (store.hasPipeline && old(store.fault).Some? ==>
          !present && err == Some(ErrStore(old(store.fault).value.message)))
    {
      var store, key := config.redisClient, config.redisKey;
      var positions := GetHashPositions(data);
      if !store.hasPipeline {
        return false, Some(ErrNilRedisClient);
      }
      var pipe: seq<Command> := [];
      for i := 0 to |positions|
        invariant pipe == GetBitBatch(key, positions[..i])
      {
        pipe := pipe + [GetBit(key, positions[i])];
      }
      assert positions[..|positions|] == positions;
      RunGetBitBatch(store.keyspace, key, positions);
      var replies, execErr := store.Exec(pipe);
      if execErr.Some? {
        var n := Min(old(store.fault).value.flushed, |pipe|);
        assert pipe[..n] == GetBitBatch(key, positions[..n]);
        RunGetBitBatch(old(store.keyspace), key, positions[..n]);
        return false, Some(ErrStore(execErr.value));
      }
      for i := 0 to |replies|
        invariant forall j :: 0 <= j < i ==> positions[j] in Bitmap(store.keyspace, key)
      {
        if replies[i] == 0 {
          return false, None;
        }
      }
      return true, None;
    }
  }

  /** No false negatives: right after the SETBIT batch of `ps`, all of `ps` reads 1. */
  lemma NoFalseNegatives(ks: Keyspace, key: string, ps: seq<Offset>)
    ensures AllSet(SetAll(ks, key, ps), key, ps)
  {
  }

  /** Adding the same element twice leaves the state of adding it once. */
  lemma AddIdempotent(ks: Keyspace, key: string, ps: seq<Offset>)
    ensures SetAll(SetAll(ks, key, ps), key, ps) == SetAll(ks, key, ps)
  {
    var once := SetAll(ks, key, ps);
    if ps != [] {
      assert Bitmap(once, key) + (set p | p in ps) == Bitmap(once, key);
    }
  }

  /** `Add` touches no other key and no other offset of its key. */
  lemma AddTouchesOnlyItsOffsets(ks: Keyspace, key: string, ps: seq<Offset>, k: string, o: Offset)
    requires k != key || o !in ps
    ensures BitAt(SetAll(ks, key, ps), k, o) == BitAt(ks, k, o)
  {
  }

  /** An element is absent from a key that holds no bitmap yet. */
  lemma FreshKeyHoldsNothing(ks: Keyspace, key: string, ps: seq<Offset>)
    requires Bitmap(ks, key) == {} && |ps| >= 1
    ensures !AllSet(ks, key, ps)
  {
    assert ps[0] !in Bitmap(ks, key);
  }

  /**
   * No false negatives across later traffic: once all of `ps` reads 1, any
   * sequence of batches that clears no bit (other elements' `Add`, whole or
   * partial, and every `Exists`) keeps it so.
   */
  lemma {:induction false} PresenceSurvives(ks: Keyspace, key: string, ps: seq<Offset>, batches: seq<seq<Command>>)
    requires AllSet(ks, key, ps)
    requires forall i :: 0 <= i < |batches| ==> NeverClears(batches[i])
    ensures AllSet(RunAll(ks, batches), key, ps)
    decreases |batches|
  {
    if batches != [] {
      RunKeepsSetBits(ks, batches[0], key);
      PresenceSurvives(Run(ks, batches[0]), key, ps, batches[1..]);
    }
  }

  /** The key space after several batches, in order. */
  function RunAll(ks: Keyspace, batches: seq<seq<Command>>): Keyspace
    decreases |batches|
  {
    if batches == [] then ks else RunAll(Run(ks, batches[0]), batches[1..])
  }

  /** SETBIT and GETBIT batches of the filter never clear a bit. */
  lemma FilterBatchesNeverClear(key: string, ps: seq<Offset>, n: nat)
    requires n <= |ps|
    ensures NeverClears(SetBitBatch(key, ps)[..n]) && NeverClears(GetBitBatch(key, ps))
  {
  }

  /**
   * bloom_integration_test.go, BasicAddAndExists: on a fresh store an element
   * is absent, and present after it is added.
   */
  method BasicAddAndExists(key: string, data: bytes) returns (before: bool, after: bool)
    requires key != []
    ensures !before && after
  {
    var store := new Store(true, true, None);
    var r := NewBloomFilter(Config(key, store, 1000, Finite(0.01), 0, None));
    var bf := r.value;
    var err;
    before, err := bf.Exists(data);
    FreshKeyHoldsNothing(store.keyspace, key, bf.Positions(data));
    err := bf.Add(data);
    NoFalseNegatives(map[], key, bf.Positions(data));
    after, err := bf.Exists(data);
  }

  /**
   * bloom_integration_test.go, FalsePositiveRate (first half): every element
   * added to a fresh filter is reported present afterwards.
   */
  method AddedElementsExist(key: string, elems: seq<bytes>) returns (found: seq<bool>)
    requires key != []
    ensures |found| == |elems|
    ensures forall i :: 0 <= i < |found| ==> found[i]
  {
    var store := new Store(true, true, None);
    var r := NewBloomFilter(Config(key, store, 1000, Finite(0.01), 0, None));
    var bf := r.value;
    for i := 0 to |elems|
      invariant store.fault.None? && store.hasPipeline
      invariant forall j :: 0 <= j < i ==> AllSet(store.keyspace, key, bf.Positions(elems[j]))
    {
      ghost var ks := store.keyspace;
      var err := bf.Add(elems[i]);
      NoFalseNegatives(ks, key, bf.Positions(elems[i]));
    }
    found := [];
    for i := 0 to |elems|
      invariant |found| == i && forall j :: 0 <= j < i ==> found[j]
      invariant store.fault.None? && store.hasPipeline
      invariant forall j :: 0 <= j < |elems| ==> AllSet(store.keyspace, key, bf.Positions(elems[j]))
    {
      var present, err := bf.Exists(elems[i]);
      found := found + [present];
    }
  }
}
