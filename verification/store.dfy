/**
 * The remote bit store behind the filter: the `RedisClient`/`pipeliner`
 * interfaces of bloom/bloom.go, reduced to what the filter uses. The key
 * space maps a key to the set of offsets whose bit is 1; a key that is absent
 * reads as all zeros, as in Redis. A pipeline is an ordered batch of SETBIT
 * and GETBIT commands executed by one `Exec`.
 */
module RedisStore {
  import opened Wrappers

  /** Redis bit offsets travel as Go `int64`. */
  const MAX_OFFSET: nat := 0x7FFF_FFFF_FFFF_FFFF
  type Offset = x: nat | x <= MAX_OFFSET

  type Bit = x: nat | x <= 1

  /** For every key holding a bitmap, the offsets whose bit is 1. */
  type Keyspace = map<string, set<Offset>>

  function Bitmap(ks: Keyspace, key: string): set<Offset>
  {
    if key in ks then ks[key] else {}
  }

  /** GETBIT: the bit at `offset`, 0 beyond the end or on a missing key. */
  function BitAt(ks: Keyspace, key: string, offset: Offset): (b: Bit)
    ensures b == 1 <==> offset in Bitmap(ks, key)
  {
    if offset in Bitmap(ks, key) then 1 else 0
  }

  datatype Command =
    | SetBit(key: string, offset: Offset, value: Bit)
    | GetBit(key: string, offset: Offset)

  /** The key space after one command. */
  function Apply(ks: Keyspace, c: Command): Keyspace
  {
    match c
    case SetBit(key, offset, value) =>
      ks[key := if value == 1 then Bitmap(ks, key) + {offset} else Bitmap(ks, key) - {offset}]
    case GetBit(_, _) => ks
  }

  /** SETBIT then GETBIT at the same place reads the value written; every other bit reads as before. */
  lemma ReadAfterWrite(ks: Keyspace, key: string, o: Offset, v: Bit, k: string, o': Offset)
    ensures BitAt(Apply(ks, SetBit(key, o, v)), key, o) == v
    ensures k != key || o' != o ==> BitAt(Apply(ks, SetBit(key, o, v)), k, o') == BitAt(ks, k, o')
  {
  }

  /** The reply to one command: SETBIT answers the bit it replaced, GETBIT the bit it read. */
  function Reply(ks: Keyspace, c: Command): Bit
  {
    BitAt(ks, c.key, c.offset)
  }

  /** The key space after a batch, commands applied in order. */
  function Run(ks: Keyspace, cmds: seq<Command>): Keyspace
    decreases |cmds|
  {
    if cmds == [] then ks else Apply(Run(ks, cmds[..|cmds| - 1]), cmds[|cmds| - 1])
  }

  /** The replies to a batch, in command order. */
  function Replies(ks: Keyspace, cmds: seq<Command>): (rs: seq<Bit>)
    ensures |rs| == |cmds|
    decreases |cmds|
  {
    if cmds == [] then [] else
      var init := cmds[..|cmds| - 1];
      Replies(ks, init) + [Reply(Run(ks, init), cmds[|cmds| - 1])]
  }

  /** A batch cannot be delivered: the first `flushed` commands reach the server, then `message` is returned. */
  datatype Fault = Fault(flushed: nat, message: string)

  class Store {
    /** The bitmaps held by the server. */
    var keyspace: Keyspace
    /** Set while the server cannot be reached. */
    var fault: Option<Fault>
    /** EXPIRE requests received, in order: (key, TTL). */
    var expiries: seq<(string, int)>
    /** Whether the client is the library's `*RedisAdapter`, the only kind `Add` refreshes the TTL through. */
    const isAdapter: bool
    /** Whether `Pipeline()` hands out a usable pipeline (a client may return nil). */
    const hasPipeline: bool

    constructor (isAdapter: bool, hasPipeline: bool, fault: Option<Fault>)
      ensures keyspace == map[] && expiries == []
      ensures this.fault == fault && this.isAdapter == isAdapter && this.hasPipeline == hasPipeline
    {
      keyspace := map[];
      this.fault := fault;
      expiries := [];
      this.isAdapter := isAdapter;
      this.hasPipeline := hasPipeline;
    }

    /**
     * `pipe.Exec`: runs the batch in order and answers every command, or fails
     * after the first `flushed` commands reached the server (no rollback).
     */
    method Exec(cmds: seq<Command>) returns (replies: seq<Bit>, err: Option<string>)
      modifies this
      ensures fault == old(fault) && expiries == old(expiries)
      ensures old(fault).None? ==>
        err.None? && keyspace == Run(old(keyspace), cmds) && replies == Replies(old(keyspace), cmds)
      ensures old(fault).Some? ==>
        err == Some(old(fault).value.message) && replies == [] &&
        keyspace == Run(old(keyspace), cmds[..Min(old(fault).value.flushed, |cmds|)])
    {
      var n := if fault.None? then |cmds| else Min(fault.value.flushed, |cmds|);
      replies := [];
      for i := 0 to n
        invariant keyspace == Run(old(keyspace), cmds[..i])
        invariant replies == Replies(old(keyspace), cmds[..i])
        invariant fault == old(fault) && expiries == old(expiries)
      {
        assert cmds[..i + 1][..i] == cmds[..i];
        replies := replies + [Reply(keyspace, cmds[i])];
        keyspace := Apply(keyspace, cmds[i]);
      }
      assert cmds[..|cmds|] == cmds;
      if fault.Some? {
        replies := [];
        err := Some(fault.value.message);
      } else {
        err := None;
      }
    }

    /** EXPIRE key ttl: recorded; its outcome is not reported back to the filter. */
    method Expire(key: string, ttl: int)
      modifies this
      ensures keyspace == old(keyspace) && fault == old(fault)
      ensures expiries == old(expiries) + [(key, ttl)]
    {
      expiries := expiries + [(key, ttl)];
    }
  }

  /** The batch `Add` queues: SETBIT key p 1 for every p, in order. */
  function SetBitBatch(key: string, ps: seq<Offset>): (cmds: seq<Command>)
    ensures |cmds| == |ps|
  {
    seq(|ps|, i requires 0 <= i < |ps| => SetBit(key, ps[i], 1))
  }

  /** The batch `Exists` queues: GETBIT key p for every p, in order. */
  function GetBitBatch(key: string, ps: seq<Offset>): (cmds: seq<Command>)
    ensures |cmds| == |ps|
  {
    seq(|ps|, i requires 0 <= i < |ps| => GetBit(key, ps[i]))
  }

  /** The key space with every offset of `ps` set to 1 in `key` (the key is created by the first SETBIT). */
  function SetAll(ks: Keyspace, key: string, ps: seq<Offset>): (r: Keyspace)
    ensures r.Keys == if ps == [] then ks.Keys else ks.Keys + {key}
    ensures forall k :: k in ks && k != key ==> r[k] == ks[k]
    ensures forall o: Offset :: o in Bitmap(r, key) <==> o in Bitmap(ks, key) || o in ps
  {
    if ps == [] then ks else ks[key := Bitmap(ks, key) + set p | p in ps]
  }

  /** Executing the SETBIT batch sets exactly those bits. */
  lemma {:induction false} RunSetBitBatch(ks: Keyspace, key: string, ps: seq<Offset>)
    ensures Run(ks, SetBitBatch(key, ps)) == SetAll(ks, key, ps)
    decreases |ps|
  {
    var cmds := SetBitBatch(key, ps);
    if ps != [] {
      var n := |ps| - 1;
      assert cmds[..n] == SetBitBatch(key, ps[..n]);
      RunSetBitBatch(ks, key, ps[..n]);
      var before := SetAll(ks, key, ps[..n]);
      assert Run(ks, cmds) == before[key := Bitmap(before, key) + {ps[n]}];
      assert Bitmap(before, key) + {ps[n]} == Bitmap(ks, key) + set p | p in ps by {
        assert ps == ps[..n] + [ps[n]];
      }
    }
  }

  /** A prefix of the SETBIT batch is the batch of the prefix. */
  lemma SetBitBatchPrefix(key: string, ps: seq<Offset>, n: nat)
    requires n <= |ps|
    ensures SetBitBatch(key, ps)[..n] == SetBitBatch(key, ps[..n])
  {
  }

  /** Executing the GETBIT batch changes nothing and answers each bit in order. */
  lemma {:induction false} RunGetBitBatch(ks: Keyspace, key: string, ps: seq<Offset>)
    ensures Run(ks, GetBitBatch(key, ps)) == ks
    ensures Replies(ks, GetBitBatch(key, ps)) == seq(|ps|, i requires 0 <= i < |ps| => BitAt(ks, key, ps[i]))
    decreases |ps|
  {
    var cmds := GetBitBatch(key, ps);
    if ps != [] {
      var n := |ps| - 1;
      assert cmds[..n] == GetBitBatch(key, ps[..n]);
      RunGetBitBatch(ks, key, ps[..n]);
    }
  }

  /** No command of the batch clears a bit. */
  predicate NeverClears(cmds: seq<Command>)
  {
    forall i :: 0 <= i < |cmds| ==> !(cmds[i].SetBit? && cmds[i].value == 0)
  }

  /** A batch that clears no bit keeps every bit that was 1. */
  lemma {:induction false} RunKeepsSetBits(ks: Keyspace, cmds: seq<Command>, key: string)
    requires NeverClears(cmds)
    ensures Bitmap(ks, key) <= Bitmap(Run(ks, cmds), key)
    decreases |cmds|
  {
    if cmds != [] {
      var n := |cmds| - 1;
      RunKeepsSetBits(ks, cmds[..n], key);
    }
  }
}
