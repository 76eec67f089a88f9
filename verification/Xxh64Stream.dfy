/**
 The incremental form of XXH64: a state object that is reset, fed any number of
 segments, and asked for digests at any moment.
 */
module Xxh64Stream {
  import opened Words
  import opened Inputs
  import opened Arith64
  import opened Xxh64

  /** What a digest may look at: `pending` is the first `memsize` bytes of the buffer. */
  datatype Snapshot = Snapshot(totalLen: nat, lanes: Lanes, memsize: nat, pending: seq<byte>)

  /** What a state must hold after `fed` went in, in whatever segments. */
  ghost function Expected(seed: u64, fed: seq<byte>): Snapshot {
    var n := Whole32(|fed|);
    Snapshot(|fed| % TWO_64, LanesAt(seed, fed, n), Rest32(|fed|), fed[32 * n..])
  }

  lemma ExpectedFields(seed: u64, fed: seq<byte>)
    ensures var s := Expected(seed, fed);
      && s.lanes == LanesAt(seed, fed, Whole32(|fed|))
      && s.memsize == Rest32(|fed|) == |s.pending|
      && s.totalLen == |fed| % TWO_64
  {
    hide LanesAt;
  }

  lemma ExpectedEmpty(seed: u64)
    ensures Expected(seed, []) == Snapshot(0, InitLanes(seed), 0, [])
  {
    hide LanesAt;
    NoStripeYet(seed, []);
  }

  /** `total_len += len`. */
  function AddToTotal(total: nat, len: nat): nat {
    (total + len) % TWO_64
  }

  /** The counter wraps, as the sum of the lengths does. */
  lemma WrappedSum(a: nat, b: nat)
    ensures AddToTotal(a % TWO_64, b) == (a + b) % TWO_64
  {
    assert a + b == TWO_64 * (a / TWO_64) + (a % TWO_64 + b);
  }

  lemma LengthStep(seed: u64, fed: seq<byte>, input: seq<byte>)
    ensures var s, t := Expected(seed, fed), Expected(seed, fed + input);
      t.totalLen == AddToTotal(s.totalLen, |input|)
  {
    hide Expected, LanesAt, AddToTotal;
    ExpectedFields(seed, fed);
    ExpectedFields(seed, fed + input);
    WrappedSum(|fed|, |input|);
  }

  /** An input too short to complete a stripe only joins the pending bytes. */
  lemma ShortStep(seed: u64, fed: seq<byte>, input: seq<byte>)
    requires Rest32(|fed|) + |input| < 32
    ensures var s, t := Expected(seed, fed), Expected(seed, fed + input);
      && t.lanes == s.lanes
      && t.memsize == s.memsize + |input|
      && t.pending == s.pending + input
  {
    hide LanesAt;
    LanesOfPrefix(seed, fed, input, Whole32(|fed|));
  }

  /** The first `32 - memsize` bytes of a longer input complete the pending stripe. */
  lemma FlushStep(seed: u64, fed: seq<byte>, input: seq<byte>, stripe: seq<byte>)
    requires Rest32(|fed|) + |input| >= 32
    requires stripe == Expected(seed, fed).pending + input[..32 - Rest32(|fed|)]
    ensures |stripe| == 32
    ensures NextLanes(Expected(seed, fed).lanes, stripe) == LanesAt(seed, fed + input, Whole32(|fed|) + 1)
  {
    hide NextLanes, LanesAt, Whole32;
    var n, all := Whole32(|fed|), fed + input;
    LanesOfPrefix(seed, fed, input, n);
    CutAcross(fed, input, 32 * n, 32 * n + 32);
    OneStripe(seed, all, n, stripe);
  }

  /** What is left behind the last full stripe. */
  lemma RestStep(seed: u64, fed: seq<byte>, input: seq<byte>, p: nat, n: nat)
    requires |fed| + p == 32 * n && p <= |input| < p + 32
    ensures var all := fed + input; var t := Expected(seed, all);
      && t.lanes == LanesAt(seed, all, n)
      && t.memsize == |input| - p
      && t.pending == input[p..]
  {
    hide LanesAt;
    var all := fed + input;
    assert |all| == 32 * n + (|input| - p);
    assert Whole32(|all|) == n && Rest32(|all|) == |input| - p;
    assert all[32 * n..] == input[p..];
  }

  /**
   What a digest computes. The choice of the start value goes by the 64-bit
   counter, not by the number of bytes fed.
   */
  function DigestValue(seed: u64, fed: seq<byte>): u64 {
    var l := LanesAt(seed, fed, Whole32(|fed|));
    Finish(if |fed| % TWO_64 >= 32 then Converge(l) else ShortStart(l.v3), fed)
  }

  /** As long as the counter is at least 32 whenever the total is, nothing differs. */
  lemma DigestIsHash(seed: u64, fed: seq<byte>)
    ensures |fed| < 32 || |fed| % TWO_64 >= 32 ==> DigestValue(seed, fed) == Hash(seed, fed)
  {
    hide LaneFold, Finish, Converge, ShortStart, Add64;
    NoStripeYet(seed, fed);
    AddZero64(seed);
  }

  class State {
    var totalLen: nat  // below 2^64
    var v1: u64
    var v2: u64
    var v3: u64
    var v4: u64
    const mem64: array<byte>
    var memsize: nat

    ghost var seed: u64
    ghost var fed: seq<byte>  // every byte since the last reset

    ghost predicate Valid()
      reads this, mem64
    {
      && mem64.Length == 32
      && memsize < 32
      && Observe() == Expected(seed, fed)
    }

    ghost function Observe(): Snapshot
      requires memsize <= mem64.Length
      reads this, mem64
    {
      Snapshot(totalLen, Lanes(v1, v2, v3, v4), memsize, mem64[..memsize])
    }

    /** XXH64_createState: the memory is not initialised; only a reset makes it valid. */
    constructor Create()
      ensures mem64.Length == 32 && fresh(mem64)
    {
      mem64 := new byte[32];
    }

    method Reset(seed: u64) returns (r: ErrorCode)
      requires mem64.Length == 32
      modifies this, mem64
      ensures Valid() && this.seed == seed && fed == [] && r == XXH_OK
    {
      hide Add64, Sub64, Expected;
      ExpectedEmpty(seed);
      forall i | 0 <= i < 32 {
        mem64[i] := 0;
      }
      totalLen, memsize := 0, 0;
      v1 := Add64(Add64(seed, PRIME64_1), PRIME64_2);
      v2 := Add64(seed, PRIME64_2);
      v3 := Add64(seed, 0);
      v4 := Sub64(seed, PRIME64_1);
      this.seed, fed := seed, [];
      return XXH_OK;
    }

    /** One round in each lane, from the buffer filled up. */
    method Rounds(cpu: Endian, endian: Endian)
      requires endian == cpu && mem64.Length == 32
      modifies `v1, `v2, `v3, `v4
      ensures Lanes(v1, v2, v3, v4) == NextLanes(old(Lanes(v1, v2, v3, v4)), mem64[..])
    {
      hide Round, Le64At, ReadLE64Align;
      var stripe := mem64[..];
      v1 := Round(v1, ReadLE64(cpu, stripe, 0, endian));
      v2 := Round(v2, ReadLE64(cpu, stripe, 8, endian));
      v3 := Round(v3, ReadLE64(cpu, stripe, 16, endian));
      v4 := Round(v4, ReadLE64(cpu, stripe, 24, endian));
    }

    /** The part of XXH64_update_endian for data left from a previous update. */
    method Flush(cpu: Endian, input: seq<byte>, endian: Endian) returns (p: nat, ghost n: nat)
      requires endian == cpu && mem64.Length == 32 && memsize < 32 && memsize + |input| >= 32
      requires memsize == Rest32(|fed|) && mem64[..memsize] == Expected(seed, fed).pending
      requires Lanes(v1, v2, v3, v4) == Expected(seed, fed).lanes
      modifies `v1, `v2, `v3, `v4, `memsize, mem64
      ensures memsize == 0 && p <= |input| && |fed| + p == 32 * n
      ensures Lanes(v1, v2, v3, v4) == LanesAt(seed, fed + input, n)
    {
      hide NextLanes, Expected, LanesAt, Whole32;
      p, n := 0, Whole32(|fed|);
      if memsize != 0 {
        Memcpy(mem64, memsize, input[..32 - memsize]);
        FlushStep(seed, fed, input, mem64[..]);
        Rounds(cpu, endian);
        p := p + (32 - memsize);
        memsize := 0;
        n := n + 1;
      } else {
        ExpectedFields(seed, fed);
        LanesOfPrefix(seed, fed, input, n);
      }
    }

    /** Adds bytes to the buffer, without completing a stripe. */
    method Append(rest: seq<byte>)
      requires mem64.Length == 32 && memsize + |rest| < 32
      modifies `memsize, mem64
      ensures memsize == old(memsize) + |rest| && mem64[..memsize] == old(mem64[..memsize]) + rest
    {
      Memcpy(mem64, memsize, rest);
      memsize := memsize + |rest|;
    }

    /** The rest of XXH64_update_endian once a stripe is complete. */
    method Consume(cpu: Endian, input: seq<byte>, endian: Endian)
      requires endian == cpu && mem64.Length == 32 && memsize < 32 && memsize + |input| >= 32
      requires memsize == Rest32(|fed|) && mem64[..memsize] == Expected(seed, fed).pending
      requires Lanes(v1, v2, v3, v4) == Expected(seed, fed).lanes
      modifies `v1, `v2, `v3, `v4, `memsize, mem64
      ensures memsize < 32 && var t := Expected(seed, fed + input);
        && memsize == t.memsize && mem64[..memsize] == t.pending
        && Lanes(v1, v2, v3, v4) == t.lanes
    {
      hide Expected, LanesAt;
      var p, n := Flush(cpu, input, endian);

      if p + 32 <= |input| {
        var l := Lanes(v1, v2, v3, v4);
        p, l, n := Stripes(cpu, input, p, l, endian, Unaligned, seed, fed + input, |fed|, n);
        v1, v2, v3, v4 := l.v1, l.v2, l.v3, l.v4;
      }
      RestStep(seed, fed, input, p, n);

      if p < |input| {
        Append(input[p..]);
      }
    }

    /** XXH64_update_endian. */
    method UpdateEndian(cpu: Endian, input: seq<byte>, endian: Endian) returns (r: ErrorCode)
      requires Valid() && endian == cpu
      modifies this, mem64
      ensures Valid() && seed == old(seed) && fed == old(fed) + input && r == XXH_OK
    {
      hide Expected, LanesAt, AddToTotal, Whole32, Rest32;
      ExpectedFields(seed, fed);
      LengthStep(seed, fed, input);
      totalLen := AddToTotal(totalLen, |input|);

      if memsize + |input| < 32 {
        ShortStep(seed, fed, input);
        Append(input);
        fed := fed + input;
        return XXH_OK;
      }

      Consume(cpu, input, endian);
      fed := fed + input;
      return XXH_OK;
    }

    /** XXH64_digest_endian. */
    method DigestEndian(cpu: Endian, endian: Endian) returns (h64: u64)
      requires Valid() && endian == cpu
      ensures h64 == DigestValue(seed, fed)
    {
      hide Add64, Rotl64, MergeRound, LanesAt, Finish, AddLength;
      if totalLen >= 32 {
        h64 := Add64(Add64(Add64(Rotl64(v1, 1), Rotl64(v2, 7)), Rotl64(v3, 12)), Rotl64(v4, 18));
        h64 := MergeRound(h64, v1);
        h64 := MergeRound(h64, v2);
        h64 := MergeRound(h64, v3);
        h64 := MergeRound(h64, v4);
      } else {
        h64 := Add64(v3, PRIME64_5);
      }
      ghost var start := h64;
      AddWrappedLength(h64, |fed|);
      h64 := AddLength(h64, totalLen);
      h64 := Tail(cpu, mem64[..], 0, memsize, h64, endian, Unaligned, start, fed, 32 * Whole32(|fed|));
    }

    /** XXH64_update and XXH64_digest: the CPU's own byte order is detected. */
    method Update(cpu: Endian, input: seq<byte>) returns (r: ErrorCode)
      requires Valid()
      modifies this, mem64
      ensures Valid() && seed == old(seed) && fed == old(fed) + input && r == XXH_OK
    {
      if cpu.LittleEndian? {
        r := UpdateEndian(cpu, input, LittleEndian);
      } else {
        r := UpdateEndian(cpu, input, BigEndian);
      }
    }

    method Digest(cpu: Endian) returns (h64: u64)
      requires Valid()
      ensures h64 == DigestValue(seed, fed)
      ensures |fed| < TWO_64 ==> h64 == Hash(seed, fed)
    {
      hide DigestValue, Hash, Expected;
      DigestIsHash(seed, fed);
      if cpu.LittleEndian? {
        h64 := DigestEndian(cpu, LittleEndian);
      } else {
        h64 := DigestEndian(cpu, BigEndian);
      }
    }

    /** XXH64_copyState: both states then go on independently. */
    method CopyFrom(src: State)
      requires src.Valid() && mem64.Length == 32 && this != src && mem64 != src.mem64
      modifies this, mem64
      ensures Valid() && seed == src.seed && fed == src.fed
    {
      hide Expected;
      Memcpy(mem64, 0, src.mem64[..]);
      assert mem64[..] == src.mem64[..];
      totalLen, memsize := src.totalLen, src.memsize;
      v1, v2, v3, v4 := src.v1, src.v2, src.v3, src.v4;
      seed, fed := src.seed, src.fed;
      assert mem64[..memsize] == src.mem64[..memsize];
      assert Observe() == src.Observe();
    }
  }

  ghost predicate DigestsOfPrefixes(seed: u64, segments: seq<seq<byte>>, digests: seq<u64>) {
    && 0 < |digests| <= |segments| + 1
    && forall i :: 0 <= i < |digests| ==> digests[i] == DigestValue(seed, Flatten(segments[..i]))
  }

  lemma OneMoreDigest(seed: u64, segments: seq<seq<byte>>, digests: seq<u64>, h: u64)
    requires DigestsOfPrefixes(seed, segments, digests) && |digests| <= |segments|
    requires h == DigestValue(seed, Flatten(segments[..|digests|]))
    ensures DigestsOfPrefixes(seed, segments, digests + [h])
  {
    hide DigestValue, Hash, Flatten;
  }

  lemma FirstDigest(seed: u64, segments: seq<seq<byte>>, digests: seq<u64>)
    requires digests == [DigestValue(seed, [])]
    ensures Flatten(segments[..0]) == [] && DigestsOfPrefixes(seed, segments, digests)
  {
    hide DigestValue;
  }

  /**
   A whole run: one update per segment, and a digest before the first segment
   and after each of them. No cut of the input and no earlier digest matters.
   */
  method Run(cpu: Endian, seed: u64, segments: seq<seq<byte>>) returns (digests: seq<u64>)
    ensures |digests| == |segments| + 1 && DigestsOfPrefixes(seed, segments, digests)
  {
    hide DigestValue, Hash, Flatten, Expected, DigestsOfPrefixes;
    var state := new State.Create();
    var _ := state.Reset(seed);
    var h := state.Digest(cpu);
    digests := [h];
    FirstDigest(seed, segments, digests);
    for k := 0 to |segments|
      invariant fresh(state) && fresh(state.mem64) && state.Valid()
      invariant state.seed == seed && state.fed == Flatten(segments[..k])
      invariant |digests| == k + 1 && DigestsOfPrefixes(seed, segments, digests)
    {
      FlattenOneMore(segments, k);
      var _ := state.Update(cpu, segments[k]);
      h := state.Digest(cpu);
      OneMoreDigest(seed, segments, digests, h);
      digests := digests + [h];
    }
  }

  /** The counter does not wrap on inputs that a one-shot call could take. */
  lemma DigestsAreHashes(seed: u64, segments: seq<seq<byte>>, digests: seq<u64>, i: nat)
    requires DigestsOfPrefixes(seed, segments, digests) && i < |digests|
    requires |Flatten(segments[..i])| < TWO_64
    ensures digests[i] == Hash(seed, Flatten(segments[..i]))
  {
    hide DigestValue, Hash;
    DigestIsHash(seed, Flatten(segments[..i]));
  }

  /** The "simple version" of XXH64, written with the streaming calls. */
  method Simple(cpu: Endian, input: seq<byte>, seed: u64) returns (h64: u64)
    requires |input| < TWO_64
    ensures h64 == Hash(seed, input)
  {
    hide DigestValue, Hash, Expected;
    var state := new State.Create();
    var _ := state.Reset(seed);
    var _ := state.Update(cpu, input);
    assert state.fed == input;
    h64 := state.Digest(cpu);
  }

  /** Two updates or one with both inputs: nothing a digest may look at differs. */
  method Confluence(s: State, t: State, cpu: Endian, cpu': Endian, a: seq<byte>, b: seq<byte>)
    requires s.Valid() && t.Valid() && s != t && s.mem64 != t.mem64
    requires s.seed == t.seed && s.fed == t.fed
    modifies s, s.mem64, t, t.mem64
    ensures s.Valid() && t.Valid() && s.Observe() == t.Observe()
    ensures s.Observe() == Expected(old(s.seed), old(s.fed) + a + b)
  {
    hide Expected;
    var _ := s.Update(cpu, a);
    var _ := s.Update(cpu, b);
    var _ := t.Update(cpu', a + b);
    assert s.fed == t.fed by {
      assert old(s.fed) + a + b == old(s.fed) + (a + b);
    }
  }
}
