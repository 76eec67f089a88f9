/**
 The incremental form of XXH32: a state object that is reset, fed any number of
 segments, and asked for digests at any moment.
 */
module Xxh32Stream {
  import opened Words
  import opened Inputs
  import opened Arith32
  import opened Xxh32

  /** What a digest may look at: `pending` is the first `memsize` bytes of the buffer. */
  datatype Snapshot = Snapshot(totalLen32: nat, largeLen: bool, lanes: Lanes, memsize: nat, pending: seq<byte>)

  /** What a state must hold after `fed` went in, in whatever segments. */
  ghost function Expected(seed: u32, fed: seq<byte>): Snapshot {
    var n := Whole16(|fed|);
    Snapshot(|fed| % TWO_32, |fed| >= 16, LanesAt(seed, fed, n), Rest16(|fed|), fed[16 * n..])
  }

  lemma ExpectedFields(seed: u32, fed: seq<byte>)
    ensures var s := Expected(seed, fed);
      && s.lanes == LanesAt(seed, fed, Whole16(|fed|))
      && s.memsize == Rest16(|fed|) == |s.pending|
      && s.totalLen32 == |fed| % TWO_32
      && s.largeLen == (|fed| >= 16)
  {
    hide LanesAt;
  }

  /** The two length fields after one more input. */
  lemma ExpectedCount(seed: u32, fed: seq<byte>, input: seq<byte>)
    ensures var s := Expected(seed, fed + input);
      s.totalLen32 == (|fed| + |input|) % TWO_32 && s.largeLen == (|fed| + |input| >= 16)
  {
    hide LanesAt;
  }

  lemma ExpectedEmpty(seed: u32)
    ensures Expected(seed, []) == Snapshot(0, false, InitLanes(seed), 0, [])
  {
    hide LanesAt;
    NoStripeYet(seed, []);
  }

  /** `total_len_32 += (unsigned)len`. */
  function AddToTotal(total: nat, len: nat): nat {
    (total + len % TWO_32) % TWO_32
  }

  /** The counter wraps, as the sum of the lengths does. */
  lemma WrappedSum(a: nat, b: nat)
    ensures AddToTotal(a % TWO_32, b) == (a + b) % TWO_32
  {
    assert a + b == TWO_32 * (a / TWO_32 + b / TWO_32) + (a % TWO_32 + b % TWO_32);
  }

  /** The flag outlives the wrap-around. */
  lemma StickyFlag(a: nat, b: nat)
    ensures a + b >= 16 <==> a >= 16 || b >= 16 || (a + b) % TWO_32 >= 16
  {
  }

  /** An input too short to complete a stripe only joins the pending bytes. */
  lemma ShortStep(seed: u32, fed: seq<byte>, input: seq<byte>)
    requires Rest16(|fed|) + |input| < 16
    ensures var s, t := Expected(seed, fed), Expected(seed, fed + input);
      && t.lanes == s.lanes
      && t.memsize == s.memsize + |input|
      && t.pending == s.pending + input
  {
    hide LanesAt;
    LanesOfPrefix(seed, fed, input, Whole16(|fed|));
  }

  /** The first `16 - memsize` bytes of a longer input complete the pending stripe. */
  lemma FlushStep(seed: u32, fed: seq<byte>, input: seq<byte>, stripe: seq<byte>)
    requires Rest16(|fed|) + |input| >= 16
    requires stripe == Expected(seed, fed).pending + input[..16 - Rest16(|fed|)]
    ensures |stripe| == 16
    ensures NextLanes(Expected(seed, fed).lanes, stripe) == LanesAt(seed, fed + input, Whole16(|fed|) + 1)
  {
    hide NextLanes, LanesAt, Whole16;
    var n, all := Whole16(|fed|), fed + input;
    LanesOfPrefix(seed, fed, input, n);
    CutAcross(fed, input, 16 * n, 16 * n + 16);
    OneStripe(seed, all, n, stripe);
  }

  /** What is left behind the last full stripe. */
  lemma RestStep(seed: u32, fed: seq<byte>, input: seq<byte>, p: nat, n: nat)
    requires |fed| + p == 16 * n && p <= |input| < p + 16
    ensures var all := fed + input; var t := Expected(seed, all);
      && t.lanes == LanesAt(seed, all, n)
      && t.memsize == |input| - p
      && t.pending == input[p..]
  {
    hide LanesAt;
    var all := fed + input;
    assert |all| == 16 * n + (|input| - p);
    assert Whole16(|all|) == n && Rest16(|all|) == |input| - p;
    assert all[16 * n..] == input[p..];
  }

  class State {
    var totalLen32: nat  // below 2^32
    var largeLen: bool
    var v1: u32
    var v2: u32
    var v3: u32
    var v4: u32
    const mem32: array<byte>
    var memsize: nat

    ghost var seed: u32
    ghost var fed: seq<byte>  // every byte since the last reset

    ghost predicate Valid()
      reads this, mem32
    {
      && mem32.Length == 16
      && memsize < 16
      && Observe() == Expected(seed, fed)
    }

    ghost function Observe(): Snapshot
      requires memsize <= mem32.Length
      reads this, mem32
    {
      Snapshot(totalLen32, largeLen, Lanes(v1, v2, v3, v4), memsize, mem32[..memsize])
    }

    /** XXH32_createState: the memory is not initialised; only a reset makes it valid. */
    constructor Create()
      ensures mem32.Length == 16 && fresh(mem32)
    {
      mem32 := new byte[16];
    }

    method Reset(seed: u32) returns (r: ErrorCode)
      requires mem32.Length == 16
      modifies this, mem32
      ensures Valid() && this.seed == seed && fed == [] && r == XXH_OK
    {
      hide Add32, Sub32, Expected;
      ExpectedEmpty(seed);
      forall i | 0 <= i < 16 {
        mem32[i] := 0;
      }
      totalLen32, largeLen, memsize := 0, false, 0;
      v1 := Add32(Add32(seed, PRIME32_1), PRIME32_2);
      v2 := Add32(seed, PRIME32_2);
      v3 := Add32(seed, 0);
      v4 := Sub32(seed, PRIME32_1);
      this.seed, fed := seed, [];
      return XXH_OK;
    }

    /** One round in each lane, from the buffer filled up. */
    method Rounds(cpu: Endian, endian: Endian)
      requires endian == cpu && mem32.Length == 16
      modifies `v1, `v2, `v3, `v4
      ensures Lanes(v1, v2, v3, v4) == NextLanes(old(Lanes(v1, v2, v3, v4)), mem32[..])
    {
      hide Round, Le32At, ReadLE32Align;
      var stripe := mem32[..];
      v1 := Round(v1, ReadLE32(cpu, stripe, 0, endian));
      v2 := Round(v2, ReadLE32(cpu, stripe, 4, endian));
      v3 := Round(v3, ReadLE32(cpu, stripe, 8, endian));
      v4 := Round(v4, ReadLE32(cpu, stripe, 12, endian));
    }

    /** The part of XXH32_update_endian for data left from a previous update. */
    method Flush(cpu: Endian, input: seq<byte>, endian: Endian) returns (p: nat, ghost n: nat)
      requires endian == cpu && mem32.Length == 16 && memsize < 16 && memsize + |input| >= 16
      requires memsize == Rest16(|fed|) && mem32[..memsize] == Expected(seed, fed).pending
      requires Lanes(v1, v2, v3, v4) == Expected(seed, fed).lanes
      modifies `v1, `v2, `v3, `v4, `memsize, mem32
      ensures memsize == 0 && p <= |input| && |fed| + p == 16 * n
      ensures Lanes(v1, v2, v3, v4) == LanesAt(seed, fed + input, n)
    {
      hide NextLanes, Expected, LanesAt, Whole16;
      p, n := 0, Whole16(|fed|);
      if memsize != 0 {
        Memcpy(mem32, memsize, input[..16 - memsize]);
        FlushStep(seed, fed, input, mem32[..]);
        Rounds(cpu, endian);
        p := p + (16 - memsize);
        memsize := 0;
        n := n + 1;
      } else {
        ExpectedFields(seed, fed);
        LanesOfPrefix(seed, fed, input, n);
      }
    }

    /** Adds bytes to the buffer, without completing a stripe. */
    method Append(rest: seq<byte>)
      requires mem32.Length == 16 && memsize + |rest| < 16
      modifies `memsize, mem32
      ensures memsize == old(memsize) + |rest| && mem32[..memsize] == old(mem32[..memsize]) + rest
    {
      Memcpy(mem32, memsize, rest);
      memsize := memsize + |rest|;
    }

    /** The rest of XXH32_update_endian once a stripe is complete. */
    method Consume(cpu: Endian, input: seq<byte>, endian: Endian)
      requires endian == cpu && mem32.Length == 16 && memsize < 16 && memsize + |input| >= 16
      requires memsize == Rest16(|fed|) && mem32[..memsize] == Expected(seed, fed).pending
      requires Lanes(v1, v2, v3, v4) == Expected(seed, fed).lanes
      modifies `v1, `v2, `v3, `v4, `memsize, mem32
      ensures memsize < 16 && var t := Expected(seed, fed + input);
        && memsize == t.memsize && mem32[..memsize] == t.pending
        && Lanes(v1, v2, v3, v4) == t.lanes
    {
      hide Expected, LanesAt;
      var p, n := Flush(cpu, input, endian);

      if p <= |input| - 16 {
        var l := Lanes(v1, v2, v3, v4);
        p, l, n := Stripes(cpu, input, p, l, endian, Unaligned, seed, fed + input, |fed|, n);
        v1, v2, v3, v4 := l.v1, l.v2, l.v3, l.v4;
      }
      RestStep(seed, fed, input, p, n);

      if p < |input| {
        Append(input[p..]);
      }
    }

    /**
     Both length fields at the beginning of XXH32_update_endian, when `total` bytes
     have been counted: together they say how large the unbounded sum is.
     */
    method CountLength(len: nat, ghost total: nat)
      requires totalLen32 == total % TWO_32 && largeLen == (total >= 16)
      modifies `totalLen32, `largeLen
      ensures totalLen32 == (total + len) % TWO_32 && largeLen == (total + len >= 16)
    {
      hide AddToTotal;
      WrappedSum(total, len);
      StickyFlag(total, len);
      totalLen32 := AddToTotal(totalLen32, len);
      largeLen := largeLen || len >= 16 || totalLen32 >= 16;
    }

    /** XXH32_update_endian. */
    method UpdateEndian(cpu: Endian, input: seq<byte>, endian: Endian) returns (r: ErrorCode)
      requires Valid() && endian == cpu
      modifies this, mem32
      ensures Valid() && seed == old(seed) && fed == old(fed) + input && r == XXH_OK
    {
      hide Expected, LanesAt, AddToTotal, Whole16, Rest16;
      ExpectedFields(seed, fed);
      ExpectedCount(seed, fed, input);
      CountLength(|input|, |fed|);

      if memsize + |input| < 16 {
        ShortStep(seed, fed, input);
        Append(input);
        fed := fed + input;
        return XXH_OK;
      }

      Consume(cpu, input, endian);
      fed := fed + input;
      return XXH_OK;
    }

    /** XXH32_digest_endian. */
    method DigestEndian(cpu: Endian, endian: Endian) returns (h32: u32)
      requires Valid() && endian == cpu
      ensures h32 == Hash(seed, fed)
    {
      hide Add32, Rotl32, LaneFold, Finish, AddLength;
      AddZero32(seed);
      if largeLen {
        h32 := Add32(Add32(Add32(Rotl32(v1, 1), Rotl32(v2, 7)), Rotl32(v3, 12)), Rotl32(v4, 18));
      } else {
        h32 := Add32(v3, PRIME32_5);
      }
      ghost var start := h32;
      NoStripeYet(seed, fed);
      AddWrappedLength(h32, |fed|);
      h32 := AddLength(h32, totalLen32);
      h32 := Tail(cpu, mem32[..], 0, memsize, h32, endian, Unaligned, start, fed, 16 * Whole16(|fed|));
    }

    /** XXH32_update and XXH32_digest: the CPU's own byte order is detected. */
    method Update(cpu: Endian, input: seq<byte>) returns (r: ErrorCode)
      requires Valid()
      modifies this, mem32
      ensures Valid() && seed == old(seed) && fed == old(fed) + input && r == XXH_OK
    {
      if cpu.LittleEndian? {
        r := UpdateEndian(cpu, input, LittleEndian);
      } else {
        r := UpdateEndian(cpu, input, BigEndian);
      }
    }

    method Digest(cpu: Endian) returns (h32: u32)
      requires Valid()
      ensures h32 == Hash(seed, fed)
    {
      if cpu.LittleEndian? {
        h32 := DigestEndian(cpu, LittleEndian);
      } else {
        h32 := DigestEndian(cpu, BigEndian);
      }
    }

    /** XXH32_copyState: both states then go on independently. */
    method CopyFrom(src: State)
      requires src.Valid() && mem32.Length == 16 && this != src && mem32 != src.mem32
      modifies this, mem32
      ensures Valid() && seed == src.seed && fed == src.fed
    {
      hide Expected;
      Memcpy(mem32, 0, src.mem32[..]);
      assert mem32[..] == src.mem32[..];
      totalLen32, largeLen, memsize := src.totalLen32, src.largeLen, src.memsize;
      v1, v2, v3, v4 := src.v1, src.v2, src.v3, src.v4;
      seed, fed := src.seed, src.fed;
      assert mem32[..memsize] == src.mem32[..memsize];
      assert Observe() == src.Observe();
    }
  }

  ghost predicate DigestsOfPrefixes(seed: u32, segments: seq<seq<byte>>, digests: seq<u32>) {
    && 0 < |digests| <= |segments| + 1
    && forall i :: 0 <= i < |digests| ==> digests[i] == Hash(seed, Flatten(segments[..i]))
  }

  lemma OneMoreDigest(seed: u32, segments: seq<seq<byte>>, digests: seq<u32>, h: u32)
    requires DigestsOfPrefixes(seed, segments, digests) && |digests| <= |segments|
    requires h == Hash(seed, Flatten(segments[..|digests|]))
    ensures DigestsOfPrefixes(seed, segments, digests + [h])
  {
    hide Hash, Flatten;
  }

  lemma FirstDigest(seed: u32, segments: seq<seq<byte>>, digests: seq<u32>)
    requires digests == [Hash(seed, [])]
    ensures Flatten(segments[..0]) == [] && DigestsOfPrefixes(seed, segments, digests)
  {
    hide Hash;
  }

  /**
   A whole run: one update per segment, and a digest before the first segment
   and after each of them. No cut of the input and no earlier digest matters.
   */
  method Run(cpu: Endian, seed: u32, segments: seq<seq<byte>>) returns (digests: seq<u32>)
    ensures |digests| == |segments| + 1 && DigestsOfPrefixes(seed, segments, digests)
  {
    hide Hash, Flatten, Expected, DigestsOfPrefixes;
    var state := new State.Create();
    var _ := state.Reset(seed);
    var h := state.Digest(cpu);
    digests := [h];
    FirstDigest(seed, segments, digests);
    for k := 0 to |segments|
      invariant fresh(state) && fresh(state.mem32) && state.Valid()
      invariant state.seed == seed && state.fed == Flatten(segments[..k])
      invariant |digests| == k + 1 && DigestsOfPrefixes(seed, segments, digests)
    {
      FlattenOneMore(segments, k);
      var _ := state.Update(cpu, segments[k]);
      h := state.Digest(cpu);
      OneMoreDigest(seed, segments, digests, h);
      digests := digests + [h];
    }
  }

  /** The "simple version" of XXH32, written with the streaming calls. */
  method Simple(cpu: Endian, input: seq<byte>, seed: u32) returns (h32: u32)
    ensures h32 == Hash(seed, input)
  {
    hide Hash, Expected;
    var state := new State.Create();
    var _ := state.Reset(seed);
    var _ := state.Update(cpu, input);
    assert state.fed == input;
    h32 := state.Digest(cpu);
  }

  /** Two updates or one with both inputs: nothing a digest may look at differs. */
  method Confluence(s: State, t: State, cpu: Endian, cpu': Endian, a: seq<byte>, b: seq<byte>)
    requires s.Valid() && t.Valid() && s != t && s.mem32 != t.mem32
    requires s.seed == t.seed && s.fed == t.fed
    modifies s, s.mem32, t, t.mem32
    ensures s.Valid() && t.Valid() && s.Observe() == t.Observe()
    ensures s.Observe() == Expected(old(s.seed), old(s.fed) + a + b)
  {
    hide Expected;
    var _ := s.Update(cpu, a);
    var _ := s.Update(cpu, b);
    var _ := t.Update(cpu', a + b);
    assert s.fed == t.fed by {
      assert old(s.fed) + a + b == old(s.fed) + (a + b);
    }
  }
}
