/**
 XXH64: the hash as a function of the whole input (the steps of the section
 "XXH64 Algorithm Description" of the xxHash specification), and the one-shot
 algorithm of xxhash.c, which computes it.
 */
module Xxh64 {
  import opened Words
  import opened Lengths
  import opened Arith64

  function Round(acc: u64, input: u64): u64 {
    TimesPrime1(Rotl64(Add64(acc, TimesPrime2(input)), 31))
  }

  function MergeRound(acc: u64, val: u64): u64 {
    Add64(TimesPrime1(Xor64(acc, Round(0, val))), PRIME64_4)
  }

  /** The four accumulators v1, v2, v3, v4, numbered 0 to 3. */
  datatype Lanes = Lanes(v1: u64, v2: u64, v3: u64, v4: u64)

  function InitLanes(seed: u64): Lanes {
    Lanes(Add64(Add64(seed, PRIME64_1), PRIME64_2), Add64(seed, PRIME64_2), Add64(seed, 0), Sub64(seed, PRIME64_1))
  }

  /** Lane `k`, started at `v`, over its words in the stripes `lo..hi` of `s`. */
  function LaneFold(v: u64, s: seq<byte>, k: nat, lo: nat, hi: nat): u64
    requires k < 4 && lo <= hi && 32 * hi <= |s|
    decreases hi
  {
    if lo == hi then v
    else Round(LaneFold(v, s, k, lo, hi - 1), Le64At(s, 32 * (hi - 1) + 8 * k))
  }

  /** The four lanes after the first `n` stripes of `s`. */
  function LanesAt(seed: u64, s: seq<byte>, n: nat): Lanes
    requires 32 * n <= |s|
  {
    var l := InitLanes(seed);
    Lanes(LaneFold(l.v1, s, 0, 0, n), LaneFold(l.v2, s, 1, 0, n),
          LaneFold(l.v3, s, 2, 0, n), LaneFold(l.v4, s, 3, 0, n))
  }

  lemma NoStripeYet(seed: u64, s: seq<byte>)
    ensures LanesAt(seed, s, 0) == InitLanes(seed)
  {
  }

  /** Lane values depend on the stripes they have seen and on nothing after them. */
  lemma {:induction false} LaneFoldOfPrefix(v: u64, s: seq<byte>, t: seq<byte>, k: nat, n: nat)
    requires k < 4 && 32 * n <= |s|
    ensures LaneFold(v, s + t, k, 0, n) == LaneFold(v, s, k, 0, n)
  {
    hide Round, Le64At;
    if n > 0 {
      LaneFoldOfPrefix(v, s, t, k, n - 1);
      var p := 32 * (n - 1) + 8 * k;
      SameWord64(s + t, p, s, p);
    }
  }

  lemma LanesOfPrefix(seed: u64, s: seq<byte>, t: seq<byte>, n: nat)
    requires 32 * n <= |s|
    ensures LanesAt(seed, s + t, n) == LanesAt(seed, s, n)
  {
    hide LaneFold, InitLanes;
    var l := InitLanes(seed);
    LaneFoldOfPrefix(l.v1, s, t, 0, n);
    LaneFoldOfPrefix(l.v2, s, t, 1, n);
    LaneFoldOfPrefix(l.v3, s, t, 2, n);
    LaneFoldOfPrefix(l.v4, s, t, 3, n);
  }

  /** One round in each lane, over the words of a stripe. */
  function NextLanes(l: Lanes, stripe: seq<byte>): Lanes
    requires |stripe| == 32
  {
    Lanes(Round(l.v1, Le64At(stripe, 0)), Round(l.v2, Le64At(stripe, 8)),
          Round(l.v3, Le64At(stripe, 16)), Round(l.v4, Le64At(stripe, 24)))
  }

  lemma WordOfSlice(s: seq<byte>, a: nat, b: nat, q: nat)
    requires a <= b <= |s| && q + 8 <= b - a
    ensures Le64At(s[a..b], q) == Le64At(s, a + q)
  {
    SameWord64(s[a..b], q, s, a + q);
  }

  /** The stripe taken from a buffer that holds it. */
  lemma OneStripe(seed: u64, s: seq<byte>, n: nat, stripe: seq<byte>)
    requires 32 * n + 32 <= |s| && stripe == s[32 * n..32 * n + 32]
    ensures LanesAt(seed, s, n + 1) == NextLanes(LanesAt(seed, s, n), stripe)
  {
    hide Round, InitLanes, Le64At;
    var a, b := 32 * n, 32 * n + 32;
    WordOfSlice(s, a, b, 0);
    WordOfSlice(s, a, b, 8);
    WordOfSlice(s, a, b, 16);
    WordOfSlice(s, a, b, 24);
  }

  function Converge(l: Lanes): u64 {
    var h := Add64(Add64(Add64(Rotl64(l.v1, 1), Rotl64(l.v2, 7)), Rotl64(l.v3, 12)), Rotl64(l.v4, 18));
    MergeRound(MergeRound(MergeRound(MergeRound(h, l.v1), l.v2), l.v3), l.v4)
  }

  /** The start value when no stripe has been processed; v3 is then the seed. */
  function ShortStart(v3: u64): u64 {
    Add64(v3, PRIME64_5)
  }

  function Start(seed: u64, s: seq<byte>): u64 {
    if |s| >= 32 then Converge(LanesAt(seed, s, Whole32(|s|))) else ShortStart(seed)
  }

  /** `h64 += (U64)len`. */
  function AddLength(h: u64, len: nat): u64 {
    Add64(h, Low64(len))
  }

  /** Lengths add up, and a byte counts 1. */
  lemma LengthLaw(h: u64, m: nat, n: nat)
    ensures AddLength(h, m + n) == AddLength(AddLength(h, m), n)
    ensures AddLength(h, 0) == h && AddLength(h, 1) == h + 1
  {
    hide Low64, Add64;
    Low64Sum(m, n);
    AddAssociative64(h, Low64(m), Low64(n));
    AddZero64(h);
    AddIsSum64(h, 1);
    Low64Start();
  }

  lemma AddWrappedLength(h: u64, len: nat)
    ensures AddLength(h, len % TWO_64) == AddLength(h, len)
  {
    hide Low64, Add64;
    Low64Wraps(len);
  }

  function LongStep(h: u64, w: u64): u64 {
    Add64(TimesPrime1(Rotl64(Xor64(h, Round(0, w)), 27)), PRIME64_4)
  }

  function WordStep(h: u64, w: u32): u64 {
    Add64(TimesPrime2(Rotl64(Xor64(h, TimesPrime1(Extend(w))), 23)), PRIME64_3)
  }

  function ByteStep(h: u64, b: byte): u64 {
    TimesPrime1(Rotl64(Xor64(h, TimesPrime5(Widen64(b))), 11))
  }

  /** The 8-byte words `lo..hi` of `s` (word `i` is at offset `8 * i`). */
  function LongTail(h: u64, s: seq<byte>, lo: nat, hi: nat): u64
    requires lo <= hi && 8 * hi <= |s|
    decreases hi
  {
    if lo == hi then h else LongStep(LongTail(h, s, lo, hi - 1), Le64At(s, 8 * (hi - 1)))
  }

  /** The 4-byte word behind the 8-byte words, if there is room for one. */
  function WordTail(h: u64, s: seq<byte>): u64 {
    if 8 * Whole8(|s|) + 4 <= |s| then WordStep(h, Le32At(s, 8 * Whole8(|s|))) else h
  }

  function ByteTail(h: u64, s: seq<byte>, lo: nat, hi: nat): u64
    requires lo <= hi <= |s|
    decreases hi
  {
    if lo == hi then h else ByteStep(ByteTail(h, s, lo, hi - 1), s[hi - 1])
  }

  function Avalanche(h: u64): u64 {
    XorShift32(TimesPrime3(XorShift29(TimesPrime2(XorShift33(h)))))
  }

  /** Everything after the convergence: length, the three kinds of tail, avalanche. */
  function Finish(h: u64, s: seq<byte>): u64 {
    var longs := LongTail(AddLength(h, |s|), s, 4 * Whole32(|s|), Whole8(|s|));
    Avalanche(ByteTail(WordTail(longs, s), s, 4 * Whole4(|s|), |s|))
  }

  function Hash(seed: u64, s: seq<byte>): u64 {
    Finish(Start(seed, s), s)
  }

  lemma SameStripe(input: seq<byte>, p: nat, all: seq<byte>, base: nat)
    requires base <= |all| && input == all[base..] && p + 32 <= |input|
    ensures forall q {:trigger Le64At(input, q)} :: p <= q <= p + 24 ==>
      Le64At(input, q) == Le64At(all, base + q)
  {
    forall q | p <= q <= p + 24
      ensures Le64At(input, q) == Le64At(all, base + q)
    {
      SameWord64(input, q, all, base + q);
    }
  }

  /**
   The do-while loop over full stripes, from offset `p0` of `input`. `all` is
   the whole input so far, of which `input` is the part from `base` on.
   */
  method Stripes(cpu: Endian, input: seq<byte>, p0: nat, l: Lanes, endian: Endian, align: Alignment,
                 ghost seed: u64, ghost all: seq<byte>, ghost base: nat, ghost n0: nat)
    returns (p: nat, r: Lanes, ghost n: nat)
    requires endian == cpu && p0 + 32 <= |input|
    requires base <= |all| && input == all[base..]
    requires base + p0 == 32 * n0 && l == LanesAt(seed, all, n0)
    ensures base + p == 32 * n && p <= |input| < p + 32
    ensures r == LanesAt(seed, all, n)
  {
    hide Round, InitLanes, Le64At, ReadLE64Align;
    p := p0;
    var limit := |input| - 32;
    var v1, v2, v3, v4 := l.v1, l.v2, l.v3, l.v4;
    n := n0;
    while true
      invariant base + p == 32 * n && p <= limit
      invariant Lanes(v1, v2, v3, v4) == LanesAt(seed, all, n)
      decreases limit - p
    {
      SameStripe(input, p, all, base);
      v1 := Round(v1, ReadLE64Align(cpu, input, p, endian, align)); p := p + 8;
      v2 := Round(v2, ReadLE64Align(cpu, input, p, endian, align)); p := p + 8;
      v3 := Round(v3, ReadLE64Align(cpu, input, p, endian, align)); p := p + 8;
      v4 := Round(v4, ReadLE64Align(cpu, input, p, endian, align)); p := p + 8;
      n := n + 1;
      if p > limit { break; }
    }
    r := Lanes(v1, v2, v3, v4);
  }

  /** The loop over the 8-byte words of the tail. */
  method LongLoop(cpu: Endian, buf: seq<byte>, p0: nat, bEnd: nat, h: u64, endian: Endian, align: Alignment,
               ghost all: seq<byte>, ghost base: nat, ghost i0: nat)
    returns (p: nat, h64: u64, ghost i: nat)
    requires endian == cpu && p0 <= bEnd <= |buf|
    requires base + p0 == 8 * i0 && base + bEnd == |all|
    requires forall j :: p0 <= j < bEnd ==> buf[j] == all[base + j]
    ensures p0 <= p <= bEnd < p + 8 && base + p == 8 * i
    ensures i0 <= i && h64 == LongTail(h, all, i0, i)
  {
    hide Round, Add64, Xor64, Rotl64, TimesPrime1, Le64At, ReadLE64Align;
    p, h64, i := p0, h, i0;
    while p + 8 <= bEnd
      invariant base + p == 8 * i && i0 <= i && p <= bEnd
      invariant h64 == LongTail(h, all, i0, i)
    {
      SameWord64(buf, p, all, base + p);
      var k1 := Round(0, ReadLE64Align(cpu, buf, p, endian, align));
      h64 := Xor64(h64, k1);
      h64 := Add64(TimesPrime1(Rotl64(h64, 27)), PRIME64_4);
      p := p + 8;
      i := i + 1;
    }
  }

  /** The 4-byte word behind the 8-byte words, if there is room for one. */
  method OneWord(cpu: Endian, buf: seq<byte>, p0: nat, bEnd: nat, h: u64, endian: Endian, align: Alignment,
                 ghost all: seq<byte>, ghost base: nat)
    returns (p: nat, h64: u64)
    requires endian == cpu && p0 <= bEnd <= |buf|
    requires base + p0 == 8 * Whole8(|all|) && base + bEnd == |all|
    requires forall j :: p0 <= j < bEnd ==> buf[j] == all[base + j]
    ensures p0 <= p <= bEnd && base + p == 4 * Whole4(|all|)
    ensures h64 == WordTail(h, all)
  {
    hide Le32At, ReadLE32Align, Add64, Xor64, Rotl64, Extend, Whole4, Whole8, TimesPrime1, TimesPrime2;
    p, h64 := p0, h;
    OddUnit(|all|);
    if p + 4 <= bEnd {
      SameWord32(buf, p, all, base + p);
      h64 := Xor64(h64, TimesPrime1(Extend(ReadLE32Align(cpu, buf, p, endian, align))));
      h64 := Add64(TimesPrime2(Rotl64(h64, 23)), PRIME64_3);
      p := p + 4;
    }
  }

  /** The loop over the last bytes. */
  method ByteLoop(buf: seq<byte>, p0: nat, bEnd: nat, h: u64, ghost all: seq<byte>, ghost base: nat)
    returns (h64: u64)
    requires p0 <= bEnd <= |buf| && base + bEnd == |all|
    requires forall j :: p0 <= j < bEnd ==> buf[j] == all[base + j]
    ensures h64 == ByteTail(h, all, base + p0, |all|)
  {
    hide Xor64, Rotl64, TimesPrime1, TimesPrime5, Widen64;
    var p := p0;
    h64 := h;
    while p < bEnd
      invariant p0 <= p <= bEnd
      invariant h64 == ByteTail(h, all, base + p0, base + p)
    {
      h64 := Xor64(h64, TimesPrime5(Widen64(buf[p])));
      h64 := TimesPrime1(Rotl64(h64, 11));
      p := p + 1;
    }
  }

  /**
   The tail loops and the avalanche, over `buf[p0..bEnd]`, which holds what
   follows the full stripes of `all`.
   */
  method Tail(cpu: Endian, buf: seq<byte>, p0: nat, bEnd: nat, h: u64, endian: Endian, align: Alignment,
              ghost start: u64, ghost all: seq<byte>, ghost base: nat)
    returns (h64: u64)
    requires endian == cpu && p0 <= bEnd <= |buf|
    requires base + p0 == 32 * Whole32(|all|) && base + bEnd == |all|
    requires forall i :: p0 <= i < bEnd ==> buf[i] == all[base + i]
    requires h == AddLength(start, |all|)
    ensures h64 == Finish(start, all)
  {
    hide AddLength, LongTail, WordTail, ByteTail, Whole4, Whole8, Whole32,
         TimesPrime2, TimesPrime3, XorShift29, XorShift32, XorShift33;
    ghost var i;
    var p;
    TailBehindStripes(|all|);
    p, h64, i := LongLoop(cpu, buf, p0, bEnd, h, endian, align, all, base, 4 * Whole32(|all|));
    p, h64 := OneWord(cpu, buf, p, bEnd, h64, endian, align, all, base);
    h64 := ByteLoop(buf, p, bEnd, h64, all, base);
    h64 := XorShift33(h64);
    h64 := TimesPrime2(h64);
    h64 := XorShift29(h64);
    h64 := TimesPrime3(h64);
    h64 := XorShift32(h64);
  }

  /** XXH64_endian_align: four interleaved lanes in one pass, then the tail. */
  method EndianAlign(cpu: Endian, input: seq<byte>, seed: u64, endian: Endian, align: Alignment) returns (h64: u64)
    requires endian == cpu
    ensures h64 == Hash(seed, input)
  {
    hide Add64, Sub64, Rotl64, MergeRound, LaneFold, Finish, AddLength;
    NoStripeYet(seed, input);
    var p := 0;
    if |input| >= 32 {
      var l := Lanes(Add64(Add64(seed, PRIME64_1), PRIME64_2), Add64(seed, PRIME64_2),
                     Add64(seed, 0), Sub64(seed, PRIME64_1));
      ghost var n;
      p, l, n := Stripes(cpu, input, p, l, endian, align, seed, input, 0, 0);
      h64 := Add64(Add64(Add64(Rotl64(l.v1, 1), Rotl64(l.v2, 7)), Rotl64(l.v3, 12)), Rotl64(l.v4, 18));
      h64 := MergeRound(h64, l.v1);
      h64 := MergeRound(h64, l.v2);
      h64 := MergeRound(h64, l.v3);
      h64 := MergeRound(h64, l.v4);
    } else {
      h64 := Add64(seed, PRIME64_5);
    }
    ghost var start := h64;
    h64 := AddLength(h64, |input|);
    h64 := Tail(cpu, input, p, |input|, h64, endian, align, start, input, 0);
  }

  /** XXH64: the public one-shot call. `address` is where the input lies. */
  method OneShot(cpu: Endian, forceAlignCheck: bool, address: nat, input: seq<byte>, seed: u64) returns (h64: u64)
    ensures h64 == Hash(seed, input)
  {
    if forceAlignCheck {
      if address % 8 == 0 {
        if cpu.LittleEndian? {
          h64 := EndianAlign(cpu, input, seed, LittleEndian, Aligned);
        } else {
          h64 := EndianAlign(cpu, input, seed, BigEndian, Aligned);
        }
        return;
      }
    }
    if cpu.LittleEndian? {
      h64 := EndianAlign(cpu, input, seed, LittleEndian, Unaligned);
    } else {
      h64 := EndianAlign(cpu, input, seed, BigEndian, Unaligned);
    }
  }
}
