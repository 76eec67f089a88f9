/**
 XXH32: the hash as a function of the whole input (the steps of the section
 "XXH32 Algorithm Description" of the xxHash specification), and the one-shot
 algorithm of xxhash.c, which computes it.

 The specification keeps the four lanes apart: lane `k` is a fold over its own
 words, those whose index is congruent to `k` modulo 4.
 */
module Xxh32 {
  import opened Words
  import opened Lengths
  import opened Arith32

  function Round(acc: u32, input: u32): u32 {
    TimesPrime1(Rotl32(Add32(acc, TimesPrime2(input)), 13))
  }

  /** The four accumulators v1, v2, v3, v4, numbered 0 to 3. */
  datatype Lanes = Lanes(v1: u32, v2: u32, v3: u32, v4: u32) {
    function Get(k: nat): u32
      requires k < 4
    {
      if k == 0 then v1 else if k == 1 then v2 else if k == 2 then v3 else v4
    }
  }

  function InitLanes(seed: u32): Lanes {
    Lanes(Add32(Add32(seed, PRIME32_1), PRIME32_2), Add32(seed, PRIME32_2), Add32(seed, 0), Sub32(seed, PRIME32_1))
  }

  /** Lane `k`, started at `v`, over its words in the stripes `lo..hi` of `s`. */
  function LaneFold(v: u32, s: seq<byte>, k: nat, lo: nat, hi: nat): u32
    requires k < 4 && lo <= hi && 16 * hi <= |s|
    decreases hi
  {
    if lo == hi then v
    else Round(LaneFold(v, s, k, lo, hi - 1), Le32At(s, 16 * (hi - 1) + 4 * k))
  }

  /** The four lanes after the first `n` stripes of `s`. */
  function LanesAt(seed: u32, s: seq<byte>, n: nat): Lanes
    requires 16 * n <= |s|
  {
    var l := InitLanes(seed);
    Lanes(LaneFold(l.v1, s, 0, 0, n), LaneFold(l.v2, s, 1, 0, n),
          LaneFold(l.v3, s, 2, 0, n), LaneFold(l.v4, s, 3, 0, n))
  }

  lemma NoStripeYet(seed: u32, s: seq<byte>)
    ensures LanesAt(seed, s, 0) == InitLanes(seed)
  {
  }

  /** Lane values depend on the stripes they have seen and on nothing after them. */
  lemma {:induction false} LaneFoldOfPrefix(v: u32, s: seq<byte>, t: seq<byte>, k: nat, n: nat)
    requires k < 4 && 16 * n <= |s|
    ensures LaneFold(v, s + t, k, 0, n) == LaneFold(v, s, k, 0, n)
  {
    hide Round, Le32At;
    if n > 0 {
      LaneFoldOfPrefix(v, s, t, k, n - 1);
      var p := 16 * (n - 1) + 4 * k;
      SameWord32(s + t, p, s, p);
    }
  }

  lemma LanesOfPrefix(seed: u32, s: seq<byte>, t: seq<byte>, n: nat)
    requires 16 * n <= |s|
    ensures LanesAt(seed, s + t, n) == LanesAt(seed, s, n)
  {
    hide LaneFold, InitLanes;
    var l := InitLanes(seed);
    LaneFoldOfPrefix(l.v1, s, t, 0, n);
    LaneFoldOfPrefix(l.v2, s, t, 1, n);
    LaneFoldOfPrefix(l.v3, s, t, 2, n);
    LaneFoldOfPrefix(l.v4, s, t, 3, n);
  }

  /** One round in each lane, over the words of a stripe. */
  function NextLanes(l: Lanes, stripe: seq<byte>): Lanes
    requires |stripe| == 16
  {
    Lanes(Round(l.v1, Le32At(stripe, 0)), Round(l.v2, Le32At(stripe, 4)),
          Round(l.v3, Le32At(stripe, 8)), Round(l.v4, Le32At(stripe, 12)))
  }

  lemma WordOfSlice(s: seq<byte>, a: nat, b: nat, q: nat)
    requires a <= b <= |s| && q + 4 <= b - a
    ensures Le32At(s[a..b], q) == Le32At(s, a + q)
  {
    SameWord32(s[a..b], q, s, a + q);
  }

  /** The stripe taken from a buffer that holds it. */
  lemma OneStripe(seed: u32, s: seq<byte>, n: nat, stripe: seq<byte>)
    requires 16 * n + 16 <= |s| && stripe == s[16 * n..16 * n + 16]
    ensures LanesAt(seed, s, n + 1) == NextLanes(LanesAt(seed, s, n), stripe)
  {
    hide Round, InitLanes, Le32At;
    var a, b := 16 * n, 16 * n + 16;
    WordOfSlice(s, a, b, 0);
    WordOfSlice(s, a, b, 4);
    WordOfSlice(s, a, b, 8);
    WordOfSlice(s, a, b, 12);
  }

  function Converge(l: Lanes): u32 {
    Add32(Add32(Add32(Rotl32(l.v1, 1), Rotl32(l.v2, 7)), Rotl32(l.v3, 12)), Rotl32(l.v4, 18))
  }

  function Start(seed: u32, s: seq<byte>): u32 {
    if |s| >= 16 then Converge(LanesAt(seed, s, Whole16(|s|))) else Add32(seed, PRIME32_5)
  }

  /** `h32 += (U32)len`. */
  function AddLength(h: u32, len: nat): u32 {
    Add32(h, Low32(len))
  }

  /** Lengths add up, and a byte counts 1. */
  lemma LengthLaw(h: u32, m: nat, n: nat)
    ensures AddLength(h, m + n) == AddLength(AddLength(h, m), n)
    ensures AddLength(h, 0) == h && AddLength(h, 1) == h + 1
  {
    hide Low32, Add32;
    Low32Sum(m, n);
    AddAssociative32(h, Low32(m), Low32(n));
    AddZero32(h);
    AddIsSum32(h, 1);
    Low32Start();
  }

  lemma AddWrappedLength(h: u32, len: nat)
    ensures AddLength(h, len % TWO_32) == AddLength(h, len)
  {
    hide Low32, Add32;
    Low32Wraps(len);
  }

  function WordStep(h: u32, w: u32): u32 {
    TimesPrime4(Rotl32(Add32(h, TimesPrime3(w)), 17))
  }

  function ByteStep(h: u32, b: byte): u32 {
    TimesPrime1(Rotl32(Add32(h, TimesPrime5(Widen32(b))), 11))
  }

  /** The words `lo..hi` of `s` (word `i` is at offset `4 * i`). */
  function WordTail(h: u32, s: seq<byte>, lo: nat, hi: nat): u32
    requires lo <= hi && 4 * hi <= |s|
    decreases hi
  {
    if lo == hi then h else WordStep(WordTail(h, s, lo, hi - 1), Le32At(s, 4 * (hi - 1)))
  }

  function ByteTail(h: u32, s: seq<byte>, lo: nat, hi: nat): u32
    requires lo <= hi <= |s|
    decreases hi
  {
    if lo == hi then h else ByteStep(ByteTail(h, s, lo, hi - 1), s[hi - 1])
  }

  function Avalanche(h: u32): u32 {
    XorShift16(TimesPrime3(XorShift13(TimesPrime2(XorShift15(h)))))
  }

  /** Everything after the convergence: length, tail words, tail bytes, avalanche. */
  function Finish(h: u32, s: seq<byte>): u32 {
    Avalanche(ByteTail(WordTail(AddLength(h, |s|), s, 4 * Whole16(|s|), Whole4(|s|)), s, 4 * Whole4(|s|), |s|))
  }

  function Hash(seed: u32, s: seq<byte>): u32 {
    Finish(Start(seed, s), s)
  }

  lemma SameStripe(input: seq<byte>, p: nat, all: seq<byte>, base: nat)
    requires base <= |all| && input == all[base..] && p + 16 <= |input|
    ensures forall q {:trigger Le32At(input, q)} :: p <= q <= p + 12 ==>
      Le32At(input, q) == Le32At(all, base + q)
  {
    forall q | p <= q <= p + 12
      ensures Le32At(input, q) == Le32At(all, base + q)
    {
      SameWord32(input, q, all, base + q);
    }
  }

  /**
   The do-while loop over full stripes, from offset `p0` of `input`. `all` is the
   whole input so far, of which `input` is the part from `base` on.
   */
  method Stripes(cpu: Endian, input: seq<byte>, p0: nat, l: Lanes, endian: Endian, align: Alignment,
                 ghost seed: u32, ghost all: seq<byte>, ghost base: nat, ghost n0: nat)
    returns (p: nat, r: Lanes, ghost n: nat)
    requires endian == cpu && p0 + 16 <= |input|
    requires base <= |all| && input == all[base..]
    requires base + p0 == 16 * n0 && l == LanesAt(seed, all, n0)
    ensures base + p == 16 * n && p <= |input| < p + 16
    ensures r == LanesAt(seed, all, n)
  {
    hide Round, InitLanes, Le32At, ReadLE32Align;
    p := p0;
    var limit := |input| - 16;
    var v1, v2, v3, v4 := l.v1, l.v2, l.v3, l.v4;
    n := n0;
    while true
      invariant base + p == 16 * n && p <= limit
      invariant Lanes(v1, v2, v3, v4) == LanesAt(seed, all, n)
      decreases limit - p
    {
      SameStripe(input, p, all, base);
      v1 := Round(v1, ReadLE32Align(cpu, input, p, endian, align)); p := p + 4;
      v2 := Round(v2, ReadLE32Align(cpu, input, p, endian, align)); p := p + 4;
      v3 := Round(v3, ReadLE32Align(cpu, input, p, endian, align)); p := p + 4;
      v4 := Round(v4, ReadLE32Align(cpu, input, p, endian, align)); p := p + 4;
      n := n + 1;
      if p > limit { break; }
    }
    r := Lanes(v1, v2, v3, v4);
  }

  /** The loop over the words of the tail. */
  method WordLoop(cpu: Endian, buf: seq<byte>, p0: nat, bEnd: nat, h: u32, endian: Endian, align: Alignment,
                  ghost all: seq<byte>, ghost base: nat, ghost i0: nat)
    returns (p: nat, h32: u32, ghost i: nat)
    requires endian == cpu && p0 <= bEnd <= |buf|
    requires base + p0 == 4 * i0 && base + bEnd == |all|
    requires forall j :: p0 <= j < bEnd ==> buf[j] == all[base + j]
    ensures p0 <= p <= bEnd < p + 4 && base + p == 4 * i
    ensures i0 <= i && h32 == WordTail(h, all, i0, i)
  {
    hide Add32, Rotl32, TimesPrime3, TimesPrime4, Le32At, ReadLE32Align;
    p, h32, i := p0, h, i0;
    while p + 4 <= bEnd
      invariant base + p == 4 * i && i0 <= i && p <= bEnd
      invariant h32 == WordTail(h, all, i0, i)
    {
      SameWord32(buf, p, all, base + p);
      h32 := Add32(h32, TimesPrime3(ReadLE32Align(cpu, buf, p, endian, align)));
      h32 := TimesPrime4(Rotl32(h32, 17));
      p := p + 4;
      i := i + 1;
    }
  }

  /** The loop over the last bytes. */
  method ByteLoop(buf: seq<byte>, p0: nat, bEnd: nat, h: u32, ghost all: seq<byte>, ghost base: nat)
    returns (h32: u32)
    requires p0 <= bEnd <= |buf| && base + bEnd == |all|
    requires forall j :: p0 <= j < bEnd ==> buf[j] == all[base + j]
    ensures h32 == ByteTail(h, all, base + p0, |all|)
  {
    hide Add32, Rotl32, TimesPrime1, TimesPrime5, Widen32;
    var p := p0;
    h32 := h;
    while p < bEnd
      invariant p0 <= p <= bEnd
      invariant h32 == ByteTail(h, all, base + p0, base + p)
    {
      h32 := Add32(h32, TimesPrime5(Widen32(buf[p])));
      h32 := TimesPrime1(Rotl32(h32, 11));
      p := p + 1;
    }
  }

  /**
   The two tail loops and the avalanche, over `buf[p0..bEnd]`, which holds what
   follows the full stripes of `all`.
   */
  method Tail(cpu: Endian, buf: seq<byte>, p0: nat, bEnd: nat, h: u32, endian: Endian, align: Alignment,
              ghost start: u32, ghost all: seq<byte>, ghost base: nat)
    returns (h32: u32)
    requires endian == cpu && p0 <= bEnd <= |buf|
    requires base + p0 == 16 * Whole16(|all|) && base + bEnd == |all|
    requires forall i :: p0 <= i < bEnd ==> buf[i] == all[base + i]
    requires h == AddLength(start, |all|)
    ensures h32 == Finish(start, all)
  {
    hide AddLength, WordTail, ByteTail, TimesPrime2, TimesPrime3, XorShift13, XorShift15, XorShift16;
    ghost var i;
    var p;
    p, h32, i := WordLoop(cpu, buf, p0, bEnd, h, endian, align, all, base, 4 * Whole16(|all|));
    assert i == Whole4(|all|);
    h32 := ByteLoop(buf, p, bEnd, h32, all, base);
    h32 := XorShift15(h32);
    h32 := TimesPrime2(h32);
    h32 := XorShift13(h32);
    h32 := TimesPrime3(h32);
    h32 := XorShift16(h32);
  }

  /** XXH32_endian_align: four interleaved lanes in one pass, then the tail. */
  method EndianAlign(cpu: Endian, input: seq<byte>, seed: u32, endian: Endian, align: Alignment) returns (h32: u32)
    requires endian == cpu
    ensures h32 == Hash(seed, input)
  {
    hide Add32, Sub32, Rotl32, LaneFold, Finish, AddLength;
    NoStripeYet(seed, input);
    var p := 0;
    if |input| >= 16 {
      var l := Lanes(Add32(Add32(seed, PRIME32_1), PRIME32_2), Add32(seed, PRIME32_2),
                     Add32(seed, 0), Sub32(seed, PRIME32_1));
      ghost var n;
      p, l, n := Stripes(cpu, input, p, l, endian, align, seed, input, 0, 0);
      h32 := Add32(Add32(Add32(Rotl32(l.v1, 1), Rotl32(l.v2, 7)), Rotl32(l.v3, 12)), Rotl32(l.v4, 18));
    } else {
      h32 := Add32(seed, PRIME32_5);
    }
    ghost var start := h32;
    h32 := AddLength(h32, |input|);
    h32 := Tail(cpu, input, p, |input|, h32, endian, align, start, input, 0);
  }

  /** XXH32: the public one-shot call. `address` is where the input lies. */
  method OneShot(cpu: Endian, forceAlignCheck: bool, address: nat, input: seq<byte>, seed: u32) returns (h32: u32)
    ensures h32 == Hash(seed, input)
  {
    if forceAlignCheck {
      if address % 4 == 0 {
        if cpu.LittleEndian? {
          h32 := EndianAlign(cpu, input, seed, LittleEndian, Aligned);
        } else {
          h32 := EndianAlign(cpu, input, seed, BigEndian, Aligned);
        }
        return;
      }
    }
    if cpu.LittleEndian? {
      h32 := EndianAlign(cpu, input, seed, LittleEndian, Unaligned);
    } else {
      h32 := EndianAlign(cpu, input, seed, BigEndian, Unaligned);
    }
  }
}
