/**
 Memory as bytes: little- and big-endian words, byte swapping, native reads of
 a CPU of either endianness, and the read functions of xxhash.c built on them.
 */
module Words {
  type byte = bv8
  type u32 = bv32
  type u64 = bv64

  const TWO_32: nat := 0x1_0000_0000
  const TWO_64: nat := 0x1_0000_0000_0000_0000

  /** The byte order of a CPU; also the `endian` argument of the read functions. */
  datatype Endian = BigEndian | LittleEndian
  datatype Alignment = Aligned | Unaligned

  // ---- how many whole units of 4, 8, 16 or 32 bytes there are in `len` bytes, and what is left ----

  function Whole4(len: nat): (n: nat)
    ensures 4 * n <= len < 4 * n + 4
  {
    len / 4
  }

  function Whole8(len: nat): (n: nat)
    ensures 8 * n <= len < 8 * n + 8
  {
    len / 8
  }

  /** Behind the units of 8 bytes there is room for at most one of 4. */
  lemma OddUnit(len: nat)
    ensures 4 * Whole4(len) == if 8 * Whole8(len) + 4 <= len then 8 * Whole8(len) + 4 else 8 * Whole8(len)
  {
    hide Whole4, Whole8;
  }

  function Whole16(len: nat): (n: nat)
    ensures 16 * n <= len < 16 * n + 16
  {
    len / 16
  }

  function Whole32(len: nat): (n: nat)
    ensures 32 * n <= len < 32 * n + 32
  {
    len / 32
  }

  lemma TailBehindStripes(len: nat)
    ensures 4 * Whole32(len) <= Whole8(len) && 8 * Whole8(len) <= len
  {
    hide Whole8, Whole32;
  }

  function Rest16(len: nat): (r: nat)
    ensures r < 16
  {
    len - 16 * Whole16(len)
  }

  function Rest32(len: nat): (r: nat)
    ensures r < 32
  {
    len - 32 * Whole32(len)
  }

  // ---- conversions ----

  /** A byte promoted to a word. */
  function Widen32(b: byte): u32 {
    b as u32
  }

  function Widen64(b: byte): u64 {
    b as u64
  }

  /** `(U64)w` of a 32-bit word. */
  function Extend(w: u32): u64 {
    w as u64
  }

  // ---- 32-bit words ----

  function Le32(b0: byte, b1: byte, b2: byte, b3: byte): u32 {
    (b0 as u32) | ((b1 as u32) << 8) | ((b2 as u32) << 16) | ((b3 as u32) << 24)
  }

  /** The little-endian word stored at offset `p`. */
  function Le32At(s: seq<byte>, p: nat): u32
    requires p + 4 <= |s|
  {
    Le32(s[p], s[p + 1], s[p + 2], s[p + 3])
  }

  lemma SameWord32(s: seq<byte>, p: nat, t: seq<byte>, q: nat)
    requires p + 4 <= |s| && q + 4 <= |t|
    requires s[p] == t[q] && s[p + 1] == t[q + 1] && s[p + 2] == t[q + 2] && s[p + 3] == t[q + 3]
    ensures Le32At(s, p) == Le32At(t, q)
  {
    hide Le32;
  }

  function Be32At(s: seq<byte>, p: nat): u32
    requires p + 4 <= |s|
  {
    Le32(s[p + 3], s[p + 2], s[p + 1], s[p])
  }

  function Swap32(x: u32): u32 {
    ((x << 24) & 0xff000000) |
    ((x << 8) & 0x00ff0000) |
    ((x >> 8) & 0x0000ff00) |
    ((x >> 24) & 0x000000ff)
  }

  lemma SwapLe32(b0: byte, b1: byte, b2: byte, b3: byte)
    ensures Swap32(Le32(b0, b1, b2, b3)) == Le32(b3, b2, b1, b0)
  {
  }

  /** The four bytes of a word, least significant first. */
  function Bytes32(w: u32): (b: seq<byte>)
    ensures |b| == 4
  {
    [(w & 0xff) as byte, ((w >> 8) & 0xff) as byte, ((w >> 16) & 0xff) as byte, ((w >> 24) & 0xff) as byte]
  }

  lemma Le32OfBytes(w: u32)
    ensures Le32At(Bytes32(w), 0) == w
  {
  }

  lemma BytesOfLe32(b0: byte, b1: byte, b2: byte, b3: byte)
    ensures Bytes32(Le32(b0, b1, b2, b3)) == [b0, b1, b2, b3]
  {
  }

  /** Byte `i` is the digit for 256^i. */
  lemma Digits32(w: u32)
    ensures Bytes32(w)[0] as u32 == w % 256
    ensures Bytes32(w)[1] as u32 == w / 0x100 % 256
    ensures Bytes32(w)[2] as u32 == w / 0x10000 % 256
    ensures Bytes32(w)[3] as u32 == w / 0x1000000 % 256
  {
  }

  lemma SumOfDigits32(b0: byte, b1: byte, b2: byte, b3: byte)
    ensures Le32(b0, b1, b2, b3) ==
      b0 as u32 + (b1 as u32) * 0x100 + (b2 as u32) * 0x10000 + (b3 as u32) * 0x1000000
  {
  }

  // ---- 64-bit words ----

  function Le64(b0: byte, b1: byte, b2: byte, b3: byte, b4: byte, b5: byte, b6: byte, b7: byte): u64 {
    (b0 as u64) | ((b1 as u64) << 8) | ((b2 as u64) << 16) | ((b3 as u64) << 24) |
    ((b4 as u64) << 32) | ((b5 as u64) << 40) | ((b6 as u64) << 48) | ((b7 as u64) << 56)
  }

  function Le64At(s: seq<byte>, p: nat): u64
    requires p + 8 <= |s|
  {
    Le64(s[p], s[p + 1], s[p + 2], s[p + 3], s[p + 4], s[p + 5], s[p + 6], s[p + 7])
  }

  lemma SameWord64(s: seq<byte>, p: nat, t: seq<byte>, q: nat)
    requires p + 8 <= |s| && q + 8 <= |t|
    requires s[p] == t[q] && s[p + 1] == t[q + 1] && s[p + 2] == t[q + 2] && s[p + 3] == t[q + 3]
    requires s[p + 4] == t[q + 4] && s[p + 5] == t[q + 5] && s[p + 6] == t[q + 6] && s[p + 7] == t[q + 7]
    ensures Le64At(s, p) == Le64At(t, q)
  {
    hide Le64;
  }

  function Be64At(s: seq<byte>, p: nat): u64
    requires p + 8 <= |s|
  {
    Le64(s[p + 7], s[p + 6], s[p + 5], s[p + 4], s[p + 3], s[p + 2], s[p + 1], s[p])
  }

  function Swap64(x: u64): u64 {
    ((x << 56) & 0xff00000000000000) |
    ((x << 40) & 0x00ff000000000000) |
    ((x << 24) & 0x0000ff0000000000) |
    ((x << 8) & 0x000000ff00000000) |
    ((x >> 8) & 0x00000000ff000000) |
    ((x >> 24) & 0x0000000000ff0000) |
    ((x >> 40) & 0x000000000000ff00) |
    ((x >> 56) & 0x00000000000000ff)
  }

  lemma SwapLe64(b0: byte, b1: byte, b2: byte, b3: byte, b4: byte, b5: byte, b6: byte, b7: byte)
    ensures Swap64(Le64(b0, b1, b2, b3, b4, b5, b6, b7)) == Le64(b7, b6, b5, b4, b3, b2, b1, b0)
  {
  }

  function Bytes64(w: u64): (b: seq<byte>)
    ensures |b| == 8
  {
    [(w & 0xff) as byte, ((w >> 8) & 0xff) as byte, ((w >> 16) & 0xff) as byte, ((w >> 24) & 0xff) as byte,
     ((w >> 32) & 0xff) as byte, ((w >> 40) & 0xff) as byte, ((w >> 48) & 0xff) as byte, ((w >> 56) & 0xff) as byte]
  }

  lemma Le64OfBytes(w: u64)
    ensures Le64At(Bytes64(w), 0) == w
  {
  }

  lemma BytesOfLe64(b0: byte, b1: byte, b2: byte, b3: byte, b4: byte, b5: byte, b6: byte, b7: byte)
    ensures Bytes64(Le64(b0, b1, b2, b3, b4, b5, b6, b7)) == [b0, b1, b2, b3, b4, b5, b6, b7]
  {
  }

  lemma Digits64(w: u64)
    ensures Bytes64(w)[0] as u64 == w % 256
    ensures Bytes64(w)[1] as u64 == w / 0x100 % 256
    ensures Bytes64(w)[2] as u64 == w / 0x10000 % 256
    ensures Bytes64(w)[3] as u64 == w / 0x1000000 % 256
    ensures Bytes64(w)[4] as u64 == w / 0x1_0000_0000 % 256
    ensures Bytes64(w)[5] as u64 == w / 0x100_0000_0000 % 256
    ensures Bytes64(w)[6] as u64 == w / 0x1_0000_0000_0000 % 256
    ensures Bytes64(w)[7] as u64 == w / 0x100_0000_0000_0000 % 256
  {
  }

  lemma SumOfDigits64(b0: byte, b1: byte, b2: byte, b3: byte, b4: byte, b5: byte, b6: byte, b7: byte)
    ensures Le64(b0, b1, b2, b3, b4, b5, b6, b7) ==
      b0 as u64 + (b1 as u64) * 0x100 +
      (b2 as u64) * 0x10000 + (b3 as u64) * 0x1000000 +
      (b4 as u64) * 0x1_0000_0000 + (b5 as u64) * 0x100_0000_0000 +
      (b6 as u64) * 0x1_0000_0000_0000 + (b7 as u64) * 0x100_0000_0000_0000
  {
  }

  /** Promotion adds zeros, and no sign. */
  lemma PromotedBytes(b0: byte, b1: byte, b2: byte, b3: byte)
    ensures Bytes32(Widen32(b0)) == [b0, 0, 0, 0]
    ensures Bytes64(Widen64(b0)) == [b0, 0, 0, 0, 0, 0, 0, 0]
    ensures Bytes64(Extend(Le32(b0, b1, b2, b3))) == [b0, b1, b2, b3, 0, 0, 0, 0]
  {
  }

  // ---- the reads of xxhash.c ----

  /** A native load: what `memcpy` into a U32, or a direct load, yields on that CPU. */
  function Read32(cpu: Endian, s: seq<byte>, p: nat): u32
    requires p + 4 <= |s|
  {
    if cpu.LittleEndian? then Le32At(s, p) else Be32At(s, p)
  }

  function Read64(cpu: Endian, s: seq<byte>, p: nat): u64
    requires p + 8 <= |s|
  {
    if cpu.LittleEndian? then Le64At(s, p) else Be64At(s, p)
  }

  function ReadLE32Align(cpu: Endian, s: seq<byte>, p: nat, endian: Endian, align: Alignment): (r: u32)
    requires p + 4 <= |s|
    ensures endian == cpu ==> r == Le32At(s, p)
  {
    SwapLe32(s[p + 3], s[p + 2], s[p + 1], s[p]);
    if align.Unaligned? then
      if endian.LittleEndian? then Read32(cpu, s, p) else Swap32(Read32(cpu, s, p))
    else
      if endian.LittleEndian? then Read32(cpu, s, p) else Swap32(Read32(cpu, s, p))
  }

  function ReadLE64Align(cpu: Endian, s: seq<byte>, p: nat, endian: Endian, align: Alignment): (r: u64)
    requires p + 8 <= |s|
    ensures endian == cpu ==> r == Le64At(s, p)
  {
    SwapLe64(s[p + 7], s[p + 6], s[p + 5], s[p + 4], s[p + 3], s[p + 2], s[p + 1], s[p]);
    if align.Unaligned? then
      if endian.LittleEndian? then Read64(cpu, s, p) else Swap64(Read64(cpu, s, p))
    else
      if endian.LittleEndian? then Read64(cpu, s, p) else Swap64(Read64(cpu, s, p))
  }

  /** What is read is the number whose digits the bytes are, the first byte the lowest. */
  lemma ReadsNumber32(cpu: Endian, s: seq<byte>, p: nat, align: Alignment)
    requires p + 4 <= |s|
    ensures ReadLE32Align(cpu, s, p, cpu, align) ==
      s[p] as u32 + (s[p + 1] as u32) * 0x100 + (s[p + 2] as u32) * 0x10000 + (s[p + 3] as u32) * 0x1000000
  {
    hide Le32, ReadLE32Align;
    SumOfDigits32(s[p], s[p + 1], s[p + 2], s[p + 3]);
  }

  lemma ReadsNumber64(cpu: Endian, s: seq<byte>, p: nat, align: Alignment)
    requires p + 8 <= |s|
    ensures ReadLE64Align(cpu, s, p, cpu, align) ==
      s[p] as u64 + (s[p + 1] as u64) * 0x100 +
      (s[p + 2] as u64) * 0x10000 + (s[p + 3] as u64) * 0x1000000 +
      (s[p + 4] as u64) * 0x1_0000_0000 + (s[p + 5] as u64) * 0x100_0000_0000 +
      (s[p + 6] as u64) * 0x1_0000_0000_0000 + (s[p + 7] as u64) * 0x100_0000_0000_0000
  {
    hide Le64, ReadLE64Align;
    SumOfDigits64(s[p], s[p + 1], s[p + 2], s[p + 3], s[p + 4], s[p + 5], s[p + 6], s[p + 7]);
  }

  function ReadLE32(cpu: Endian, s: seq<byte>, p: nat, endian: Endian): (r: u32)
    requires p + 4 <= |s|
    ensures endian == cpu ==> r == Le32At(s, p)
  {
    ReadLE32Align(cpu, s, p, endian, Unaligned)
  }

  function ReadLE64(cpu: Endian, s: seq<byte>, p: nat, endian: Endian): (r: u64)
    requires p + 8 <= |s|
    ensures endian == cpu ==> r == Le64At(s, p)
  {
    ReadLE64Align(cpu, s, p, endian, Unaligned)
  }

  function ReadBE32(cpu: Endian, s: seq<byte>, p: nat): u32
    requires p + 4 <= |s|
  {
    if cpu.LittleEndian? then Swap32(Read32(cpu, s, p)) else Read32(cpu, s, p)
  }

  function ReadBE64(cpu: Endian, s: seq<byte>, p: nat): u64
    requires p + 8 <= |s|
  {
    if cpu.LittleEndian? then Swap64(Read64(cpu, s, p)) else Read64(cpu, s, p)
  }

  /** XXH_memcpy: `src` replaces the bytes of `dst` from offset `at`. */
  method Memcpy(dst: array<byte>, at: nat, src: seq<byte>)
    requires at + |src| <= dst.Length
    modifies dst
    ensures dst[..] == old(dst[..at]) + src + old(dst[at + |src|..])
  {
    forall i | 0 <= i < |src| {
      dst[at + i] := src[i];
    }
  }
}
