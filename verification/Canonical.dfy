/**
 The canonical, byte-order independent form of a hash (section "Canonical
 representation" of xxhash.c).
 */
module Canonical {
  import opened Words

  /** `memcpy(dst, &hash, sizeof(*dst))`: the native bytes of a word. */
  function Store32(cpu: Endian, w: u32): (b: seq<byte>)
    ensures |b| == 4
  {
    var le := Bytes32(w);
    if cpu.LittleEndian? then le else [le[3], le[2], le[1], le[0]]
  }

  function Store64(cpu: Endian, w: u64): (b: seq<byte>)
    ensures |b| == 8
  {
    var le := Bytes64(w);
    if cpu.LittleEndian? then le else [le[7], le[6], le[5], le[4], le[3], le[2], le[1], le[0]]
  }

  function CanonicalFromHash32(cpu: Endian, hash: u32): (b: seq<byte>)
    ensures |b| == 4
  {
    Store32(cpu, if cpu.LittleEndian? then Swap32(hash) else hash)
  }

  function HashFromCanonical32(cpu: Endian, b: seq<byte>): u32
    requires |b| == 4
  {
    ReadBE32(cpu, b, 0)
  }

  function CanonicalFromHash64(cpu: Endian, hash: u64): (b: seq<byte>)
    ensures |b| == 8
  {
    Store64(cpu, if cpu.LittleEndian? then Swap64(hash) else hash)
  }

  function HashFromCanonical64(cpu: Endian, b: seq<byte>): u64
    requires |b| == 8
  {
    ReadBE64(cpu, b, 0)
  }

  /** The canonical bytes of a word put together from bytes. */
  lemma CanonicalOfLe32(cpu: Endian, b0: byte, b1: byte, b2: byte, b3: byte)
    ensures CanonicalFromHash32(cpu, Le32(b0, b1, b2, b3)) == [b3, b2, b1, b0]
  {
    hide Le32, Swap32, Bytes32;
    SwapLe32(b0, b1, b2, b3);
    BytesOfLe32(b0, b1, b2, b3);
    BytesOfLe32(b3, b2, b1, b0);
  }

  lemma CanonicalRead32(cpu: Endian, b: seq<byte>)
    requires |b| == 4
    ensures HashFromCanonical32(cpu, b) == Le32(b[3], b[2], b[1], b[0])
  {
    hide Le32, Swap32;
    SwapLe32(b[0], b[1], b[2], b[3]);
  }

  /** Most significant digit first, on every CPU. */
  lemma Canonical32IsBigEndian(cpu: Endian, hash: u32)
    ensures var b := CanonicalFromHash32(cpu, hash);
      && b[0] as u32 == hash / 0x1000000 % 256
      && b[1] as u32 == hash / 0x10000 % 256
      && b[2] as u32 == hash / 0x100 % 256
      && b[3] as u32 == hash % 256
  {
    hide Le32, Bytes32, CanonicalFromHash32;
    var b := Bytes32(hash);
    Le32OfBytes(hash);
    CanonicalOfLe32(cpu, b[0], b[1], b[2], b[3]);
    Digits32(hash);
  }

  /** Written on one CPU, read back on any other. */
  lemma HashRoundTrip32(writer: Endian, reader: Endian, hash: u32)
    ensures HashFromCanonical32(reader, CanonicalFromHash32(writer, hash)) == hash
  {
    hide Le32, Bytes32, CanonicalFromHash32, HashFromCanonical32;
    var b := Bytes32(hash);
    Le32OfBytes(hash);
    CanonicalOfLe32(writer, b[0], b[1], b[2], b[3]);
    CanonicalRead32(reader, CanonicalFromHash32(writer, hash));
  }

  lemma CanonicalRoundTrip32(reader: Endian, writer: Endian, b: seq<byte>)
    requires |b| == 4
    ensures CanonicalFromHash32(writer, HashFromCanonical32(reader, b)) == b
  {
    hide Le32, CanonicalFromHash32, HashFromCanonical32;
    CanonicalRead32(reader, b);
    CanonicalOfLe32(writer, b[3], b[2], b[1], b[0]);
  }

  lemma CanonicalOfLe64(cpu: Endian, b0: byte, b1: byte, b2: byte, b3: byte, b4: byte, b5: byte, b6: byte, b7: byte)
    ensures CanonicalFromHash64(cpu, Le64(b0, b1, b2, b3, b4, b5, b6, b7)) == [b7, b6, b5, b4, b3, b2, b1, b0]
  {
    hide Le64, Swap64, Bytes64;
    SwapLe64(b0, b1, b2, b3, b4, b5, b6, b7);
    BytesOfLe64(b0, b1, b2, b3, b4, b5, b6, b7);
    BytesOfLe64(b7, b6, b5, b4, b3, b2, b1, b0);
  }

  lemma CanonicalRead64(cpu: Endian, b: seq<byte>)
    requires |b| == 8
    ensures HashFromCanonical64(cpu, b) == Le64(b[7], b[6], b[5], b[4], b[3], b[2], b[1], b[0])
  {
    hide Le64, Swap64;
    SwapLe64(b[0], b[1], b[2], b[3], b[4], b[5], b[6], b[7]);
  }

  lemma Canonical64IsBigEndian(cpu: Endian, hash: u64)
    ensures var b := CanonicalFromHash64(cpu, hash);
      && b[0] as u64 == hash / 0x100_0000_0000_0000 % 256
      && b[1] as u64 == hash / 0x1_0000_0000_0000 % 256
      && b[2] as u64 == hash / 0x100_0000_0000 % 256
      && b[3] as u64 == hash / 0x1_0000_0000 % 256
      && b[4] as u64 == hash / 0x1000000 % 256
      && b[5] as u64 == hash / 0x10000 % 256
      && b[6] as u64 == hash / 0x100 % 256
      && b[7] as u64 == hash % 256
  {
    hide Le64, Bytes64, CanonicalFromHash64;
    var b := Bytes64(hash);
    Le64OfBytes(hash);
    CanonicalOfLe64(cpu, b[0], b[1], b[2], b[3], b[4], b[5], b[6], b[7]);
    Digits64(hash);
  }

  lemma HashRoundTrip64(writer: Endian, reader: Endian, hash: u64)
    ensures HashFromCanonical64(reader, CanonicalFromHash64(writer, hash)) == hash
  {
    hide Le64, Bytes64, CanonicalFromHash64, HashFromCanonical64;
    var b := Bytes64(hash);
    Le64OfBytes(hash);
    CanonicalOfLe64(writer, b[0], b[1], b[2], b[3], b[4], b[5], b[6], b[7]);
    CanonicalRead64(reader, CanonicalFromHash64(writer, hash));
  }

  lemma CanonicalRoundTrip64(reader: Endian, writer: Endian, b: seq<byte>)
    requires |b| == 8
    ensures CanonicalFromHash64(writer, HashFromCanonical64(reader, b)) == b
  {
    hide Le64, CanonicalFromHash64, HashFromCanonical64;
    CanonicalRead64(reader, b);
    CanonicalOfLe64(writer, b[7], b[6], b[5], b[4], b[3], b[2], b[1], b[0]);
  }
}
