/**
 Changing one read in the tail of XXH64: an 8-byte word, the 4-byte word, or one
 of the last bytes.
 */
module Xxh64Reads {
  import opened Words
  import opened Inputs
  import opened Xxh64
  import opened Xxh64Bijection

  // ---- parts of the hash that do not meet the difference ----

  lemma {:induction false} LaneFoldApart(v: u64, s: seq<byte>, t: seq<byte>, a: nat, b: nat, k: nat, n: nat)
    requires DifferOnlyIn(s, t, a, b) && k < 4 && 32 * n <= |s| && 32 * n <= a
    ensures LaneFold(v, s, k, 0, n) == LaneFold(v, t, k, 0, n)
  {
    hide Round, Le64At, DifferOnlyIn;
    SameLength(s, t, a, b);
    if n > 0 {
      LaneFoldApart(v, s, t, a, b, k, n - 1);
      SameWord64Apart(s, t, a, b, 32 * (n - 1) + 8 * k);
    }
  }

  lemma StartApart(seed: u64, s: seq<byte>, t: seq<byte>, a: nat, b: nat)
    requires DifferOnlyIn(s, t, a, b) && 32 * Whole32(|s|) <= a
    ensures Start(seed, s) == Start(seed, t)
  {
    hide LaneFold, InitLanes, Converge, ShortStart;
    var n, l := Whole32(|s|), InitLanes(seed);
    LaneFoldApart(l.v1, s, t, a, b, 0, n);
    LaneFoldApart(l.v2, s, t, a, b, 1, n);
    LaneFoldApart(l.v3, s, t, a, b, 2, n);
    LaneFoldApart(l.v4, s, t, a, b, 3, n);
  }

  lemma {:induction false} LongTailApart(h: u64, s: seq<byte>, t: seq<byte>, a: nat, b: nat, lo: nat, hi: nat)
    requires DifferOnlyIn(s, t, a, b) && lo <= hi && 8 * hi <= |s|
    requires 8 * hi <= a || b <= 8 * lo
    ensures LongTail(h, s, lo, hi) == LongTail(h, t, lo, hi)
    decreases hi
  {
    hide LongStep, Le64At, DifferOnlyIn;
    SameLength(s, t, a, b);
    if lo < hi {
      LongTailApart(h, s, t, a, b, lo, hi - 1);
      SameWord64Apart(s, t, a, b, 8 * (hi - 1));
    }
  }

  lemma WordTailApart(h: u64, s: seq<byte>, t: seq<byte>, a: nat, b: nat)
    requires DifferOnlyIn(s, t, a, b)
    requires b <= 8 * Whole8(|s|) || 4 * Whole4(|s|) <= a
    ensures WordTail(h, s) == WordTail(h, t)
  {
    hide WordStep, Le32At, DifferOnlyIn, Whole4, Whole8;
    SameLength(s, t, a, b);
    OddUnit(|s|);
    if 8 * Whole8(|s|) + 4 <= |s| {
      SameWord32Apart(s, t, a, b, 8 * Whole8(|s|));
    }
  }

  lemma {:induction false} ByteTailApart(h: u64, s: seq<byte>, t: seq<byte>, a: nat, b: nat, lo: nat, hi: nat)
    requires DifferOnlyIn(s, t, a, b) && lo <= hi <= |s|
    requires hi <= a || b <= lo
    ensures ByteTail(h, s, lo, hi) == ByteTail(h, t, lo, hi)
    decreases hi
  {
    hide ByteStep;
    if lo < hi {
      ByteTailApart(h, s, t, a, b, lo, hi - 1);
    }
  }

  lemma UnLongTailApart(x: u64, s: seq<byte>, t: seq<byte>, a: nat, b: nat, lo: nat, hi: nat)
    requires DifferOnlyIn(s, t, a, b) && lo <= hi && 8 * hi <= |s|
    requires 8 * hi <= a || b <= 8 * lo
    ensures UnLongTail(x, s, lo, hi) == UnLongTail(x, t, lo, hi)
  {
    hide LongTail, UnLongTail;
    var h := UnLongTail(x, s, lo, hi);
    LongTailInverse(h, s, lo, hi, x);
    LongTailApart(h, s, t, a, b, lo, hi);
    LongTailInverse(h, t, lo, hi, x);
  }

  lemma UnWordTailApart(x: u64, s: seq<byte>, t: seq<byte>, a: nat, b: nat)
    requires DifferOnlyIn(s, t, a, b)
    requires b <= 8 * Whole8(|s|) || 4 * Whole4(|s|) <= a
    ensures UnWordTail(x, s) == UnWordTail(x, t)
  {
    hide WordTail, UnWordTail, Whole4, Whole8;
    var h := UnWordTail(x, s);
    WordTailInverse(h, s, x);
    WordTailApart(h, s, t, a, b);
    WordTailInverse(h, t, x);
  }

  lemma UnByteTailApart(x: u64, s: seq<byte>, t: seq<byte>, a: nat, b: nat, lo: nat, hi: nat)
    requires DifferOnlyIn(s, t, a, b) && lo <= hi <= |s|
    requires hi <= a || b <= lo
    ensures UnByteTail(x, s, lo, hi) == UnByteTail(x, t, lo, hi)
  {
    hide ByteTail, UnByteTail;
    var h := UnByteTail(x, s, lo, hi);
    ByteTailInverse(h, s, lo, hi, x);
    ByteTailApart(h, s, t, a, b, lo, hi);
    ByteTailInverse(h, t, lo, hi, x);
  }

  // ---- folds cut at one element ----

  lemma {:induction false} LongTailCut(h: u64, s: seq<byte>, lo: nat, mid: nat, hi: nat)
    requires lo <= mid < hi && 8 * hi <= |s|
    ensures LongTail(h, s, lo, hi) ==
      LongTail(LongStep(LongTail(h, s, lo, mid), Le64At(s, 8 * mid)), s, mid + 1, hi)
    decreases hi
  {
    hide LongStep, Le64At;
    if mid < hi - 1 {
      LongTailCut(h, s, lo, mid, hi - 1);
    }
  }

  lemma {:induction false} ByteTailCut(h: u64, s: seq<byte>, lo: nat, mid: nat, hi: nat)
    requires lo <= mid < hi <= |s|
    ensures ByteTail(h, s, lo, hi) == ByteTail(ByteStep(ByteTail(h, s, lo, mid), s[mid]), s, mid + 1, hi)
    decreases hi
  {
    hide ByteStep;
    if mid < hi - 1 {
      ByteTailCut(h, s, lo, mid, hi - 1);
    }
  }

  // ---- the three kinds of read ----

  /** The hash behind the 8-byte words `..i` of the tail. */
  function AfterLongs(seed: u64, s: seq<byte>, i: nat): u64
    requires 4 * Whole32(|s|) <= i && 8 * i <= |s|
  {
    LongTail(AddLength(Start(seed, s), |s|), s, 4 * Whole32(|s|), i)
  }

  /** The hash before the last bytes, when `x` is the result. */
  function BeforeBytes(s: seq<byte>, x: u64): u64 {
    UnByteTail(UnAvalanche(x), s, 4 * Whole4(|s|), |s|)
  }

  lemma BeforeBytesApart(s: seq<byte>, t: seq<byte>, a: nat, b: nat, x: u64)
    requires DifferOnlyIn(s, t, a, b) && b <= 4 * Whole4(|s|)
    ensures BeforeBytes(s, x) == BeforeBytes(t, x)
  {
    hide UnByteTail, UnAvalanche, Whole4;
    UnByteTailApart(UnAvalanche(x), s, t, a, b, 4 * Whole4(|s|), |s|);
  }

  /** The hash, cut behind the 4-byte word. */
  lemma HashEquation(seed: u64, s: seq<byte>, x: u64)
    ensures Hash(seed, s) == x <==> WordTail(AfterLongs(seed, s, Whole8(|s|)), s) == BeforeBytes(s, x)
  {
    hide Start, AddLength, LongTail, WordTail, ByteTail, UnByteTail, Avalanche, UnAvalanche, Whole4, Whole8, Whole32;
    var words := WordTail(AfterLongs(seed, s, Whole8(|s|)), s);
    AvalancheInverse(ByteTail(words, s, 4 * Whole4(|s|), |s|), x);
    ByteTailInverse(words, s, 4 * Whole4(|s|), |s|, UnAvalanche(x));
  }

  lemma AfterLongsApart(seed: u64, s: seq<byte>, t: seq<byte>, a: nat, b: nat, i: nat)
    requires DifferOnlyIn(s, t, a, b) && 4 * Whole32(|s|) <= i && 8 * i <= a && 8 * i <= |s|
    ensures AfterLongs(seed, s, i) == AfterLongs(seed, t, i)
  {
    hide Start, AddLength, LongTail, Whole8, Whole32;
    StartApart(seed, s, t, a, b);
    LongTailApart(AddLength(Start(seed, s), |s|), s, t, a, b, 4 * Whole32(|s|), i);
  }

  lemma AfterLongsCut(seed: u64, s: seq<byte>, i: nat)
    requires 4 * Whole32(|s|) <= i < Whole8(|s|)
    ensures AfterLongs(seed, s, Whole8(|s|)) ==
      LongTail(LongStep(AfterLongs(seed, s, i), Le64At(s, 8 * i)), s, i + 1, Whole8(|s|))
  {
    hide Start, AddLength, LongTail, LongStep, Le64At, Whole8, Whole32;
    LongTailCut(AddLength(Start(seed, s), |s|), s, 4 * Whole32(|s|), i, Whole8(|s|));
  }

  /** The 8-byte word that, read at index `i` of the tail, brings the hash to `x`. */
  function LongFor(seed: u64, s: seq<byte>, i: nat, x: u64): u64
    requires 4 * Whole32(|s|) <= i < Whole8(|s|)
  {
    LongStepInput(AfterLongs(seed, s, i), UnLongTail(UnWordTail(BeforeBytes(s, x), s), s, i + 1, Whole8(|s|)))
  }

  lemma LongReadAfter(seed: u64, s: seq<byte>, t: seq<byte>, i: nat, x: u64)
    requires 4 * Whole32(|s|) <= i < Whole8(|s|) && DifferOnlyIn(s, t, 8 * i, 8 * i + 8)
    ensures Hash(seed, t) == x <==> AfterLongs(seed, t, Whole8(|s|)) == UnWordTail(BeforeBytes(s, x), s)
  {
    hide Hash, AfterLongs, BeforeBytes, WordTail, UnWordTail, DifferOnlyIn, Whole4, Whole8, Whole32;
    var p := 8 * i;
    assert p + 8 <= 8 * Whole8(|s|);
    OddUnit(|s|);
    SameLength(s, t, p, p + 8);
    HashEquation(seed, t, x);
    BeforeBytesApart(s, t, p, p + 8, x);
    WordTailInverse(AfterLongs(seed, t, Whole8(|t|)), t, BeforeBytes(s, x));
    UnWordTailApart(BeforeBytes(s, x), s, t, p, p + 8);
  }

  /** From one 8-byte word of the tail to the end of these words. */
  lemma LastLongs(before: u64, s: seq<byte>, t: seq<byte>, i: nat, y: u64)
    requires i < Whole8(|s|) && DifferOnlyIn(s, t, 8 * i, 8 * i + 8)
    ensures |t| == |s|
    ensures LongTail(LongStep(before, Le64At(t, 8 * i)), t, i + 1, Whole8(|t|)) == y <==>
      Le64At(t, 8 * i) == LongStepInput(before, UnLongTail(y, s, i + 1, Whole8(|s|)))
  {
    hide LongTail, UnLongTail, LongStep, LongStepInput, UnLongStep, Le64At, Whole8;
    var b, p := Whole8(|s|), 8 * i;
    LongTailInverse(LongStep(before, Le64At(t, p)), t, i + 1, b, y);
    UnLongTailApart(y, s, t, p, p + 8, i + 1, b);
    LongStepInverse(before, Le64At(t, p), UnLongTail(y, s, i + 1, b));
  }

  lemma LongRead(seed: u64, s: seq<byte>, t: seq<byte>, i: nat, x: u64)
    requires 4 * Whole32(|s|) <= i < Whole8(|s|) && DifferOnlyIn(s, t, 8 * i, 8 * i + 8)
    ensures Hash(seed, t) == x <==> Le64At(t, 8 * i) == LongFor(seed, s, i, x)
  {
    hide Hash, AfterLongs, BeforeBytes, LongTail, UnLongTail, UnWordTail, LongStep, LongStepInput, Le64At,
         Whole8, Whole32;
    LongReadAfter(seed, s, t, i, x);
    AfterLongsCut(seed, t, i);
    AfterLongsApart(seed, s, t, 8 * i, 8 * i + 8, i);
    LastLongs(AfterLongs(seed, s, i), s, t, i, UnWordTail(BeforeBytes(s, x), s));
  }

  /** The promoted 4-byte word that brings the hash to `x`. */
  function WordFor(seed: u64, s: seq<byte>, x: u64): u64 {
    WordStepInput(AfterLongs(seed, s, Whole8(|s|)), BeforeBytes(s, x))
  }

  lemma WordRead(seed: u64, s: seq<byte>, t: seq<byte>, x: u64)
    requires 8 * Whole8(|s|) + 4 <= |s| && DifferOnlyIn(s, t, 8 * Whole8(|s|), 8 * Whole8(|s|) + 4)
    ensures Hash(seed, t) == x <==> Extend(Le32At(t, 8 * Whole8(|s|))) == WordFor(seed, s, x)
  {
    hide Hash, AfterLongs, BeforeBytes, WordStep, WordStepInput, UnWordStep, Le32At, Extend, Whole4, Whole8;
    var p := 8 * Whole8(|s|);
    OddUnit(|s|);
    HashEquation(seed, t, x);
    AfterLongsApart(seed, s, t, p, p + 4, Whole8(|s|));
    BeforeBytesApart(s, t, p, p + 4, x);
    WordStepInverse(AfterLongs(seed, s, Whole8(|s|)), Le32At(t, p), BeforeBytes(s, x));
  }

  /** The hash behind the 4-byte word. */
  function AfterWord(seed: u64, s: seq<byte>): u64 {
    WordTail(AfterLongs(seed, s, Whole8(|s|)), s)
  }

  /** The promoted byte that, read at `j`, brings the hash to `x`. */
  function ByteFor(seed: u64, s: seq<byte>, j: nat, x: u64): u64
    requires 4 * Whole4(|s|) <= j < |s|
  {
    ByteStepInput(ByteTail(AfterWord(seed, s), s, 4 * Whole4(|s|), j), UnByteTail(UnAvalanche(x), s, j + 1, |s|))
  }

  /** From one byte of the tail to the end of the input. */
  lemma LastBytes(words: u64, s: seq<byte>, t: seq<byte>, lo: nat, j: nat, y: u64)
    requires lo <= j < |s| && DifferOnlyIn(s, t, j, j + 1)
    ensures |t| == |s|
    ensures words == UnByteTail(y, t, lo, |t|) <==>
      Widen64(t[j]) == ByteStepInput(ByteTail(words, s, lo, j), UnByteTail(y, s, j + 1, |s|))
  {
    hide ByteTail, UnByteTail, ByteStep, UnByteStep, ByteStepInput, Widen64;
    ByteTailInverse(words, t, lo, |t|, y);
    ByteTailCut(words, t, lo, j, |t|);
    ByteTailApart(words, s, t, j, j + 1, lo, j);
    var before := ByteTail(words, s, lo, j);
    ByteTailInverse(ByteStep(before, t[j]), t, j + 1, |t|, y);
    UnByteTailApart(y, s, t, j, j + 1, j + 1, |s|);
    ByteStepInverse(before, t[j], UnByteTail(y, s, j + 1, |s|));
  }

  lemma AfterWordApart(seed: u64, s: seq<byte>, t: seq<byte>, a: nat, b: nat)
    requires DifferOnlyIn(s, t, a, b) && 4 * Whole4(|s|) <= a
    ensures AfterWord(seed, s) == AfterWord(seed, t)
  {
    hide AfterLongs, WordTail, DifferOnlyIn, Whole4, Whole8, Whole32;
    SameLength(s, t, a, b);
    OddUnit(|s|);
    TailBehindStripes(|s|);
    AfterLongsApart(seed, s, t, a, b, Whole8(|s|));
    WordTailApart(AfterLongs(seed, s, Whole8(|s|)), s, t, a, b);
  }

  lemma ByteRead(seed: u64, s: seq<byte>, t: seq<byte>, j: nat, x: u64)
    requires 4 * Whole4(|s|) <= j < |s| && DifferOnlyIn(s, t, j, j + 1)
    ensures Hash(seed, t) == x <==> Widen64(t[j]) == ByteFor(seed, s, j, x)
  {
    hide Hash, AfterLongs, WordTail, ByteTail, UnByteTail, UnAvalanche, ByteStepInput, Widen64, DifferOnlyIn,
         Whole4, Whole8, Whole32;
    SameLength(s, t, j, j + 1);
    HashEquation(seed, t, x);
    AfterWordApart(seed, s, t, j, j + 1);
    LastBytes(AfterWord(seed, s), s, t, 4 * Whole4(|s|), j, UnAvalanche(x));
  }

  // ---- the theorems ----

  /** `s` with the 8-byte word `w` in place of its word `i`. */
  function PutLong(s: seq<byte>, i: nat, w: u64): (t: seq<byte>)
    requires i < Whole8(|s|)
    ensures |t| == |s|
  {
    Put(s, 8 * i, Bytes64(w))
  }

  lemma PutLongReads(s: seq<byte>, i: nat, w: u64)
    requires i < Whole8(|s|)
    ensures DifferOnlyIn(s, PutLong(s, i, w), 8 * i, 8 * i + 8)
    ensures Le64At(PutLong(s, i, w), 8 * i) == w
  {
    hide Bytes64, Le64At, Put, DifferOnlyIn;
    var b := Bytes64(w);
    PutReads(s, 8 * i, b);
    SameWord64(PutLong(s, i, w), 8 * i, b, 0);
    Le64OfBytes(w);
  }

  /** Any 8-byte word of the tail can be solved for: it takes each hash exactly once. */
  lemma LongPermutation(seed: u64, s: seq<byte>, i: nat, w: u64, x: u64)
    requires 4 * Whole32(|s|) <= i < Whole8(|s|)
    ensures Hash(seed, PutLong(s, i, w)) == x <==> w == LongFor(seed, s, i, x)
  {
    hide Hash, PutLong, LongFor, Le64At, Whole8, Whole32;
    PutLongReads(s, i, w);
    LongRead(seed, s, PutLong(s, i, w), i, x);
  }

  lemma PutAll(s: seq<byte>, w: u64)
    requires |s| == 8
    ensures PutLong(s, 0, w) == Bytes64(w)
  {
    hide Bytes64;
  }

  lemma BytesAreTheirWord(s: seq<byte>)
    requires |s| == 8
    ensures s == Bytes64(Le64At(s, 0))
  {
    hide Bytes64, Le64;
    BytesOfLe64(s[0], s[1], s[2], s[3], s[4], s[5], s[6], s[7]);
  }

  /** For each seed, XXH64 is a permutation of the 8-byte inputs, whatever input `z` is solved around. */
  lemma EightBytes(seed: u64, s: seq<byte>, z: seq<byte>, x: u64)
    requires |s| == 8 && |z| == 8
    ensures Hash(seed, s) == x <==> s == Bytes64(LongFor(seed, z, 0, x))
  {
    hide Hash, LongFor, Bytes64, Le64At, PutLong, Whole8, Whole32;
    var w := Le64At(s, 0);
    BytesAreTheirWord(s);
    PutAll(z, w);
    LongPermutation(seed, z, 0, w, x);
    Le64OfBytes(LongFor(seed, z, 0, x));
  }

  /** Inputs of one length that differ in one 8-byte word of the tail do not collide. */
  lemma NoLongCollision(seed: u64, s: seq<byte>, t: seq<byte>, i: nat)
    requires 4 * Whole32(|s|) <= i < Whole8(|s|) && DifferOnlyIn(s, t, 8 * i, 8 * i + 8)
    ensures Hash(seed, s) == Hash(seed, t) <==> s == t
  {
    hide Hash, Le64, LongFor, Whole8, Whole32;
    var x, p := Hash(seed, s), 8 * i;
    assert DifferOnlyIn(s, s, p, p + 8);
    LongRead(seed, s, s, i, x);
    LongRead(seed, s, t, i, x);
    BytesOfLe64(s[p], s[p + 1], s[p + 2], s[p + 3], s[p + 4], s[p + 5], s[p + 6], s[p + 7]);
    BytesOfLe64(t[p], t[p + 1], t[p + 2], t[p + 3], t[p + 4], t[p + 5], t[p + 6], t[p + 7]);
  }

  lemma ExtendInjective(v: u32, w: u32)
    requires Extend(v) == Extend(w)
    ensures v == w
  {
  }

  /** Nor do two that differ in the 4-byte word. */
  lemma NoWordCollision(seed: u64, s: seq<byte>, t: seq<byte>)
    requires 8 * Whole8(|s|) + 4 <= |s| && DifferOnlyIn(s, t, 8 * Whole8(|s|), 8 * Whole8(|s|) + 4)
    ensures Hash(seed, s) == Hash(seed, t) <==> s == t
  {
    hide Hash, Le32, WordFor, Extend, Whole8;
    var x, p := Hash(seed, s), 8 * Whole8(|s|);
    assert DifferOnlyIn(s, s, p, p + 4);
    WordRead(seed, s, s, x);
    WordRead(seed, s, t, x);
    if Hash(seed, t) == x {
      ExtendInjective(Le32At(s, p), Le32At(t, p));
    }
    BytesOfLe32(s[p], s[p + 1], s[p + 2], s[p + 3]);
    BytesOfLe32(t[p], t[p + 1], t[p + 2], t[p + 3]);
  }

  lemma WidenInjective(b: byte, c: byte)
    requires Widen64(b) == Widen64(c)
    ensures b == c
  {
  }

  /** Nor do two that differ in one of the last bytes. */
  lemma NoByteCollision(seed: u64, s: seq<byte>, t: seq<byte>, j: nat)
    requires 4 * Whole4(|s|) <= j < |s| && DifferOnlyIn(s, t, j, j + 1)
    ensures Hash(seed, s) == Hash(seed, t) <==> s == t
  {
    hide Hash, ByteFor, Widen64, Whole4;
    var x := Hash(seed, s);
    assert DifferOnlyIn(s, s, j, j + 1);
    ByteRead(seed, s, s, j, x);
    ByteRead(seed, s, t, j, x);
    if Hash(seed, t) == x {
      WidenInjective(s[j], t[j]);
    }
  }
}
