/**
 The steps of XXH64 behind the convergence are bijections: a change confined to
 one read of the tail always changes the hash, and on inputs below one stripe
 the hash is a permutation of the seed.

 Of the convergence only the merge rounds are undone: it uses every lane twice, once
 in the sum and once in a merge round.
 */
module Xxh64Bijection {
  import opened Words
  import opened Lengths
  import opened Arith64
  import opened Xxh64

  // ---- single steps ----

  /** The input word for which a round from `acc` gives `x`. */
  function RoundInput(acc: u64, x: u64): u64 {
    OverPrime2(Sub64(Rotr64(OverPrime1(x), 31), acc))
  }

  lemma RoundInverse(acc: u64, w: u64, x: u64)
    ensures Round(acc, w) == x <==> w == RoundInput(acc, x)
  {
    hide Add64, Sub64, Rotl64, Rotr64, TimesPrime1, TimesPrime2, OverPrime1, OverPrime2;
    var m, y := TimesPrime2(w), Rotr64(OverPrime1(x), 31);
    TimesEquation1(Rotl64(Add64(acc, m), 31), x);
    RotateEquation64(Add64(acc, m), 31, OverPrime1(x));
    AddEquation64(acc, m, y);
    TimesEquation2(w, Sub64(y, acc));
  }

  function UnMergeRound(x: u64, val: u64): u64 {
    Xor64(OverPrime1(Sub64(x, PRIME64_4)), Round(0, val))
  }

  function MergeInput(acc: u64, x: u64): u64 {
    RoundInput(0, Xor64(acc, OverPrime1(Sub64(x, PRIME64_4))))
  }

  lemma MergeRoundInverse(acc: u64, val: u64, x: u64)
    ensures MergeRound(acc, val) == x <==> acc == UnMergeRound(x, val)
    ensures MergeRound(acc, val) == x <==> val == MergeInput(acc, x)
  {
    hide Add64, Sub64, Xor64, TimesPrime1, OverPrime1, Round, RoundInput;
    var m, y := Round(0, val), OverPrime1(Sub64(x, PRIME64_4));
    AddEquation64(TimesPrime1(Xor64(acc, m)), PRIME64_4, x);
    TimesEquation1(Xor64(acc, m), Sub64(x, PRIME64_4));
    XorEquation64(acc, m, y);
    RoundInverse(0, val, Xor64(acc, y));
  }

  function RotatedSum(l: Lanes): u64 {
    Add64(Add64(Add64(Rotl64(l.v1, 1), Rotl64(l.v2, 7)), Rotl64(l.v3, 12)), Rotl64(l.v4, 18))
  }

  /** Behind the sum of the rotated lanes, each of the four is merged in, in their order. */
  lemma ConvergeUnmerged(l: Lanes)
    ensures
      UnMergeRound(UnMergeRound(UnMergeRound(UnMergeRound(Converge(l), l.v4), l.v3), l.v2), l.v1) == RotatedSum(l)
  {
    hide Add64, Rotl64, MergeRound, UnMergeRound;
    var h := RotatedSum(l);
    var h1 := MergeRound(h, l.v1);
    var h2 := MergeRound(h1, l.v2);
    var h3 := MergeRound(h2, l.v3);
    MergeRoundInverse(h, l.v1, h1);
    MergeRoundInverse(h1, l.v2, h2);
    MergeRoundInverse(h2, l.v3, h3);
    MergeRoundInverse(h3, l.v4, MergeRound(h3, l.v4));
  }

  /** The argument of the exclusive or in a LongStep that gives `x`. */
  function UnLongMix(x: u64): u64 {
    Rotr64(OverPrime1(Sub64(x, PRIME64_4)), 27)
  }

  function UnLongStep(x: u64, w: u64): u64 {
    Xor64(UnLongMix(x), Round(0, w))
  }

  function LongStepInput(h: u64, x: u64): u64 {
    RoundInput(0, Xor64(h, UnLongMix(x)))
  }

  lemma LongMixInverse(v: u64, x: u64)
    ensures Add64(TimesPrime1(Rotl64(v, 27)), PRIME64_4) == x <==> v == UnLongMix(x)
  {
    hide Add64, Sub64, Rotl64, Rotr64, TimesPrime1, OverPrime1;
    AddEquation64(TimesPrime1(Rotl64(v, 27)), PRIME64_4, x);
    TimesEquation1(Rotl64(v, 27), Sub64(x, PRIME64_4));
    RotateEquation64(v, 27, OverPrime1(Sub64(x, PRIME64_4)));
  }

  lemma LongStepInverse(h: u64, w: u64, x: u64)
    ensures LongStep(h, w) == x <==> h == UnLongStep(x, w)
    ensures LongStep(h, w) == x <==> w == LongStepInput(h, x)
  {
    hide Add64, Xor64, Rotl64, TimesPrime1, UnLongMix, Round, RoundInput;
    var m := Round(0, w);
    LongMixInverse(Xor64(h, m), x);
    XorEquation64(h, m, UnLongMix(x));
    RoundInverse(0, w, Xor64(h, UnLongMix(x)));
  }

  function UnWordMix(x: u64): u64 {
    Rotr64(OverPrime2(Sub64(x, PRIME64_3)), 23)
  }

  function UnWordStep(x: u64, w: u32): u64 {
    Xor64(UnWordMix(x), TimesPrime1(Extend(w)))
  }

  /** The promoted word that takes `h` to `x`. */
  function WordStepInput(h: u64, x: u64): u64 {
    OverPrime1(Xor64(h, UnWordMix(x)))
  }

  lemma WordMixInverse(v: u64, x: u64)
    ensures Add64(TimesPrime2(Rotl64(v, 23)), PRIME64_3) == x <==> v == UnWordMix(x)
  {
    hide Add64, Sub64, Rotl64, Rotr64, TimesPrime2, OverPrime2;
    AddEquation64(TimesPrime2(Rotl64(v, 23)), PRIME64_3, x);
    TimesEquation2(Rotl64(v, 23), Sub64(x, PRIME64_3));
    RotateEquation64(v, 23, OverPrime2(Sub64(x, PRIME64_3)));
  }

  lemma WordStepInverse(h: u64, w: u32, x: u64)
    ensures WordStep(h, w) == x <==> h == UnWordStep(x, w)
    ensures WordStep(h, w) == x <==> Extend(w) == WordStepInput(h, x)
  {
    hide Add64, Xor64, Rotl64, TimesPrime1, TimesPrime2, OverPrime1, UnWordMix, Extend;
    var m := TimesPrime1(Extend(w));
    WordMixInverse(Xor64(h, m), x);
    XorEquation64(h, m, UnWordMix(x));
    TimesEquation1(Extend(w), Xor64(h, UnWordMix(x)));
  }

  function UnByteMix(x: u64): u64 {
    Rotr64(OverPrime1(x), 11)
  }

  function UnByteStep(x: u64, b: byte): u64 {
    Xor64(UnByteMix(x), TimesPrime5(Widen64(b)))
  }

  /** The promoted byte that takes `h` to `x`. */
  function ByteStepInput(h: u64, x: u64): u64 {
    OverPrime5(Xor64(h, UnByteMix(x)))
  }

  lemma ByteStepInverse(h: u64, b: byte, x: u64)
    ensures ByteStep(h, b) == x <==> h == UnByteStep(x, b)
    ensures ByteStep(h, b) == x <==> Widen64(b) == ByteStepInput(h, x)
  {
    hide Xor64, Rotl64, Rotr64, TimesPrime1, TimesPrime5, OverPrime1, OverPrime5, Widen64;
    var m := TimesPrime5(Widen64(b));
    TimesEquation1(Rotl64(Xor64(h, m), 11), x);
    RotateEquation64(Xor64(h, m), 11, OverPrime1(x));
    XorEquation64(h, m, UnByteMix(x));
    TimesEquation5(Widen64(b), Xor64(h, UnByteMix(x)));
  }

  function UnAvalanche(x: u64): u64 {
    UnXorShift33(OverPrime2(UnXorShift29(OverPrime3(UnXorShift32(x)))))
  }

  lemma AvalancheInverse(h: u64, x: u64)
    ensures Avalanche(h) == x <==> h == UnAvalanche(x)
  {
    hide XorShift33, XorShift29, XorShift32, UnXorShift33, UnXorShift29, UnXorShift32,
         TimesPrime2, TimesPrime3, OverPrime2, OverPrime3;
    var h1 := TimesPrime2(XorShift33(h));
    var x3 := OverPrime3(UnXorShift32(x));
    XorShiftEquation32(TimesPrime3(XorShift29(h1)), x);
    TimesEquation3(XorShift29(h1), UnXorShift32(x));
    XorShiftEquation29(h1, x3);
    TimesEquation2(XorShift33(h), UnXorShift29(x3));
    XorShiftEquation33(h, OverPrime2(UnXorShift29(x3)));
  }

  // ---- the parts of the tail ----

  function UnLongTail(x: u64, s: seq<byte>, lo: nat, hi: nat): u64
    requires lo <= hi && 8 * hi <= |s|
    decreases hi
  {
    if lo == hi then x else UnLongTail(UnLongStep(x, Le64At(s, 8 * (hi - 1))), s, lo, hi - 1)
  }

  lemma {:induction false} LongTailInverse(h: u64, s: seq<byte>, lo: nat, hi: nat, x: u64)
    requires lo <= hi && 8 * hi <= |s|
    ensures LongTail(h, s, lo, hi) == x <==> h == UnLongTail(x, s, lo, hi)
    decreases hi
  {
    hide LongStep, UnLongStep, Le64At;
    if lo < hi {
      var w := Le64At(s, 8 * (hi - 1));
      LongStepInverse(LongTail(h, s, lo, hi - 1), w, x);
      LongTailInverse(h, s, lo, hi - 1, UnLongStep(x, w));
    }
  }

  function UnWordTail(x: u64, s: seq<byte>): u64 {
    if 8 * Whole8(|s|) + 4 <= |s| then UnWordStep(x, Le32At(s, 8 * Whole8(|s|))) else x
  }

  lemma WordTailInverse(h: u64, s: seq<byte>, x: u64)
    ensures WordTail(h, s) == x <==> h == UnWordTail(x, s)
  {
    hide WordStep, UnWordStep, Le32At;
    if 8 * Whole8(|s|) + 4 <= |s| {
      WordStepInverse(h, Le32At(s, 8 * Whole8(|s|)), x);
    }
  }

  function UnByteTail(x: u64, s: seq<byte>, lo: nat, hi: nat): u64
    requires lo <= hi <= |s|
    decreases hi
  {
    if lo == hi then x else UnByteTail(UnByteStep(x, s[hi - 1]), s, lo, hi - 1)
  }

  lemma {:induction false} ByteTailInverse(h: u64, s: seq<byte>, lo: nat, hi: nat, x: u64)
    requires lo <= hi <= |s|
    ensures ByteTail(h, s, lo, hi) == x <==> h == UnByteTail(x, s, lo, hi)
    decreases hi
  {
    hide ByteStep, UnByteStep;
    if lo < hi {
      ByteStepInverse(ByteTail(h, s, lo, hi - 1), s[hi - 1], x);
      ByteTailInverse(h, s, lo, hi - 1, UnByteStep(x, s[hi - 1]));
    }
  }

  // ---- everything after the start value, and the seed ----

  function UnAddLength(x: u64, len: nat): u64 {
    Sub64(x, Low64(len))
  }

  lemma AddLengthInverse(h: u64, len: nat, x: u64)
    ensures AddLength(h, len) == x <==> h == UnAddLength(x, len)
  {
    hide Add64, Sub64, Low64;
    AddEquation64(h, Low64(len), x);
  }

  function UnFinish(x: u64, s: seq<byte>): u64 {
    var words := UnWordTail(UnByteTail(UnAvalanche(x), s, 4 * Whole4(|s|), |s|), s);
    UnAddLength(UnLongTail(words, s, 4 * Whole32(|s|), Whole8(|s|)), |s|)
  }

  lemma FinishInverse(h: u64, s: seq<byte>, x: u64)
    ensures Finish(h, s) == x <==> h == UnFinish(x, s)
  {
    hide Avalanche, UnAvalanche, ByteTail, UnByteTail, WordTail, UnWordTail, LongTail, UnLongTail,
         AddLength, UnAddLength;
    var start := AddLength(h, |s|);
    var longs := LongTail(start, s, 4 * Whole32(|s|), Whole8(|s|));
    var words := WordTail(longs, s);
    AvalancheInverse(ByteTail(words, s, 4 * Whole4(|s|), |s|), x);
    ByteTailInverse(words, s, 4 * Whole4(|s|), |s|, UnAvalanche(x));
    var y := UnByteTail(UnAvalanche(x), s, 4 * Whole4(|s|), |s|);
    WordTailInverse(longs, s, y);
    LongTailInverse(start, s, 4 * Whole32(|s|), Whole8(|s|), UnWordTail(y, s));
    AddLengthInverse(h, |s|, UnLongTail(UnWordTail(y, s), s, 4 * Whole32(|s|), Whole8(|s|)));
  }

  function SeedFor(s: seq<byte>, x: u64): u64 {
    Sub64(UnFinish(x, s), PRIME64_5)
  }

  /** On inputs below one stripe, exactly one seed gives each hash. */
  lemma SeedPermutation(seed: u64, s: seq<byte>, x: u64)
    requires |s| < 32
    ensures Hash(seed, s) == x <==> seed == SeedFor(s, x)
  {
    hide Finish, UnFinish, Add64, Sub64;
    FinishInverse(Start(seed, s), s, x);
    AddEquation64(seed, PRIME64_5, UnFinish(x, s));
  }
}
