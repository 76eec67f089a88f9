/**
 Every step of XXH32 after the choice of a branch is a bijection. So a change
 confined to one read always changes the hash, each word read can be solved for,
 and on inputs below one stripe the hash is a permutation of the seed.
 */
module Xxh32Bijection {
  import opened Words
  import opened Lengths
  import opened Arith32
  import opened Xxh32

  // ---- single steps ----

  function UnRound(x: u32, input: u32): u32 {
    Sub32(Rotr32(OverPrime1(x), 13), TimesPrime2(input))
  }

  /** The input that takes `acc` to `x`. */
  function RoundInput(acc: u32, x: u32): u32 {
    OverPrime2(Sub32(Rotr32(OverPrime1(x), 13), acc))
  }

  lemma RoundInverse(acc: u32, input: u32, x: u32)
    ensures Round(acc, input) == x <==> acc == UnRound(x, input)
    ensures Round(acc, input) == x <==> input == RoundInput(acc, x)
  {
    hide Add32, Sub32, Rotl32, Rotr32, TimesPrime1, TimesPrime2, OverPrime1, OverPrime2;
    var m, y := TimesPrime2(input), Rotr32(OverPrime1(x), 13);
    TimesEquation1(Rotl32(Add32(acc, m), 13), x);
    RotateEquation32(Add32(acc, m), 13, OverPrime1(x));
    AddEquation32(acc, m, y);
    TimesEquation2(input, Sub32(y, acc));
  }

  function UnWordStep(x: u32, w: u32): u32 {
    Sub32(Rotr32(OverPrime4(x), 17), TimesPrime3(w))
  }

  function WordStepInput(h: u32, x: u32): u32 {
    OverPrime3(Sub32(Rotr32(OverPrime4(x), 17), h))
  }

  lemma WordStepInverse(h: u32, w: u32, x: u32)
    ensures WordStep(h, w) == x <==> h == UnWordStep(x, w)
    ensures WordStep(h, w) == x <==> w == WordStepInput(h, x)
  {
    hide Add32, Sub32, Rotl32, Rotr32, TimesPrime3, TimesPrime4, OverPrime3, OverPrime4;
    var m, y := TimesPrime3(w), Rotr32(OverPrime4(x), 17);
    TimesEquation4(Rotl32(Add32(h, m), 17), x);
    RotateEquation32(Add32(h, m), 17, OverPrime4(x));
    AddEquation32(h, m, y);
    TimesEquation3(w, Sub32(y, h));
  }

  function UnByteStep(x: u32, b: byte): u32 {
    Sub32(Rotr32(OverPrime1(x), 11), TimesPrime5(Widen32(b)))
  }

  /** The promoted byte that takes `h` to `x`. */
  function ByteStepInput(h: u32, x: u32): u32 {
    OverPrime5(Sub32(Rotr32(OverPrime1(x), 11), h))
  }

  lemma ByteStepInverse(h: u32, b: byte, x: u32)
    ensures ByteStep(h, b) == x <==> h == UnByteStep(x, b)
    ensures ByteStep(h, b) == x <==> Widen32(b) == ByteStepInput(h, x)
  {
    hide Add32, Sub32, Rotl32, Rotr32, TimesPrime1, TimesPrime5, OverPrime1, OverPrime5, Widen32;
    var m, y := TimesPrime5(Widen32(b)), Rotr32(OverPrime1(x), 11);
    TimesEquation1(Rotl32(Add32(h, m), 11), x);
    RotateEquation32(Add32(h, m), 11, OverPrime1(x));
    AddEquation32(h, m, y);
    TimesEquation5(Widen32(b), Sub32(y, h));
  }

  function UnAvalanche(x: u32): u32 {
    UnXorShift15(OverPrime2(UnXorShift13(OverPrime3(UnXorShift16(x)))))
  }

  lemma AvalancheInverse(h: u32, x: u32)
    ensures Avalanche(h) == x <==> h == UnAvalanche(x)
  {
    hide XorShift13, XorShift15, XorShift16, UnXorShift13, UnXorShift15, UnXorShift16,
         TimesPrime2, TimesPrime3, OverPrime2, OverPrime3;
    var h1 := TimesPrime2(XorShift15(h));
    var x3 := OverPrime3(UnXorShift16(x));
    XorShiftEquation16(TimesPrime3(XorShift13(h1)), x);
    TimesEquation3(XorShift13(h1), UnXorShift16(x));
    XorShiftEquation13(h1, x3);
    TimesEquation2(XorShift15(h), UnXorShift13(x3));
    XorShiftEquation15(h, OverPrime2(UnXorShift13(x3)));
  }

  // ---- folds ----

  function UnLaneFold(x: u32, s: seq<byte>, k: nat, lo: nat, hi: nat): u32
    requires k < 4 && lo <= hi && 16 * hi <= |s|
    decreases hi
  {
    if lo == hi then x else UnLaneFold(UnRound(x, Le32At(s, 16 * (hi - 1) + 4 * k)), s, k, lo, hi - 1)
  }

  lemma {:induction false} LaneFoldInverse(v: u32, s: seq<byte>, k: nat, lo: nat, hi: nat, x: u32)
    requires k < 4 && lo <= hi && 16 * hi <= |s|
    ensures LaneFold(v, s, k, lo, hi) == x <==> v == UnLaneFold(x, s, k, lo, hi)
    decreases hi
  {
    hide Round, UnRound, Le32At;
    if lo < hi {
      var w := Le32At(s, 16 * (hi - 1) + 4 * k);
      RoundInverse(LaneFold(v, s, k, lo, hi - 1), w, x);
      LaneFoldInverse(v, s, k, lo, hi - 1, UnRound(x, w));
    }
  }

  function UnWordTail(x: u32, s: seq<byte>, lo: nat, hi: nat): u32
    requires lo <= hi && 4 * hi <= |s|
    decreases hi
  {
    if lo == hi then x else UnWordTail(UnWordStep(x, Le32At(s, 4 * (hi - 1))), s, lo, hi - 1)
  }

  lemma {:induction false} WordTailInverse(h: u32, s: seq<byte>, lo: nat, hi: nat, x: u32)
    requires lo <= hi && 4 * hi <= |s|
    ensures WordTail(h, s, lo, hi) == x <==> h == UnWordTail(x, s, lo, hi)
    decreases hi
  {
    hide WordStep, UnWordStep, Le32At;
    if lo < hi {
      var w := Le32At(s, 4 * (hi - 1));
      WordStepInverse(WordTail(h, s, lo, hi - 1), w, x);
      WordTailInverse(h, s, lo, hi - 1, UnWordStep(x, w));
    }
  }

  function UnByteTail(x: u32, s: seq<byte>, lo: nat, hi: nat): u32
    requires lo <= hi <= |s|
    decreases hi
  {
    if lo == hi then x else UnByteTail(UnByteStep(x, s[hi - 1]), s, lo, hi - 1)
  }

  lemma {:induction false} ByteTailInverse(h: u32, s: seq<byte>, lo: nat, hi: nat, x: u32)
    requires lo <= hi <= |s|
    ensures ByteTail(h, s, lo, hi) == x <==> h == UnByteTail(x, s, lo, hi)
    decreases hi
  {
    hide ByteStep, UnByteStep;
    if lo < hi {
      ByteStepInverse(ByteTail(h, s, lo, hi - 1), s[hi - 1], x);
      ByteTailInverse(h, s, lo, hi - 1, UnByteStep(x, s[hi - 1]));
    }
  }

  // ---- everything after the start value, and the seed ----

  function UnAddLength(x: u32, len: nat): u32 {
    Sub32(x, Low32(len))
  }

  lemma AddLengthInverse(h: u32, len: nat, x: u32)
    ensures AddLength(h, len) == x <==> h == UnAddLength(x, len)
  {
    hide Add32, Sub32, Low32;
    AddEquation32(h, Low32(len), x);
  }

  function UnFinish(x: u32, s: seq<byte>): u32 {
    var bytes := UnByteTail(UnAvalanche(x), s, 4 * Whole4(|s|), |s|);
    UnAddLength(UnWordTail(bytes, s, 4 * Whole16(|s|), Whole4(|s|)), |s|)
  }

  lemma FinishInverse(h: u32, s: seq<byte>, x: u32)
    ensures Finish(h, s) == x <==> h == UnFinish(x, s)
  {
    hide Avalanche, UnAvalanche, ByteTail, UnByteTail, WordTail, UnWordTail, AddLength, UnAddLength;
    var start := AddLength(h, |s|);
    var words := WordTail(start, s, 4 * Whole16(|s|), Whole4(|s|));
    AvalancheInverse(ByteTail(words, s, 4 * Whole4(|s|), |s|), x);
    var bytes := UnByteTail(UnAvalanche(x), s, 4 * Whole4(|s|), |s|);
    ByteTailInverse(words, s, 4 * Whole4(|s|), |s|, UnAvalanche(x));
    WordTailInverse(start, s, 4 * Whole16(|s|), Whole4(|s|), bytes);
    AddLengthInverse(h, |s|, UnWordTail(bytes, s, 4 * Whole16(|s|), Whole4(|s|)));
  }

  function SeedFor(s: seq<byte>, x: u32): u32 {
    Sub32(UnFinish(x, s), PRIME32_5)
  }

  /** On inputs below one stripe, exactly one seed gives each hash. */
  lemma SeedPermutation(seed: u32, s: seq<byte>, x: u32)
    requires |s| < 16
    ensures Hash(seed, s) == x <==> seed == SeedFor(s, x)
  {
    hide Finish, UnFinish, Add32, Sub32;
    FinishInverse(Start(seed, s), s, x);
    AddEquation32(seed, PRIME32_5, UnFinish(x, s));
  }
}
