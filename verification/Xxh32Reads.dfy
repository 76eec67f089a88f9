/**
 Changing one read of XXH32: the four bytes of a word, in a stripe or in the
 tail, or one of the last bytes.
 */
module Xxh32Reads {
  import opened Words
  import opened Inputs
  import opened Arith32
  import opened Xxh32
  import opened Xxh32Bijection

  /** The word at `p` lies outside `a..b`. */
  predicate Apart(p: nat, a: nat, b: nat) {
    p + 4 <= a || b <= p
  }

  // ---- folds that do not meet the difference ----

  lemma {:induction false} LaneFoldApart(v: u32, s: seq<byte>, t: seq<byte>, a: nat, b: nat, k: nat, lo: nat, hi: nat)
    requires DifferOnlyIn(s, t, a, b) && k < 4 && lo <= hi && 16 * hi <= |s|
    requires forall q :: lo <= q < hi ==> Apart(16 * q + 4 * k, a, b)
    ensures LaneFold(v, s, k, lo, hi) == LaneFold(v, t, k, lo, hi)
    decreases hi
  {
    hide Round, Le32At, DifferOnlyIn;
    SameLength(s, t, a, b);
    if lo < hi {
      LaneFoldApart(v, s, t, a, b, k, lo, hi - 1);
      assert Apart(16 * (hi - 1) + 4 * k, a, b);
      SameWord32Apart(s, t, a, b, 16 * (hi - 1) + 4 * k);
    }
  }

  lemma {:induction false} WordTailApart(h: u32, s: seq<byte>, t: seq<byte>, a: nat, b: nat, lo: nat, hi: nat)
    requires DifferOnlyIn(s, t, a, b) && lo <= hi && 4 * hi <= |s|
    requires 4 * hi <= a || b <= 4 * lo
    ensures WordTail(h, s, lo, hi) == WordTail(h, t, lo, hi)
    decreases hi
  {
    hide WordStep, Le32At, DifferOnlyIn;
    SameLength(s, t, a, b);
    if lo < hi {
      WordTailApart(h, s, t, a, b, lo, hi - 1);
      SameWord32Apart(s, t, a, b, 4 * (hi - 1));
    }
  }

  lemma {:induction false} ByteTailApart(h: u32, s: seq<byte>, t: seq<byte>, a: nat, b: nat, lo: nat, hi: nat)
    requires DifferOnlyIn(s, t, a, b) && lo <= hi <= |s|
    requires hi <= a || b <= lo
    ensures ByteTail(h, s, lo, hi) == ByteTail(h, t, lo, hi)
    decreases hi
  {
    hide ByteStep;
    if lo < hi {
      ByteTailApart(h, s, t, a, b, lo, hi - 1);
    }
  }

  lemma StartApart(seed: u32, s: seq<byte>, t: seq<byte>, a: nat, b: nat)
    requires DifferOnlyIn(s, t, a, b) && 16 * Whole16(|s|) <= a
    ensures Start(seed, s) == Start(seed, t)
  {
    hide LaneFold, InitLanes, Converge, Add32;
    var n, l := Whole16(|s|), InitLanes(seed);
    LaneFoldApart(l.v1, s, t, a, b, 0, 0, n);
    LaneFoldApart(l.v2, s, t, a, b, 1, 0, n);
    LaneFoldApart(l.v3, s, t, a, b, 2, 0, n);
    LaneFoldApart(l.v4, s, t, a, b, 3, 0, n);
  }

  // ---- folds cut at one element ----

  lemma {:induction false} LaneFoldCut(v: u32, s: seq<byte>, k: nat, lo: nat, mid: nat, hi: nat)
    requires k < 4 && lo <= mid < hi && 16 * hi <= |s|
    ensures LaneFold(v, s, k, lo, hi) ==
      LaneFold(Round(LaneFold(v, s, k, lo, mid), Le32At(s, 16 * mid + 4 * k)), s, k, mid + 1, hi)
    decreases hi
  {
    hide Round, Le32At;
    if mid < hi - 1 {
      LaneFoldCut(v, s, k, lo, mid, hi - 1);
    }
  }

  lemma {:induction false} WordTailCut(h: u32, s: seq<byte>, lo: nat, mid: nat, hi: nat)
    requires lo <= mid < hi && 4 * hi <= |s|
    ensures WordTail(h, s, lo, hi) ==
      WordTail(WordStep(WordTail(h, s, lo, mid), Le32At(s, 4 * mid)), s, mid + 1, hi)
    decreases hi
  {
    hide WordStep, Le32At;
    if mid < hi - 1 {
      WordTailCut(h, s, lo, mid, hi - 1);
    }
  }

  lemma {:induction false} ByteTailCut(h: u32, s: seq<byte>, lo: nat, mid: nat, hi: nat)
    requires lo <= mid < hi <= |s|
    ensures ByteTail(h, s, lo, hi) == ByteTail(ByteStep(ByteTail(h, s, lo, mid), s[mid]), s, mid + 1, hi)
    decreases hi
  {
    hide ByteStep;
    if mid < hi - 1 {
      ByteTailCut(h, s, lo, mid, hi - 1);
    }
  }

  // ---- one lane of the convergence ----

  function LaneRotation(k: nat): u32
    requires k < 4
  {
    if k == 0 then 1 else if k == 1 then 7 else if k == 2 then 12 else 18
  }

  /** The value of lane `k` that brings the convergence to `x`. */
  function LaneFor(l: Lanes, k: nat, x: u32): u32
    requires k < 4
  {
    var a, b, c, d := Rotl32(l.v1, 1), Rotl32(l.v2, 7), Rotl32(l.v3, 12), Rotl32(l.v4, 18);
    var y :=
      if k == 3 then Sub32(x, Add32(Add32(a, b), c))
      else if k == 2 then Sub32(Sub32(x, d), Add32(a, b))
      else if k == 1 then Sub32(Sub32(Sub32(x, d), c), a)
      else Sub32(Sub32(Sub32(x, d), c), b);
    Rotr32(y, LaneRotation(k))
  }

  /** Lanes that differ in lane `k` only. */
  lemma ConvergeInverse(l: Lanes, m: Lanes, k: nat, x: u32)
    requires k < 4 && forall j :: 0 <= j < 4 && j != k ==> l.Get(j) == m.Get(j)
    ensures Converge(m) == x <==> m.Get(k) == LaneFor(l, k, x)
  {
    hide Add32, Sub32, Rotl32, Rotr32;
    assert k != 0 ==> l.Get(0) == m.Get(0);
    assert k != 1 ==> l.Get(1) == m.Get(1);
    assert k != 2 ==> l.Get(2) == m.Get(2);
    assert k != 3 ==> l.Get(3) == m.Get(3);
    var a, b, c, d := Rotl32(m.v1, 1), Rotl32(m.v2, 7), Rotl32(m.v3, 12), Rotl32(m.v4, 18);
    AddEquation32(Add32(Add32(a, b), c), d, x);
    AddEquation32(Add32(a, b), c, Sub32(x, d));
    AddEquation32(a, b, Sub32(Sub32(x, d), c));
    var y :=
      if k == 3 then Sub32(x, Add32(Add32(a, b), c))
      else if k == 2 then Sub32(Sub32(x, d), Add32(a, b))
      else if k == 1 then Sub32(Sub32(Sub32(x, d), c), a)
      else Sub32(Sub32(Sub32(x, d), c), b);
    RotateEquation32(m.Get(k), LaneRotation(k), y);
  }

  // ---- the theorems ----

  lemma UnWordTailApart(x: u32, s: seq<byte>, t: seq<byte>, a: nat, b: nat, lo: nat, hi: nat)
    requires DifferOnlyIn(s, t, a, b) && lo <= hi && 4 * hi <= |s|
    requires 4 * hi <= a || b <= 4 * lo
    ensures UnWordTail(x, s, lo, hi) == UnWordTail(x, t, lo, hi)
  {
    hide WordTail, UnWordTail;
    var h := UnWordTail(x, s, lo, hi);
    WordTailInverse(h, s, lo, hi, x);
    WordTailApart(h, s, t, a, b, lo, hi);
    WordTailInverse(h, t, lo, hi, x);
  }

  lemma UnByteTailApart(x: u32, s: seq<byte>, t: seq<byte>, a: nat, b: nat, lo: nat, hi: nat)
    requires DifferOnlyIn(s, t, a, b) && lo <= hi <= |s|
    requires hi <= a || b <= lo
    ensures UnByteTail(x, s, lo, hi) == UnByteTail(x, t, lo, hi)
  {
    hide ByteTail, UnByteTail;
    var h := UnByteTail(x, s, lo, hi);
    ByteTailInverse(h, s, lo, hi, x);
    ByteTailApart(h, s, t, a, b, lo, hi);
    ByteTailInverse(h, t, lo, hi, x);
  }

  lemma UnLaneFoldApart(x: u32, s: seq<byte>, t: seq<byte>, a: nat, b: nat, k: nat, lo: nat, hi: nat)
    requires DifferOnlyIn(s, t, a, b) && k < 4 && lo <= hi && 16 * hi <= |s|
    requires forall q :: lo <= q < hi ==> Apart(16 * q + 4 * k, a, b)
    ensures UnLaneFold(x, s, k, lo, hi) == UnLaneFold(x, t, k, lo, hi)
  {
    hide LaneFold, UnLaneFold, Apart;
    var v := UnLaneFold(x, s, k, lo, hi);
    LaneFoldInverse(v, s, k, lo, hi, x);
    LaneFoldApart(v, s, t, a, b, k, lo, hi);
    LaneFoldInverse(v, t, k, lo, hi, x);
  }

  /** The hash behind the words `..i` of the tail. */
  function AfterWords(seed: u32, s: seq<byte>, i: nat): u32
    requires 4 * Whole16(|s|) <= i && 4 * i <= |s|
  {
    WordTail(AddLength(Start(seed, s), |s|), s, 4 * Whole16(|s|), i)
  }

  /** The hash before the last bytes, when `x` is the result. */
  function BeforeBytes(s: seq<byte>, x: u32): u32 {
    UnByteTail(UnAvalanche(x), s, 4 * Whole4(|s|), |s|)
  }

  lemma BeforeBytesApart(s: seq<byte>, t: seq<byte>, a: nat, b: nat, x: u32)
    requires DifferOnlyIn(s, t, a, b) && b <= 4 * Whole4(|s|)
    ensures BeforeBytes(s, x) == BeforeBytes(t, x)
  {
    hide UnByteTail, UnAvalanche, Whole4;
    UnByteTailApart(UnAvalanche(x), s, t, a, b, 4 * Whole4(|s|), |s|);
  }

  /** The hash, cut behind the words. */
  lemma HashEquation(seed: u32, s: seq<byte>, x: u32)
    ensures Hash(seed, s) == x <==> AfterWords(seed, s, Whole4(|s|)) == BeforeBytes(s, x)
  {
    hide Start, AddLength, WordTail, ByteTail, UnByteTail, Avalanche, UnAvalanche, Whole4, Whole16;
    var words := AfterWords(seed, s, Whole4(|s|));
    AvalancheInverse(ByteTail(words, s, 4 * Whole4(|s|), |s|), x);
    ByteTailInverse(words, s, 4 * Whole4(|s|), |s|, UnAvalanche(x));
  }

  lemma AfterWordsApart(seed: u32, s: seq<byte>, t: seq<byte>, a: nat, b: nat, i: nat)
    requires DifferOnlyIn(s, t, a, b) && 4 * Whole16(|s|) <= i && 4 * i <= a && 4 * i <= |s|
    ensures AfterWords(seed, s, i) == AfterWords(seed, t, i)
  {
    hide Start, AddLength, WordTail, Whole4, Whole16;
    StartApart(seed, s, t, a, b);
    WordTailApart(AddLength(Start(seed, s), |s|), s, t, a, b, 4 * Whole16(|s|), i);
  }

  lemma AfterWordsCut(seed: u32, s: seq<byte>, i: nat)
    requires 4 * Whole16(|s|) <= i < Whole4(|s|)
    ensures AfterWords(seed, s, Whole4(|s|)) ==
      WordTail(WordStep(AfterWords(seed, s, i), Le32At(s, 4 * i)), s, i + 1, Whole4(|s|))
  {
    hide Start, AddLength, WordTail, WordStep, Le32At, Whole4, Whole16;
    WordTailCut(AddLength(Start(seed, s), |s|), s, 4 * Whole16(|s|), i, Whole4(|s|));
  }

  /** The word that, read at index `i` of the tail, brings the hash to `x`. */
  function TailWordFor(seed: u32, s: seq<byte>, i: nat, x: u32): u32
    requires 4 * Whole16(|s|) <= i < Whole4(|s|)
  {
    WordStepInput(AfterWords(seed, s, i), UnWordTail(BeforeBytes(s, x), s, i + 1, Whole4(|s|)))
  }

  lemma TailWordRead(seed: u32, s: seq<byte>, t: seq<byte>, i: nat, x: u32)
    requires 4 * Whole16(|s|) <= i < Whole4(|s|) && DifferOnlyIn(s, t, 4 * i, 4 * i + 4)
    ensures Hash(seed, t) == x <==> Le32At(t, 4 * i) == TailWordFor(seed, s, i, x)
  {
    hide Hash, AfterWords, BeforeBytes, WordTail, UnWordTail, WordStep, WordStepInput, UnWordStep, Le32At,
         Whole4, Whole16;
    var p := 4 * i;
    HashEquation(seed, t, x);
    BeforeBytesApart(s, t, p, p + 4, x);
    AfterWordsCut(seed, t, i);
    AfterWordsApart(seed, s, t, p, p + 4, i);
    var before := AfterWords(seed, s, i);
    LastWords(before, s, t, i, BeforeBytes(s, x));
  }

  /** From one word of the tail to the end of the words. */
  lemma LastWords(before: u32, s: seq<byte>, t: seq<byte>, i: nat, y: u32)
    requires i < Whole4(|s|) && DifferOnlyIn(s, t, 4 * i, 4 * i + 4)
    ensures |t| == |s|
    ensures WordTail(WordStep(before, Le32At(t, 4 * i)), t, i + 1, Whole4(|t|)) == y <==>
      Le32At(t, 4 * i) == WordStepInput(before, UnWordTail(y, s, i + 1, Whole4(|s|)))
  {
    hide WordTail, UnWordTail, WordStep, WordStepInput, UnWordStep, Le32At, Whole4;
    var b, p := Whole4(|s|), 4 * i;
    WordTailInverse(WordStep(before, Le32At(t, p)), t, i + 1, b, y);
    UnWordTailApart(y, s, t, p, p + 4, i + 1, b);
    WordStepInverse(before, Le32At(t, p), UnWordTail(y, s, i + 1, b));
  }

  lemma FinishApart(h: u32, s: seq<byte>, t: seq<byte>, a: nat, b: nat)
    requires DifferOnlyIn(s, t, a, b) && b <= 16 * Whole16(|s|)
    ensures Finish(h, s) == Finish(h, t)
  {
    hide AddLength, WordTail, ByteTail, Avalanche, Whole4, Whole16;
    var start := AddLength(h, |s|);
    WordTailApart(start, s, t, a, b, 4 * Whole16(|s|), Whole4(|s|));
    ByteTailApart(WordTail(start, s, 4 * Whole16(|s|), Whole4(|s|)), s, t, a, b, 4 * Whole4(|s|), |s|);
  }

  /** The word that, read at index `i` of a stripe, brings the hash to `x`. */
  function StripeWordFor(seed: u32, s: seq<byte>, i: nat, x: u32): u32
    requires i < 4 * Whole16(|s|)
  {
    var n, k, j := Whole16(|s|), i % 4, i / 4;
    var lane := LaneFor(LanesAt(seed, s, n), k, UnFinish(x, s));
    RoundInput(LaneFold(InitLanes(seed).Get(k), s, k, 0, j), UnLaneFold(lane, s, k, j + 1, n))
  }

  lemma LaneAt(seed: u32, s: seq<byte>, n: nat, k: nat)
    requires 16 * n <= |s| && k < 4
    ensures LanesAt(seed, s, n).Get(k) == LaneFold(InitLanes(seed).Get(k), s, k, 0, n)
  {
    hide LaneFold, InitLanes;
  }

  /** Only the lane that reads word `i` sees the difference. */
  lemma OtherLanes(seed: u32, s: seq<byte>, t: seq<byte>, i: nat, k: nat)
    requires i < 4 * Whole16(|s|) && DifferOnlyIn(s, t, 4 * i, 4 * i + 4) && k < 4 && k != i % 4
    ensures LanesAt(seed, s, Whole16(|s|)).Get(k) == LanesAt(seed, t, Whole16(|s|)).Get(k)
  {
    hide LanesAt, LaneFold, InitLanes, Whole16;
    var n := Whole16(|s|);
    LaneFoldApart(InitLanes(seed).Get(k), s, t, 4 * i, 4 * i + 4, k, 0, n);
    LaneAt(seed, s, n, k);
    LaneAt(seed, t, n, k);
  }

  /** Where lane `i % 4` stands after all stripes, as a function of word `i`. */
  lemma OneLane(seed: u32, s: seq<byte>, t: seq<byte>, i: nat, lane: u32)
    requires i < 4 * Whole16(|s|) && DifferOnlyIn(s, t, 4 * i, 4 * i + 4)
    ensures var n, k, j := Whole16(|s|), i % 4, i / 4;
      LanesAt(seed, t, n).Get(k) == lane <==>
      Le32At(t, 4 * i) == RoundInput(LaneFold(InitLanes(seed).Get(k), s, k, 0, j), UnLaneFold(lane, s, k, j + 1, n))
  {
    hide LanesAt, LaneFold, UnLaneFold, InitLanes, Le32At, Round, UnRound, RoundInput, Whole16;
    var n, k, j := Whole16(|s|), i % 4, i / 4;
    var v := InitLanes(seed).Get(k);
    assert 16 * j + 4 * k == 4 * i;
    LaneAt(seed, t, n, k);
    LaneFoldCut(v, t, k, 0, j, n);
    LaneFoldApart(v, s, t, 4 * i, 4 * i + 4, k, 0, j);
    var before := LaneFold(v, s, k, 0, j);
    LaneFoldInverse(Round(before, Le32At(t, 4 * i)), t, k, j + 1, n, lane);
    UnLaneFoldApart(lane, s, t, 4 * i, 4 * i + 4, k, j + 1, n);
    RoundInverse(before, Le32At(t, 4 * i), UnLaneFold(lane, s, k, j + 1, n));
  }

  lemma StripeWordRead(seed: u32, s: seq<byte>, t: seq<byte>, i: nat, x: u32)
    requires i < 4 * Whole16(|s|) && DifferOnlyIn(s, t, 4 * i, 4 * i + 4)
    ensures Hash(seed, t) == x <==> Le32At(t, 4 * i) == StripeWordFor(seed, s, i, x)
  {
    hide LanesAt, LaneFold, UnLaneFold, InitLanes, Finish, UnFinish, Converge, LaneFor, RoundInput, Le32At, Whole16;
    var n, k := Whole16(|s|), i % 4;
    var l, m := LanesAt(seed, s, n), LanesAt(seed, t, n);
    FinishApart(Converge(m), s, t, 4 * i, 4 * i + 4);
    FinishInverse(Converge(m), s, x);
    forall j | 0 <= j < 4 && j != k
      ensures l.Get(j) == m.Get(j)
    {
      OtherLanes(seed, s, t, i, j);
    }
    ConvergeInverse(l, m, k, UnFinish(x, s));
    OneLane(seed, s, t, i, LaneFor(l, k, UnFinish(x, s)));
  }

  /** `s` with the word `w` in place of its word `i`. */
  function PutWord(s: seq<byte>, i: nat, w: u32): (t: seq<byte>)
    requires i < Whole4(|s|)
    ensures |t| == |s|
  {
    Put(s, 4 * i, Bytes32(w))
  }

  lemma PutWordReads(s: seq<byte>, i: nat, w: u32)
    requires i < Whole4(|s|)
    ensures DifferOnlyIn(s, PutWord(s, i, w), 4 * i, 4 * i + 4)
    ensures Le32At(PutWord(s, i, w), 4 * i) == w
  {
    hide Bytes32, Le32At, Put, DifferOnlyIn;
    var b := Bytes32(w);
    PutReads(s, 4 * i, b);
    SameWord32(PutWord(s, i, w), 4 * i, b, 0);
    Le32OfBytes(w);
  }

  /** Any word of the input can be solved for: it takes each hash exactly once. */
  lemma WordPermutation(seed: u32, s: seq<byte>, i: nat, w: u32, x: u32)
    requires i < Whole4(|s|)
    ensures Hash(seed, PutWord(s, i, w)) == x <==>
      w == if i < 4 * Whole16(|s|) then StripeWordFor(seed, s, i, x) else TailWordFor(seed, s, i, x)
  {
    hide Hash, PutWord, StripeWordFor, TailWordFor, Le32At, Whole4, Whole16;
    PutWordReads(s, i, w);
    if i < 4 * Whole16(|s|) {
      StripeWordRead(seed, s, PutWord(s, i, w), i, x);
    } else {
      TailWordRead(seed, s, PutWord(s, i, w), i, x);
    }
  }

  lemma PutAll(s: seq<byte>, w: u32)
    requires |s| == 4
    ensures PutWord(s, 0, w) == Bytes32(w)
  {
    hide Bytes32;
  }

  lemma BytesAreTheirWord(s: seq<byte>)
    requires |s| == 4
    ensures s == Bytes32(Le32At(s, 0))
  {
    hide Bytes32, Le32;
    BytesOfLe32(s[0], s[1], s[2], s[3]);
  }

  /** For each seed, XXH32 is a permutation of the 4-byte inputs, whatever input `z` is solved around. */
  lemma FourBytes(seed: u32, s: seq<byte>, z: seq<byte>, x: u32)
    requires |s| == 4 && |z| == 4
    ensures Hash(seed, s) == x <==> s == Bytes32(TailWordFor(seed, z, 0, x))
  {
    hide Hash, TailWordFor, Bytes32, Le32At, PutWord, Whole4, Whole16;
    var w := Le32At(s, 0);
    BytesAreTheirWord(s);
    PutAll(z, w);
    WordPermutation(seed, z, 0, w, x);
    Le32OfBytes(TailWordFor(seed, z, 0, x));
  }

  /** Two different inputs of one length that differ in one word do not collide. */
  lemma NoWordCollision(seed: u32, s: seq<byte>, t: seq<byte>, i: nat)
    requires i < Whole4(|s|) && DifferOnlyIn(s, t, 4 * i, 4 * i + 4)
    ensures Hash(seed, s) == Hash(seed, t) <==> s == t
  {
    hide Hash, Le32, StripeWordFor, TailWordFor, Whole4, Whole16;
    var x, p := Hash(seed, s), 4 * i;
    assert DifferOnlyIn(s, s, p, p + 4);
    if i < 4 * Whole16(|s|) {
      StripeWordRead(seed, s, s, i, x);
      StripeWordRead(seed, s, t, i, x);
    } else {
      TailWordRead(seed, s, s, i, x);
      TailWordRead(seed, s, t, i, x);
    }
    BytesOfLe32(s[p], s[p + 1], s[p + 2], s[p + 3]);
    BytesOfLe32(t[p], t[p + 1], t[p + 2], t[p + 3]);
  }

  /** The promoted byte that, read at `j`, brings the hash to `x`. */
  function TailByteFor(seed: u32, s: seq<byte>, j: nat, x: u32): u32
    requires 4 * Whole4(|s|) <= j < |s|
  {
    var words := AfterWords(seed, s, Whole4(|s|));
    ByteStepInput(ByteTail(words, s, 4 * Whole4(|s|), j), UnByteTail(UnAvalanche(x), s, j + 1, |s|))
  }

  lemma TailByteRead(seed: u32, s: seq<byte>, t: seq<byte>, j: nat, x: u32)
    requires 4 * Whole4(|s|) <= j < |s| && DifferOnlyIn(s, t, j, j + 1)
    ensures Hash(seed, t) == x <==> Widen32(t[j]) == TailByteFor(seed, s, j, x)
  {
    hide Hash, AfterWords, ByteTail, UnByteTail, UnAvalanche, ByteStepInput, Widen32, Whole4;
    HashEquation(seed, t, x);
    AfterWordsApart(seed, s, t, j, j + 1, Whole4(|s|));
    LastBytes(AfterWords(seed, s, Whole4(|s|)), s, t, 4 * Whole4(|s|), j, UnAvalanche(x));
  }

  /** From one byte of the tail to the end of the input. */
  lemma LastBytes(words: u32, s: seq<byte>, t: seq<byte>, lo: nat, j: nat, y: u32)
    requires lo <= j < |s| && DifferOnlyIn(s, t, j, j + 1)
    ensures |t| == |s|
    ensures words == UnByteTail(y, t, lo, |t|) <==>
      Widen32(t[j]) == ByteStepInput(ByteTail(words, s, lo, j), UnByteTail(y, s, j + 1, |s|))
  {
    hide ByteTail, UnByteTail, ByteStep, UnByteStep, ByteStepInput, Widen32;
    ByteTailInverse(words, t, lo, |t|, y);
    ByteTailCut(words, t, lo, j, |t|);
    ByteTailApart(words, s, t, j, j + 1, lo, j);
    var before := ByteTail(words, s, lo, j);
    ByteTailInverse(ByteStep(before, t[j]), t, j + 1, |t|, y);
    UnByteTailApart(y, s, t, j, j + 1, j + 1, |s|);
    ByteStepInverse(before, t[j], UnByteTail(y, s, j + 1, |s|));
  }

  lemma WidenInjective(b: byte, c: byte)
    requires Widen32(b) == Widen32(c)
    ensures b == c
  {
  }

  /** Nor do two that differ in one of the bytes read one by one. */
  lemma NoByteCollision(seed: u32, s: seq<byte>, t: seq<byte>, j: nat)
    requires 4 * Whole4(|s|) <= j < |s| && DifferOnlyIn(s, t, j, j + 1)
    ensures Hash(seed, s) == Hash(seed, t) <==> s == t
  {
    hide Hash, TailByteFor, Widen32, Whole4;
    var x := Hash(seed, s);
    assert DifferOnlyIn(s, s, j, j + 1);
    TailByteRead(seed, s, s, j, x);
    TailByteRead(seed, s, t, j, x);
    if Hash(seed, t) == x {
      WidenInjective(s[j], t[j]);
    }
  }
}
