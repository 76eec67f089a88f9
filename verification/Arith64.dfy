/**
 The arithmetic of XXH64: addition, rotation, multiplication by the constants
 PRIME64_1 to PRIME64_5 and xor-shift on 64-bit words, each with its inverse.

 Each operation has a name, so that proofs about the hash can treat it as a
 black box. A lemma `XOfY` is a fact about two operations with one of them
 written out, from which the fact about the two names follows.
 */
module Arith64 {
  import opened Words

  function Add64(x: u64, y: u64): u64 { x + y }

  function Sub64(x: u64, y: u64): u64 { x - y }

  lemma SubOfSum64(x: u64, y: u64)
    ensures Sub64(x + y, y) == x && Sub64(x + y, x) == y
  {
  }

  lemma SumOfSub64(x: u64, y: u64)
    ensures Add64(x - y, y) == x && Add64(y, x - y) == x
  {
  }

  lemma AddInverse64(x: u64, y: u64)
    ensures Sub64(Add64(x, y), y) == x && Sub64(Add64(x, y), x) == y
    ensures Add64(Sub64(x, y), y) == x && Add64(y, Sub64(x, y)) == x
  {
    SubOfSum64(x, y);
    SumOfSub64(x, y);
  }

  lemma AddEquation64(p: u64, q: u64, x: u64)
    ensures Add64(p, q) == x <==> p == Sub64(x, q)
    ensures Add64(p, q) == x <==> q == Sub64(x, p)
  {
    hide Add64, Sub64;
    AddInverse64(p, q);
    AddInverse64(x, q);
    AddInverse64(x, p);
  }

  lemma AddZero64(x: u64)
    ensures Add64(x, 0) == x
  {
  }

  lemma AddOfSums64(x: u64, y: u64, z: u64)
    ensures Add64(x + y, z) == x + y + z && Add64(x, y + z) == x + y + z
  {
  }

  lemma AddIsSum64(x: u64, y: u64)
    ensures Add64(x, y) == x + y
  {
  }

  lemma AddAssociative64(x: u64, y: u64, z: u64)
    ensures Add64(Add64(x, y), z) == Add64(x, Add64(y, z))
  {
    hide Add64;
    AddIsSum64(x, y);
    AddIsSum64(y, z);
    AddOfSums64(x, y, z);
  }

  function Xor64(x: u64, y: u64): u64 { x ^ y }

  lemma XorOfXor64(x: u64, y: u64)
    ensures Xor64(x ^ y, y) == x && Xor64(x, x ^ y) == y
  {
  }

  lemma XorInverse64(x: u64, y: u64)
    ensures Xor64(Xor64(x, y), y) == x && Xor64(x, Xor64(x, y)) == y
  {
    XorOfXor64(x, y);
  }

  lemma XorEquation64(h: u64, m: u64, x: u64)
    ensures Xor64(h, m) == x <==> h == Xor64(x, m)
    ensures Xor64(h, m) == x <==> m == Xor64(h, x)
  {
    hide Xor64;
    XorInverse64(h, m);
    XorInverse64(x, m);
    XorInverse64(h, x);
  }

  /** The macro XXH_rotl64. */
  function Rotl64(x: u64, r: u64): u64
    requires 0 < r < 64
  {
    (x << r) | (x >> (64 - r))
  }

  function Rotr64(x: u64, r: u64): u64
    requires 0 < r < 64
  {
    (x >> r) | (x << (64 - r))
  }

  lemma RotateInverse64By11(x: u64)
    ensures Rotr64(Rotl64(x, 11), 11) == x && Rotl64(Rotr64(x, 11), 11) == x
  {
  }

  lemma RotateInverse64By23(x: u64)
    ensures Rotr64(Rotl64(x, 23), 23) == x && Rotl64(Rotr64(x, 23), 23) == x
  {
  }

  lemma RotateInverse64By27(x: u64)
    ensures Rotr64(Rotl64(x, 27), 27) == x && Rotl64(Rotr64(x, 27), 27) == x
  {
  }

  lemma RotateInverse64By31(x: u64)
    ensures Rotr64(Rotl64(x, 31), 31) == x && Rotl64(Rotr64(x, 31), 31) == x
  {
  }

  /** The rotations of the hash, but for those of the convergence. */
  predicate Rotation64(r: u64) {
    r == 11 || r == 23 || r == 27 || r == 31
  }

  lemma RotateInverse64(x: u64, r: u64)
    requires Rotation64(r)
    ensures Rotr64(Rotl64(x, r), r) == x && Rotl64(Rotr64(x, r), r) == x
  {
    hide Rotl64, Rotr64;
    RotateInverse64By11(x);
    RotateInverse64By23(x);
    RotateInverse64By27(x);
    RotateInverse64By31(x);
  }

  lemma RotateEquation64(v: u64, r: u64, x: u64)
    requires Rotation64(r)
    ensures Rotl64(v, r) == x <==> v == Rotr64(x, r)
  {
    hide Rotl64, Rotr64;
    RotateInverse64(v, r);
    RotateInverse64(x, r);
  }

  function TimesPrime1(x: u64): u64 { x * 11400714785074694791 }

  function OverPrime1(x: u64): u64 { x * 614540362697595703 }

  function TimesPrime2(x: u64): u64 { x * 14029467366897019727 }

  function OverPrime2(x: u64): u64 { x * 839798700976720815 }

  function TimesPrime3(x: u64): u64 { x * 1609587929392839161 }

  function OverPrime3(x: u64): u64 { x * 16855272203555305545 }

  function TimesPrime5(x: u64): u64 { x * 2870177450012600261 }

  function OverPrime5(x: u64): u64 { x * 14236653164957433613 }

  lemma OverOfTimes1(x: u64)
    ensures OverPrime1(x * 11400714785074694791) == x && TimesPrime1(x * 614540362697595703) == x
  {
  }

  lemma TimesInverse1(x: u64)
    ensures OverPrime1(TimesPrime1(x)) == x && TimesPrime1(OverPrime1(x)) == x
  {
    OverOfTimes1(x);
  }

  lemma TimesEquation1(v: u64, x: u64)
    ensures TimesPrime1(v) == x <==> v == OverPrime1(x)
  {
    hide TimesPrime1, OverPrime1;
    TimesInverse1(v);
    TimesInverse1(x);
  }

  lemma OverOfTimes2(x: u64)
    ensures OverPrime2(x * 14029467366897019727) == x && TimesPrime2(x * 839798700976720815) == x
  {
  }

  lemma TimesInverse2(x: u64)
    ensures OverPrime2(TimesPrime2(x)) == x && TimesPrime2(OverPrime2(x)) == x
  {
    OverOfTimes2(x);
  }

  lemma TimesEquation2(v: u64, x: u64)
    ensures TimesPrime2(v) == x <==> v == OverPrime2(x)
  {
    hide TimesPrime2, OverPrime2;
    TimesInverse2(v);
    TimesInverse2(x);
  }

  lemma OverOfTimes3(x: u64)
    ensures OverPrime3(x * 1609587929392839161) == x && TimesPrime3(x * 16855272203555305545) == x
  {
  }

  lemma TimesInverse3(x: u64)
    ensures OverPrime3(TimesPrime3(x)) == x && TimesPrime3(OverPrime3(x)) == x
  {
    OverOfTimes3(x);
  }

  lemma TimesEquation3(v: u64, x: u64)
    ensures TimesPrime3(v) == x <==> v == OverPrime3(x)
  {
    hide TimesPrime3, OverPrime3;
    TimesInverse3(v);
    TimesInverse3(x);
  }

  lemma OverOfTimes5(x: u64)
    ensures OverPrime5(x * 2870177450012600261) == x && TimesPrime5(x * 14236653164957433613) == x
  {
  }

  lemma TimesInverse5(x: u64)
    ensures OverPrime5(TimesPrime5(x)) == x && TimesPrime5(OverPrime5(x)) == x
  {
    OverOfTimes5(x);
  }

  lemma TimesEquation5(v: u64, x: u64)
    ensures TimesPrime5(v) == x <==> v == OverPrime5(x)
  {
    hide TimesPrime5, OverPrime5;
    TimesInverse5(v);
    TimesInverse5(x);
  }

  /** The constants: the multipliers above, and one that is only added. */
  const PRIME64_1: u64 := TimesPrime1(1)
  const PRIME64_2: u64 := TimesPrime2(1)
  const PRIME64_3: u64 := TimesPrime3(1)
  const PRIME64_4: u64 := 9650029242287828579
  const PRIME64_5: u64 := TimesPrime5(1)

  lemma PrimeProducts()
    ensures PRIME64_1 == 11400714785074694791
    ensures PRIME64_2 == 14029467366897019727
    ensures PRIME64_3 == 1609587929392839161
    ensures PRIME64_4 == 9650029242287828579
    ensures PRIME64_5 == 2870177450012600261
  {
  }

  function XorShift29(x: u64): u64 { x ^ (x >> 29) }

  function UnXorShift29(x: u64): u64 { x ^ (x >> 29) ^ (x >> 58) }

  lemma UnOfXorShift29(x: u64)
    ensures UnXorShift29(x ^ (x >> 29)) == x
  {
  }

  lemma XorShiftOfUn29(x: u64)
    ensures XorShift29(x ^ (x >> 29) ^ (x >> 58)) == x
  {
  }

  lemma XorShiftInverse29(x: u64)
    ensures UnXorShift29(XorShift29(x)) == x && XorShift29(UnXorShift29(x)) == x
  {
    UnOfXorShift29(x);
    XorShiftOfUn29(x);
  }

  lemma XorShiftEquation29(v: u64, x: u64)
    ensures XorShift29(v) == x <==> v == UnXorShift29(x)
  {
    hide XorShift29, UnXorShift29;
    XorShiftInverse29(v);
    XorShiftInverse29(x);
  }

  function XorShift32(x: u64): u64 { x ^ (x >> 32) }

  function UnXorShift32(x: u64): u64 { x ^ (x >> 32) }

  lemma UnOfXorShift32(x: u64)
    ensures UnXorShift32(x ^ (x >> 32)) == x
  {
  }

  lemma XorShiftOfUn32(x: u64)
    ensures XorShift32(x ^ (x >> 32)) == x
  {
  }

  lemma XorShiftInverse32(x: u64)
    ensures UnXorShift32(XorShift32(x)) == x && XorShift32(UnXorShift32(x)) == x
  {
    UnOfXorShift32(x);
    XorShiftOfUn32(x);
  }

  lemma XorShiftEquation32(v: u64, x: u64)
    ensures XorShift32(v) == x <==> v == UnXorShift32(x)
  {
    hide XorShift32, UnXorShift32;
    XorShiftInverse32(v);
    XorShiftInverse32(x);
  }

  function XorShift33(x: u64): u64 { x ^ (x >> 33) }

  function UnXorShift33(x: u64): u64 { x ^ (x >> 33) }

  lemma UnOfXorShift33(x: u64)
    ensures UnXorShift33(x ^ (x >> 33)) == x
  {
  }

  lemma XorShiftOfUn33(x: u64)
    ensures XorShift33(x ^ (x >> 33)) == x
  {
  }

  lemma XorShiftInverse33(x: u64)
    ensures UnXorShift33(XorShift33(x)) == x && XorShift33(UnXorShift33(x)) == x
  {
    UnOfXorShift33(x);
    XorShiftOfUn33(x);
  }

  lemma XorShiftEquation33(v: u64, x: u64)
    ensures XorShift33(v) == x <==> v == UnXorShift33(x)
  {
    hide XorShift33, UnXorShift33;
    XorShiftInverse33(v);
    XorShiftInverse33(x);
  }
}
