/**
 The arithmetic of XXH32: addition, rotation, multiplication by the constants
 PRIME32_1 to PRIME32_5 and xor-shift on 32-bit words, each with its inverse.

 Each operation has a name, so that proofs about the hash can treat it as a
 black box. A lemma `XOfY` is a fact about two operations with one of them
 written out, from which the fact about the two names follows.
 */
module Arith32 {
  import opened Words

  function Add32(x: u32, y: u32): u32 { x + y }

  function Sub32(x: u32, y: u32): u32 { x - y }

  lemma SubOfSum32(x: u32, y: u32)
    ensures Sub32(x + y, y) == x && Sub32(x + y, x) == y
  {
  }

  lemma SumOfSub32(x: u32, y: u32)
    ensures Add32(x - y, y) == x && Add32(y, x - y) == x
  {
  }

  lemma AddInverse32(x: u32, y: u32)
    ensures Sub32(Add32(x, y), y) == x && Sub32(Add32(x, y), x) == y
    ensures Add32(Sub32(x, y), y) == x && Add32(y, Sub32(x, y)) == x
  {
    SubOfSum32(x, y);
    SumOfSub32(x, y);
  }

  lemma AddEquation32(p: u32, q: u32, x: u32)
    ensures Add32(p, q) == x <==> p == Sub32(x, q)
    ensures Add32(p, q) == x <==> q == Sub32(x, p)
  {
    hide Add32, Sub32;
    AddInverse32(p, q);
    AddInverse32(x, q);
    AddInverse32(x, p);
  }

  lemma AddZero32(x: u32)
    ensures Add32(x, 0) == x
  {
  }

  lemma AddOfSums32(x: u32, y: u32, z: u32)
    ensures Add32(x + y, z) == x + y + z && Add32(x, y + z) == x + y + z
  {
  }

  lemma AddIsSum32(x: u32, y: u32)
    ensures Add32(x, y) == x + y
  {
  }

  lemma AddAssociative32(x: u32, y: u32, z: u32)
    ensures Add32(Add32(x, y), z) == Add32(x, Add32(y, z))
  {
    hide Add32;
    AddIsSum32(x, y);
    AddIsSum32(y, z);
    AddOfSums32(x, y, z);
  }

  /** The macro XXH_rotl32. */
  function Rotl32(x: u32, r: u32): u32
    requires 0 < r < 32
  {
    (x << r) | (x >> (32 - r))
  }

  function Rotr32(x: u32, r: u32): u32
    requires 0 < r < 32
  {
    (x >> r) | (x << (32 - r))
  }

  lemma RotateInverse32By1(x: u32)
    ensures Rotr32(Rotl32(x, 1), 1) == x && Rotl32(Rotr32(x, 1), 1) == x
  {
  }

  lemma RotateInverse32By7(x: u32)
    ensures Rotr32(Rotl32(x, 7), 7) == x && Rotl32(Rotr32(x, 7), 7) == x
  {
  }

  lemma RotateInverse32By11(x: u32)
    ensures Rotr32(Rotl32(x, 11), 11) == x && Rotl32(Rotr32(x, 11), 11) == x
  {
  }

  lemma RotateInverse32By12(x: u32)
    ensures Rotr32(Rotl32(x, 12), 12) == x && Rotl32(Rotr32(x, 12), 12) == x
  {
  }

  lemma RotateInverse32By13(x: u32)
    ensures Rotr32(Rotl32(x, 13), 13) == x && Rotl32(Rotr32(x, 13), 13) == x
  {
  }

  lemma RotateInverse32By17(x: u32)
    ensures Rotr32(Rotl32(x, 17), 17) == x && Rotl32(Rotr32(x, 17), 17) == x
  {
  }

  lemma RotateInverse32By18(x: u32)
    ensures Rotr32(Rotl32(x, 18), 18) == x && Rotl32(Rotr32(x, 18), 18) == x
  {
  }

  /** The rotations of the hash. */
  predicate Rotation32(r: u32) {
    r == 1 || r == 7 || r == 11 || r == 12 || r == 13 || r == 17 || r == 18
  }

  lemma RotateInverse32(x: u32, r: u32)
    requires Rotation32(r)
    ensures Rotr32(Rotl32(x, r), r) == x && Rotl32(Rotr32(x, r), r) == x
  {
    hide Rotl32, Rotr32;
    RotateInverse32By1(x);
    RotateInverse32By7(x);
    RotateInverse32By11(x);
    RotateInverse32By12(x);
    RotateInverse32By13(x);
    RotateInverse32By17(x);
    RotateInverse32By18(x);
  }

  lemma RotateEquation32(v: u32, r: u32, x: u32)
    requires Rotation32(r)
    ensures Rotl32(v, r) == x <==> v == Rotr32(x, r)
  {
    hide Rotl32, Rotr32;
    RotateInverse32(v, r);
    RotateInverse32(x, r);
  }

  function TimesPrime1(x: u32): u32 { x * 2654435761 }

  function OverPrime1(x: u32): u32 { x * 244002641 }

  function TimesPrime2(x: u32): u32 { x * 2246822519 }

  function OverPrime2(x: u32): u32 { x * 3066638151 }

  function TimesPrime3(x: u32): u32 { x * 3266489917 }

  function OverPrime3(x: u32): u32 { x * 2828982549 }

  function TimesPrime4(x: u32): u32 { x * 668265263 }

  function OverPrime4(x: u32): u32 { x * 2701016015 }

  function TimesPrime5(x: u32): u32 { x * 374761393 }

  function OverPrime5(x: u32): u32 { x * 2923004241 }

  lemma OverOfTimes1(x: u32)
    ensures OverPrime1(x * 2654435761) == x && TimesPrime1(x * 244002641) == x
  {
  }

  lemma TimesInverse1(x: u32)
    ensures OverPrime1(TimesPrime1(x)) == x && TimesPrime1(OverPrime1(x)) == x
  {
    OverOfTimes1(x);
  }

  lemma TimesEquation1(v: u32, x: u32)
    ensures TimesPrime1(v) == x <==> v == OverPrime1(x)
  {
    hide TimesPrime1, OverPrime1;
    TimesInverse1(v);
    TimesInverse1(x);
  }

  lemma OverOfTimes2(x: u32)
    ensures OverPrime2(x * 2246822519) == x && TimesPrime2(x * 3066638151) == x
  {
  }

  lemma TimesInverse2(x: u32)
    ensures OverPrime2(TimesPrime2(x)) == x && TimesPrime2(OverPrime2(x)) == x
  {
    OverOfTimes2(x);
  }

  lemma TimesEquation2(v: u32, x: u32)
    ensures TimesPrime2(v) == x <==> v == OverPrime2(x)
  {
    hide TimesPrime2, OverPrime2;
    TimesInverse2(v);
    TimesInverse2(x);
  }

  lemma OverOfTimes3(x: u32)
    ensures OverPrime3(x * 3266489917) == x && TimesPrime3(x * 2828982549) == x
  {
  }

  lemma TimesInverse3(x: u32)
    ensures OverPrime3(TimesPrime3(x)) == x && TimesPrime3(OverPrime3(x)) == x
  {
    OverOfTimes3(x);
  }

  lemma TimesEquation3(v: u32, x: u32)
    ensures TimesPrime3(v) == x <==> v == OverPrime3(x)
  {
    hide TimesPrime3, OverPrime3;
    TimesInverse3(v);
    TimesInverse3(x);
  }

  lemma OverOfTimes4(x: u32)
    ensures OverPrime4(x * 668265263) == x && TimesPrime4(x * 2701016015) == x
  {
  }

  lemma TimesInverse4(x: u32)
    ensures OverPrime4(TimesPrime4(x)) == x && TimesPrime4(OverPrime4(x)) == x
  {
    OverOfTimes4(x);
  }

  lemma TimesEquation4(v: u32, x: u32)
    ensures TimesPrime4(v) == x <==> v == OverPrime4(x)
  {
    hide TimesPrime4, OverPrime4;
    TimesInverse4(v);
    TimesInverse4(x);
  }

  lemma OverOfTimes5(x: u32)
    ensures OverPrime5(x * 374761393) == x && TimesPrime5(x * 2923004241) == x
  {
  }

  lemma TimesInverse5(x: u32)
    ensures OverPrime5(TimesPrime5(x)) == x && TimesPrime5(OverPrime5(x)) == x
  {
    OverOfTimes5(x);
  }

  lemma TimesEquation5(v: u32, x: u32)
    ensures TimesPrime5(v) == x <==> v == OverPrime5(x)
  {
    hide TimesPrime5, OverPrime5;
    TimesInverse5(v);
    TimesInverse5(x);
  }

  /** The constants: the multipliers above. */
  const PRIME32_1: u32 := TimesPrime1(1)
  const PRIME32_2: u32 := TimesPrime2(1)
  const PRIME32_3: u32 := TimesPrime3(1)
  const PRIME32_4: u32 := TimesPrime4(1)
  const PRIME32_5: u32 := TimesPrime5(1)

  lemma PrimeProducts()
    ensures PRIME32_1 == 2654435761
    ensures PRIME32_2 == 2246822519
    ensures PRIME32_3 == 3266489917
    ensures PRIME32_4 == 668265263
    ensures PRIME32_5 == 374761393
  {
  }

  function XorShift13(x: u32): u32 { x ^ (x >> 13) }

  function UnXorShift13(x: u32): u32 { x ^ (x >> 13) ^ (x >> 26) }

  lemma UnOfXorShift13(x: u32)
    ensures UnXorShift13(x ^ (x >> 13)) == x
  {
  }

  lemma XorShiftOfUn13(x: u32)
    ensures XorShift13(x ^ (x >> 13) ^ (x >> 26)) == x
  {
  }

  lemma XorShiftInverse13(x: u32)
    ensures UnXorShift13(XorShift13(x)) == x && XorShift13(UnXorShift13(x)) == x
  {
    UnOfXorShift13(x);
    XorShiftOfUn13(x);
  }

  lemma XorShiftEquation13(v: u32, x: u32)
    ensures XorShift13(v) == x <==> v == UnXorShift13(x)
  {
    hide XorShift13, UnXorShift13;
    XorShiftInverse13(v);
    XorShiftInverse13(x);
  }

  function XorShift15(x: u32): u32 { x ^ (x >> 15) }

  function UnXorShift15(x: u32): u32 { x ^ (x >> 15) ^ (x >> 30) }

  lemma UnOfXorShift15(x: u32)
    ensures UnXorShift15(x ^ (x >> 15)) == x
  {
  }

  lemma XorShiftOfUn15(x: u32)
    ensures XorShift15(x ^ (x >> 15) ^ (x >> 30)) == x
  {
  }

  lemma XorShiftInverse15(x: u32)
    ensures UnXorShift15(XorShift15(x)) == x && XorShift15(UnXorShift15(x)) == x
  {
    UnOfXorShift15(x);
    XorShiftOfUn15(x);
  }

  lemma XorShiftEquation15(v: u32, x: u32)
    ensures XorShift15(v) == x <==> v == UnXorShift15(x)
  {
    hide XorShift15, UnXorShift15;
    XorShiftInverse15(v);
    XorShiftInverse15(x);
  }

  function XorShift16(x: u32): u32 { x ^ (x >> 16) }

  function UnXorShift16(x: u32): u32 { x ^ (x >> 16) }

  lemma UnOfXorShift16(x: u32)
    ensures UnXorShift16(x ^ (x >> 16)) == x
  {
  }

  lemma XorShiftOfUn16(x: u32)
    ensures XorShift16(x ^ (x >> 16)) == x
  {
  }

  lemma XorShiftInverse16(x: u32)
    ensures UnXorShift16(XorShift16(x)) == x && XorShift16(UnXorShift16(x)) == x
  {
    UnOfXorShift16(x);
    XorShiftOfUn16(x);
  }

  lemma XorShiftEquation16(v: u32, x: u32)
    ensures XorShift16(v) == x <==> v == UnXorShift16(x)
  {
    hide XorShift16, UnXorShift16;
    XorShiftInverse16(v);
    XorShiftInverse16(x);
  }
}
