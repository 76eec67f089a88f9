/**
 Lengths as words: the conversions of xxhash.c keep the lowest binary digits, and
 take sums to sums.
 */
module Lengths {
  import opened Words
  import opened Arith32
  import opened Arith64

  lemma Halves(n: nat)
    ensures if n % 2 == 1 then (n + 1) / 2 == n / 2 + 1 && (n + 1) % 2 == 0
            else (n + 1) / 2 == n / 2 && (n + 1) % 2 == 1
  {
  }

  /** The conversion `(U32)len`: the 32 lowest binary digits. */
  function Low32(n: nat): u32 {
    if n == 0 then 0 else WithDigit32(Low32(n / 2), n % 2 == 1)
  }

  function WithDigit32(x: u32, one: bool): u32 {
    (x << 1) | if one then 1 else 0
  }

  lemma Low32Start()
    ensures Low32(0) == 0 && Low32(1) == 1
  {
  }

  lemma NextDigit32(x: u32)
    ensures Add32(WithDigit32(x, false), 1) == WithDigit32(x, true)
    ensures Add32(WithDigit32(x, true), 1) == WithDigit32(Add32(x, 1), false)
    ensures WithDigit32(0, false) == 0
  {
  }

  lemma {:induction false} Low32Next(n: nat)
    ensures Low32(n + 1) == Add32(Low32(n), 1)
  {
    hide WithDigit32, Add32;
    NextDigit32(Low32(n / 2));
    NextDigit32(0);
    Halves(n);
    if n % 2 == 1 {
      Low32Next(n / 2);
    }
  }

  /** The conversion of a sum is the sum of the words, which wraps. */
  lemma {:induction false} Low32Sum(m: nat, n: nat)
    ensures Low32(m + n) == Add32(Low32(m), Low32(n))
  {
    hide Low32, Add32;
    AddZero32(Low32(m));
    Low32Start();
    if n > 0 {
      Low32Sum(m, n - 1);
      Low32Next(m + n - 1);
      Low32Next(n - 1);
      AddAssociative32(Low32(m), Low32(n - 1), 1);
    }
  }

  lemma EightZeros32(x: u32)
    ensures var y := WithDigit32(WithDigit32(WithDigit32(WithDigit32(x, false), false), false), false);
      WithDigit32(WithDigit32(WithDigit32(WithDigit32(y, false), false), false), false) == x << 8
  {
  }

  lemma Low32Byte(n: nat, x: u32)
    requires Low32(n) == x
    ensures Low32(256 * n) == x << 8
  {
    hide Low32, WithDigit32;
    Twice32(n);
    Twice32(2 * n);
    Twice32(4 * n);
    Twice32(8 * n);
    Twice32(16 * n);
    Twice32(32 * n);
    Twice32(64 * n);
    Twice32(128 * n);
    EightZeros32(x);
  }

  lemma Twice32(n: nat)
    ensures Low32(2 * n) == WithDigit32(Low32(n), false)
  {
    hide WithDigit32;
    NextDigit32(0);
  }

  /** The digits of 2^32 are lost. */
  lemma Low32OfModulus()
    ensures Low32(TWO_32) == 0
  {
    Low32Byte(1, 1);
    Low32Byte(0x100, 0x100);
    Low32Byte(0x10000, 0x10000);
    Low32Byte(0x1000000, 0x1000000);
  }

  lemma {:induction false} Low32Multiple(q: nat)
    ensures Low32(TWO_32 * q) == 0
  {
    hide Low32, Add32;
    Low32Start();
    if q > 0 {
      Low32Multiple(q - 1);
      Low32OfModulus();
      Low32Sum(TWO_32 * (q - 1), TWO_32);
      AddZero32(0);
    }
  }

  lemma Low32Wraps(n: nat)
    ensures Low32(n % TWO_32) == Low32(n)
  {
    hide Low32, Add32;
    var q := n / TWO_32;
    Low32Multiple(q);
    Low32Sum(n % TWO_32, TWO_32 * q);
    AddZero32(Low32(n % TWO_32));
  }

  /** The conversion `(U64)len`: the 64 lowest. */
  function Low64(n: nat): u64 {
    if n == 0 then 0 else WithDigit64(Low64(n / 2), n % 2 == 1)
  }

  function WithDigit64(x: u64, one: bool): u64 {
    (x << 1) | if one then 1 else 0
  }

  lemma Low64Start()
    ensures Low64(0) == 0 && Low64(1) == 1
  {
  }

  lemma NextDigit64(x: u64)
    ensures Add64(WithDigit64(x, false), 1) == WithDigit64(x, true)
    ensures Add64(WithDigit64(x, true), 1) == WithDigit64(Add64(x, 1), false)
    ensures WithDigit64(0, false) == 0
  {
  }

  lemma {:induction false} Low64Next(n: nat)
    ensures Low64(n + 1) == Add64(Low64(n), 1)
  {
    hide WithDigit64, Add64;
    NextDigit64(Low64(n / 2));
    NextDigit64(0);
    Halves(n);
    if n % 2 == 1 {
      Low64Next(n / 2);
    }
  }

  lemma {:induction false} Low64Sum(m: nat, n: nat)
    ensures Low64(m + n) == Add64(Low64(m), Low64(n))
  {
    hide Low64, Add64;
    AddZero64(Low64(m));
    Low64Start();
    if n > 0 {
      Low64Sum(m, n - 1);
      Low64Next(m + n - 1);
      Low64Next(n - 1);
      AddAssociative64(Low64(m), Low64(n - 1), 1);
    }
  }

  lemma EightZeros64(x: u64)
    ensures var y := WithDigit64(WithDigit64(WithDigit64(WithDigit64(x, false), false), false), false);
      WithDigit64(WithDigit64(WithDigit64(WithDigit64(y, false), false), false), false) == x << 8
  {
  }

  lemma Low64Byte(n: nat, x: u64)
    requires Low64(n) == x
    ensures Low64(256 * n) == x << 8
  {
    hide Low64, WithDigit64;
    Twice64(n);
    Twice64(2 * n);
    Twice64(4 * n);
    Twice64(8 * n);
    Twice64(16 * n);
    Twice64(32 * n);
    Twice64(64 * n);
    Twice64(128 * n);
    EightZeros64(x);
  }

  lemma Twice64(n: nat)
    ensures Low64(2 * n) == WithDigit64(Low64(n), false)
  {
    hide WithDigit64;
    NextDigit64(0);
  }

  /** The digits of 2^64 are lost. */
  lemma Low64OfModulus()
    ensures Low64(TWO_64) == 0
  {
    Low64Byte(1, 1);
    Low64Byte(0x100, 0x100);
    Low64Byte(0x10000, 0x10000);
    Low64Byte(0x1000000, 0x1000000);
    Low64Byte(0x100000000, 0x100000000);
    Low64Byte(0x10000000000, 0x10000000000);
    Low64Byte(0x1000000000000, 0x1000000000000);
    Low64Byte(0x100000000000000, 0x100000000000000);
  }

  lemma {:induction false} Low64Multiple(q: nat)
    ensures Low64(TWO_64 * q) == 0
  {
    hide Low64, Add64;
    Low64Start();
    if q > 0 {
      Low64Multiple(q - 1);
      Low64OfModulus();
      Low64Sum(TWO_64 * (q - 1), TWO_64);
      AddZero64(0);
    }
  }

  lemma Low64Wraps(n: nat)
    ensures Low64(n % TWO_64) == Low64(n)
  {
    hide Low64, Add64;
    var q := n / TWO_64;
    Low64Multiple(q);
    Low64Sum(n % TWO_64, TWO_64 * q);
    AddZero64(Low64(n % TWO_64));
  }
}
