/**
 The 64-bit counter of the streaming state: at which lengths a digest is the
 hash of all bytes fed, and a stripe that brings the lanes to given values.
 */
module Xxh64Counter {
  import opened Words
  import opened Xxh64
  import opened Xxh64Bijection
  import opened Xxh64Stream

  /**
   Exactly when a streaming digest is the hash of the bytes fed: unless the
   64-bit counter has wrapped to a value below 32, and then only if the two
   start values happen to be equal.
   */
  lemma DigestAgreement(seed: u64, fed: seq<byte>)
    ensures DigestValue(seed, fed) == Hash(seed, fed) <==>
      || |fed| < 32
      || |fed| % TWO_64 >= 32
      || Converge(LanesAt(seed, fed, Whole32(|fed|))) == ShortStart(LanesAt(seed, fed, Whole32(|fed|)).v3)
  {
    DigestIsHash(seed, fed);
    hide LanesAt, Finish, UnFinish, Converge, ShortStart;
    var x := Hash(seed, fed);
    FinishInverse(Start(seed, fed), fed, x);
    FinishInverse(ShortStart(LanesAt(seed, fed, Whole32(|fed|)).v3), fed, x);
  }

  // ---- any lanes can be reached in one stripe ----

  /** The stripe that takes the lanes `l` to `m`. */
  function StripeBetween(l: Lanes, m: Lanes): (stripe: seq<byte>)
    ensures |stripe| == 32
  {
    Bytes64(RoundInput(l.v1, m.v1)) + Bytes64(RoundInput(l.v2, m.v2)) +
    Bytes64(RoundInput(l.v3, m.v3)) + Bytes64(RoundInput(l.v4, m.v4))
  }

  /** A word stored behind `s` is read back there, whatever follows it. */
  lemma WordBehind(s: seq<byte>, w: u64, t: seq<byte>)
    ensures Le64At(s + Bytes64(w) + t, |s|) == w
  {
    hide Bytes64, Le64At;
    var b := Bytes64(w);
    SameWord64(s + b + t, |s|, b, 0);
    Le64OfBytes(w);
  }

  lemma FourWords(w1: u64, w2: u64, w3: u64, w4: u64)
    ensures var s := Bytes64(w1) + Bytes64(w2) + Bytes64(w3) + Bytes64(w4);
      Le64At(s, 0) == w1 && Le64At(s, 8) == w2 && Le64At(s, 16) == w3 && Le64At(s, 24) == w4
  {
    hide Bytes64, Le64At;
    var a, b, c, d := Bytes64(w1), Bytes64(w2), Bytes64(w3), Bytes64(w4);
    WordBehind([], w1, b + c + d);
    WordBehind(a, w2, c + d);
    WordBehind(a + b, w3, d);
    WordBehind(a + b + c, w4, []);
    assert [] + a + (b + c + d) == a + b + c + d;
    assert a + b + (c + d) == a + b + c + d;
    assert a + b + c + d + [] == a + b + c + d;
  }

  lemma StripeReaches(l: Lanes, m: Lanes)
    ensures NextLanes(l, StripeBetween(l, m)) == m
  {
    hide Bytes64, Le64At, Round, RoundInput;
    FourWords(RoundInput(l.v1, m.v1), RoundInput(l.v2, m.v2), RoundInput(l.v3, m.v3), RoundInput(l.v4, m.v4));
    RoundInverse(l.v1, RoundInput(l.v1, m.v1), m.v1);
    RoundInverse(l.v2, RoundInput(l.v2, m.v2), m.v2);
    RoundInverse(l.v3, RoundInput(l.v3, m.v3), m.v3);
    RoundInverse(l.v4, RoundInput(l.v4, m.v4), m.v4);
  }

  // ---- lanes for which the two start values differ ----

  lemma ZeroLanesDiffer()
    ensures Converge(Lanes(0, 0, 0, 0)) != ShortStart(0)
  {
  }

  /** At these lengths the counter misleads the digest for some input. */
  lemma Disagree(seed: u64, n: nat) returns (fed: seq<byte>)
    requires n >= 32 && n % TWO_64 < 32
    ensures |fed| == n && DigestValue(seed, fed) != Hash(seed, fed)
  {
    hide LanesAt, NextLanes, Converge, ShortStart, StripeBetween, DigestValue, Hash, Whole32;
    var m, zero := Whole32(n) - 1, Lanes(0, 0, 0, 0);
    var s: seq<byte> := seq(32 * m, _ => 0);
    var stripe := StripeBetween(LanesAt(seed, s, m), zero);
    var t: seq<byte> := seq(n - 32 * (m + 1), _ => 0);
    fed := s + stripe + t;
    LanesOfPrefix(seed, s, stripe, m);
    OneStripe(seed, s + stripe, m, stripe);
    StripeReaches(LanesAt(seed, s, m), zero);
    LanesOfPrefix(seed, s + stripe, t, m + 1);
    ZeroLanesDiffer();
    DigestAgreement(seed, fed);
  }

  /** Digests are hashes for all inputs of one length exactly when that length does not mislead the counter. */
  lemma AgreementOfLength(seed: u64, n: nat)
    ensures (forall fed: seq<byte> :: |fed| == n ==> DigestValue(seed, fed) == Hash(seed, fed)) <==>
      n < 32 || n % TWO_64 >= 32
  {
    hide DigestValue, Hash;
    if n < 32 || n % TWO_64 >= 32 {
      forall fed: seq<byte> | |fed| == n
        ensures DigestValue(seed, fed) == Hash(seed, fed)
      {
        DigestIsHash(seed, fed);
      }
    } else {
      var fed := Disagree(seed, n);
    }
  }
}
