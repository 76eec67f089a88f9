/** Inputs cut into segments, inputs that differ in one place, and the return codes. */
module Inputs {
  import opened Words

  datatype ErrorCode = XXH_OK | XXH_ERROR

  function Flatten(segments: seq<seq<byte>>): seq<byte> {
    if segments == [] then [] else Flatten(segments[..|segments| - 1]) + segments[|segments| - 1]
  }

  lemma FlattenOneMore(segments: seq<seq<byte>>, k: nat)
    requires k < |segments|
    ensures Flatten(segments[..k + 1]) == Flatten(segments[..k]) + segments[k]
  {
    assert segments[..k + 1][..k] == segments[..k];
  }

  /** The characters of a `std::string` are bytes. */
  function BytesOf(s: string): (b: seq<byte>)
    ensures |b| == |s|
    ensures forall i :: 0 <= i < |s| ==> b[i] == ByteOf(s[i])
  {
    seq(|s|, i requires 0 <= i < |s| => ByteOf(s[i]))
  }

  function ByteOf(c: char): byte {
    (c as int % 256) as byte
  }

  lemma ByteIsCode(c: char)
    requires c as int < 256
    ensures ByteOf(c) as int == c as int
  {
    assert c as int % 256 == c as int;
  }

  function Zeros(n: nat): (s: seq<byte>)
    ensures |s| == n
    ensures forall i :: 0 <= i < n ==> s[i] == 0
  {
    seq(n, _ => 0)
  }

  /** A range that begins in one segment and ends in the next. */
  lemma CutAcross(s: seq<byte>, t: seq<byte>, a: nat, b: nat)
    requires a <= |s| <= b <= |s| + |t|
    ensures (s + t)[a..b] == s[a..] + t[..b - |s|]
  {
  }

  /** `s` with `w` in the place of the bytes from `p` on. */
  function Put(s: seq<byte>, p: nat, w: seq<byte>): (r: seq<byte>)
    requires p + |w| <= |s|
    ensures |r| == |s|
  {
    s[..p] + w + s[p + |w|..]
  }

  lemma PutReads(s: seq<byte>, p: nat, w: seq<byte>)
    requires p + |w| <= |s|
    ensures forall k {:trigger w[k]} :: 0 <= k < |w| ==> Put(s, p, w)[p + k] == w[k]
    ensures DifferOnlyIn(s, Put(s, p, w), p, p + |w|)
  {
  }

  /** Equal-length inputs that agree outside `a..b`. */
  ghost predicate DifferOnlyIn(s: seq<byte>, t: seq<byte>, a: nat, b: nat) {
    |s| == |t| && forall i :: 0 <= i < |s| && !(a <= i < b) ==> s[i] == t[i]
  }

  lemma SameLength(s: seq<byte>, t: seq<byte>, a: nat, b: nat)
    requires DifferOnlyIn(s, t, a, b)
    ensures |s| == |t|
  {
  }

  lemma SameWord32Apart(s: seq<byte>, t: seq<byte>, a: nat, b: nat, p: nat)
    requires DifferOnlyIn(s, t, a, b) && (p + 4 <= a || b <= p) && p + 4 <= |s|
    ensures Le32At(s, p) == Le32At(t, p)
  {
    SameWord32(s, p, t, p);
  }

  lemma SameWord64Apart(s: seq<byte>, t: seq<byte>, a: nat, b: nat, p: nat)
    requires DifferOnlyIn(s, t, a, b) && (p + 8 <= a || b <= p) && p + 8 <= |s|
    ensures Le64At(s, p) == Le64At(t, p)
  {
    SameWord64(s, p, t, p);
  }
}
