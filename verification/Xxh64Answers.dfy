/**
 XXH64 of some inputs, worked out step by step: they take every branch of the
 algorithm, and name the hash in figures.
 */
module Xxh64Answers {
  import opened Words
  import opened Inputs
  import opened Lengths
  import opened Xxh64

  /** The convergence alone, of four small lanes. */
  lemma SmallLanes()
    ensures Converge(Lanes(1, 2, 3, 4)) == 14687469346806120848
  {
  }

  lemma NothingEnd()
    ensures ShortStart(0) == 0x27d4eb2f165667c5
    ensures AddLength(0x27d4eb2f165667c5, 0) == 0x27d4eb2f165667c5
    ensures Avalanche(0x27d4eb2f165667c5) == 0xef46db3751d8e999
  {
  }

  /** No input at all. */
  lemma Nothing()
    ensures Hash(0, []) == 0xef46db3751d8e999
  {
    hide Round, InitLanes, Converge, ShortStart, AddLength, LongStep, WordStep, ByteStep, Avalanche, Le32At, Le64At;
    NothingEnd();
  }

  lemma ThreeBytesEnd()
    ensures ShortStart(0) == 0x27d4eb2f165667c5
    ensures AddLength(0x27d4eb2f165667c5, 3) == 0x27d4eb2f165667c8
    ensures ByteStep(0x27d4eb2f165667c8, 0x61) == 0x0e6d11bdc91f0215
    ensures ByteStep(0x0e6d11bdc91f0215, 0x62) == 0x791983e9ab307069
    ensures ByteStep(0x791983e9ab307069, 0x63) == 0xe87a46f8b9a4c39e
    ensures Avalanche(0xe87a46f8b9a4c39e) == 0x44bc2cf5ad770999
  {
  }

  /** `abc`: three bytes. */
  lemma ThreeBytes()
    ensures Hash(0, [0x61, 0x62, 0x63]) == 0x44bc2cf5ad770999
  {
    hide Round, InitLanes, Converge, ShortStart, AddLength, LongStep, WordStep, ByteStep, Avalanche, Le32At, Le64At;
    var s: seq<byte> := [0x61, 0x62, 0x63];
    ThreeBytesEnd();
    assert ByteTail(0x27d4eb2f165667c8, s, 0, 1) == 0x0e6d11bdc91f0215;
    assert ByteTail(0x27d4eb2f165667c8, s, 0, 2) == 0x791983e9ab307069;
    assert ByteTail(0x27d4eb2f165667c8, s, 0, 3) == 0xe87a46f8b9a4c39e;
  }

  lemma GameModeTextWords()
    ensures LongStep(0x27d4eb2f165667dc, 0x676e69747465732f) == 0x86ece718f2d42727
    ensures LongStep(0x86ece718f2d42727, 0x6f6d656d61672f73) == 0xf84f4c074102a5e6
    ensures WordStep(0xf84f4c074102a5e6, 0x65746564) == 0xd7630d61a13a0397
  {
  }

  lemma GameModeTextEnd()
    ensures ShortStart(1) == 0x27d4eb2f165667c6
    ensures AddLength(0x27d4eb2f165667c6, 22) == 0x27d4eb2f165667dc
    ensures ByteStep(0xd7630d61a13a0397, 0x78) == 0x201145dd75ed07c3
    ensures ByteStep(0x201145dd75ed07c3, 0x74) == 0xa3f4c2884cd36135
    ensures Avalanche(0xa3f4c2884cd36135) == 0x0abd6b044671482a
  {
    assert Low64(2) == 2;
    assert Low64(5) == 5;
    assert Low64(11) == 11;
    assert Low64(22) == 22;
  }

  lemma GameModeTextFrom(s: seq<byte>)
    requires |s| == 22
    requires Le64At(s, 0) == 0x676e69747465732f
    requires Le64At(s, 8) == 0x6f6d656d61672f73
    requires Le32At(s, 16) == 0x65746564
    requires s[20] == 0x78
    requires s[21] == 0x74
    ensures Hash(1, s) == 0x0abd6b044671482a
  {
    hide Round, InitLanes, Converge, ShortStart, AddLength, LongStep, WordStep, ByteStep, Avalanche, Le32At, Le64At;
    GameModeTextWords();
    GameModeTextEnd();
    assert LongTail(0x27d4eb2f165667dc, s, 0, 1) == 0x86ece718f2d42727;
    assert LongTail(0x27d4eb2f165667dc, s, 0, 2) == 0xf84f4c074102a5e6;
    assert WordTail(0xf84f4c074102a5e6, s) == 0xd7630d61a13a0397;
    assert ByteTail(0xd7630d61a13a0397, s, 20, 21) == 0x201145dd75ed07c3;
    assert ByteTail(0xd7630d61a13a0397, s, 20, 22) == 0xa3f4c2884cd36135;
  }

  const GAME_MODE_TEXT: seq<byte> :=
    [0x2f, 0x73, 0x65, 0x74, 0x74, 0x69, 0x6e, 0x67, 0x73, 0x2f, 0x67, 0x61, 0x6d, 0x65, 0x6d, 0x6f, 0x64, 0x65,
     0x74, 0x65, 0x78, 0x74]

  lemma GameModeTextRead1()
    ensures var s := GAME_MODE_TEXT;
      && Le64At(s, 0) == 0x676e69747465732f
      && Le64At(s, 8) == 0x6f6d656d61672f73
      && Le32At(s, 16) == 0x65746564
      && s[20] == 0x78
  {
  }

  lemma GameModeTextRead2()
    ensures var s := GAME_MODE_TEXT;
      && s[21] == 0x74
  {
  }

  /** `/settings/gamemodetext`, seed 1: two 8-byte words, a 4-byte word and two bytes. */
  lemma GameModeText()
    ensures Hash(1, GAME_MODE_TEXT) == 0x0abd6b044671482a
  {
    hide Hash, Le64At, Le32At;
    GameModeTextRead1();
    GameModeTextRead2();
    GameModeTextFrom(GAME_MODE_TEXT);
  }

  lemma OneStripeStripe()
    ensures InitLanes(0) == Lanes(0x60ea27eeadc0b5d6, 0xc2b2ae3d27d4eb4f, 0x0000000000000000, 0x61c8864e7a143579)
    ensures Round(0x60ea27eeadc0b5d6, 0x0000000000000000) == 0x119361e2963b6d41
    ensures Round(0xc2b2ae3d27d4eb4f, 0x0000000000000000) == 0x7f0e345be3649cd2
    ensures Round(0x0000000000000000, 0x0000000000000000) == 0x0000000000000000
    ensures Round(0x61c8864e7a143579, 0x0000000000000000) == 0x6d7ad2794d292f91
  {
  }

  lemma OneStripeLanes()
    ensures Converge(Lanes(0x119361e2963b6d41, 0x7f0e345be3649cd2, 0x0000000000000000, 0x6d7ad2794d292f91)) ==
      0xcbbfd1653baacd51
  {
  }

  lemma OneStripeEnd()
    ensures AddLength(0xcbbfd1653baacd51, 32) == 0xcbbfd1653baacd71
    ensures Avalanche(0xcbbfd1653baacd71) == 0xf6e9be5d70632cf5
  {
    assert Low64(2) == 2;
    assert Low64(4) == 4;
    assert Low64(8) == 8;
    assert Low64(16) == 16;
    assert Low64(32) == 32;
  }

  lemma OneStripeFrom(s: seq<byte>)
    requires |s| == 32
    requires Le64At(s, 0) == 0x0000000000000000
    requires Le64At(s, 8) == 0x0000000000000000
    requires Le64At(s, 16) == 0x0000000000000000
    requires Le64At(s, 24) == 0x0000000000000000
    ensures Hash(0, s) == 0xf6e9be5d70632cf5
  {
    hide Round, InitLanes, Converge, ShortStart, AddLength, LongStep, WordStep, ByteStep, Avalanche, Le32At, Le64At;
    OneStripeStripe();
    OneStripeLanes();
    OneStripeEnd();
    assert LaneFold(0x60ea27eeadc0b5d6, s, 0, 0, 1) == 0x119361e2963b6d41;
    assert LaneFold(0xc2b2ae3d27d4eb4f, s, 1, 0, 1) == 0x7f0e345be3649cd2;
    assert LaneFold(0x0000000000000000, s, 2, 0, 1) == 0x0000000000000000;
    assert LaneFold(0x61c8864e7a143579, s, 3, 0, 1) == 0x6d7ad2794d292f91;
    assert Start(0, s) == 0xcbbfd1653baacd51;
  }

  /** 32 zero bytes: one stripe. */
  lemma OneStripe()
    ensures Hash(0, Zeros(32)) == 0xf6e9be5d70632cf5
  {
    hide Hash;
    OneStripeFrom(Zeros(32));
  }

  lemma TwoStripesStripe1()
    ensures InitLanes(0) == Lanes(0x60ea27eeadc0b5d6, 0xc2b2ae3d27d4eb4f, 0x0000000000000000, 0x61c8864e7a143579)
    ensures Round(0x60ea27eeadc0b5d6, 0x0000000000000000) == 0x119361e2963b6d41
    ensures Round(0xc2b2ae3d27d4eb4f, 0x0000000000000000) == 0x7f0e345be3649cd2
    ensures Round(0x0000000000000000, 0x0000000000000000) == 0x0000000000000000
    ensures Round(0x61c8864e7a143579, 0x0000000000000000) == 0x6d7ad2794d292f91
  {
  }

  lemma TwoStripesStripe2()
    ensures Round(0x119361e2963b6d41, 0x0000000000000000) == 0xc510944aea357917
    ensures Round(0x7f0e345be3649cd2, 0x0000000000000000) == 0xfcf8455c83354fbb
    ensures Round(0x0000000000000000, 0x0000000000000000) == 0x0000000000000000
    ensures Round(0x6d7ad2794d292f91, 0x0000000000000000) == 0x37e7b11198ffd6a4
  {
  }

  lemma TwoStripesLanes()
    ensures Converge(Lanes(0xc510944aea357917, 0xfcf8455c83354fbb, 0x0000000000000000, 0x37e7b11198ffd6a4)) ==
      0x6b5691d4c6241b7e
  {
  }

  lemma TwoStripesEnd()
    ensures AddLength(0x6b5691d4c6241b7e, 64) == 0x6b5691d4c6241bbe
    ensures Avalanche(0x6b5691d4c6241bbe) == 0x257b09a147b82a19
  {
    assert Low64(2) == 2;
    assert Low64(4) == 4;
    assert Low64(8) == 8;
    assert Low64(16) == 16;
    assert Low64(32) == 32;
    assert Low64(64) == 64;
  }

  lemma TwoStripesFrom(s: seq<byte>)
    requires |s| == 64
    requires Le64At(s, 0) == 0x0000000000000000
    requires Le64At(s, 8) == 0x0000000000000000
    requires Le64At(s, 16) == 0x0000000000000000
    requires Le64At(s, 24) == 0x0000000000000000
    requires Le64At(s, 32) == 0x0000000000000000
    requires Le64At(s, 40) == 0x0000000000000000
    requires Le64At(s, 48) == 0x0000000000000000
    requires Le64At(s, 56) == 0x0000000000000000
    ensures Hash(0, s) == 0x257b09a147b82a19
  {
    hide Round, InitLanes, Converge, ShortStart, AddLength, LongStep, WordStep, ByteStep, Avalanche, Le32At, Le64At;
    TwoStripesStripe1();
    TwoStripesStripe2();
    TwoStripesLanes();
    TwoStripesEnd();
    assert LaneFold(0x60ea27eeadc0b5d6, s, 0, 0, 1) == 0x119361e2963b6d41;
    assert LaneFold(0xc2b2ae3d27d4eb4f, s, 1, 0, 1) == 0x7f0e345be3649cd2;
    assert LaneFold(0x0000000000000000, s, 2, 0, 1) == 0x0000000000000000;
    assert LaneFold(0x61c8864e7a143579, s, 3, 0, 1) == 0x6d7ad2794d292f91;
    assert LaneFold(0x60ea27eeadc0b5d6, s, 0, 0, 2) == 0xc510944aea357917;
    assert LaneFold(0xc2b2ae3d27d4eb4f, s, 1, 0, 2) == 0xfcf8455c83354fbb;
    assert LaneFold(0x0000000000000000, s, 2, 0, 2) == 0x0000000000000000;
    assert LaneFold(0x61c8864e7a143579, s, 3, 0, 2) == 0x37e7b11198ffd6a4;
    assert Start(0, s) == 0x6b5691d4c6241b7e;
  }

  /** 64 zero bytes: two stripes. */
  lemma TwoStripes()
    ensures Hash(0, Zeros(64)) == 0x257b09a147b82a19
  {
    hide Hash;
    TwoStripesFrom(Zeros(64));
  }

  lemma LongPathStripe()
    ensures InitLanes(1) == Lanes(0x60ea27eeadc0b5d7, 0xc2b2ae3d27d4eb50, 0x0000000000000001, 0x61c8864e7a14357a)
    ensures Round(0x60ea27eeadc0b5d7, 0x676e69747465732f) == 0x8a920451a8b0af2b
    ensures Round(0xc2b2ae3d27d4eb50, 0x6f6d656d61672f73) == 0x8310d1b45cf82232
    ensures Round(0x0000000000000001, 0x302f747865746564) == 0xffa4faffa51c66cf
    ensures Round(0x61c8864e7a14357a, 0x3837363534333231) == 0xd46b958af00d3b42
  {
  }

  lemma LongPathLanes()
    ensures Converge(Lanes(0x8a920451a8b0af2b, 0x8310d1b45cf82232, 0xffa4faffa51c66cf, 0xd46b958af00d3b42)) ==
      0xa9a0da9b94a7651a
  {
  }

  lemma LongPathEnd()
    ensures AddLength(0xa9a0da9b94a7651a, 39) == 0xa9a0da9b94a76541
    ensures WordStep(0xa9a0da9b94a76541, 0x63626139) == 0x10531afc9060a88f
    ensures ByteStep(0x10531afc9060a88f, 0x64) == 0xdc2b0f4dd6d0965d
    ensures ByteStep(0xdc2b0f4dd6d0965d, 0x65) == 0xb1d39b8233aaddef
    ensures ByteStep(0xb1d39b8233aaddef, 0x66) == 0xb75388ae40b23c48
    ensures Avalanche(0xb75388ae40b23c48) == 0xb5227c82f3decca2
  {
    assert Low64(2) == 2;
    assert Low64(4) == 4;
    assert Low64(9) == 9;
    assert Low64(19) == 19;
    assert Low64(39) == 39;
  }

  lemma LongPathFrom(s: seq<byte>)
    requires |s| == 39
    requires Le64At(s, 0) == 0x676e69747465732f
    requires Le64At(s, 8) == 0x6f6d656d61672f73
    requires Le64At(s, 16) == 0x302f747865746564
    requires Le64At(s, 24) == 0x3837363534333231
    requires Le32At(s, 32) == 0x63626139
    requires s[36] == 0x64
    requires s[37] == 0x65
    requires s[38] == 0x66
    ensures Hash(1, s) == 0xb5227c82f3decca2
  {
    hide Round, InitLanes, Converge, ShortStart, AddLength, LongStep, WordStep, ByteStep, Avalanche, Le32At, Le64At;
    LongPathStripe();
    LongPathLanes();
    LongPathEnd();
    assert LaneFold(0x60ea27eeadc0b5d7, s, 0, 0, 1) == 0x8a920451a8b0af2b;
    assert LaneFold(0xc2b2ae3d27d4eb50, s, 1, 0, 1) == 0x8310d1b45cf82232;
    assert LaneFold(0x0000000000000001, s, 2, 0, 1) == 0xffa4faffa51c66cf;
    assert LaneFold(0x61c8864e7a14357a, s, 3, 0, 1) == 0xd46b958af00d3b42;
    assert Start(1, s) == 0xa9a0da9b94a7651a;
    assert WordTail(0xa9a0da9b94a76541, s) == 0x10531afc9060a88f;
    assert ByteTail(0x10531afc9060a88f, s, 36, 37) == 0xdc2b0f4dd6d0965d;
    assert ByteTail(0x10531afc9060a88f, s, 36, 38) == 0xb1d39b8233aaddef;
    assert ByteTail(0x10531afc9060a88f, s, 36, 39) == 0xb75388ae40b23c48;
  }

  const LONG_PATH: seq<byte> :=
    [0x2f, 0x73, 0x65, 0x74, 0x74, 0x69, 0x6e, 0x67, 0x73, 0x2f, 0x67, 0x61, 0x6d, 0x65, 0x6d, 0x6f, 0x64, 0x65,
     0x74, 0x65, 0x78, 0x74, 0x2f, 0x30, 0x31, 0x32, 0x33, 0x34, 0x35, 0x36, 0x37, 0x38, 0x39, 0x61, 0x62, 0x63,
     0x64, 0x65, 0x66]

  lemma LongPathRead1()
    ensures var s := LONG_PATH;
      && Le64At(s, 0) == 0x676e69747465732f
      && Le64At(s, 8) == 0x6f6d656d61672f73
  {
  }

  lemma LongPathRead2()
    ensures var s := LONG_PATH;
      && Le64At(s, 16) == 0x302f747865746564
      && Le64At(s, 24) == 0x3837363534333231
  {
  }

  lemma LongPathRead3()
    ensures var s := LONG_PATH;
      && Le32At(s, 32) == 0x63626139
      && s[36] == 0x64
  {
  }

  lemma LongPathRead4()
    ensures var s := LONG_PATH;
      && s[37] == 0x65
      && s[38] == 0x66
  {
  }

  /** `/settings/gamemodetext/0123456789abcdef`, seed 1: a stripe, a 4-byte word and three bytes. */
  lemma LongPath()
    ensures Hash(1, LONG_PATH) == 0xb5227c82f3decca2
  {
    hide Hash, Le64At, Le32At;
    LongPathRead1();
    LongPathRead2();
    LongPathRead3();
    LongPathRead4();
    LongPathFrom(LONG_PATH);
  }
}
