/**
 XXH32 of some inputs, worked out step by step: they take every branch of the
 algorithm, and name the hash in figures.
 */
module Xxh32Answers {
  import opened Words
  import opened Inputs
  import opened Lengths
  import opened Arith32
  import opened Xxh32

  lemma NothingEnd()
    ensures Add32(0, PRIME32_5) == 0x165667b1
    ensures AddLength(0x165667b1, 0) == 0x165667b1
    ensures Avalanche(0x165667b1) == 0x02cc5d05
  {
  }

  /** No input at all. */
  lemma Nothing()
    ensures Hash(0, []) == 0x02cc5d05
  {
    hide Round, InitLanes, Converge, AddLength, WordStep, ByteStep, Avalanche, Add32, Le32At;
    NothingEnd();
  }

  lemma OneByteEnd()
    ensures Add32(0, PRIME32_5) == 0x165667b1
    ensures AddLength(0x165667b1, 1) == 0x165667b2
    ensures ByteStep(0x165667b2, 0x61) == 0x6506cbe8
    ensures Avalanche(0x6506cbe8) == 0x550d7456
  {
  }

  /** `a`: one byte. */
  lemma OneByte()
    ensures Hash(0, [0x61]) == 0x550d7456
  {
    hide Round, InitLanes, Converge, AddLength, WordStep, ByteStep, Avalanche, Add32, Le32At;
    var s: seq<byte> := [0x61];
    OneByteEnd();
    assert ByteTail(0x165667b2, s, 0, 1) == 0x6506cbe8;
  }

  lemma ThreeBytesEnd()
    ensures Add32(0, PRIME32_5) == 0x165667b1
    ensures AddLength(0x165667b1, 3) == 0x165667b4
    ensures ByteStep(0x165667b4, 0x61) == 0xdca1dbe8
    ensures ByteStep(0xdca1dbe8, 0x62) == 0x4f80fd3d
    ensures ByteStep(0x4f80fd3d, 0x63) == 0x760a1e67
    ensures Avalanche(0x760a1e67) == 0x32d153ff
  {
  }

  /** `abc`: three bytes. */
  lemma ThreeBytes()
    ensures Hash(0, [0x61, 0x62, 0x63]) == 0x32d153ff
  {
    hide Round, InitLanes, Converge, AddLength, WordStep, ByteStep, Avalanche, Add32, Le32At;
    var s: seq<byte> := [0x61, 0x62, 0x63];
    ThreeBytesEnd();
    assert ByteTail(0x165667b4, s, 0, 1) == 0xdca1dbe8;
    assert ByteTail(0x165667b4, s, 0, 2) == 0x4f80fd3d;
    assert ByteTail(0x165667b4, s, 0, 3) == 0x760a1e67;
  }

  lemma SayEnd()
    ensures Add32(0, PRIME32_5) == 0x165667b1
    ensures AddLength(0x165667b1, 9) == 0x165667ba
    ensures WordStep(0x165667ba, 0x73696d2f) == 0x52b498ae
    ensures WordStep(0x52b498ae, 0x61732f63) == 0x8701825c
    ensures ByteStep(0x8701825c, 0x79) == 0xbc605e4e
    ensures Avalanche(0xbc605e4e) == 0x1c5bb0ba
  {
    assert Low32(2) == 2;
    assert Low32(4) == 4;
    assert Low32(9) == 9;
  }

  lemma SayFrom(s: seq<byte>)
    requires |s| == 9
    requires Le32At(s, 0) == 0x73696d2f
    requires Le32At(s, 4) == 0x61732f63
    requires s[8] == 0x79
    ensures Hash(0, s) == 0x1c5bb0ba
  {
    hide Round, InitLanes, Converge, AddLength, WordStep, ByteStep, Avalanche, Add32, Le32At;
    SayEnd();
    assert WordTail(0x165667ba, s, 0, 1) == 0x52b498ae;
    assert WordTail(0x165667ba, s, 0, 2) == 0x8701825c;
    assert ByteTail(0x8701825c, s, 8, 9) == 0xbc605e4e;
  }

  const SAY: seq<byte> :=
    [0x2f, 0x6d, 0x69, 0x73, 0x63, 0x2f, 0x73, 0x61, 0x79]

  /** `/misc/say`: two words and a byte. */
  lemma Say()
    ensures Hash(0, SAY) == 0x1c5bb0ba
  {
    hide Hash;
    SayFrom(SAY);
  }

  lemma KickStripe()
    ensures InitLanes(1) == Lanes(0x24234429, 0x85ebca78, 0x00000001, 0x61c88650)
    ensures Round(0x24234429, 0x616c702f) == 0xf92a3ea6
    ensures Round(0x85ebca78, 0x2f726579) == 0x99b88137
    ensures Round(0x00000001, 0x6b63696b) == 0x25f8af23
    ensures Round(0x61c88650, 0x626f422f) == 0x78e13ecb
    ensures Converge(Lanes(0xf92a3ea6, 0x99b88137, 0x25f8af23, 0x78e13ecb)) == 0x54b52efc
  {
  }

  lemma KickEnd()
    ensures AddLength(0x54b52efc, 16) == 0x54b52f0c
    ensures Avalanche(0x54b52f0c) == 0xcfbfd3be
  {
    assert Low32(2) == 2;
    assert Low32(4) == 4;
    assert Low32(8) == 8;
    assert Low32(16) == 16;
  }

  lemma KickFrom(s: seq<byte>)
    requires |s| == 16
    requires Le32At(s, 0) == 0x616c702f
    requires Le32At(s, 4) == 0x2f726579
    requires Le32At(s, 8) == 0x6b63696b
    requires Le32At(s, 12) == 0x626f422f
    ensures Hash(1, s) == 0xcfbfd3be
  {
    hide Round, InitLanes, Converge, AddLength, WordStep, ByteStep, Avalanche, Add32, Le32At;
    KickStripe();
    KickEnd();
    assert LaneFold(0x24234429, s, 0, 0, 1) == 0xf92a3ea6;
    assert LaneFold(0x85ebca78, s, 1, 0, 1) == 0x99b88137;
    assert LaneFold(0x00000001, s, 2, 0, 1) == 0x25f8af23;
    assert LaneFold(0x61c88650, s, 3, 0, 1) == 0x78e13ecb;
    assert Start(1, s) == 0x54b52efc;
  }

  const KICK_BOB: seq<byte> :=
    [0x2f, 0x70, 0x6c, 0x61, 0x79, 0x65, 0x72, 0x2f, 0x6b, 0x69, 0x63, 0x6b, 0x2f, 0x42, 0x6f, 0x62]

  /** `/player/kick/Bob`, seed 1: one stripe. */
  lemma Kick()
    ensures Hash(1, KICK_BOB) == 0xcfbfd3be
  {
    hide Hash;
    KickFrom(KICK_BOB);
  }

  lemma GameModeTextStripe()
    ensures InitLanes(1) == Lanes(0x24234429, 0x85ebca78, 0x00000001, 0x61c88650)
    ensures Round(0x24234429, 0x7465732f) == 0x34ac514a
    ensures Round(0x85ebca78, 0x676e6974) == 0x594577fe
    ensures Round(0x00000001, 0x61672f73) == 0xb571664f
    ensures Round(0x61c88650, 0x6f6d656d) == 0x4dcec847
    ensures Converge(Lanes(0x34ac514a, 0x594577fe, 0xb571664f, 0x4dcec847)) == 0x4396d452
  {
  }

  lemma GameModeTextEnd()
    ensures AddLength(0x4396d452, 22) == 0x4396d468
    ensures WordStep(0x4396d468, 0x65746564) == 0xff6ae327
    ensures ByteStep(0xff6ae327, 0x78) == 0x70a4560f
    ensures ByteStep(0x70a4560f, 0x74) == 0x918f411e
    ensures Avalanche(0x918f411e) == 0xe15c51f0
  {
    assert Low32(2) == 2;
    assert Low32(5) == 5;
    assert Low32(11) == 11;
    assert Low32(22) == 22;
  }

  lemma GameModeTextFrom(s: seq<byte>)
    requires |s| == 22
    requires Le32At(s, 0) == 0x7465732f
    requires Le32At(s, 4) == 0x676e6974
    requires Le32At(s, 8) == 0x61672f73
    requires Le32At(s, 12) == 0x6f6d656d
    requires Le32At(s, 16) == 0x65746564
    requires s[20] == 0x78
    requires s[21] == 0x74
    ensures Hash(1, s) == 0xe15c51f0
  {
    hide Round, InitLanes, Converge, AddLength, WordStep, ByteStep, Avalanche, Add32, Le32At;
    GameModeTextStripe();
    GameModeTextEnd();
    assert LaneFold(0x24234429, s, 0, 0, 1) == 0x34ac514a;
    assert LaneFold(0x85ebca78, s, 1, 0, 1) == 0x594577fe;
    assert LaneFold(0x00000001, s, 2, 0, 1) == 0xb571664f;
    assert LaneFold(0x61c88650, s, 3, 0, 1) == 0x4dcec847;
    assert Start(1, s) == 0x4396d452;
    assert WordTail(0x4396d468, s, 4, 5) == 0xff6ae327;
    assert ByteTail(0xff6ae327, s, 20, 21) == 0x70a4560f;
    assert ByteTail(0xff6ae327, s, 20, 22) == 0x918f411e;
  }

  const GAME_MODE_TEXT: seq<byte> :=
    [0x2f, 0x73, 0x65, 0x74, 0x74, 0x69, 0x6e, 0x67, 0x73, 0x2f, 0x67, 0x61, 0x6d, 0x65, 0x6d, 0x6f, 0x64, 0x65,
     0x74, 0x65, 0x78, 0x74]

  lemma GameModeTextRead1()
    ensures var s := GAME_MODE_TEXT;
      && Le32At(s, 0) == 0x7465732f
      && Le32At(s, 4) == 0x676e6974
      && Le32At(s, 8) == 0x61672f73
      && Le32At(s, 12) == 0x6f6d656d
  {
  }

  lemma GameModeTextRead2()
    ensures var s := GAME_MODE_TEXT;
      && Le32At(s, 16) == 0x65746564
      && s[20] == 0x78
      && s[21] == 0x74
  {
  }

  /** `/settings/gamemodetext`, seed 1: a stripe, a word and two bytes. */
  lemma GameModeText()
    ensures Hash(1, GAME_MODE_TEXT) == 0xe15c51f0
  {
    hide Hash, Le32At;
    GameModeTextRead1();
    GameModeTextRead2();
    GameModeTextFrom(GAME_MODE_TEXT);
  }

  lemma TwoStripesStripes()
    ensures InitLanes(0) == Lanes(0x24234428, 0x85ebca77, 0x00000000, 0x61c8864f)
    ensures Round(0x24234428, 0x00000000) == 0x93768344
    ensures Round(0x85ebca77, 0x00000000) == 0x8df8c7ad
    ensures Round(0x00000000, 0x00000000) == 0x00000000
    ensures Round(0x61c8864f, 0x00000000) == 0xfa824469
    ensures Round(0x93768344, 0x00000000) == 0xdf253c0e
    ensures Round(0x8df8c7ad, 0x00000000) == 0x74ec2c0f
    ensures Round(0x00000000, 0x00000000) == 0x00000000
    ensures Round(0xfa824469, 0x00000000) == 0xe6c59650
    ensures Converge(Lanes(0xdf253c0e, 0x74ec2c0f, 0x00000000, 0xe6c59650)) == 0x8da41aed
  {
  }

  lemma TwoStripesEnd()
    ensures AddLength(0x8da41aed, 32) == 0x8da41b0d
    ensures Avalanche(0x8da41b0d) == 0x2ca90bd2
  {
    assert Low32(2) == 2;
    assert Low32(4) == 4;
    assert Low32(8) == 8;
    assert Low32(16) == 16;
    assert Low32(32) == 32;
  }

  lemma TwoStripesFrom(s: seq<byte>)
    requires |s| == 32
    requires Le32At(s, 0) == 0x00000000
    requires Le32At(s, 4) == 0x00000000
    requires Le32At(s, 8) == 0x00000000
    requires Le32At(s, 12) == 0x00000000
    requires Le32At(s, 16) == 0x00000000
    requires Le32At(s, 20) == 0x00000000
    requires Le32At(s, 24) == 0x00000000
    requires Le32At(s, 28) == 0x00000000
    ensures Hash(0, s) == 0x2ca90bd2
  {
    hide Round, InitLanes, Converge, AddLength, WordStep, ByteStep, Avalanche, Add32, Le32At;
    TwoStripesStripes();
    TwoStripesEnd();
    assert LaneFold(0x24234428, s, 0, 0, 1) == 0x93768344;
    assert LaneFold(0x85ebca77, s, 1, 0, 1) == 0x8df8c7ad;
    assert LaneFold(0x00000000, s, 2, 0, 1) == 0x00000000;
    assert LaneFold(0x61c8864f, s, 3, 0, 1) == 0xfa824469;
    assert LaneFold(0x24234428, s, 0, 0, 2) == 0xdf253c0e;
    assert LaneFold(0x85ebca77, s, 1, 0, 2) == 0x74ec2c0f;
    assert LaneFold(0x00000000, s, 2, 0, 2) == 0x00000000;
    assert LaneFold(0x61c8864f, s, 3, 0, 2) == 0xe6c59650;
    assert Start(0, s) == 0x8da41aed;
  }

  /** 32 zero bytes: two stripes. */
  lemma TwoStripes()
    ensures Hash(0, Zeros(32)) == 0x2ca90bd2
  {
    hide Hash;
    TwoStripesFrom(Zeros(32));
  }
}
