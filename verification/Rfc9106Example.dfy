/** The pre-hashing digest of section 5.3 of RFC 9106, worked out from the reference definitions. */
module Rfc9106Example {
  import opened Words
  import opened Rfc7693
  import opened Rfc9106
  import E = Rfc7693Example

  // ----- The input -----

  type Four = b: seq<byte> | |b| == 4 witness [0, 0, 0, 0]

  const ONES: Four := [1, 1, 1, 1]
  const TWOS: Four := [2, 2, 2, 2]
  const THREES: Four := [3, 3, 3, 3]
  const FOURS: Four := [4, 4, 4, 4]
  const NONE: Four := [0, 0, 0, 0]

  const PASSWORD: seq<byte> := Joined([ONES, ONES, ONES, ONES, ONES, ONES, ONES, ONES])

  /** Four lanes, a tag of 32 bytes, 32 KiB, three passes, version 19, Argon2id. */
  const INPUTS: Inputs := Inputs(4, 32, 32, 3, 0x13, 2, Joined([TWOS, TWOS, TWOS, TWOS]), Joined([THREES, THREES]),
                                 Joined([FOURS, FOURS, FOURS]))

  /** The block of the prehash in fours of bytes: six parameters, then each text after its length, then zeros. */
  const FOURS_OF_BLOCK: seq<Four> := [
    [4, 0, 0, 0], [32, 0, 0, 0], [32, 0, 0, 0], [3, 0, 0, 0], [0x13, 0, 0, 0], [2, 0, 0, 0],
    [32, 0, 0, 0], ONES, ONES, ONES, ONES, ONES, ONES, ONES, ONES,
    [16, 0, 0, 0], TWOS, TWOS, TWOS, TWOS,
    [8, 0, 0, 0], THREES, THREES,
    [12, 0, 0, 0], FOURS, FOURS, FOURS,
    NONE, NONE, NONE, NONE, NONE]

  function Joined(fs: seq<Four>): (b: seq<byte>)
    ensures |b| == 4 * |fs|
  {
    if fs == [] then [] else Joined(fs[..|fs| - 1]) + fs[|fs| - 1]
  }

  lemma {:induction false} JoinedAppend(a: seq<Four>, b: seq<Four>)
    ensures Joined(a + b) == Joined(a) + Joined(b)
  {
    if b == [] {
      assert a + b == a;
    } else {
      assert (a + b)[..|a + b| - 1] == a + b[..|b| - 1];
      JoinedAppend(a, b[..|b| - 1]);
    }
  }

  lemma One(f: Four)
    ensures Joined([f]) == f
  {
    assert [f][..0] == [];
  }

  function Pair(a: seq<byte>, b: seq<byte>): seq<byte> {
    a + b
  }

  lemma {:induction false} FourAt(fs: seq<Four>, j: nat, n: nat)
    requires j < |fs| && n == 4 * j
    ensures Joined(fs)[n..n + 4] == fs[j]
  {
    if j < |fs| - 1 {
      FourAt(fs[..|fs| - 1], j, n);
      assert Joined(fs)[n..n + 4] == Joined(fs[..|fs| - 1])[n..n + 4];
    }
  }

  lemma Halves(b: seq<byte>, n: nat)
    requires n + 8 <= |b|
    ensures b[n..n + 8] == Pair(b[n..n + 4], b[n + 4..n + 8])
  {
  }

  lemma WordOf(fs: seq<Four>, j: nat, n: nat)
    requires j + 1 < |fs| && n == 4 * j
    ensures Joined(fs)[n..n + 8] == Pair(fs[j], fs[j + 1])
  {
    hide Joined, Pair;
    FourAt(fs, j, n);
    FourAt(fs, j + 1, n + 4);
    Halves(Joined(fs), n);
  }

  /** A field below 256 is its one byte and three zeros. */
  lemma Field(n: nat)
    requires n < 256
    ensures LE32(n) == [n as byte, 0, 0, 0]
  {
  }

  lemma Fields()
    ensures LE32(4) == [4, 0, 0, 0] && LE32(32) == [32, 0, 0, 0] && LE32(3) == [3, 0, 0, 0] && LE32(0x13) == [0x13, 0, 0, 0]
    ensures LE32(2) == [2, 0, 0, 0] && LE32(16) == [16, 0, 0, 0] && LE32(8) == [8, 0, 0, 0] && LE32(12) == [12, 0, 0, 0]
  {
    hide LE32;
    Field(4);
    Field(32);
    Field(3);
    Field(0x13);
    Field(2);
    Field(16);
    Field(8);
    Field(12);
  }

  lemma PrefixedIs(length: Four, fs: seq<Four>)
    requires LE32(4 * |fs|) == length
    ensures Prefixed(Joined(fs)) == Joined([length] + fs)
  {
    hide LE32, Joined;
    JoinedAppend([length], fs);
    One(length);
  }

  lemma SixFields(a: Four, b: Four, c: Four, d: Four, e: Four, f: Four)
    ensures a + b + c + d + e + f == Joined([a, b, c, d, e, f])
  {
    hide Joined;
    One(a);
    JoinedAppend([a], [b]);
    One(b);
    JoinedAppend([a, b], [c]);
    One(c);
    JoinedAppend([a, b, c], [d]);
    One(d);
    JoinedAppend([a, b, c, d], [e]);
    One(e);
    JoinedAppend([a, b, c, d, e], [f]);
    One(f);
    assert [a] + [b] == [a, b] && [a, b] + [c] == [a, b, c] && [a, b, c] + [d] == [a, b, c, d];
    assert [a, b, c, d] + [e] == [a, b, c, d, e] && [a, b, c, d, e] + [f] == [a, b, c, d, e, f];
  }

  lemma {:induction false} ZerosAre(fs: seq<Four>)
    requires forall i :: 0 <= i < |fs| ==> fs[i] == NONE
    ensures Joined(fs) == Zeros(4 * |fs|)
  {
    if fs != [] {
      ZerosAre(fs[..|fs| - 1]);
    }
  }

  lemma BlockIs()
    ensures PrehashInput(INPUTS, PASSWORD) + Zeros(20) == Joined(FOURS_OF_BLOCK)
  {
    hide LE32, Joined, Zeros, Prefixed;
    Fields();
    var a: seq<Four> := [[4, 0, 0, 0], [32, 0, 0, 0], [32, 0, 0, 0], [3, 0, 0, 0], [0x13, 0, 0, 0], [2, 0, 0, 0]];
    var b: seq<Four> := [[32, 0, 0, 0]] + [ONES, ONES, ONES, ONES, ONES, ONES, ONES, ONES];
    var c: seq<Four> := [[16, 0, 0, 0]] + [TWOS, TWOS, TWOS, TWOS];
    var d: seq<Four> := [[8, 0, 0, 0]] + [THREES, THREES];
    var e: seq<Four> := [[12, 0, 0, 0]] + [FOURS, FOURS, FOURS];
    var z: seq<Four> := [NONE, NONE, NONE, NONE, NONE];
    SixFields([4, 0, 0, 0], [32, 0, 0, 0], [32, 0, 0, 0], [3, 0, 0, 0], [0x13, 0, 0, 0], [2, 0, 0, 0]);
    PrefixedIs([32, 0, 0, 0], [ONES, ONES, ONES, ONES, ONES, ONES, ONES, ONES]);
    PrefixedIs([16, 0, 0, 0], [TWOS, TWOS, TWOS, TWOS]);
    PrefixedIs([8, 0, 0, 0], [THREES, THREES]);
    PrefixedIs([12, 0, 0, 0], [FOURS, FOURS, FOURS]);
    ZerosAre(z);
    JoinedAppend(a, b);
    JoinedAppend(a + b, c);
    JoinedAppend(a + b + c, d);
    JoinedAppend(a + b + c + d, e);
    JoinedAppend(a + b + c + d + e, z);
    assert a + b + c + d + e + z == FOURS_OF_BLOCK;
  }

  const MESSAGE: seq<word> := [
    0x0000002000000004, 0x0000000300000020, 0x0000000200000013, 0x0101010100000020,
    0x0101010101010101, 0x0101010101010101, 0x0101010101010101, 0x0000001001010101,
    0x0202020202020202, 0x0202020202020202, 0x0303030300000008, 0x0000000c03030303,
    0x0404040404040404, 0x0000000004040404, 0x0000000000000000, 0x0000000000000000]

  lemma WordIs(i: nat, a: Four, b: Four, w: word)
    requires i < 16 && FOURS_OF_BLOCK[2 * i] == a && FOURS_OF_BLOCK[2 * i + 1] == b && Load64(Pair(a, b)) == w
    ensures MessageWords(Joined(FOURS_OF_BLOCK))[i] == w
  {
    hide Joined, Load64, Pair;
    WordOf(FOURS_OF_BLOCK, 2 * i, 8 * i);
  }

  lemma WordsFrom0()
    ensures MessageWords(Joined(FOURS_OF_BLOCK))[0..2] == MESSAGE[0..2]
  {
    hide Joined, MessageWords;
    WordIs(0, [4, 0, 0, 0], [32, 0, 0, 0], 0x0000002000000004);
    WordIs(1, [32, 0, 0, 0], [3, 0, 0, 0], 0x0000000300000020);
  }

  lemma WordsFrom2()
    ensures MessageWords(Joined(FOURS_OF_BLOCK))[2..4] == MESSAGE[2..4]
  {
    hide Joined, MessageWords;
    WordIs(2, [19, 0, 0, 0], [2, 0, 0, 0], 0x0000000200000013);
    WordIs(3, [32, 0, 0, 0], [1, 1, 1, 1], 0x0101010100000020);
  }

  lemma WordsFrom4()
    ensures MessageWords(Joined(FOURS_OF_BLOCK))[4..6] == MESSAGE[4..6]
  {
    hide Joined, MessageWords;
    WordIs(4, [1, 1, 1, 1], [1, 1, 1, 1], 0x0101010101010101);
    WordIs(5, [1, 1, 1, 1], [1, 1, 1, 1], 0x0101010101010101);
  }

  lemma WordsFrom6()
    ensures MessageWords(Joined(FOURS_OF_BLOCK))[6..8] == MESSAGE[6..8]
  {
    hide Joined, MessageWords;
    WordIs(6, [1, 1, 1, 1], [1, 1, 1, 1], 0x0101010101010101);
    WordIs(7, [1, 1, 1, 1], [16, 0, 0, 0], 0x0000001001010101);
  }

  lemma WordsFrom8()
    ensures MessageWords(Joined(FOURS_OF_BLOCK))[8..10] == MESSAGE[8..10]
  {
    hide Joined, MessageWords;
    WordIs(8, [2, 2, 2, 2], [2, 2, 2, 2], 0x0202020202020202);
    WordIs(9, [2, 2, 2, 2], [2, 2, 2, 2], 0x0202020202020202);
  }

  lemma WordsFrom10()
    ensures MessageWords(Joined(FOURS_OF_BLOCK))[10..12] == MESSAGE[10..12]
  {
    hide Joined, MessageWords;
    WordIs(10, [8, 0, 0, 0], [3, 3, 3, 3], 0x0303030300000008);
    WordIs(11, [3, 3, 3, 3], [12, 0, 0, 0], 0x0000000c03030303);
  }

  lemma WordsFrom12()
    ensures MessageWords(Joined(FOURS_OF_BLOCK))[12..14] == MESSAGE[12..14]
  {
    hide Joined, MessageWords;
    WordIs(12, [4, 4, 4, 4], [4, 4, 4, 4], 0x0404040404040404);
    WordIs(13, [4, 4, 4, 4], [0, 0, 0, 0], 0x0000000004040404);
  }

  lemma WordsFrom14()
    ensures MessageWords(Joined(FOURS_OF_BLOCK))[14..16] == MESSAGE[14..16]
  {
    hide Joined, MessageWords;
    WordIs(14, [0, 0, 0, 0], [0, 0, 0, 0], 0x0000000000000000);
    WordIs(15, [0, 0, 0, 0], [0, 0, 0, 0], 0x0000000000000000);
  }

  lemma WordsAre()
    ensures MessageWords(Joined(FOURS_OF_BLOCK)) == MESSAGE
  {
    hide Joined, MessageWords;
    WordsFrom0();
    WordsFrom2();
    WordsFrom4();
    WordsFrom6();
    WordsFrom8();
    WordsFrom10();
    WordsFrom12();
    WordsFrom14();
    InPairs(MessageWords(Joined(FOURS_OF_BLOCK)));
    InPairs(MESSAGE);
  }

  lemma InPairs(w: seq<word>)
    requires |w| == 16
    ensures w == w[0..2] + w[2..4] + w[4..6] + w[6..8] + w[8..10] + w[10..12] + w[12..14] + w[14..16]
  {
  }

  // ----- The digest -----

  /** The work vector before each round and after the last. */
  const STATE_0: seq<word> := [
    0x6a09e667f2bdc948, 0xbb67ae8584caa73b, 0x3c6ef372fe94f82b, 0xa54ff53a5f1d36f1,
    0x510e527fade682d1, 0x9b05688c2b3e6c1f, 0x1f83d9abfb41bd6b, 0x5be0cd19137e2179,
    0x6a09e667f3bcc908, 0xbb67ae8584caa73b, 0x3c6ef372fe94f82b, 0xa54ff53a5f1d36f1,
    0x510e527fade682bd, 0x9b05688c2b3e6c1f, 0xe07c265404be4294, 0x5be0cd19137e2179]
  const STATE_1: seq<word> := [
    0xbc8892ab14f5e4e9, 0x2e4e5b4ef46b8e6e, 0x9aa74c2a897ab43d, 0xb5cf9d9e1d57da65,
    0xd77d6f91fff3ddf0, 0xe5bf4c4384d84b3d, 0x424468ccbee707f4, 0xa6bf1c97c3f33f50,
    0x7a20a4edd9e72bf3, 0x93b17cbdeae8798c, 0xb21195c092344dd8, 0x03123320c902633a,
    0x201e3028f87850a0, 0x6a36756030d20fcb, 0x3574a5cc34f7dc7b, 0x4a5a0cc3f6e6d317]
  const STATE_2: seq<word> := [
    0xd74a5dd2e44aaaf2, 0xd5f235a6310751a4, 0xc742b3b2ebe092e5, 0x7a1069578796490c,
    0xba05851648c24525, 0xb2708426e6302b7f, 0xe7fa818fd78b1e16, 0x43add96cd9ad137c,
    0xf42cf0c523bb00be, 0x26608d8f13083d66, 0xfd593c022169f6a9, 0x9c5b5b868b19cb75,
    0x04db6a5168ef5c0d, 0x5f706586b70b84c7, 0x279ef81981c26af8, 0xe3538fd661b38b8e]
  const STATE_3: seq<word> := [
    0x6327b2207c4ffd80, 0x40ea02f899c23e1a, 0x78f58c5e5ab55984, 0x2e729b377de78d48,
    0x38debe8744637afb, 0x5ae91db35f3dacf0, 0x04ca250ef9c3f704, 0x6fc1741d39bd6c60,
    0x7217c520a2fcce09, 0x0e41c27b6b38dccd, 0x87d521bd850a9910, 0x0d3c58e85a7062bf,
    0xf06cb13c0e9ce1e4, 0x433ce1d645317a37, 0x06020d4191031382, 0x9786db3905e64964]
  const STATE_4: seq<word> := [
    0xaaef34995f6b209d, 0xfb1a95351dcd4035, 0xc0f850aa40234c2c, 0x74a223bf94fec430,
    0x75f4ecd80e647aed, 0xd3244cb8e38beaf1, 0x8dca9b73f2ec7297, 0x5cfc6f95fcd70e9c,
    0xc119babcf240aafd, 0x01db39a6e9c4e4fb, 0x6576572256af56b5, 0x91bec33c3db5de54,
    0x2e4cd8b8c2c8c533, 0x8bf3bb5b63794497, 0x51d97a6f456c8425, 0x6149a1db3cc63133]
  const STATE_5: seq<word> := [
    0x3c74a6eaa85a1253, 0x85a27eb0429544b3, 0x7f25716dafdb7bff, 0x1a6dfd347e587415,
    0x4f9f332ff153d6e5, 0x9d8d5d7a009b0f2a, 0xd3e4a35402a0f5c2, 0xbaff4798aaaff68d,
    0x4a11175dfa00235f, 0x0ba47448df0488d5, 0x6a4fd90455c7e557, 0x555267c517e7a353,
    0x1f55b26b2336bc20, 0x4a11a8a44a0f0f2e, 0x7b40f24ea95fa04b, 0x8dd26ce67ced00d1]
  const STATE_6: seq<word> := [
    0x8f2f93bca84eb505, 0xb93231d970be8d79, 0x9832fbb1a01f0ff8, 0xe7ebdf558a956b33,
    0x8b46671841d8a645, 0x506fc86333b3c84b, 0xcd9734c8f198235a, 0xf3849ddf41b18f95,
    0x268461a6f094e7ef, 0x927117e2f22f5bf0, 0xddec779fefb579bd, 0x49f672a9ef981474,
    0xda9d255bf51143f1, 0x2b8ba2a2c9fdf54f, 0xcdb75af1dbc9d969, 0x0140f6632bf694af]
  const STATE_7: seq<word> := [
    0x2a9e49ae07bf2d49, 0x895d6cdb13ee5147, 0xfd00759d4b9e335a, 0x2cb75a86883e797f,
    0x8e415e0579645c94, 0xa1577718b8e1cc28, 0x105c1ec752d79d22, 0xfd768efb3952e666,
    0xad9ed05225f0a8df, 0x43d8336adde45b07, 0xd54d52b6bbc0d00a, 0xc6a542882a383ff3,
    0x977332dc10bfaeff, 0x74a00f7f130f79d2, 0x9d82a60961c48fb4, 0xfc1cba0e9272e000]
  const STATE_8: seq<word> := [
    0xb057acacb20d63ff, 0x0fb2edcb4195f93f, 0x2f81934c8a20260e, 0x5a440fab4c8bad54,
    0x8cf1288abb0ac082, 0xafc442f9f894dc69, 0xeb2146957f0eb2db, 0x16c2e01774fe8a51,
    0xfa8f9be220cf3880, 0xd788176fd4f5be5f, 0xe2992359d9046fbf, 0x711442915ab12d67,
    0xd40bf57eb98b58c7, 0x1d8e29cac580ee3e, 0x6267239eb54ab700, 0xffdcba81d8314f62]
  const STATE_9: seq<word> := [
    0x8f0a2e7444a6799c, 0x65c4e206557d508f, 0x640ea69b597be435, 0xcc532118af6006ed,
    0xe09c9e20502803a1, 0x9082854d24270cc8, 0xd5d552045b3ce19e, 0xc3dd4038b6b41059,
    0xc344c8e5340cd68a, 0x646f8700b1d8364f, 0x3a1dad9b4dbdfbba, 0xd5dec442b0aaf462,
    0xaa4db55183ef1899, 0x1cbb8cfc32d2d72e, 0x07ed7b4bd598cd1a, 0xb7021eb68be28820]
  const STATE_10: seq<word> := [
    0xcc0160c798ac4a1d, 0x65fae08d39c184d1, 0x16d6b5f6dc6af8d4, 0x50a24514a91ecc4b,
    0x0847652190dfa37c, 0x8eca84662ecc1e12, 0x1ed08603414df5ad, 0xe31a39d2f0555506,
    0xce9afbfece300c2e, 0x0cd462c45720bbb3, 0xa3a2cab670b9b45a, 0xb1337a73870bf340,
    0x7f17d2e6cc2d3b2c, 0x9e1a267efc16fc75, 0xf348a8a3bb8658f5, 0x854801dba30ac8bf]
  const STATE_11: seq<word> := [
    0x85deaa7edf914135, 0x6d5eeb4d9c80216c, 0x7ef33edf071afc1c, 0xa9eaa9b4811f60a2,
    0x39b680d45b3be0af, 0x1dedcb92720d6617, 0x897fd6ddd9f038c4, 0x4cadbd2bd81eb0d9,
    0x7daccb0f25f7731f, 0x1e2f89074d53ddb1, 0xa8243c976a8f8748, 0x72fb05328aca64f2,
    0x1ce4af6dd588c0d0, 0x68658b489577226d, 0x2abc639e0f572e48, 0x3fb5103755a92bb7]
  const STATE_12: seq<word> := [
    0x475f3b7d41a8434c, 0x8bb23c718f414982, 0x1c7945cc7e58ac4f, 0xe19e89e416747fe7,
    0x596ba78572c47cea, 0x439b18eb9d293075, 0x33e40b92c24507d1, 0xaf18def8113ded6c,
    0xc87c6964fbcb032c, 0x20fab72d758b2eb9, 0x9472e1b34412be0d, 0xfcb6069d8b049793,
    0x8a6def36d50d946f, 0xf6d93b16c2d8d3b1, 0x037673642346652e, 0x6311b2914100ddef]

  lemma Round0()
    ensures E.Next(STATE_0, MESSAGE, SIGMA_0) == STATE_1
  {
  }

  lemma Round1()
    ensures E.Next(STATE_1, MESSAGE, SIGMA_1) == STATE_2
  {
  }

  lemma Round2()
    ensures E.Next(STATE_2, MESSAGE, SIGMA_2) == STATE_3
  {
  }

  lemma Round3()
    ensures E.Next(STATE_3, MESSAGE, SIGMA_3) == STATE_4
  {
  }

  lemma Round4()
    ensures E.Next(STATE_4, MESSAGE, SIGMA_4) == STATE_5
  {
  }

  lemma Round5()
    ensures E.Next(STATE_5, MESSAGE, SIGMA_5) == STATE_6
  {
  }

  lemma Round6()
    ensures E.Next(STATE_6, MESSAGE, SIGMA_6) == STATE_7
  {
  }

  lemma Round7()
    ensures E.Next(STATE_7, MESSAGE, SIGMA_7) == STATE_8
  {
  }

  lemma Round8()
    ensures E.Next(STATE_8, MESSAGE, SIGMA_8) == STATE_9
  {
  }

  lemma Round9()
    ensures E.Next(STATE_9, MESSAGE, SIGMA_9) == STATE_10
  {
  }

  lemma Round10()
    ensures E.Next(STATE_10, MESSAGE, SIGMA_0) == STATE_11
  {
  }

  lemma Round11()
    ensures E.Next(STATE_11, MESSAGE, SIGMA_1) == STATE_12
  {
  }

  lemma Rounds()
    ensures Mixed(W64, STATE_0, MESSAGE, 96) == STATE_12
  {
    hide Mixed, E.Columns, E.Diagonals;
    Start();
    E.RoundIs(W64, STATE_0, MESSAGE, 0);
    Round0();
    E.RoundIs(W64, STATE_0, MESSAGE, 1);
    Round1();
    E.RoundIs(W64, STATE_0, MESSAGE, 2);
    Round2();
    E.RoundIs(W64, STATE_0, MESSAGE, 3);
    Round3();
    E.RoundIs(W64, STATE_0, MESSAGE, 4);
    Round4();
    E.RoundIs(W64, STATE_0, MESSAGE, 5);
    Round5();
    E.RoundIs(W64, STATE_0, MESSAGE, 6);
    Round6();
    E.RoundIs(W64, STATE_0, MESSAGE, 7);
    Round7();
    E.RoundIs(W64, STATE_0, MESSAGE, 8);
    Round8();
    E.RoundIs(W64, STATE_0, MESSAGE, 9);
    Round9();
    E.RoundIs(W64, STATE_0, MESSAGE, 10);
    Round10();
    E.RoundIs(W64, STATE_0, MESSAGE, 11);
    Round11();
  }

  lemma Start()
    ensures Mixed(W64, STATE_0, MESSAGE, 0) == STATE_0
  {
  }

  lemma FirstState()
    ensures WorkVector(W64, IV, Parameters(64), 108, 0, FinalFlags(true)) == STATE_0
  {
  }

  lemma OffsetWords()
    ensures OffsetWord(108) == 108 && OffsetWord(0) == 0
  {
  }

  const CHAIN: Chain := [
    0xe52ab47e48de8928, 0x102f25d97e00c000, 0xb465570dc4deea69, 0xb8677a43c26dde85,
    0x82081acc0a2f6a54, 0x2e474b7174cf8fdb, 0x2f11a15d1a42df94, 0x97e9a170434311fa]

  lemma LastState()
    ensures Compressed(W64, IV, Parameters(64), MESSAGE, 108, 0, FinalFlags(true)) == CHAIN
  {
    hide Mixed, WorkVector, Parameters, Compressed, FinalFlags;
    E.FoldedBack(W64, IV, Parameters(64), MESSAGE, 108, 0, FinalFlags(true));
    FirstState();
    Rounds();
    E.FirstChain();
    Folded();
  }

  lemma Folded()
    ensures var h, v := E.FIRST_CHAIN, STATE_12;
            [W64.xor(W64.xor(h[0], v[0]), v[8]), W64.xor(W64.xor(h[1], v[1]), v[9]), W64.xor(W64.xor(h[2], v[2]), v[10]),
             W64.xor(W64.xor(h[3], v[3]), v[11]), W64.xor(W64.xor(h[4], v[4]), v[12]), W64.xor(W64.xor(h[5], v[5]), v[13]),
             W64.xor(W64.xor(h[6], v[6]), v[14]), W64.xor(W64.xor(h[7], v[7]), v[15])] == CHAIN
  {
  }

  lemma ChainIs()
    ensures Finish(F, Parameters(64), PrehashInput(INPUTS, PASSWORD)) == CHAIN
  {
    hide Compressed, MessageWords, Parameters, OffsetWord, FinalFlags, PrehashInput, Joined;
    BlockIs();
    WordsAre();
    OffsetWords();
    LastState();
    var input := PrehashInput(INPUTS, PASSWORD);
    assert |input| == 108;
    assert Absorb(F, Parameters(64), input, 0) == Parameters(64);
    assert input[0..] == input;
  }

  const DIGEST: seq<byte> :=
    [0x28, 0x89, 0xde, 0x48, 0x7e, 0xb4, 0x2a, 0xe5]
    + [0x00, 0xc0, 0x00, 0x7e, 0xd9, 0x25, 0x2f, 0x10]
    + [0x69, 0xea, 0xde, 0xc4, 0x0d, 0x57, 0x65, 0xb4]
    + [0x85, 0xde, 0x6d, 0xc2, 0x43, 0x7a, 0x67, 0xb8]
    + [0x54, 0x6a, 0x2f, 0x0a, 0xcc, 0x1a, 0x08, 0x82]
    + [0xdb, 0x8f, 0xcf, 0x74, 0x71, 0x4b, 0x47, 0x2e]
    + [0x94, 0xdf, 0x42, 0x1a, 0x5d, 0xa1, 0x11, 0x2f]
    + [0xfa, 0x11, 0x43, 0x43, 0x70, 0xa1, 0xe9, 0x97]

  lemma Bytes()
    ensures StoreWords(CHAIN) == DIGEST
  {
    hide StoreWords;
    E.EightWords(CHAIN);
    assert Store64(CHAIN[0]) == [0x28, 0x89, 0xde, 0x48, 0x7e, 0xb4, 0x2a, 0xe5];
    assert Store64(CHAIN[1]) == [0x00, 0xc0, 0x00, 0x7e, 0xd9, 0x25, 0x2f, 0x10];
    assert Store64(CHAIN[2]) == [0x69, 0xea, 0xde, 0xc4, 0x0d, 0x57, 0x65, 0xb4];
    assert Store64(CHAIN[3]) == [0x85, 0xde, 0x6d, 0xc2, 0x43, 0x7a, 0x67, 0xb8];
    assert Store64(CHAIN[4]) == [0x54, 0x6a, 0x2f, 0x0a, 0xcc, 0x1a, 0x08, 0x82];
    assert Store64(CHAIN[5]) == [0xdb, 0x8f, 0xcf, 0x74, 0x71, 0x4b, 0x47, 0x2e];
    assert Store64(CHAIN[6]) == [0x94, 0xdf, 0x42, 0x1a, 0x5d, 0xa1, 0x11, 0x2f];
    assert Store64(CHAIN[7]) == [0xfa, 0x11, 0x43, 0x43, 0x70, 0xa1, 0xe9, 0x97];
  }

  /** The pre-hashing digest of section 5.3. */
  lemma PrehashDigest()
    ensures H0(INPUTS, PASSWORD) == DIGEST
  {
    hide Finish, StoreWords, PrehashInput;
    ChainIs();
    Bytes();
  }
}
