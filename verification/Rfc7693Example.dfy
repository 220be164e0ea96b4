/** The example of appendix A of RFC 7693, the digest of "abc", worked out from the reference definition. */
module Rfc7693Example {
  import opened Words
  import opened Rfc7693
  import B = Blake2b

  /** The four columns of a round. */
  function Columns<W>(o: Arithmetic<W>, v: seq<W>, m: seq<W>, s: schedule): (v': seq<W>)
    requires |v| == 16 && |m| == 16
    ensures |v'| == 16
  {
    var c0 := G(o, Quad(v[0], v[4], v[8], v[12]), m[s[0]], m[s[1]]);
    var c1 := G(o, Quad(v[1], v[5], v[9], v[13]), m[s[2]], m[s[3]]);
    var c2 := G(o, Quad(v[2], v[6], v[10], v[14]), m[s[4]], m[s[5]]);
    var c3 := G(o, Quad(v[3], v[7], v[11], v[15]), m[s[6]], m[s[7]]);
    [c0.a, c1.a, c2.a, c3.a, c0.b, c1.b, c2.b, c3.b, c0.c, c1.c, c2.c, c3.c, c0.d, c1.d, c2.d, c3.d]
  }

  /** The four diagonals. */
  function Diagonals<W>(o: Arithmetic<W>, v: seq<W>, m: seq<W>, s: schedule): (v': seq<W>)
    requires |v| == 16 && |m| == 16
    ensures |v'| == 16
  {
    var d0 := G(o, Quad(v[0], v[5], v[10], v[15]), m[s[8]], m[s[9]]);
    var d1 := G(o, Quad(v[1], v[6], v[11], v[12]), m[s[10]], m[s[11]]);
    var d2 := G(o, Quad(v[2], v[7], v[8], v[13]), m[s[12]], m[s[13]]);
    var d3 := G(o, Quad(v[3], v[4], v[9], v[14]), m[s[14]], m[s[15]]);
    [d0.a, d1.a, d2.a, d3.a, d3.b, d0.b, d1.b, d2.b, d2.c, d3.c, d0.c, d1.c, d1.d, d2.d, d3.d, d0.d]
  }

  function Lane<W>(o: Arithmetic<W>, v: seq<W>, m: seq<W>, s: schedule, i: nat): (v': seq<W>)
    requires |v| == 16 && |m| == 16 && i < 8
    ensures |v'| == 16
  {
    MixLane(o, v, i, m[s[2 * i]], m[s[2 * i + 1]])
  }

  lemma ColumnsAre<W>(o: Arithmetic<W>, v: seq<W>, m: seq<W>, s: schedule)
    requires |v| == 16 && |m| == 16
    ensures Lane(o, Lane(o, Lane(o, Lane(o, v, m, s, 0), m, s, 1), m, s, 2), m, s, 3) == Columns(o, v, m, s)
  {
    hide G;
  }

  lemma DiagonalsAre<W>(o: Arithmetic<W>, v: seq<W>, m: seq<W>, s: schedule)
    requires |v| == 16 && |m| == 16
    ensures Lane(o, Lane(o, Lane(o, Lane(o, v, m, s, 4), m, s, 5), m, s, 6), m, s, 7) == Diagonals(o, v, m, s)
  {
    hide G;
  }

  lemma CallIs<W>(o: Arithmetic<W>, w: seq<W>, m: seq<W>, r: nat, i: nat)
    requires |w| == 16 && |m| == 16 && i < 8
    ensures Mixed(o, w, m, 8 * r + i + 1) == Lane(o, Mixed(o, w, m, 8 * r + i), m, SIGMA[r % 10], i)
  {
    B.MixedStep(o, w, m, r, i);
  }

  /** The eight calls of a round are its four columns and its four diagonals. */
  lemma RoundIs<W>(o: Arithmetic<W>, w: seq<W>, m: seq<W>, r: nat)
    requires |w| == 16 && |m| == 16
    ensures var s := SIGMA[r % 10];
            Mixed(o, w, m, 8 * r + 8) == Diagonals(o, Columns(o, Mixed(o, w, m, 8 * r), m, s), m, s)
  {
    hide Mixed, Lane, Columns, Diagonals;
    CallIs(o, w, m, r, 0);
    CallIs(o, w, m, r, 1);
    CallIs(o, w, m, r, 2);
    CallIs(o, w, m, r, 3);
    ColumnsAre(o, Mixed(o, w, m, 8 * r), m, SIGMA[r % 10]);
    CallIs(o, w, m, r, 4);
    CallIs(o, w, m, r, 5);
    CallIs(o, w, m, r, 6);
    CallIs(o, w, m, r, 7);
    DiagonalsAre(o, Mixed(o, w, m, 8 * r + 4), m, SIGMA[r % 10]);
  }

  function Next(v: seq<word>, m: seq<word>, s: schedule): (v': seq<word>)
    requires |v| == 16 && |m| == 16
    ensures |v'| == 16
  {
    Diagonals(W64, Columns(W64, v, m, s), m, s)
  }

  // ----- The block and the states -----

  /** The words of the one block: "abc" and zeros. */
  const MESSAGE: seq<word> := [0x636261, 0, 0, 0, 0, 0, 0, 0, 0, 0, 0, 0, 0, 0, 0, 0]

  /** The work vector before each round and after the last, as the appendix prints it. */
  const STATE_0: seq<word> := [
    0x6a09e667f2bdc948, 0xbb67ae8584caa73b, 0x3c6ef372fe94f82b, 0xa54ff53a5f1d36f1,
    0x510e527fade682d1, 0x9b05688c2b3e6c1f, 0x1f83d9abfb41bd6b, 0x5be0cd19137e2179,
    0x6a09e667f3bcc908, 0xbb67ae8584caa73b, 0x3c6ef372fe94f82b, 0xa54ff53a5f1d36f1,
    0x510e527fade682d2, 0x9b05688c2b3e6c1f, 0xe07c265404be4294, 0x5be0cd19137e2179]
  const STATE_1: seq<word> := [
    0x86b7c1568029bb79, 0xc12cbcc809ff59f3, 0xc6a5214cc0eaca8e, 0x0c87cd524c14cc5d,
    0x44ee6039bd86a9f7, 0xa447c850aa694a7e, 0xde080f1bb1c0f84b, 0x595cb8a9a1aca66c,
    0xbec3ae837eac4887, 0x6267fc79df9d6ad1, 0xfa87b01273fa6dbe, 0x521a715c63e08d8a,
    0xe02d0975b8d37a83, 0x1c7b754f08b7d193, 0x8f885a76b6e578fe, 0x2318a24e2140fc64]
  const STATE_2: seq<word> := [
    0x53281e83806010f2, 0x3594b403f81b4393, 0x8cd63c7462de0dff, 0x85f693f3da53f974,
    0xbaabdbb2f386d9ae, 0xca5425aec65a10a8, 0xc6a22e2ff0f7aa48, 0xc6a56a51cb89c595,
    0x224e6a3369224f96, 0x500e125e58a92923, 0xe9e4ad0d0e1a0d48, 0x85df9dc143c59a74,
    0x92a3aaaa6d952b7f, 0xc5fdf71090fae853, 0x2a8a40f15a462dd0, 0x572d17effdd37358]
  const STATE_3: seq<word> := [
    0x60ed96aa7ad41725, 0xe46a743c71800b9d, 0x1a04b543a01f156b, 0xa2f8716e775c4877,
    0xda0a61bcde4267ea, 0xb1dd230754d7bdee, 0x25a1422779e06d14, 0xe6823ae4c3ff58a5,
    0xa1677e19f37fd5da, 0x22bdce6976b08c51, 0xf1de8696bec11bf1, 0xa0ebd586a4a1d2c8,
    0xc804ebab11c99fa9, 0x8e0cec959c715793, 0x7c45557fae0d4d89, 0x716343f52fdd265e]
  const STATE_4: seq<word> := [
    0xbb2a77d3a8382351, 0x45eb47971f23b103, 0x98be297f6e45c684, 0xa36077dee3370b89,
    0x8a03c4cb7e97590a, 0x24192e49ebf54ea0, 0x4f82c9401cb32d7a, 0x8ccd013726420dc4,
    0xa9c9a8f17b1fc614, 0x55908187977514a0, 0x5b44273e66b19d27, 0xb6d5c9fca2579327,
    0x086092cfb858437e, 0x5c4be2156dbeecf9, 0x2efede99ed4eff16, 0x3e7b5f234cd1f804]
  const STATE_5: seq<word> := [
    0xc79c15b3d423b099, 0x2da2224e8da97556, 0x77d2b26df1c45c55, 0x8934eb09a3456052,
    0x0f6d9eeed157da2a, 0x6fe66467af88c0a9, 0x4eb0b76284c7aafb, 0x299c8e725d954697,
    0xb2240b59e6d567d3, 0x2643c2370e49ebfd, 0x79e02eef20cdb1ae, 0x64b3eed7bb602f39,
    0xb97d2d439e4df63d, 0xc718e755294c9111, 0x1f0893f2772bb373, 0x1205ea4a7859807d]
  const STATE_6: seq<word> := [
    0xe58f97d6385baee4, 0x7640aa9764da137a, 0xdeb4c7c23efe287e, 0x70f6f41c8783c9f6,
    0x7127cd48c76a7708, 0x9e472af0be3db3f6, 0x0f244c62ddf71788, 0x219828aa83880842,
    0x41cca9073c8c4d0d, 0x5c7912bc10df3b4b, 0xa2c3abbd37510ee2, 0xcb5668cc2a9f7859,
    0x8733794f07ac1500, 0xc67a6be42335aa6f, 0xacb22b28681e4c82, 0xdb2161604cbc9828]
  const STATE_7: seq<word> := [
    0x6e2d286eeadedc81, 0xbcf02c0787e86358, 0x57d56a56dd015edf, 0x55d899d40a5d0d0a,
    0x819415b56220c459, 0xb63c479a6a769f02, 0x258e55e0ec1f362a, 0x3a3b4ec60e19dfdc,
    0x04d769b3fcb048db, 0xb78a9a33e9bff4dd, 0x5777272ae1e930c0, 0x5a387849e578dbf6,
    0x92aac307cf2c0afc, 0x30aaccc4f06dafaa, 0x483893cc094f8863, 0xe03c6cc89c26bf92]
  const STATE_8: seq<word> := [
    0xffc83ece76024d01, 0x1be7bffb8c5cc5f9, 0xa35a18cbac4c65b7, 0xb7c2c7e6d88c285f,
    0x81937da314a50838, 0xe1179523a2541963, 0x3a1fad7106232b8f, 0x1c7ede92ab8b9c46,
    0xa3c2d35e4f685c10, 0xa53d3f73aa619624, 0x30bbcc0285a22f65, 0xbcefbb6a81539e5d,
    0x3841def6f4c9848a, 0x98662c85fba726d4, 0x7762439bd5a851bd, 0xb0b9f0d443d1a889]
  const STATE_9: seq<word> := [
    0x753a70a1e8faeadd, 0x6b0d43ca2c25d629, 0xf8343ba8b94f8c0b, 0xbc7d062b0db5cf35,
    0x58540ee1b1aebc47, 0x63c5b9b80d294cb9, 0x490870ecad27debd, 0xb2a90ddf667287fe,
    0x316cc9ebeefad8fc, 0x4a466bcd021526a4, 0x5da7f7638cec5669, 0xd9c8826727d306fc,
    0x88ed6c4f3bd7a537, 0x19ae688ddf67f026, 0x4d8707aab40f7e6d, 0xfd3f572687fea4f1]
  const STATE_10: seq<word> := [
    0xe630c747ccd59c4f, 0xbc713d41127571ca, 0x46db183025025078, 0x6727e81260610140,
    0x2d04185eac2a8cba, 0x5f311b88904056ec, 0x40bd313009201aab, 0x0099d4f82a2a1eab,
    0x6dd4fbc1de60165d, 0xb3b0b51de3c86270, 0x900aee2f233b08e5, 0xa07199d87ad058d8,
    0x2c6b25593d717852, 0x37e8ca471beaa5f8, 0x2cfc1bac10ef4457, 0x01369ec18746e775]
  const STATE_11: seq<word> := [
    0xe801f73b9768c760, 0x35c6d22320be511d, 0x306f27584f65495e, 0xb51776adf569a77b,
    0xf4f1be86690b3c34, 0x3cc88735d1475e4b, 0x5dac67921ff76949, 0x1cdb9d31ad70cc4e,
    0x35ba354a9c7df448, 0x4929cbe45679d73e, 0x733d1a17248f39db, 0x92d57b736f5f170a,
    0x61b5c0a41d491399, 0xb5c333457e12844a, 0xbd696be010d0d889, 0x02231e1a917fe0bd]
  const STATE_12: seq<word> := [
    0x12ef8a641ec4f6d6, 0xbced5de977c9faf5, 0x733ca476c5148639, 0x97df596b0610f6fc,
    0xf42c16519ad5afa7, 0xaa5ac1888e10467e, 0x217d930aa51787f3, 0x906a6ff19e573942,
    0x75ab709bd3dcbf24, 0xee7ce1f345947aa4, 0xf8960d6c2faf5f5e, 0xe332538a36b6d246,
    0x885bef040ef6aa0b, 0xa4939a417bfb78a3, 0x646cbb7af6dce980, 0xe813a23c60af3b82]


  lemma Round0()
    ensures Next(STATE_0, MESSAGE, SIGMA_0) == STATE_1
  {
  }

  lemma Round1()
    ensures Next(STATE_1, MESSAGE, SIGMA_1) == STATE_2
  {
  }

  lemma Round2()
    ensures Next(STATE_2, MESSAGE, SIGMA_2) == STATE_3
  {
  }

  lemma Round3()
    ensures Next(STATE_3, MESSAGE, SIGMA_3) == STATE_4
  {
  }

  lemma Round4()
    ensures Next(STATE_4, MESSAGE, SIGMA_4) == STATE_5
  {
  }

  lemma Round5()
    ensures Next(STATE_5, MESSAGE, SIGMA_5) == STATE_6
  {
  }

  lemma Round6()
    ensures Next(STATE_6, MESSAGE, SIGMA_6) == STATE_7
  {
  }

  lemma Round7()
    ensures Next(STATE_7, MESSAGE, SIGMA_7) == STATE_8
  {
  }

  lemma Round8()
    ensures Next(STATE_8, MESSAGE, SIGMA_8) == STATE_9
  {
  }

  lemma Round9()
    ensures Next(STATE_9, MESSAGE, SIGMA_9) == STATE_10
  {
  }

  lemma Round10()
    ensures Next(STATE_10, MESSAGE, SIGMA_0) == STATE_11
  {
  }

  lemma Round11()
    ensures Next(STATE_11, MESSAGE, SIGMA_1) == STATE_12
  {
  }

  lemma Rounds()
    ensures Mixed(W64, STATE_0, MESSAGE, 96) == STATE_12
  {
    hide Mixed, Columns, Diagonals;
    Start();
    RoundIs(W64, STATE_0, MESSAGE, 0);
    Round0();
    RoundIs(W64, STATE_0, MESSAGE, 1);
    Round1();
    RoundIs(W64, STATE_0, MESSAGE, 2);
    Round2();
    RoundIs(W64, STATE_0, MESSAGE, 3);
    Round3();
    RoundIs(W64, STATE_0, MESSAGE, 4);
    Round4();
    RoundIs(W64, STATE_0, MESSAGE, 5);
    Round5();
    RoundIs(W64, STATE_0, MESSAGE, 6);
    Round6();
    RoundIs(W64, STATE_0, MESSAGE, 7);
    Round7();
    RoundIs(W64, STATE_0, MESSAGE, 8);
    Round8();
    RoundIs(W64, STATE_0, MESSAGE, 9);
    Round9();
    RoundIs(W64, STATE_0, MESSAGE, 10);
    Round10();
    RoundIs(W64, STATE_0, MESSAGE, 11);
    Round11();
  }

  lemma Start()
    ensures Mixed(W64, STATE_0, MESSAGE, 0) == STATE_0
  {
  }

  // ----- The digest -----

  const MESSAGE_BYTES: seq<byte> := [0x61, 0x62, 0x63]

  lemma BlockWords()
    ensures MessageWords(MESSAGE_BYTES + Zeros(125)) == MESSAGE
  {
    var block := MESSAGE_BYTES + Zeros(125);
    assert block[..8] == [0x61, 0x62, 0x63, 0, 0, 0, 0, 0];
    forall i | 1 <= i < 16 ensures block[8 * i..8 * i + 8] == [0, 0, 0, 0, 0, 0, 0, 0] {
    }
  }

  lemma FirstState()
    ensures WorkVector(W64, IV, Parameters(64), 3, 0, FinalFlags(true)) == STATE_0
  {
  }

  const CHAIN: Chain := [
    0x0d4d1c983fa580ba, 0xe9f6129fb697276a, 0xb7c45a68142f214c, 0xd1a2ffdb6fbb124b,
    0x2d79ab2a39c5877d, 0x95cc3345ded552c2, 0x5a92f1dba88ad318, 0x239900d4ed8623b9]

  lemma OffsetWords()
    ensures OffsetWord(3) == 3 && OffsetWord(0) == 0
  {
  }

  /** Both halves of the last state folded back into the initial chain value. */
  lemma FoldedBack<W>(o: Arithmetic<W>, iv: seq<W>, h: seq<W>, m: seq<W>, low: W, high: W, flags: W)
    requires |iv| == 8 && |h| == 8 && |m| == 16
    ensures var v := Mixed(o, WorkVector(o, iv, h, low, high, flags), m, 96);
            Compressed(o, iv, h, m, low, high, flags) ==
            [o.xor(o.xor(h[0], v[0]), v[8]), o.xor(o.xor(h[1], v[1]), v[9]), o.xor(o.xor(h[2], v[2]), v[10]),
             o.xor(o.xor(h[3], v[3]), v[11]), o.xor(o.xor(h[4], v[4]), v[12]), o.xor(o.xor(h[5], v[5]), v[13]),
             o.xor(o.xor(h[6], v[6]), v[14]), o.xor(o.xor(h[7], v[7]), v[15])]
  {
    hide Mixed, WorkVector;
  }

  const FIRST_CHAIN: Chain := [
    0x6a09e667f2bdc948, 0xbb67ae8584caa73b, 0x3c6ef372fe94f82b, 0xa54ff53a5f1d36f1,
    0x510e527fade682d1, 0x9b05688c2b3e6c1f, 0x1f83d9abfb41bd6b, 0x5be0cd19137e2179]

  lemma FirstChain()
    ensures Parameters(64) == FIRST_CHAIN
  {
  }

  lemma LastState()
    ensures Compressed(W64, IV, Parameters(64), MESSAGE, 3, 0, FinalFlags(true)) == CHAIN
  {
    hide Mixed, WorkVector, Parameters, Compressed, FinalFlags;
    FoldedBack(W64, IV, Parameters(64), MESSAGE, 3, 0, FinalFlags(true));
    FirstState();
    Rounds();
    FirstChain();
    Folded();
  }

  lemma Folded()
    ensures var h, v := FIRST_CHAIN, STATE_12;
            [W64.xor(W64.xor(h[0], v[0]), v[8]), W64.xor(W64.xor(h[1], v[1]), v[9]), W64.xor(W64.xor(h[2], v[2]), v[10]),
             W64.xor(W64.xor(h[3], v[3]), v[11]), W64.xor(W64.xor(h[4], v[4]), v[12]), W64.xor(W64.xor(h[5], v[5]), v[13]),
             W64.xor(W64.xor(h[6], v[6]), v[14]), W64.xor(W64.xor(h[7], v[7]), v[15])] == CHAIN
  {
  }

  lemma ChainIs()
    ensures Finish(F, Parameters(64), MESSAGE_BYTES) == CHAIN
  {
    hide Compressed, MessageWords, Parameters, OffsetWord, FinalFlags;
    BlockWords();
    OffsetWords();
    LastState();
    assert Absorb(F, Parameters(64), MESSAGE_BYTES, 0) == Parameters(64);
    assert MESSAGE_BYTES[0..] == MESSAGE_BYTES;
  }

  /** The digest of "abc" with 64 bytes. */
  const DIGEST: seq<byte> :=
    [0xba, 0x80, 0xa5, 0x3f, 0x98, 0x1c, 0x4d, 0x0d]
    + [0x6a, 0x27, 0x97, 0xb6, 0x9f, 0x12, 0xf6, 0xe9]
    + [0x4c, 0x21, 0x2f, 0x14, 0x68, 0x5a, 0xc4, 0xb7]
    + [0x4b, 0x12, 0xbb, 0x6f, 0xdb, 0xff, 0xa2, 0xd1]
    + [0x7d, 0x87, 0xc5, 0x39, 0x2a, 0xab, 0x79, 0x2d]
    + [0xc2, 0x52, 0xd5, 0xde, 0x45, 0x33, 0xcc, 0x95]
    + [0x18, 0xd3, 0x8a, 0xa8, 0xdb, 0xf1, 0x92, 0x5a]
    + [0xb9, 0x23, 0x86, 0xed, 0xd4, 0x00, 0x99, 0x23]

  lemma StoreStep(c: Chain, k: nat)
    requires k < 8
    ensures StoreWords(c[..k + 1]) == StoreWords(c[..k]) + Store64(c[k])
  {
    hide Store64;
    assert c[..k + 1][..k] == c[..k];
  }

  lemma EightWords(c: Chain)
    ensures StoreWords(c) == Store64(c[0]) + Store64(c[1]) + Store64(c[2]) + Store64(c[3])
                             + Store64(c[4]) + Store64(c[5]) + Store64(c[6]) + Store64(c[7])
  {
    hide StoreWords, Store64;
    NoWords();
    assert c[..0] == [] && [] + Store64(c[0]) == Store64(c[0]) && c[..8] == c;
    StoreStep(c, 0);
    StoreStep(c, 1);
    StoreStep(c, 2);
    StoreStep(c, 3);
    StoreStep(c, 4);
    StoreStep(c, 5);
    StoreStep(c, 6);
    StoreStep(c, 7);
  }

  lemma NoWords()
    ensures StoreWords([]) == []
  {
  }

  lemma Bytes()
    ensures StoreWords(CHAIN) == DIGEST
  {
    hide StoreWords;
    EightWords(CHAIN);
    assert Store64(CHAIN[0]) == [0xba, 0x80, 0xa5, 0x3f, 0x98, 0x1c, 0x4d, 0x0d];
    assert Store64(CHAIN[1]) == [0x6a, 0x27, 0x97, 0xb6, 0x9f, 0x12, 0xf6, 0xe9];
    assert Store64(CHAIN[2]) == [0x4c, 0x21, 0x2f, 0x14, 0x68, 0x5a, 0xc4, 0xb7];
    assert Store64(CHAIN[3]) == [0x4b, 0x12, 0xbb, 0x6f, 0xdb, 0xff, 0xa2, 0xd1];
    assert Store64(CHAIN[4]) == [0x7d, 0x87, 0xc5, 0x39, 0x2a, 0xab, 0x79, 0x2d];
    assert Store64(CHAIN[5]) == [0xc2, 0x52, 0xd5, 0xde, 0x45, 0x33, 0xcc, 0x95];
    assert Store64(CHAIN[6]) == [0x18, 0xd3, 0x8a, 0xa8, 0xdb, 0xf1, 0x92, 0x5a];
    assert Store64(CHAIN[7]) == [0xb9, 0x23, 0x86, 0xed, 0xd4, 0x00, 0x99, 0x23];
  }

  /** Appendix A of RFC 7693. */
  lemma DigestOfAbc()
    ensures Digest(64, MESSAGE_BYTES) == DIGEST
  {
    hide Finish, StoreWords;
    ChainIs();
    Bytes();
  }
}
