/** BLAKE2b without a key, as RFC 7693 defines it: the reference the streaming hash is proved against. */
module Rfc7693 {
  import opened Words

  const OUT_BYTES: nat := 64

  /** Section 2.6. */
  const IV: seq<word> := [
    0x6a09e667f3bcc908, 0xbb67ae8584caa73b, 0x3c6ef372fe94f82b, 0xa54ff53a5f1d36f1,
    0x510e527fade682d1, 0x9b05688c2b3e6c1f, 0x1f83d9abfb41bd6b, 0x5be0cd19137e2179]

  type index = i: nat | i < 16

  /** A permutation row: it selects the message words of one round. */
  type schedule = s: seq<index> | |s| == 16 witness seq(16, _ => 0)

  /** Section 2.7. */
  const SIGMA_0: schedule := [0, 1, 2, 3, 4, 5, 6, 7, 8, 9, 10, 11, 12, 13, 14, 15]
  const SIGMA_1: schedule := [14, 10, 4, 8, 9, 15, 13, 6, 1, 12, 0, 2, 11, 7, 5, 3]
  const SIGMA_2: schedule := [11, 8, 12, 0, 5, 2, 15, 13, 10, 14, 3, 6, 7, 1, 9, 4]
  const SIGMA_3: schedule := [7, 9, 3, 1, 13, 12, 11, 14, 2, 6, 5, 10, 4, 0, 15, 8]
  const SIGMA_4: schedule := [9, 0, 5, 7, 2, 4, 10, 15, 14, 1, 11, 12, 6, 8, 3, 13]
  const SIGMA_5: schedule := [2, 12, 6, 10, 0, 11, 8, 3, 4, 13, 7, 5, 15, 14, 1, 9]
  const SIGMA_6: schedule := [12, 5, 1, 15, 14, 13, 4, 10, 0, 7, 6, 3, 9, 2, 8, 11]
  const SIGMA_7: schedule := [13, 11, 7, 14, 12, 1, 3, 9, 5, 0, 15, 4, 8, 6, 2, 10]
  const SIGMA_8: schedule := [6, 15, 14, 9, 11, 3, 0, 8, 12, 2, 13, 7, 1, 4, 10, 5]
  const SIGMA_9: schedule := [10, 2, 8, 4, 7, 6, 1, 5, 15, 11, 9, 14, 3, 12, 13, 0]
  const SIGMA: seq<schedule> := [SIGMA_0, SIGMA_1, SIGMA_2, SIGMA_3, SIGMA_4, SIGMA_5, SIGMA_6, SIGMA_7, SIGMA_8, SIGMA_9]

  const ROUNDS: nat := 12

  /** Section 2.1: word addition, exclusive or, and the right rotations by R1 to R4. The mixing below is
      defined for any word type, as the RFC defines it for 64-bit and 32-bit words. */
  datatype Arithmetic<!W> = Arithmetic(add: (W, W) -> W, xor: (W, W) -> W,
                                       r1: W -> W, r2: W -> W, r3: W -> W, r4: W -> W)

  const W64: Arithmetic<word> := Arithmetic(
    (x: word, y: word) => x + y, (x: word, y: word) => x ^ y,
    (x: word) => x.RotateRight(32), (x: word) => x.RotateRight(24),
    (x: word) => x.RotateRight(16), (x: word) => x.RotateRight(63))

  /** Section 3.1: the mixing function G on the four words it touches. */
  datatype Quad<W> = Quad(a: W, b: W, c: W, d: W)

  function G<W>(o: Arithmetic<W>, q: Quad<W>, x: W, y: W): Quad<W> {
    var a1 := o.add(o.add(q.a, q.b), x);
    var d1 := o.r1(o.xor(q.d, a1));
    var c1 := o.add(q.c, d1);
    var b1 := o.r2(o.xor(q.b, c1));
    var a2 := o.add(o.add(a1, b1), y);
    var d2 := o.r3(o.xor(d1, a2));
    var c2 := o.add(c1, d2);
    Quad(a2, o.r4(o.xor(b1, c2)), c2, d2)
  }

  /** Section 3.2: the eight calls of G in a round, four columns and then four diagonals. */
  const LANES: seq<(index, index, index, index)> := [
    (0, 4, 8, 12), (1, 5, 9, 13), (2, 6, 10, 14), (3, 7, 11, 15),
    (0, 5, 10, 15), (1, 6, 11, 12), (2, 7, 8, 13), (3, 4, 9, 14)]

  /** G applied in place to the lanes of call `i`. */
  function MixLane<W>(o: Arithmetic<W>, v: seq<W>, i: nat, x: W, y: W): (v': seq<W>)
    requires |v| == 16 && i < 8
    ensures |v'| == 16
  {
    var (a, b, c, d) := LANES[i];
    var q := G(o, Quad(v[a], v[b], v[c], v[d]), x, y);
    v[a := q.a][b := q.b][c := q.c][d := q.d]
  }

  /** The work vector after the first `n` calls of G, eight to a round. */
  function Mixed<W>(o: Arithmetic<W>, v: seq<W>, m: seq<W>, n: nat): (v': seq<W>)
    requires |v| == 16 && |m| == 16
    ensures |v'| == 16
  {
    if n == 0 then v
    else
      var k, s := (n - 1) % 8, SIGMA[(n - 1) / 8 % 10];
      MixLane(o, Mixed(o, v, m, n - 1), k, m[s[2 * k]], m[s[2 * k + 1]])
  }

  /** The sixteen little-endian words of a block. */
  function MessageWords(block: seq<byte>): (m: seq<word>)
    requires |block| == 128
    ensures |m| == 16
  {
    seq(16, i requires 0 <= i < 16 => Load64(block[8 * i..8 * i + 8]))
  }

  /** Section 3.2: the local work vector, with the two words of the byte offset and the finalisation flags. */
  function WorkVector<W>(o: Arithmetic<W>, iv: seq<W>, h: seq<W>, low: W, high: W, flags: W): (v: seq<W>)
    requires |iv| == 8 && |h| == 8
    ensures |v| == 16
  {
    h + iv[4 := o.xor(iv[4], low)][5 := o.xor(iv[5], high)][6 := o.xor(iv[6], flags)]
  }

  /** Section 3.2: both halves of the mixed vector are folded back into the chain value. */
  function Compressed<W>(o: Arithmetic<W>, iv: seq<W>, h: seq<W>, m: seq<W>, low: W, high: W, flags: W): (h': seq<W>)
    requires |iv| == 8 && |h| == 8 && |m| == 16
    ensures |h'| == 8
  {
    var v := Mixed(o, WorkVector(o, iv, h, low, high, flags), m, |LANES| * ROUNDS);
    seq(8, i requires 0 <= i < 8 => o.xor(o.xor(h[i], v[i]), v[i + 8]))
  }

  type Chain = s: seq<word> | |s| == 8 witness [0, 0, 0, 0, 0, 0, 0, 0]
  type Block = b: seq<byte> | |b| == 128 witness Zeros(128)

  function OffsetWord(x: uint64): word {
    x as word
  }

  function FinalFlags(last: bool): word {
    if last then 0xFFFF_FFFF_FFFF_FFFF else 0
  }

  /** Section 3.2: the last block inverts every bit of the word it flags, the other blocks leave it. */
  lemma FlagsInvert(x: word)
    ensures x ^ FinalFlags(true) == !x
    ensures x ^ FinalFlags(false) == x
  {
  }

  /** Where each input of a call of F lies in the work vector: the chain value, the initial values, the low half of
      the offset over word 12 and the high half over word 13; word 14 is inverted for the last block alone. */
  lemma WorkVectorWords(h: Chain, low: word, high: word, last: bool)
    ensures var v := WorkVector(W64, IV, h, low, high, FinalFlags(last));
            && v[..8] == h && v[8..12] == IV[..4] && v[15] == 0x5be0cd19137e2179
            && v[12] == 0x510e527fade682d1 ^ low && v[13] == 0x9b05688c2b3e6c1f ^ high
            && v[14] == if last then !0x1f83d9abfb41bd6b else 0x1f83d9abfb41bd6b
  {
    FlagsInvert(0x1f83d9abfb41bd6b);
  }

  function AtOffset(h: Chain, block: Block, low: uint64, high: uint64, last: bool): Chain {
    Compressed(W64, IV, h, MessageWords(block), OffsetWord(low), OffsetWord(high), FinalFlags(last))
  }

  /** Section 3.2: the compression function F on a chain value, a block, the bytes so far and the final-block flag. */
  function F(h: Chain, block: Block, t: nat, last: bool): Chain {
    AtOffset(h, block, (t % TWO_64) as uint64, (t / TWO_64 % TWO_64) as uint64, last)
  }

  /** What the fold below may be instantiated with. Its laws hold for every compression function. */
  type Compression = (Chain, Block, nat, bool) -> Chain

  function Zeros(n: nat): (z: seq<byte>)
    ensures |z| == n
  {
    seq(n, _ => 0)
  }

  /** Section 2.5: the initial state for a digest of `outLen` bytes and no key. */
  function Parameters(outLen: nat): Chain
    requires outLen <= OUT_BYTES
  {
    IV[0 := IV[0] ^ (0x0101_0000 ^ (outLen as word))]
  }

  /** How many blocks precede the last one; a full last block is held back for the final call. */
  function LeadingBlocks(length: nat): (k: nat)
    ensures 128 * k <= length <= 128 * k + 128
  {
    if length == 0 then 0 else (length - 1) / 128
  }

  /** Section 3.3: the first `k` blocks folded into `h`, each with the count of bytes up to its end. */
  function Absorb(f: Compression, h: Chain, message: seq<byte>, k: nat): Chain
    requires 128 * k <= |message|
  {
    if k == 0 then h
    else f(Absorb(f, h, message, k - 1), message[128 * (k - 1)..128 * k], 128 * k, false)
  }

  /** Section 3.3: the chain value after the last block, zero-padded and flagged. */
  function Finish(f: Compression, h: Chain, message: seq<byte>): Chain {
    var k := LeadingBlocks(|message|);
    var rest := message[128 * k..];
    f(Absorb(f, h, message, k), rest + Zeros(128 - |rest|), |message|, true)
  }

  /** The fold written out for messages of one and of two blocks: every block goes in with the number of bytes up to
      its end, the last one padded with zeros and flagged, and a full block at the end is the last one. */
  lemma OneOrTwoBlocks(f: Compression, h: Chain, message: seq<byte>)
    ensures |message| <= 128 ==> Finish(f, h, message) == f(h, message + Zeros(128 - |message|), |message|, true)
    ensures 128 < |message| <= 256 ==>
      Finish(f, h, message) == f(f(h, message[..128], 128, false), message[128..] + Zeros(256 - |message|), |message|, true)
  {
    if |message| <= 128 {
      assert message[0..] == message;
    } else if |message| <= 256 {
      assert message[0..128] == message[..128];
      assert Absorb(f, h, message, 1) == f(Absorb(f, h, message, 0), message[0..128], 128, false);
    }
  }

  function StoreWords(words: seq<word>): (b: seq<byte>)
    ensures |b| == 8 * |words|
  {
    if words == [] then [] else StoreWords(words[..|words| - 1]) + Store64(words[|words| - 1])
  }

  /** Section 3.3: the digest of `message`. */
  function Digest(outLen: nat, message: seq<byte>): (d: seq<byte>)
    requires outLen <= OUT_BYTES
    ensures |d| == outLen
  {
    StoreWords(Finish(F, Parameters(outLen), message))[..outLen]
  }

  /** Bytes after the first `k` blocks do not influence their fold. */
  lemma {:induction false} AbsorbPrefix(f: Compression, h: Chain, a: seq<byte>, b: seq<byte>, k: nat)
    requires 128 * k <= |a|
    ensures Absorb(f, h, a + b, k) == Absorb(f, h, a, k)
  {
    if k > 0 {
      AbsorbPrefix(f, h, a, b, k - 1);
      assert (a + b)[128 * (k - 1)..128 * k] == a[128 * (k - 1)..128 * k];
    }
  }

  /** A 128-bit offset enters the compression function only through its two words. */
  lemma OffsetWraps(h: Chain, block: Block, t: nat, u: nat, last: bool)
    requires t % TWO_64 == u % TWO_64 && t / TWO_64 % TWO_64 == u / TWO_64 % TWO_64
    ensures F(h, block, t, last) == F(h, block, u, last)
  {
    hide AtOffset;
  }
}
