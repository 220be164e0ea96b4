/** The parts of Argon2 that run on the host, as RFC 9106 defines them. */
module Rfc9106 {
  import opened Words
  import opened Rfc7693

  const BLOCK_SIZE: nat := 1024
  const SYNC_POINTS: nat := 4

  type uint32 = x: nat | x < 0x1_0000_0000

  /** The inputs of section 3.1 apart from the password. `salt` holds raw bytes. */
  datatype Inputs = Inputs(lanes: uint32, tagLength: uint32, memory: uint32, passes: uint32,
                           version: uint32, kind: uint32,
                           salt: seq<byte>, secret: seq<byte>, data: seq<byte>)

  /** A byte string preceded by its 32-bit length. */
  function Prefixed(s: seq<byte>): seq<byte> {
    LE32(|s|) + s
  }

  /** Section 3.2, step 1: what the 64-byte prehash is taken of. */
  function PrehashInput(i: Inputs, password: seq<byte>): seq<byte> {
    LE32(i.lanes) + LE32(i.tagLength) + LE32(i.memory) + LE32(i.passes) + LE32(i.version) + LE32(i.kind)
    + Prefixed(password) + Prefixed(i.salt) + Prefixed(i.secret) + Prefixed(i.data)
  }

  /** Where the six numbers lie: the first 24 bytes, four to each, before the password's length. */
  lemma PrehashFields(i: Inputs, password: seq<byte>)
    ensures var b := PrehashInput(i, password);
            && |b| == 40 + |password| + |i.salt| + |i.secret| + |i.data|
            && b[0..4] == LE32(i.lanes) && b[4..8] == LE32(i.tagLength) && b[8..12] == LE32(i.memory)
            && b[12..16] == LE32(i.passes) && b[16..20] == LE32(i.version) && b[20..24] == LE32(i.kind)
            && b[24..28] == LE32(|password|) && b[28..28 + |password|] == password
  {
    hide LE32;
  }

  function H0(i: Inputs, password: seq<byte>): (d: seq<byte>)
    ensures |d| == 64
  {
    Digest(64, PrehashInput(i, password))
  }

  /** Section 3.3: V_i, the chain of 64-byte digests starting from V_1. */
  function V(v1: seq<byte>, i: nat): (v: seq<byte>)
    requires |v1| == 64 && i >= 1
    ensures |v| == 64
  {
    if i == 1 then v1 else Digest(64, V(v1, i - 1))
  }

  /** Section 3.3: W_1 || ... || W_r, the first halves of the first `r` chain digests. */
  function FirstHalves(v1: seq<byte>, r: nat): (w: seq<byte>)
    requires |v1| == 64
    ensures |w| == 32 * r
  {
    if r == 0 then [] else FirstHalves(v1, r - 1) + V(v1, r)[..32]
  }

  /** Section 3.3: r = ceil(T/32) - 2. */
  function Halves(length: nat): (r: nat)
    requires length > 64
    ensures r >= 1 && 33 <= length - 32 * r <= 64
  {
    (length + 31) / 32 - 2
  }

  /** Section 3.3: the variable-length hash H'. */
  function HPrime(length: nat, input: seq<byte>): (tag: seq<byte>)
    ensures |tag| == length
  {
    if length <= 64 then Digest(length, LE32(length) + input)
    else
      var r := Halves(length);
      var v1 := Digest(64, LE32(length) + input);
      FirstHalves(v1, r) + Digest(length - 32 * r, V(v1, r))
  }

  /** H' piece by piece. Up to 64 bytes it is one digest of that length; beyond, its piece `i` of 32 bytes is half of
      the i-th 64-byte digest of a chain, and the last 33 to 64 bytes are one digest of their own length. */
  lemma HPrimePieces(length: nat, input: seq<byte>, i: nat)
    ensures length <= 64 ==> HPrime(length, input) == Digest(length, LE32(length) + input)
    ensures length > 64 ==>
      var r := (length + 31) / 32 - 2;
      var v1 := Digest(64, LE32(length) + input);
      && 33 <= length - 32 * r <= 64
      && (1 <= i <= r ==> HPrime(length, input)[32 * (i - 1)..32 * i] == V(v1, i)[..32])
      && HPrime(length, input)[32 * r..] == Digest(length - 32 * r, V(v1, r))
      && V(v1, 1) == v1 && (i >= 1 ==> V(v1, i + 1) == Digest(64, V(v1, i)))
  {
    hide Digest, LE32;
    if length > 64 {
      var r, v1 := Halves(length), Digest(64, LE32(length) + input);
      if 1 <= i <= r {
        HalfAt(v1, r, i);
        assert HPrime(length, input)[32 * (i - 1)..32 * i] == FirstHalves(v1, r)[32 * (i - 1)..32 * i];
      }
    }
  }

  lemma {:induction false} HalfAt(v1: seq<byte>, r: nat, i: nat)
    requires |v1| == 64 && 1 <= i <= r
    ensures FirstHalves(v1, r)[32 * (i - 1)..32 * i] == V(v1, i)[..32]
  {
    hide Digest;
    if i < r {
      HalfAt(v1, r - 1, i);
      assert FirstHalves(v1, r)[32 * (i - 1)..32 * i] == FirstHalves(v1, r - 1)[32 * (i - 1)..32 * i];
    }
  }

  /** Section 3.2, steps 3 and 4: the block in column `column` of lane `lane`. */
  function FirstBlock(h0: seq<byte>, column: nat, lane: nat): (b: seq<byte>)
    ensures |b| == BLOCK_SIZE
  {
    HPrime(BLOCK_SIZE, h0 + LE32(column) + LE32(lane))
  }

  /** The blocks of one column, lane after lane. */
  function Column(h0: seq<byte>, column: nat, lanes: nat): (b: seq<byte>)
    ensures |b| == 1024 * lanes
  {
    if lanes == 0 then [] else Column(h0, column, lanes - 1) + FirstBlock(h0, column, lanes - 1)
  }

  lemma {:induction false} ColumnAt(h0: seq<byte>, column: nat, lanes: nat, lane: nat)
    requires lane < lanes
    ensures Column(h0, column, lanes)[1024 * lane..1024 * lane + 1024] == FirstBlock(h0, column, lane)
  {
    hide FirstBlock;
    if lane < lanes - 1 {
      ColumnAt(h0, column, lanes - 1, lane);
      assert Column(h0, column, lanes)[1024 * lane..1024 * lane + 1024]
          == Column(h0, column, lanes - 1)[1024 * lane..1024 * lane + 1024];
    }
  }

  /** Where the host buffer keeps block (column, lane). */
  function Offset(lanes: nat, column: nat, lane: nat): (at: nat)
    requires column < 2 && lane < lanes
    ensures at + 1024 <= 2048 * lanes
    ensures at == if column == 0 then 1024 * lane else 1024 * lanes + 1024 * lane
  {
    (column * lanes + lane) * 1024
  }

  /** Section 3.2, steps 3 and 4 laid out as in the host buffer. */
  lemma ColumnsAt(h0: seq<byte>, lanes: nat, column: nat, lane: nat)
    requires lane < lanes && column < 2
    ensures var at := Offset(lanes, column, lane);
            (Column(h0, 0, lanes) + Column(h0, 1, lanes))[at..at + 1024] == FirstBlock(h0, column, lane)
  {
    hide FirstBlock, Offset;
    ColumnAt(h0, column, lanes, lane);
    var both, at := Column(h0, 0, lanes) + Column(h0, 1, lanes), Offset(lanes, column, lane);
    if column == 0 {
      assert both[at..at + 1024] == Column(h0, 0, lanes)[1024 * lane..1024 * lane + 1024];
    } else {
      assert both[at..at + 1024] == Column(h0, 1, lanes)[1024 * lane..1024 * lane + 1024];
    }
  }

  /** Section 3.2, step 7: the byte-wise exclusive or of `lanes` consecutive blocks. */
  function XorOfBlocks(memory: seq<byte>, lanes: nat): (c: seq<byte>)
    requires lanes >= 1 && 1024 * lanes <= |memory|
    ensures |c| == 1024
  {
    if lanes == 1 then memory[..1024]
    else XorBytes(XorOfBlocks(memory, lanes - 1), memory[1024 * (lanes - 1)..1024 * lanes])
  }

  /** Byte `j` of the fold is byte `j` of the first block xored with byte `j` of every other one. */
  lemma XorOfBlocksAt(memory: seq<byte>, lanes: nat, j: nat)
    requires lanes >= 1 && 1024 * lanes <= |memory| && j < 1024
    ensures XorOfBlocks(memory, 1)[j] == memory[j]
    ensures 1024 * lanes + j < |memory| && 1024 * (lanes + 1) <= |memory| ==>
      XorOfBlocks(memory, lanes + 1)[j] == XorOfBlocks(memory, lanes)[j] ^ memory[1024 * lanes + j]
  {
  }
}
