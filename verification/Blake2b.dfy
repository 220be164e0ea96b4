/** The streaming BLAKE2b of blake2b.cpp: blocks are compressed lazily, so a full last block waits in `buf`. */
module Blake2b {
  import opened Words
  import opened Rfc7693

  const TWO_128: int := 0x1_0000_0000_0000_0000_0000_0000_0000_0000

  /** The twelve rows of the source's permutation table; the last two repeat the first two. */
  const TABLE: seq<schedule> := SIGMA + [SIGMA_0, SIGMA_1]

  lemma TableRepeats(r: nat)
    requires r < ROUNDS
    ensures |TABLE| == ROUNDS && TABLE[r] == SIGMA[r % 10]
  {
    if r >= 10 {
      assert TABLE[r] == [SIGMA_0, SIGMA_1][r - 10];
    }
  }

  /** A byte offset and its value modulo 2^128 have the same two words. */
  lemma WrappedWords(t: nat)
    ensures t % TWO_128 % TWO_64 == t % TWO_64
    ensures t % TWO_128 / TWO_64 % TWO_64 == t / TWO_64 % TWO_64
  {
    var q, u := t / TWO_128, t % TWO_128;
    assert t == q * TWO_64 * TWO_64 + u;
    assert t / TWO_64 == q * TWO_64 + u / TWO_64;
  }

  /** A counter that wrapped at 2^128 compresses like the true offset. */
  lemma WrappedOffset(h: Chain, block: Block, t: nat, last: bool)
    ensures F(h, block, t % TWO_128, last) == F(h, block, t, last)
  {
    hide F;
    WrappedWords(t);
    OffsetWraps(h, block, t % TWO_128, t, last);
  }

  /** The digest length fits below the two fixed parameter bits, so or-ing it in is xor-ing it in. */
  lemma ParameterState(n: nat)
    requires n <= OUT_BYTES
    ensures Parameters(n) == IV[0 := IV[0] ^ (n as word | (1 << 16) | (1 << 24))]
  {
    ParameterBits(n as word);
  }

  lemma ParameterBits(n: word)
    requires n <= 64
    ensures n | (1 << 16) | (1 << 24) == 0x0101_0000 ^ n
  {
  }

  class Blake2b {
    const h: array<word>
    var t0: uint64
    var t1: uint64
    const buf: array<byte>
    var bufLen: nat

    // What the fields stand for: the bytes fed since the last Init, and the digest length asked for.
    ghost var absorbed: seq<byte>
    ghost var outLen: nat

    /** The counter as one number. */
    ghost function Counter(): (c: nat)
      reads this`t0, this`t1
    {
      t1 as nat * TWO_64 + t0 as nat
    }

    ghost predicate Shape()
      reads this
    {
      h.Length == 8 && buf.Length == 128 && bufLen <= 128 && outLen <= OUT_BYTES
    }

    /** The first `k` blocks of `whole` are folded into `h` and counted. */
    ghost predicate Folded(whole: seq<byte>, k: nat)
      requires h.Length == 8 && outLen <= OUT_BYTES && 128 * k <= |whole|
      reads this`t0, this`t1, this`outLen, h
    {
      h[..] == Absorb(F, Parameters(outLen), whole, k) && Counter() == 128 * k % TWO_128
    }

    /** Everything but the held-back tail is folded into `h`; counter plus tail is the number of bytes absorbed. */
    ghost predicate Absorbing()
      reads this, h, buf
    {
      && Shape()
      && var k := LeadingBlocks(|absorbed|);
      && Folded(absorbed, k)
      && buf[..bufLen] == absorbed[128 * k..]
    }

    constructor ()
      ensures Shape() && fresh(h) && fresh(buf)
    {
      h := new word[8](_ => 0);
      t0, t1 := 0, 0;
      buf := new byte[128](_ => 0);
      bufLen := 0;
      absorbed, outLen := [], 0;
    }

    method Init(outlen: nat)
      requires Shape() && outlen <= OUT_BYTES
      modifies this, h
      ensures Absorbing() && absorbed == [] && outLen == outlen
    {
      hide Parameters;
      t1, t0 := 0, 0;
      bufLen := 0;
      LoadParameters(outlen as word | (1 << 16) | (1 << 24));
      ParameterState(outlen);
      absorbed, outLen := [], outlen;
    }

    method LoadParameters(p: word)
      requires h.Length == 8
      modifies h
      ensures h[..] == IV[0 := IV[0] ^ p]
    {
      forall i | 0 <= i < 8 {
        h[i] := IV[i];
      }
      assert h[..] == IV;
      h[0] := h[0] ^ p;
    }

    method IncrementCounter(inc: nat)
      requires inc < TWO_64
      modifies this`t0, this`t1
      ensures Counter() == (old(Counter()) + inc) % TWO_128
    {
      t0 := ((t0 as nat + inc) % TWO_64) as uint64;
      t1 := ((t1 as nat + (if t0 as nat < inc then 1 else 0)) % TWO_64) as uint64;
      CarryAdd(old(t0) as nat, old(t1) as nat, inc);
    }

    /** The G macro: four lanes of `v` are mixed in place with two words of the message. */
    static method Mix<W>(o: Arithmetic<W>, v: array<W>, a: index, b: index, c: index, d: index, x: W, y: W)
      requires v.Length == 16 && a != b && a != c && a != d && b != c && b != d && c != d
      modifies v
      ensures var q := G(o, Quad(old(v[a]), old(v[b]), old(v[c]), old(v[d])), x, y);
              v[..] == old(v[..])[a := q.a][b := q.b][c := q.c][d := q.d]
    {
      v[a] := o.add(o.add(v[a], v[b]), x);
      v[d] := o.r1(o.xor(v[d], v[a]));
      v[c] := o.add(v[c], v[d]);
      v[b] := o.r2(o.xor(v[b], v[c]));
      v[a] := o.add(o.add(v[a], v[b]), y);
      v[d] := o.r3(o.xor(v[d], v[a]));
      v[c] := o.add(v[c], v[d]);
      v[b] := o.r4(o.xor(v[b], v[c]));
    }

    /** Line `i` of the ROUND macro. */
    static method MixCall<W>(o: Arithmetic<W>, v: array<W>, ghost w: seq<W>, m: seq<W>, r: nat, i: nat)
      requires v.Length == 16 && |w| == 16 && |m| == 16 && r < ROUNDS && i < 8
      requires v[..] == Mixed(o, w, m, 8 * r + i)
      modifies v
      ensures v[..] == Mixed(o, w, m, 8 * r + i + 1)
    {
      LanesDistinct(i);
      TableRepeats(r);
      var (a, b, c, d) := LANES[i];
      var x, y := m[TABLE[r][2 * i]], m[TABLE[r][2 * i + 1]];
      Mix(o, v, a, b, c, d, x, y);
      MixedStep(o, w, m, r, i);
    }

    /** The ROUND macro: eight lines. */
    static method MixRound<W>(o: Arithmetic<W>, v: array<W>, ghost w: seq<W>, m: seq<W>, r: nat)
      requires v.Length == 16 && |w| == 16 && |m| == 16 && r < ROUNDS && v[..] == Mixed(o, w, m, 8 * r)
      modifies v
      ensures v[..] == Mixed(o, w, m, 8 * (r + 1))
    {
      hide Mixed;
      for i := 0 to 8
        invariant v[..] == Mixed(o, w, m, 8 * r + i)
      {
        MixCall(o, v, w, m, r, i);
      }
    }

    static method MixRounds<W>(o: Arithmetic<W>, v: array<W>, m: seq<W>)
      requires v.Length == 16 && |m| == 16
      modifies v
      ensures v[..] == Mixed(o, old(v[..]), m, |LANES| * ROUNDS)
    {
      hide Mixed;
      ghost var w := v[..];
      MixedStart(o, w, m);
      for r := 0 to ROUNDS
        invariant v[..] == Mixed(o, w, m, 8 * r)
      {
        MixRound(o, v, w, m, r);
      }
    }

    /** The sixteen local words at the start of a compression. */
    static method StartVector<W>(o: Arithmetic<W>, iv: seq<W>, h: array<W>, low: W, high: W, flags: W)
        returns (v: array<W>)
      requires h.Length == 8 && |iv| == 8
      ensures fresh(v) && v.Length == 16 && v[..] == WorkVector(o, iv, h[..], low, high, flags)
    {
      v := new W[16](i requires 0 <= i < 16 && h.Length == 8 reads h => if i < 8 then h[i] else iv[i - 8]);
      assert v[..] == h[..] + iv;
      v[12] := o.xor(v[12], low);
      v[13] := o.xor(v[13], high);
      v[14] := o.xor(v[14], flags);
    }

    static method CompressWords<W>(o: Arithmetic<W>, iv: seq<W>, h: array<W>, m: seq<W>, low: W, high: W, flags: W)
      requires h.Length == 8 && |iv| == 8 && |m| == 16
      modifies h
      ensures h[..] == Compressed(o, iv, old(h[..]), m, low, high, flags)
    {
      hide Mixed, WorkVector;
      var v := StartVector(o, iv, h, low, high, flags);
      MixRounds(o, v, m);
      for i := 0 to 8
        invariant v[..] == Mixed(o, WorkVector(o, iv, old(h[..]), low, high, flags), m, |LANES| * ROUNDS)
        invariant forall j :: 0 <= j < i ==> h[j] == o.xor(o.xor(old(h[j]), v[j]), v[j + 8])
        invariant forall j :: i <= j < 8 ==> h[j] == old(h[j])
      {
        h[i] := o.xor(o.xor(h[i], v[i]), v[i + 8]);
      }
    }

    method Compress(block: Block, last: bool)
      requires h.Length == 8
      modifies h
      ensures h[..] == F(old(h[..]), block, Counter(), last)
    {
      hide Compressed, MessageWords, OffsetWord, FinalFlags;
      CompressWords(W64, IV, h, MessageWords(block), OffsetWord(t0), OffsetWord(t1), FinalFlags(last));
      CounterWords(old(h[..]), block, t0, t1, last);
    }

    /** Count and compress one more block of `whole`. */
    method AbsorbBlock(block: Block, ghost whole: seq<byte>, ghost k: nat)
      requires h.Length == 8 && outLen <= OUT_BYTES && 128 * (k + 1) <= |whole| && block == whole[128 * k..128 * (k + 1)] && Folded(whole, k)
      modifies this`t0, this`t1, h
      ensures Folded(whole, k + 1)
    {
      hide F, Parameters, Counter;
      IncrementCounter(128);
      assert Counter() == 128 * (k + 1) % TWO_128;
      WrappedOffset(h[..], block, 128 * (k + 1), false);
      Compress(block, false);
    }

    /** More than a block is pending: complete the buffered one, then compress straight from the input while
        more than a block is left. `bin` is how much of the input was used up. */
    method Drain(input: seq<byte>, ghost whole: seq<byte>) returns (bin: nat, ghost k: nat)
      requires Absorbing() && whole == absorbed + input && bufLen + |input| > 128
      modifies this`t0, this`t1, this`bufLen, h, buf
      ensures Shape() && bufLen == 0 && 0 < |input| - bin <= 128
      ensures 128 * k <= |whole| && Folded(whole, k) && whole[128 * k..] == input[bin..]
    {
      hide F, Folded;
      k := LeadingBlocks(|absorbed|);
      FoldedExtends(input, k);
      bin := 128 - bufLen;
      Tail(absorbed, input, 128 * k, bin);
      Memcpy(buf, bufLen, input[..bin]);
      AbsorbBlock(buf[..], whole, k);
      bufLen, k := 0, k + 1;
      while |input| - bin > 128
        invariant Shape() && bufLen == 0 && outLen == old(outLen)
        invariant bin < |input| && 128 * k <= |whole| && whole[128 * k..] == input[bin..]
        invariant Folded(whole, k)
      {
        NextBlock(whole, 128 * k, input, bin);
        AbsorbBlock(input[bin..bin + 128], whole, k);
        bin, k := bin + 128, k + 1;
      }
    }

    lemma FoldedExtends(input: seq<byte>, k: nat)
      requires Shape() && 128 * k <= |absorbed| && Folded(absorbed, k)
      ensures Folded(absorbed + input, k)
    {
      hide F;
      AbsorbPrefix(F, Parameters(outLen), absorbed, input, k);
    }

    /** Feeding more bytes: the fields now stand for the old bytes followed by the new ones. */
    method Update(input: seq<byte>)
      requires Absorbing()
      modifies this, h, buf
      ensures Absorbing() && absorbed == old(absorbed) + input && outLen == old(outLen)
    {
      hide F, Folded;
      ghost var whole, k := absorbed + input, LeadingBlocks(|absorbed|);
      var bin := 0;
      if bufLen + |input| > 128 {
        bin, k := Drain(input, whole);
      } else {
        FoldedExtends(input, k);
      }
      assert whole[128 * k..] == buf[..bufLen] + input[bin..];
      Memcpy(buf, bufLen, input[bin..]);
      bufLen := bufLen + |input| - bin;
      absorbed := whole;
      assert k == LeadingBlocks(|whole|);
    }

    /** store64 of the eight words of `h`, from `out[at]` on. */
    method StoreState(out: array<byte>, at: nat)
      requires h.Length == 8 && at + 64 <= out.Length
      modifies out
      ensures out[..] == Written(old(out[..]), at, StoreWords(h[..]))
    {
      hide StoreWords, Store64;
      ghost var words, before, after := h[..], out[..at], out[at + 64..];
      StoreWordsStep(words, 0);
      for i := 0 to 8
        invariant h[..] == words && out[..at] == before && out[at + 64..] == after
        invariant out[at..at + 8 * i] == StoreWords(words[..i])
      {
        var b := Store64(h[i]);
        StoreWordsStep(words, i);
        forall j | 0 <= j < 8 {
          out[at + 8 * i + j] := b[j];
        }
        assert out[at..at + 8 * (i + 1)] == out[at..at + 8 * i] + b;
      }
      assert words[..8] == words;
    }

    /** memcpy of the first `n` bytes of the stored state. */
    method StorePrefix(out: array<byte>, at: nat, n: nat)
      requires h.Length == 8 && n <= OUT_BYTES && at + n <= out.Length
      modifies out
      ensures out[..] == Written(old(out[..]), at, StoreWords(h[..])[..n])
    {
      hide StoreWords, Written;
      ghost var words := h[..];
      TakeAll(StoreWords(words), OUT_BYTES);
      if n == OUT_BYTES {
        StoreState(out, at);
      } else {
        var buffer := new byte[OUT_BYTES](_ => 0);
        WrittenAll(buffer[..], StoreWords(words));
        StoreState(buffer, 0);
        Memcpy(out, at, buffer[..n]);
      }
      assert h[..] == words;
    }

    /** Pad the tail with zeros, compress it as the last block and write the first `n` bytes of the state. */
    method Final(out: array<byte>, at: nat, n: nat)
      requires Absorbing() && n <= OUT_BYTES && at + n <= out.Length && out != buf
      modifies this, h, buf, out
      ensures Shape()
      ensures out[..] == Written(old(out[..]), at, StoreWords(Finish(F, Parameters(old(outLen)), old(absorbed)))[..n])
    {
      hide F, StoreWords, Finish, Parameters, Absorb, Written;
      CompressLast();
      StorePrefix(out, at, n);
    }

    /** Counting the tail gives the message length, and compressing it, padded, finishes the hash. */
    lemma LastBlock()
      requires Absorbing()
      ensures Shape() && (Counter() + bufLen) % TWO_128 == |absorbed| % TWO_128
      ensures F(h[..], buf[..bufLen] + Zeros(128 - bufLen), |absorbed|, true) == Finish(F, Parameters(outLen), absorbed)
    {
      hide F, Parameters, Counter, Absorb, Finish;
      FinishIs(Parameters(outLen), absorbed);
      assert |absorbed| == 128 * LeadingBlocks(|absorbed|) + bufLen;
    }

    method CompressLast()
      requires Absorbing()
      modifies this, h, buf
      ensures Shape() && h[..] == Finish(F, Parameters(old(outLen)), old(absorbed))
    {
      hide F, Parameters, Counter, Finish, Absorbing;
      LastBlock();
      ghost var length, chain, block := |absorbed|, h[..], buf[..bufLen] + Zeros(128 - bufLen);
      IncrementCounter(bufLen);
      PadTail();
      WrappedOffset(chain, block, length, true);
      Compress(buf[..], true);
    }

    /** memset of the rest of the buffer. */
    method PadTail()
      requires buf.Length == 128 && bufLen <= 128
      modifies buf
      ensures buf[..] == old(buf[..bufLen]) + Zeros(128 - bufLen)
    {
      forall i | bufLen <= i < 128 {
        buf[i] := 0;
      }
    }
  }

  lemma FinishIs(start: Chain, message: seq<byte>)
    ensures var k := LeadingBlocks(|message|);
            var rest := message[128 * k..];
            Finish(F, start, message) == F(Absorb(F, start, message, k), rest + Zeros(128 - |rest|), |message|, true)
  {
    hide F, Absorb;
  }

  lemma StoreWordsStep(words: seq<word>, i: nat)
    requires i < |words|
    ensures StoreWords(words[..0]) == []
    ensures StoreWords(words[..i + 1]) == StoreWords(words[..i]) + Store64(words[i])
  {
    hide Store64;
    assert words[..i + 1][..i] == words[..i];
  }

  /** However the message is cut into pieces, feeding them one by one gives the one-shot digest. */
  method HashChunks(n: nat, chunks: seq<seq<byte>>) returns (out: array<byte>)
    requires n <= OUT_BYTES
    ensures fresh(out) && out[..] == Digest(n, Concat(chunks))
  {
    hide F, StoreWords, Finish, Parameters;
    var blake := new Blake2b();
    out := new byte[n](_ => 0);
    blake.Init(n);
    for i := 0 to |chunks|
      invariant blake.Absorbing() && blake.outLen == n && blake.absorbed == Concat(chunks[..i])
    {
      assert chunks[..i + 1][..i] == chunks[..i];
      blake.Update(chunks[i]);
    }
    assert chunks[..|chunks|] == chunks;
    blake.Final(out, 0, n);
  }

  function Concat(chunks: seq<seq<byte>>): seq<byte> {
    if chunks == [] then [] else Concat(chunks[..|chunks| - 1]) + chunks[|chunks| - 1]
  }

  lemma Tail(a: seq<byte>, b: seq<byte>, from: nat, n: nat)
    requires from <= |a| && n <= |b|
    ensures (a + b)[from..|a| + n] == a[from..] + b[..n]
    ensures (a + b)[|a| + n..] == b[n..]
  {
  }

  lemma NextBlock(a: seq<byte>, i: nat, b: seq<byte>, j: nat)
    requires i <= |a| && j <= |b| && a[i..] == b[j..] && |b| - j > 128
    ensures |a| - i > 128 && a[i..i + 128] == b[j..j + 128] && a[i + 128..] == b[j + 128..]
  {
    assert a[i..i + 128] == a[i..][..128] && b[j..j + 128] == b[j..][..128];
    assert a[i + 128..] == a[i..][128..] && b[j + 128..] == b[j..][128..];
  }

  /** The counter's two words are the offset the reference is given. */
  lemma CounterWords(h: Chain, block: Block, t0: uint64, t1: uint64, last: bool)
    ensures F(h, block, t1 as nat * TWO_64 + t0 as nat, last)
         == Compressed(W64, IV, h, MessageWords(block), OffsetWord(t0), OffsetWord(t1), FinalFlags(last))
  {
    hide Compressed, MessageWords, OffsetWord, FinalFlags;
    var t := t1 as nat * TWO_64 + t0 as nat;
    assert t % TWO_64 == t0 as nat && t / TWO_64 % TWO_64 == t1 as nat;
    assert (t % TWO_64) as uint64 == t0 && (t / TWO_64 % TWO_64) as uint64 == t1;
  }

  lemma MixedStart<W>(o: Arithmetic<W>, w: seq<W>, m: seq<W>)
    requires |w| == 16 && |m| == 16
    ensures Mixed(o, w, m, 0) == w
  {
  }

  lemma MixedStep<W>(o: Arithmetic<W>, w: seq<W>, m: seq<W>, r: nat, i: nat)
    requires |w| == 16 && |m| == 16 && i < 8
    ensures var s := SIGMA[r % 10];
            Mixed(o, w, m, 8 * r + i + 1) == MixLane(o, Mixed(o, w, m, 8 * r + i), i, m[s[2 * i]], m[s[2 * i + 1]])
  {
    hide MixLane;
    assert (8 * r + i) / 8 == r && (8 * r + i) % 8 == i;
  }

  lemma LanesDistinct(i: nat)
    requires i < 8
    ensures var (a, b, c, d) := LANES[i]; a != b && a != c && a != d && b != c && b != d && c != d
  {
  }

  lemma CarryAdd(t0: nat, t1: nat, inc: nat)
    requires t0 < TWO_64 && t1 < TWO_64 && inc < TWO_64
    ensures var low := (t0 + inc) % TWO_64;
            var high := (t1 + (if low < inc then 1 else 0)) % TWO_64;
            high * TWO_64 + low == (t1 * TWO_64 + t0 + inc) % TWO_128
  {
    var low := (t0 + inc) % TWO_64;
    if low < inc {
      assert low == t0 + inc - TWO_64;
      if t1 == TWO_64 - 1 {
        assert t1 * TWO_64 + t0 + inc == TWO_128 + low;
      }
    } else {
      assert low == t0 + inc;
    }
  }
}
