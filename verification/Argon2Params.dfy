/** The host side of Argon2 in argon2params.cpp: everything before and after the memory-filling passes. */
module Argon2Params {
  import opened Common
  import opened Words
  import opened Rfc7693
  import opened Rfc9106
  import B = Blake2b

  // ----- Hexadecimal salt -----

  function HexDigit(c: char): (d: Option<int>)
    ensures d.Some? ==> 0 <= d.value < 16
  {
    if '0' <= c <= '9' then Some(c as int - '0' as int)
    else if 'a' <= c <= 'f' then Some(c as int - 'a' as int + 10)
    else if 'A' <= c <= 'F' then Some(c as int - 'A' as int + 10)
    else None
  }

  predicate IsSpace(c: char) {
    c == ' ' || 9 <= c as int <= 13
  }

  /** std::stoi in base 16 on one or two characters: leading space or a sign is skipped, trailing junk ignored;
      None is the exception for a text without a number. */
  function Stoi16(s: string): Option<int>
    requires 1 <= |s| <= 2
  {
    var high := HexDigit(s[0]);
    if |s| == 1 then if high.Some? then Some(high.value) else None
    else
      var low := HexDigit(s[1]);
      if high.Some? then if low.Some? then Some(16 * high.value + low.value) else Some(high.value)
      else if low.None? then None
      else if IsSpace(s[0]) || s[0] == '+' then Some(low.value)
      else if s[0] == '-' then Some(-low.value)
      else None
  }

  /** The cast of an int to a char. */
  function Narrowed(n: int): byte {
    (n % 256) as byte
  }

  lemma NarrowedValue(n: nat)
    requires n < 256
    ensures Narrowed(n) == n as byte
  {
  }

  /** hex_to_bytes: each pair becomes the char its number narrows to. */
  function HexToBytes(hex: string): (b: Option<seq<byte>>)
    ensures b.Some? ==> |b.value| == (|hex| + 1) / 2
  {
    if hex == "" then Some([])
    else
      var n := if |hex| == 1 then 1 else 2;
      var first, rest := Stoi16(hex[..n]), HexToBytes(hex[n..]);
      if first.None? || rest.None? then None else Some([Narrowed(first.value)] + rest.value)
  }

  function HexChar(d: nat): char
    requires d < 16
  {
    if d < 10 then ('0' as int + d) as char else ('a' as int + d - 10) as char
  }

  function ToHex(ds: seq<octet>): string {
    if ds == [] then "" else [HexChar(ds[0] / 16), HexChar(ds[0] % 16)] + ToHex(ds[1..])
  }

  function AsBytes(ds: seq<octet>): seq<byte> {
    if ds == [] then [] else [ds[0] as byte] + AsBytes(ds[1..])
  }

  /** Any bytes written as hexadecimal are decoded again. */
  lemma {:induction false} HexRoundTrip(ds: seq<octet>)
    ensures HexToBytes(ToHex(ds)) == Some(AsBytes(ds))
  {
    if ds != [] {
      var d := ds[0];
      var pair, rest := [HexChar(d / 16), HexChar(d % 16)], ToHex(ds[1..]);
      assert ToHex(ds)[..2] == pair && ToHex(ds)[2..] == rest;
      assert Stoi16(pair) == Some(d);
      assert d % 256 == d;
      HexRoundTrip(ds[1..]);
    }
  }

  const LOWER := "0123456789abcdef"
  const UPPER := "0123456789ABCDEF"

  /** The digits of `hex`, each in either case, have these values. */
  predicate Spells(hex: string, values: seq<nat>) {
    && |hex| == |values|
    && forall k :: 0 <= k < |hex| ==> values[k] < 16 && (hex[k] == LOWER[values[k]] || hex[k] == UPPER[values[k]])
  }

  lemma DigitValue(c: char, v: nat)
    requires v < 16 && (c == LOWER[v] || c == UPPER[v])
    ensures HexDigit(c) == Some(v)
  {
  }

  lemma PairValue(c0: char, c1: char, v0: nat, v1: nat)
    requires Spells([c0, c1], [v0, v1])
    ensures Stoi16([c0, c1]) == Some(16 * v0 + v1) && 16 * v0 + v1 < 256
  {
    hide HexDigit;
    assert [c0, c1][0] == c0 && [c0, c1][1] == c1 && [v0, v1][0] == v0 && [v0, v1][1] == v1;
    DigitValue(c0, v0);
    DigitValue(c1, v1);
  }

  lemma {:induction false} HexDecodes(hex: string, values: seq<nat>)
    requires Spells(hex, values) && |hex| % 2 == 0
    ensures HexToBytes(hex).Some?
  {
    hide Stoi16;
    if hex != "" {
      PairValue(hex[0], hex[1], values[0], values[1]);
      HexDecodes(hex[2..], values[2..]);
      assert hex[..2] == [hex[0], hex[1]];
    }
  }

  lemma {:induction false} HexNarrowed(hex: string, values: seq<nat>, i: nat)
    requires Spells(hex, values) && |hex| % 2 == 0 && 2 * i + 1 < |hex|
    ensures HexToBytes(hex).Some? && |HexToBytes(hex).value| == |hex| / 2
    ensures HexToBytes(hex).value[i] == Narrowed(16 * values[2 * i] + values[2 * i + 1])
  {
    hide Stoi16, Narrowed;
    HexDecodes(hex, values);
    if i == 0 {
      assert hex[..2] == [hex[0], hex[1]];
      PairValue(hex[0], hex[1], values[0], values[1]);
    } else {
      HexNarrowed(hex[2..], values[2..], i - 1);
      assert values[2..][2 * (i - 1)] == values[2 * i] && values[2..][2 * (i - 1) + 1] == values[2 * i + 1];
    }
  }

  /** Every even number of digits in any mixture of cases is decoded: byte `i` has the two values at 2i and 2i + 1. */
  lemma HexOfAnyCase(hex: string, values: seq<nat>)
    requires Spells(hex, values) && |hex| % 2 == 0
    ensures var b := HexToBytes(hex);
            && b.Some? && |b.value| == |hex| / 2
            && forall i :: 0 <= i < |hex| / 2 ==> b.value[i] == (16 * values[2 * i] + values[2 * i + 1]) as byte
  {
    hide HexToBytes, Narrowed;
    HexDecodes(hex, values);
    assert |HexToBytes(hex).value| == |hex| / 2;
    forall i | 0 <= i < |hex| / 2 ensures HexToBytes(hex).value[i] == (16 * values[2 * i] + values[2 * i + 1]) as byte {
      HexNarrowed(hex, values, i);
      NarrowedValue(16 * values[2 * i] + values[2 * i + 1]);
    }
  }

  /** A salt still carrying its "0x" is not refused: the two characters become a zero byte in front of it. */
  lemma PrefixBecomesZero(hex: string)
    requires HexToBytes(hex).Some?
    ensures HexToBytes("0x" + hex) == Some([0] + HexToBytes(hex).value)
  {
    hide HexToBytes;
    assert ("0x" + hex)[..2] == "0x" && ("0x" + hex)[2..] == hex;
    FirstPair("0x" + hex);
  }

  /** Pairs that are not two digits, as std::stoi takes them: a lone digit stands for itself, a digit drops what follows
      it, a sign or blank before a digit counts, and without a digit there is no number. */
  lemma OddTexts(c: char, d: char, v: nat)
    requires v < 16 && d == LOWER[v] && c !in LOWER && c !in UPPER
    ensures Stoi16([d]) == Some(v) && Stoi16([d, c]) == Some(v) && Stoi16([c]) == None && Stoi16([c, c]) == None
    ensures Stoi16([c, d]) == if c == '-' then Some(0 - v)
                              else if c == '+' || c == ' ' || 9 <= c as int <= 13 then Some(v) else None
    ensures Narrowed(-1) == 0xFF && Narrowed(0xAB) == 0xAB
  {
    hide HexDigit;
    DigitValue(d, v);
    NoDigit(c);
    assert [d][0] == d && [d, c][0] == d && [d, c][1] == c && [c][0] == c && [c, c][0] == c && [c, c][1] == c;
    assert [c, d][0] == c && [c, d][1] == d;
  }

  lemma NoDigit(c: char)
    requires c !in LOWER && c !in UPPER
    ensures HexDigit(c) == None
  {
    hide HexDigit;
    if HexDigit(c).Some? {
      DigitListed(c);
    }
  }

  lemma DigitListed(c: char)
    requires HexDigit(c).Some?
    ensures c in LOWER || c in UPPER
  {
    var v := HexDigit(c).value;
    assert LOWER[v] == c || UPPER[v] == c;
  }

  lemma FirstPair(hex: string)
    requires |hex| >= 2 && Stoi16(hex[..2]).Some? && HexToBytes(hex[2..]).Some?
    ensures HexToBytes(hex) == Some([Narrowed(Stoi16(hex[..2]).value)] + HexToBytes(hex[2..]).value)
  {
  }

  // ----- The parameters -----

  type LongBytes = s: seq<byte> | |s| < 0x1_0000_0000

  /** Argon2Params. The salt is kept as hexadecimal text; secret and associated data have 32-bit lengths. */
  datatype Argon2Params = Argon2Params(kind: uint32, version: uint32, outLen: uint32, salt: string,
                                       secret: LongBytes, ad: LongBytes,
                                       tCost: uint32, mCost: uint32, lanes: uint32)
  {
    /** What RFC 9106 calls these parameters, once the salt is decoded. */
    function Inputs(saltBytes: seq<byte>): Inputs {
      Rfc9106.Inputs(lanes, outLen, mCost, tCost, version, kind, saltBytes, secret, ad)
    }
  }

  lemma InputFields(p: Argon2Params, salt: seq<byte>)
    ensures var i := p.Inputs(salt);
            && i.lanes == p.lanes && i.tagLength == p.outLen && i.memory == p.mCost && i.passes == p.tCost
            && i.version == p.version && i.kind == p.kind && i.salt == salt && i.secret == p.secret && i.data == p.ad
  {
  }

  // ----- Writing -----

  /** store32: four bytes, least significant first. */
  method Store32(dst: array<byte>, at: nat, v: nat)
    requires at + 4 <= dst.Length
    modifies dst
    ensures dst[..] == Written(old(dst[..]), at, LE32(v))
  {
    dst[at], dst[at + 1] := (v % 0x100) as byte, (v / 0x100 % 0x100) as byte;
    dst[at + 2], dst[at + 3] := (v / 0x1_0000 % 0x100) as byte, (v / 0x100_0000 % 0x100) as byte;
  }

  /** The first half of every chain digest as long as more than 64 bytes are missing, then the last digest whole. */
  method WriteChain(blake: B.Blake2b, out: array<byte>, at: nat, n: nat, outBuffer: array<byte>, ghost seed: seq<byte>)
    requires blake.Shape() && n > OUT_BYTES && at + n <= out.Length && outBuffer.Length == OUT_BYTES
    requires outBuffer[..] == Digest(OUT_BYTES, LE32(n) + seed)
    requires out != blake.buf && outBuffer != blake.buf && out != outBuffer
    modifies blake, blake.h, blake.buf, out, outBuffer
    ensures out[..] == Written(old(out[..]), at, HPrime(n, seed))
  {
    hide Digest, B.Blake2b.Absorbing, B.Blake2b.Shape, Written;
    ghost var was, v1, i := out[..], outBuffer[..], 1;
    var toProduce := n - OUT_BYTES / 2;
    assert FirstHalves(v1, 1) == v1[..32];
    Memcpy(out, at, outBuffer[..OUT_BYTES / 2]);
    var bout := at + OUT_BYTES / 2;
    while toProduce > OUT_BYTES
      invariant blake.Shape() && 32 < toProduce && bout + toProduce == at + n && toProduce == n - 32 * i && i >= 1
      invariant outBuffer[..] == V(v1, i)
      invariant out[..] == Written(was, at, FirstHalves(v1, i))
    {
      WrittenAll(outBuffer[..], Digest(OUT_BYTES, outBuffer[..]));
      NextDigest(blake, outBuffer, 0, OUT_BYTES, outBuffer);
      WrittenTwice(was, at, FirstHalves(v1, i), outBuffer[..32]);
      Memcpy(out, bout, outBuffer[..OUT_BYTES / 2]);
      bout, toProduce := bout + OUT_BYTES / 2, toProduce - OUT_BYTES / 2;
      i := i + 1;
    }
    WrittenTwice(was, at, FirstHalves(v1, i), Digest(toProduce, outBuffer[..]));
    NextDigest(blake, out, bout, toProduce, outBuffer);
    assert i == Halves(n);
  }

  /** init, update with the 64-byte buffer and final: one link of the digest chain. */
  method NextDigest(blake: B.Blake2b, out: array<byte>, at: nat, n: nat, outBuffer: array<byte>)
    requires blake.Shape() && n <= OUT_BYTES && at + n <= out.Length && out != blake.buf && outBuffer != blake.buf
    modifies blake, blake.h, blake.buf, out
    ensures blake.Shape() && out[..] == Written(old(out[..]), at, Digest(n, old(outBuffer[..])))
  {
    hide Digest, B.Blake2b.Absorbing, B.Blake2b.Shape, Written;
    blake.Init(n);
    blake.Update(outBuffer[..]);
    assert [] + outBuffer[..] == outBuffer[..];
    FinalDigest(blake, out, at, n);
  }

  /** One call of blake.update on the four bytes of `v`, as the general path does for every field. */
  method UpdateWord(blake: B.Blake2b, value: array<byte>, v: nat)
    requires blake.Absorbing() && value.Length == 4 && value != blake.buf
    modifies blake, blake.h, blake.buf, value
    ensures blake.Absorbing() && blake.absorbed == old(blake.absorbed) + LE32(v) && blake.outLen == old(blake.outLen)
  {
    WrittenAll(value[..], LE32(v));
    Store32(value, 0, v);
    blake.Update(value[..]);
  }

  // ----- digestLong -----

  /** H' written to `out[at..at + n]`: half of every chain digest but the last, which supplies the remaining bytes. */
  method DigestLong(out: array<byte>, at: nat, n: nat, input: seq<byte>)
    requires at + n <= out.Length
    modifies out
    ensures out[..] == Written(old(out[..]), at, HPrime(n, input))
  {
    hide Digest, B.Blake2b.Absorbing, B.Blake2b.Shape, Written;
    assert [] + LE32(n) + input == LE32(n) + input;
    var blake := new B.Blake2b();
    var lengthBytes := new byte[4](_ => 0);
    if n <= OUT_BYTES {
      blake.Init(n);
      UpdateWord(blake, lengthBytes, n);
      blake.Update(input);
      FinalDigest(blake, out, at, n);
    } else {
      var outBuffer := new byte[OUT_BYTES](_ => 0);
      blake.Init(OUT_BYTES);
      UpdateWord(blake, lengthBytes, n);
      blake.Update(input);
      WrittenAll(outBuffer[..], Digest(OUT_BYTES, blake.absorbed));
      FinalDigest(blake, outBuffer, 0, OUT_BYTES);
      WriteChain(blake, out, at, n, outBuffer, input);
    }
  }

  /** blake.final for the length given to blake.init: the digest of everything absorbed. */
  method FinalDigest(blake: B.Blake2b, out: array<byte>, at: nat, n: nat)
    requires blake.Absorbing() && n == blake.outLen && at + n <= out.Length && out != blake.buf
    modifies blake, blake.h, blake.buf, out
    ensures blake.Shape() && out[..] == Written(old(out[..]), at, Digest(n, old(blake.absorbed)))
  {
    hide F, Finish, StoreWords, Parameters, Written;
    blake.Final(out, at, n);
  }

  // ----- initialHash -----

  /** append32: store at the cursor and move it on. `done` is what the earlier calls wrote. */
  method Append32(dst: array<byte>, cursor: nat, v: nat, ghost was: seq<byte>, ghost done: seq<byte>)
      returns (next: nat)
    requires |was| == dst.Length && cursor == |done| && cursor + 4 <= dst.Length
    requires dst[..] == Written(was, 0, done)
    modifies dst
    ensures next == cursor + 4 && dst[..] == Written(was, 0, done + LE32(v))
  {
    hide Written, LE32;
    WrittenTwice(was, 0, done, LE32(v));
    Store32(dst, cursor, v);
    next := cursor + 4;
  }

  /** The seven 32-bit fields that precede the password. */
  function Header(p: Argon2Params, length: nat): (h: seq<byte>)
    ensures |h| == 28
  {
    LE32(p.lanes) + LE32(p.outLen) + LE32(p.mCost) + LE32(p.tCost) + LE32(p.version) + LE32(p.kind) + LE32(length)
  }

  method BuildHeader(p: Argon2Params, length: nat) returns (header: array<byte>)
    ensures fresh(header) && header[..] == Header(p, length)
  {
    hide Written, LE32;
    header := new byte[28](_ => 0);
    ghost var was := header[..];
    WrittenNothing(was, 0);
    var cursor := Append32(header, 0, p.lanes, was, []);
    assert [] + LE32(p.lanes) == LE32(p.lanes);
    ghost var done := LE32(p.lanes);
    cursor := Append32(header, cursor, p.outLen, was, done);
    done := done + LE32(p.outLen);
    cursor := Append32(header, cursor, p.mCost, was, done);
    done := done + LE32(p.mCost);
    cursor := Append32(header, cursor, p.tCost, was, done);
    done := done + LE32(p.tCost);
    cursor := Append32(header, cursor, p.version, was, done);
    done := done + LE32(p.version);
    cursor := Append32(header, cursor, p.kind, was, done);
    done := done + LE32(p.kind);
    cursor := Append32(header, cursor, length, was, done);
    WrittenAll(was, Header(p, length));
  }

  lemma WrittenNothing(s: seq<byte>, at: nat)
    requires at <= |s|
    ensures Written(s, at, []) == s
  {
  }

  /** The path without secret and associated data: one batched header, the salt, one batched pair of zero lengths.
      False means the salt was not hexadecimal and nothing was written. */
  method InitialHashBatched(p: Argon2Params, out: array<byte>, pwd: seq<byte>) returns (ok: bool)
    requires out.Length >= 64 && p.secret == [] && p.ad == []
    modifies out
    ensures ok == HexToBytes(p.salt).Some?
    ensures out[..] == if ok then Written(old(out[..]), 0, H0(p.Inputs(HexToBytes(p.salt).value), pwd)) else old(out[..])
  {
    hide Digest, B.Blake2b.Absorbing, B.Blake2b.Shape, Written, LE32, HexToBytes, PrehashInput;
    var blake := new B.Blake2b();
    blake.Init(64);
    var header := BuildHeader(p, |pwd|);
    blake.Update(header[..]);
    blake.Update(pwd);
    var hexSalt := HexToBytes(p.salt);
    if hexSalt.None? {
      return false;
    }
    var saltLength := new byte[4](_ => 0);
    UpdateWord(blake, saltLength, |hexSalt.value|);
    blake.Update(hexSalt.value);
    var emptyLengths := new byte[8](_ => 0);
    ghost var was := emptyLengths[..];
    WrittenNothing(was, 0);
    var cursor := Append32(emptyLengths, 0, |p.secret|, was, []);
    cursor := Append32(emptyLengths, cursor, |p.ad|, was, [] + LE32(|p.secret|));
    WrittenAll(was, [] + LE32(|p.secret|) + LE32(|p.ad|));
    blake.Update(emptyLengths[..]);
    BatchedInput(p, hexSalt.value, pwd);
    FinalDigest(blake, out, 0, 64);
    return true;
  }

  lemma BatchedInput(p: Argon2Params, salt: seq<byte>, pwd: seq<byte>)
    requires p.secret == [] && p.ad == []
    ensures [] + Header(p, |pwd|) + pwd + LE32(|salt|) + salt + ([] + LE32(|p.secret|) + LE32(|p.ad|))
         == PrehashInput(p.Inputs(salt), pwd)
  {
    hide LE32;
  }

  /** The field-by-field path, for any parameters. */
  method InitialHashByField(p: Argon2Params, out: array<byte>, pwd: seq<byte>) returns (ok: bool)
    requires out.Length >= 64
    modifies out
    ensures ok == HexToBytes(p.salt).Some?
    ensures out[..] == if ok then Written(old(out[..]), 0, H0(p.Inputs(HexToBytes(p.salt).value), pwd)) else old(out[..])
  {
    hide Digest, B.Blake2b.Absorbing, B.Blake2b.Shape, Written, LE32, HexToBytes, PrehashInput;
    var blake := new B.Blake2b();
    blake.Init(64);
    var value := new byte[4](_ => 0);
    UpdateWord(blake, value, p.lanes);
    UpdateWord(blake, value, p.outLen);
    UpdateWord(blake, value, p.mCost);
    UpdateWord(blake, value, p.tCost);
    UpdateWord(blake, value, p.version);
    UpdateWord(blake, value, p.kind);
    UpdateWord(blake, value, |pwd|);
    blake.Update(pwd);
    var hexSalt := HexToBytes(p.salt);
    if hexSalt.None? {
      return false;
    }
    UpdateWord(blake, value, |hexSalt.value|);
    blake.Update(hexSalt.value);
    UpdateWord(blake, value, |p.secret|);
    blake.Update(p.secret);
    UpdateWord(blake, value, |p.ad|);
    blake.Update(p.ad);
    FieldInput(p, hexSalt.value, pwd);
    FinalDigest(blake, out, 0, 64);
    return true;
  }

  lemma FieldInput(p: Argon2Params, salt: seq<byte>, pwd: seq<byte>)
    ensures [] + LE32(p.lanes) + LE32(p.outLen) + LE32(p.mCost) + LE32(p.tCost) + LE32(p.version) + LE32(p.kind)
            + LE32(|pwd|) + pwd + LE32(|salt|) + salt + LE32(|p.secret|) + p.secret + LE32(|p.ad|) + p.ad
         == PrehashInput(p.Inputs(salt), pwd)
  {
    hide LE32;
  }

  /** Whichever path is taken, the 64 bytes are H0 of the decoded parameters. */
  method InitialHash(p: Argon2Params, out: array<byte>, pwd: seq<byte>) returns (ok: bool)
    requires out.Length >= 64
    modifies out
    ensures ok == HexToBytes(p.salt).Some?
    ensures out[..] == if ok then Written(old(out[..]), 0, H0(p.Inputs(HexToBytes(p.salt).value), pwd)) else old(out[..])
  {
    hide H0, HexToBytes, Written;
    if |p.secret| == 0 && |p.ad| == 0 {
      ok := InitialHashBatched(p, out, pwd);
    } else {
      ok := InitialHashByField(p, out, pwd);
    }
  }

  // ----- fillFirstBlocks -----

  /** Argon2FirstBlockTimings, as far as the filler touches it. */
  class Timings {
    var initialHashMs: real
    var digestMs: real
  }

  /** The difference of two readings of a steady clock. */
  method ElapsedMillis() returns (ms: real)
    ensures ms >= 0.0
  {
    ms :| ms >= 0.0;
  }

  /** One lane loop: column `c` of the blocks is written from `at` on. `seed` is the prehash and two 32-bit slots. */
  method FillColumn(lanes: nat, memory: array<byte>, at: nat, seed: array<byte>, c: nat, timings: Timings?,
                    ghost h0: seq<byte>)
    requires seed.Length == 72 && |h0| == 64 && seed[..64] == h0 && seed != memory
    requires at + 1024 * lanes <= memory.Length
    modifies memory, seed, if timings == null then {} else {timings}
    ensures memory[..] == Written(old(memory[..]), at, Column(h0, c, lanes))
    ensures seed[..64] == h0
    ensures timings != null ==> timings.digestMs >= old(timings.digestMs) && timings.initialHashMs == old(timings.initialHashMs)
  {
    hide Written, HPrime, LE32;
    ghost var was := memory[..];
    WrittenNothing(was, at);
    StoreSlot(seed, 64, c);
    for l := 0 to lanes
      invariant |seed[..]| == 72 && seed[..64] == h0 && seed[64..68] == LE32(c)
      invariant memory[..] == Written(was, at, Column(h0, c, l))
      invariant timings != null ==>
        timings.digestMs >= old(timings.digestMs) && timings.initialHashMs == old(timings.initialHashMs)
    {
      StoreSlot(seed, 68, l);
      assert seed[..] == h0 + LE32(c) + LE32(l);
      WrittenTwice(was, at, Column(h0, c, l), FirstBlock(h0, c, l));
      DigestLong(memory, at + 1024 * l, 1024, seed[..]);
      if timings != null {
        var ms := ElapsedMillis();
        timings.digestMs := timings.digestMs + ms;
      }
    }
  }

  /** store32 into one of the seed's slots leaves the rest of the seed alone. */
  method StoreSlot(seed: array<byte>, at: nat, v: nat)
    requires at + 4 <= seed.Length
    modifies seed
    ensures seed[at..at + 4] == LE32(v) && seed[..at] == old(seed[..at]) && seed[at + 4..] == old(seed[at + 4..])
  {
    hide LE32;
    Store32(seed, at, v);
  }

  /** Both columns of every lane, and nothing else; false when the salt cannot be decoded. */
  method FillFirstBlocks(p: Argon2Params, memory: array<byte>, pwd: seq<byte>) returns (ok: bool)
    requires 2048 * p.lanes <= memory.Length
    modifies memory
    ensures ok == HexToBytes(p.salt).Some?
    ensures memory[..] == Filled(p, old(memory[..]), pwd)
  {
    hide Written, HexToBytes, H0, FirstBlock;
    var seed := new byte[72](_ => 0);
    ok := InitialHash(p, seed, pwd);
    if !ok {
      return;
    }
    ghost var h0, was := H0(p.Inputs(HexToBytes(p.salt).value), pwd), memory[..];
    assert seed[..64] == h0 by {
      PrefixWritten(seed[..], h0);
    }
    FillColumn(p.lanes, memory, 0, seed, 0, null, h0);
    WrittenTwice(was, 0, Column(h0, 0, p.lanes), Column(h0, 1, p.lanes));
    FillColumn(p.lanes, memory, 1024 * p.lanes, seed, 1, null, h0);
  }

  /** What the filler makes of the memory. */
  function Filled(p: Argon2Params, memory: seq<byte>, pwd: seq<byte>): (m: seq<byte>)
    requires 2048 * p.lanes <= |memory|
    ensures |m| == |memory|
  {
    var salt := HexToBytes(p.salt);
    if salt.None? then memory
    else
      var h0 := H0(p.Inputs(salt.value), pwd);
      Written(memory, 0, Column(h0, 0, p.lanes) + Column(h0, 1, p.lanes))
  }

  /** The overload with timings writes the same memory, whether or not it is given a place for them. */
  method FillFirstBlocksTimed(p: Argon2Params, memory: array<byte>, pwd: seq<byte>, timings: Timings?)
      returns (ok: bool)
    requires 2048 * p.lanes <= memory.Length
    modifies memory, if timings == null then {} else {timings}
    ensures ok == HexToBytes(p.salt).Some?
    ensures memory[..] == Filled(p, old(memory[..]), pwd)
    ensures timings != null ==>
      timings.initialHashMs >= old(timings.initialHashMs) && timings.digestMs >= old(timings.digestMs)
  {
    hide Written, HexToBytes, H0, FirstBlock;
    var seed := new byte[72](_ => 0);
    ok := InitialHash(p, seed, pwd);
    if !ok {
      return;
    }
    ghost var h0, was := H0(p.Inputs(HexToBytes(p.salt).value), pwd), memory[..];
    assert seed[..64] == h0 by {
      PrefixWritten(seed[..], h0);
    }
    if timings != null {
      var ms := ElapsedMillis();
      timings.initialHashMs := timings.initialHashMs + ms;
    }
    FillColumn(p.lanes, memory, 0, seed, 0, timings, h0);
    WrittenTwice(was, 0, Column(h0, 0, p.lanes), Column(h0, 1, p.lanes));
    FillColumn(p.lanes, memory, 1024 * p.lanes, seed, 1, timings, h0);
  }

  lemma PrefixWritten(s: seq<byte>, b: seq<byte>)
    requires |b| <= |s|
    ensures forall t :: |t| == |s| && s == Written(t, 0, b) ==> s[..|b|] == b
  {
  }

  /** Where a caller finds each block: lane `lane` of column `column`, for every lane count; the rest is untouched. */
  lemma FilledAt(p: Argon2Params, memory: seq<byte>, pwd: seq<byte>, column: nat, lane: nat)
    requires 2048 * p.lanes <= |memory| && HexToBytes(p.salt).Some? && column < 2 && lane < p.lanes
    ensures var at := Offset(p.lanes, column, lane);
            Filled(p, memory, pwd)[at..at + 1024]
            == HPrime(1024, H0(p.Inputs(HexToBytes(p.salt).value), pwd) + LE32(column) + LE32(lane))
    ensures Filled(p, memory, pwd)[2048 * p.lanes..] == memory[2048 * p.lanes..]
  {
    hide HPrime, HexToBytes, H0, Offset;
    var h0, at := H0(p.Inputs(HexToBytes(p.salt).value), pwd), Offset(p.lanes, column, lane);
    var both := Column(h0, 0, p.lanes) + Column(h0, 1, p.lanes);
    ColumnsAt(h0, p.lanes, column, lane);
    assert |both| == 2048 * p.lanes;
    assert Filled(p, memory, pwd)[at..at + 1024] == both[at..at + 1024];
  }

  // ----- finalize -----

  /** The 128 words a block is read as. */
  function BlockWords(b: seq<byte>): (w: seq<word>)
    requires |b| == 1024
    ensures |w| == 128
  {
    seq(128, i requires 0 <= i < 128 => Load64(b[8 * i..8 * i + 8]))
  }

  /** Writing the words of a block back gives the block. */
  lemma {:induction false} BlockWordsBack(b: seq<byte>, n: nat)
    requires |b| == 1024 && n <= 128
    ensures StoreWords(BlockWords(b)[..n]) == b[..8 * n]
  {
    hide Load64, Store64;
    if n > 0 {
      BlockWordsBack(b, n - 1);
      assert BlockWords(b)[..n][..n - 1] == BlockWords(b)[..n - 1];
      StoreLoad(b[8 * (n - 1)..8 * (n - 1) + 8]);
      assert b[..8 * (n - 1)] + b[8 * (n - 1)..8 * n] == b[..8 * n];
    }
  }

  /** The inner loop of the fold: one lane's block is xored into the accumulated words. */
  method XorBlock(xored: array<word>, block: seq<byte>, ghost acc: seq<byte>)
    requires xored.Length == 128 && |block| == 1024 && |acc| == 1024 && xored[..] == BlockWords(acc)
    modifies xored
    ensures xored[..] == BlockWords(XorBytes(acc, block))
  {
    hide Load64;
    ghost var c := XorBytes(acc, block);
    for i := 0 to 128
      invariant forall j :: 0 <= j < i ==> xored[j] == BlockWords(c)[j]
      invariant forall j :: i <= j < 128 ==> xored[j] == BlockWords(acc)[j]
    {
      ghost var a, b := acc[8 * i..8 * i + 8], block[8 * i..8 * i + 8];
      assert XorBytes(a, b) == c[8 * i..8 * i + 8];
      LoadXor(a, b);
      xored[i] := xored[i] ^ Load64(block[8 * i..8 * i + 8]);
    }
  }

  /** Zero lanes are folded like one. */
  function LaneCount(p: Argon2Params): (n: nat)
    ensures n >= 1
  {
    if p.lanes == 0 then 1 else p.lanes
  }

  /** The tag: H' of the one block, or of the xor of the last blocks of all lanes. The shortcut and the general
      fold compute the same function. */
  method Finalize(p: Argon2Params, out: array<byte>, memory: array<byte>)
    requires p.outLen <= out.Length && 1024 * p.lanes <= memory.Length && 1024 <= memory.Length
    modifies out
    ensures out[..] == Written(old(out[..]), 0, HPrime(p.outLen, XorOfBlocks(old(memory[..]), LaneCount(p))))
  {
    hide Written, HPrime;
    if p.lanes == 1 {
      DigestLong(out, 0, p.outLen, memory[..1024]);
      return;
    }
    FinalizeLanes(p, out, memory);
  }

  method FinalizeLanes(p: Argon2Params, out: array<byte>, memory: array<byte>)
    requires p.outLen <= out.Length && 1024 * p.lanes <= memory.Length && 1024 <= memory.Length
    modifies out
    ensures out[..] == Written(old(out[..]), 0, HPrime(p.outLen, XorOfBlocks(old(memory[..]), LaneCount(p))))
  {
    hide Written, HPrime, Load64, Store64, BlockWords;
    ghost var m := memory[..];
    var first := BlockWords(memory[..1024]);
    var xored := new word[128](i requires 0 <= i < 128 => first[i]);
    assert xored[..] == first;
    assert m[..1024] == memory[..1024];
    var l := 1;
    while l < p.lanes
      invariant 1 <= l && (l <= p.lanes || l == 1) && memory[..] == m && out[..] == old(out[..])
      invariant xored[..] == BlockWords(XorOfBlocks(m, l))
    {
      assert memory[1024 * l..1024 * l + 1024] == m[1024 * l..1024 * (l + 1)];
      XorBlock(xored, memory[1024 * l..1024 * l + 1024], XorOfBlocks(m, l));
      l := l + 1;
    }
    ghost var c := XorOfBlocks(m, l);
    BlockWordsBack(c, 128);
    assert BlockWords(c)[..128] == BlockWords(c) && c[..1024] == c;
    DigestLong(out, 0, p.outLen, StoreWords(xored[..]));
  }

  // ----- Memory geometry -----

  /** The constructor's segment length, with both operands the caller's values. */
  function SegmentBlocks(mCost: nat, lanes: nat): (blocks: nat)
    requires lanes > 0
  {
    var segments := lanes * SYNC_POINTS;
    (if mCost < 2 * segments then 2 * segments else mCost) / segments
  }

  /** Section 3.2, step 2: with at least 8 blocks a lane the memory has m' = 4p * floor(m / 4p) blocks; with less
      it has 8p. Either way the two filled columns fit. */
  lemma MemoryBlocks(mCost: nat, lanes: nat)
    requires lanes > 0
    ensures var blocks := SegmentBlocks(mCost, lanes) * SYNC_POINTS * lanes;
            && blocks == 4 * lanes * (if mCost >= 8 * lanes then mCost / (4 * lanes) else 2)
            && 2 * lanes <= blocks
            && (mCost >= 8 * lanes ==> mCost - 4 * lanes < blocks <= mCost)
  {
    var s := lanes * 4;
    var q := SegmentBlocks(mCost, lanes);
    assert q == if mCost >= 2 * s then mCost / s else 2 * s / s;
    assert 2 * s / s == 2;
    assert q >= 2;
    assert q * 4 * lanes == s * q;
    assert s * q >= s * 2;
  }
}
