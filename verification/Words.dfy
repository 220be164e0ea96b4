/** Machine words shared by the hashing modules. A byte that is only mixed and stored is a `bv8`,
    a 64-bit lane word is a `bv64`; byte counts are integers with their wrap-around written out. */
module Words {

  type byte = bv8
  type word = bv64

  const TWO_64: int := 0x1_0000_0000_0000_0000

  newtype uint64 = x: int | 0 <= x < TWO_64

  /** The little-endian encoding of the low 32 bits of `n`. */
  function LE32(n: nat): (bytes: seq<byte>)
    ensures |bytes| == 4
  {
    [(n % 0x100) as byte, (n / 0x100 % 0x100) as byte,
     (n / 0x1_0000 % 0x100) as byte, (n / 0x100_0000 % 0x100) as byte]
  }

  /** `n` without its last `k` digits to the base 256. */
  function Leading256(n: nat, k: nat): nat {
    if k == 0 then n else Leading256(n, k - 1) / 0x100
  }

  /** The four digits of `n` to the base 256, least significant first. */
  lemma LE32Digits(n: nat, k: nat)
    requires k < 4
    ensures LE32(n)[k] == (Leading256(n, k) % 0x100) as byte
  {
    assert Leading256(n, 1) == Leading256(n, 0) / 0x100 == n / 0x100;
    assert Leading256(n, 2) == n / 0x100 / 0x100 == n / 0x1_0000;
    assert Leading256(n, 3) == n / 0x1_0000 / 0x100 == n / 0x100_0000;
  }

  function Load64(b: seq<byte>): word
    requires |b| == 8
  {
    b[0] as word | (b[1] as word << 8) | (b[2] as word << 16) | (b[3] as word << 24)
    | (b[4] as word << 32) | (b[5] as word << 40) | (b[6] as word << 48) | (b[7] as word << 56)
  }

  function Store64(w: word): (b: seq<byte>)
    ensures |b| == 8
  {
    [(w & 0xFF) as byte, ((w >> 8) & 0xFF) as byte, ((w >> 16) & 0xFF) as byte, ((w >> 24) & 0xFF) as byte,
     ((w >> 32) & 0xFF) as byte, ((w >> 40) & 0xFF) as byte, ((w >> 48) & 0xFF) as byte, ((w >> 56) & 0xFF) as byte]
  }

  /** Loading what was stored gives the word back. */
  lemma LoadStore(w: word)
    ensures Load64(Store64(w)) == w
  {
  }

  /** Storing what was loaded gives the eight bytes back. */
  lemma StoreLoad(b: seq<byte>)
    requires |b| == 8
    ensures Store64(Load64(b)) == b
  {
  }

  /** Byte-wise exclusive or. */
  function XorBytes(a: seq<byte>, b: seq<byte>): (c: seq<byte>)
    requires |a| == |b|
    ensures |c| == |a|
  {
    seq(|a|, i requires 0 <= i < |a| => a[i] ^ b[i])
  }

  /** Loading turns byte-wise xor into xor on words. */
  lemma LoadXor(a: seq<byte>, b: seq<byte>)
    requires |a| == |b| == 8
    ensures Load64(XorBytes(a, b)) == Load64(a) ^ Load64(b)
  {
  }

  /** The effect of writing `b` over `s` from position `at` on. */
  function Written(s: seq<byte>, at: nat, b: seq<byte>): (t: seq<byte>)
    requires at + |b| <= |s|
    ensures |t| == |s|
  {
    s[..at] + b + s[at + |b|..]
  }

  method Memcpy(dst: array<byte>, at: nat, src: seq<byte>)
    requires at + |src| <= dst.Length
    modifies dst
    ensures dst[..] == Written(old(dst[..]), at, src)
  {
    forall i | 0 <= i < |src| {
      dst[at + i] := src[i];
    }
  }

  lemma TakeAll(s: seq<byte>, n: nat)
    requires |s| == n
    ensures s[..n] == s
  {
  }

  lemma WrittenAll(s: seq<byte>, b: seq<byte>)
    requires |s| == |b|
    ensures Written(s, 0, b) == b
  {
  }

  lemma WrittenTwice(s: seq<byte>, at: nat, b: seq<byte>, c: seq<byte>)
    requires at + |b| + |c| <= |s|
    ensures Written(Written(s, at, b), at + |b|, c) == Written(s, at, b + c)
  {
  }
}
