/** The unpadded base64 encoder of src/hashapi/HashApiEncoding.cpp and the PHC reader of src/CpuMiningWorker.cpp. */
module Base64 {

  import opened Common

  datatype Result<+T> = Ok(value: T) | Err(message: string)

  type sextet = x: nat | x < 64

  /** The alphabet of section 4 of RFC 4648. */
  const UPPER := "ABCDEFGHIJKLMNOPQRSTUVWXYZ"
  const LOWER := "abcdefghijklmnopqrstuvwxyz"
  const DIGITS := "0123456789+/"
  const ALPHABET := UPPER + LOWER + DIGITS

  function Letter(v: sextet): char {
    ALPHABET[v]
  }

  predicate IsLetter(c: char) {
    'A' <= c <= 'Z' || 'a' <= c <= 'z' || '0' <= c <= '9' || c == '+' || c == '/'
  }

  function ValueOf(c: char): sextet
    requires IsLetter(c)
  {
    var code := c as int;
    if 'A' <= c <= 'Z' then code - 65
    else if 'a' <= c <= 'z' then code - 71
    else if '0' <= c <= '9' then code + 4
    else if c == '+' then 62 else 63
  }

  /** The table lists each letter at its own value. */
  lemma LetterValue(v: sextet)
    ensures IsLetter(Letter(v)) && ValueOf(Letter(v)) == v && Letter(v) != '$'
  {
    hide Letter;
    LetterPart(v);
    if v < 26 {
      UpperCode(v);
    } else if v < 52 {
      LowerCode(v - 26);
    } else {
      DigitCode(v - 52);
    }
  }

  lemma LetterPart(v: sextet)
    ensures Letter(v) == if v < 26 then UPPER[v] else if v < 52 then LOWER[v - 26] else DIGITS[v - 52]
  {
    Part(UPPER, LOWER, DIGITS, v);
  }

  lemma Part(a: string, b: string, c: string, k: nat)
    requires k < |a| + |b| + |c|
    ensures (a + b + c)[k] == if k < |a| then a[k] else if k < |a| + |b| then b[k - |a|] else c[k - |a| - |b|]
  {
  }

  lemma UpperCode(v: nat)
    requires v < 26
    ensures UPPER[v] as int == 65 + v
  {
  }

  lemma LowerCode(v: nat)
    requires v < 26
    ensures LOWER[v] as int == 97 + v
  {
  }

  lemma DigitCode(v: nat)
    requires v < 12
    ensures v < 10 ==> DIGITS[v] as int == 48 + v
    ensures (v == 10 ==> DIGITS[v] == '+') && (v == 11 ==> DIGITS[v] == '/')
  {
  }

  // ----- The encoding of the standard -----

  /** Bit `j` of the bytes, most significant bit of the first byte first; zero beyond the end. */
  function Bit(data: seq<octet>, j: nat): nat {
    if j / 8 >= |data| then 0 else BitOf(data[j / 8], j % 8)
  }

  function BitOf(b: octet, i: nat): (v: nat)
    requires i < 8
    ensures v <= 1
  {
    Shifted(b, 7 - i) % 2
  }

  /** `b` shifted right by `k` bits. */
  function Shifted(b: octet, k: nat): octet {
    if k == 0 then b else Shifted(b, k - 1) / 2
  }

  /** Section 4 of RFC 4648: the bits taken six at a time, the last group filled up with zero bits. */
  function Sextet(data: seq<octet>, k: nat): (v: nat)
    ensures v < 64
  {
    var j := 6 * k;
    32 * Bit(data, j) + 16 * Bit(data, j + 1) + 8 * Bit(data, j + 2) + 4 * Bit(data, j + 3) + 2 * Bit(data, j + 4) + Bit(data, j + 5)
  }

  function EncodedLength(n: nat): nat {
    n / 3 * 4 + if n % 3 == 0 then 0 else n % 3 + 1
  }

  /** As many groups as it takes to cover all bits. */
  lemma LengthCoversBits(n: nat)
    ensures 6 * EncodedLength(n) >= 8 * n && 6 * EncodedLength(n) < 8 * n + 6
  {
    assert n == 3 * (n / 3) + n % 3;
  }

  function Encoded(data: seq<octet>): (text: string)
    ensures |text| == EncodedLength(|data|)
  {
    seq(EncodedLength(|data|), k requires 0 <= k => Letter(Sextet(data, k)))
  }

  // ----- The encoder -----

  /** The four sextets of one group, as the encoder shifts them out of a 24-bit number. */
  lemma GroupSextets(b0: octet, b1: octet, b2: octet)
    ensures var v: nat := (b0 as nat) * 65536 + (b1 as nat) * 256 + b2;
            && v / 262144 % 64 == b0 / 4
            && v / 4096 % 64 == b0 % 4 * 16 + b1 / 16
            && v / 64 % 64 == b1 % 16 * 4 + b2 / 64
            && v % 64 == b2 % 64
  {
    var n0: nat, n1: nat, n2: nat := b0, b1, b2;
    var v := n0 * 65536 + n1 * 256 + n2;
    DivMod(v, 262144, n0 / 4, n0 % 4 * 65536 + n1 * 256 + n2);
    DivMod(v, 4096, n0 * 16 + n1 / 16, n1 % 16 * 256 + n2);
    DivMod(n0 * 16 + n1 / 16, 64, n0 / 4, n0 % 4 * 16 + n1 / 16);
    DivMod(v, 64, n0 * 1024 + n1 * 4 + n2 / 64, n2 % 64);
    DivMod(n0 * 1024 + n1 * 4 + n2 / 64, 64, n0 * 16 + n1 / 16, n1 % 16 * 4 + n2 / 64);
  }

  lemma DivMod(n: nat, d: nat, q: nat, r: nat)
    requires n == d * q + r && r < d
    ensures n / d == q && n % d == r
  {
    var k: int := q - n / d;
    assert n == d * (n / d) + n % d;
    assert d * q == d * (n / d) + d * k;
    if k >= 1 {
      AtLeast(d, k);
    } else if k <= -1 {
      AtLeast(d, -k);
    }
  }

  lemma AtLeast(d: nat, k: nat)
    requires k >= 1
    ensures d * k >= d
  {
  }

  lemma ByteBits(b: octet)
    ensures b / 4 == 32 * BitOf(b, 0) + 16 * BitOf(b, 1) + 8 * BitOf(b, 2) + 4 * BitOf(b, 3) + 2 * BitOf(b, 4) + BitOf(b, 5)
    ensures b % 4 == 2 * BitOf(b, 6) + BitOf(b, 7)
    ensures b / 16 == 8 * BitOf(b, 0) + 4 * BitOf(b, 1) + 2 * BitOf(b, 2) + BitOf(b, 3)
    ensures b % 16 == 8 * BitOf(b, 4) + 4 * BitOf(b, 5) + 2 * BitOf(b, 6) + BitOf(b, 7)
    ensures b / 64 == 2 * BitOf(b, 0) + BitOf(b, 1)
    ensures b % 64 == 32 * BitOf(b, 2) + 16 * BitOf(b, 3) + 8 * BitOf(b, 4) + 4 * BitOf(b, 5) + 2 * BitOf(b, 6) + BitOf(b, 7)
  {
    hide Shifted, BitOf;
    var n: nat := b;
    TopBit(b);
    forall k: nat | k < 7 ensures Shifted(b, k) == 2 * Shifted(b, k + 1) + BitOf(b, 7 - k) {
      ShiftStep(b, k);
    }
    assert Shifted(b, 0) == b && Shifted(b, 1) == 2 * Shifted(b, 2) + BitOf(b, 6);
    assert Shifted(b, 2) == 2 * Shifted(b, 3) + BitOf(b, 5) && Shifted(b, 3) == 2 * Shifted(b, 4) + BitOf(b, 4);
    assert Shifted(b, 4) == 2 * Shifted(b, 5) + BitOf(b, 3) && Shifted(b, 5) == 2 * Shifted(b, 6) + BitOf(b, 2);
    assert Shifted(b, 6) == 2 * Shifted(b, 7) + BitOf(b, 1);
    DivMod(n, 4, Shifted(b, 2), 2 * BitOf(b, 6) + BitOf(b, 7));
    DivMod(n, 16, Shifted(b, 4), 8 * BitOf(b, 4) + 4 * BitOf(b, 5) + 2 * BitOf(b, 6) + BitOf(b, 7));
    DivMod(n, 64, Shifted(b, 6), 32 * BitOf(b, 2) + 16 * BitOf(b, 3) + 8 * BitOf(b, 4) + 4 * BitOf(b, 5) + 2 * BitOf(b, 6) + BitOf(b, 7));
  }

  lemma ShiftStep(b: octet, k: nat)
    requires k < 7
    ensures Shifted(b, k) == 2 * Shifted(b, k + 1) + BitOf(b, 7 - k)
  {
  }

  lemma {:induction false} ShiftBound(b: octet, k: nat)
    ensures Power2(k) * Shifted(b, k) <= b
  {
    if k > 0 {
      ShiftBound(b, k - 1);
      assert 2 * (Shifted(b, k - 1) / 2) <= Shifted(b, k - 1);
      assert Power2(k) * Shifted(b, k) == Power2(k - 1) * (2 * Shifted(b, k));
      assert Power2(k - 1) * (2 * Shifted(b, k)) <= Power2(k - 1) * Shifted(b, k - 1);
    }
  }

  lemma TopBit(b: octet)
    ensures Shifted(b, 0) == b && Shifted(b, 7) == BitOf(b, 0)
  {
    ShiftBound(b, 7);
    assert Power2(7) == 128;
  }

  function ByteAt(data: seq<octet>, i: nat): octet {
    if i < |data| then data[i] else 0
  }

  lemma ByteHere(data: seq<octet>, i: nat)
    ensures ByteAt(data, i) == if i < |data| then data[i] else 0
    ensures forall r: nat :: r < 8 ==> BitOf(0, r) == 0
  {
    hide BitOf;
    forall r: nat | r < 8 ensures BitOf(0, r) == 0 {
      ZeroBits(r);
    }
  }

  lemma ZeroBits(r: nat)
    requires r < 8
    ensures BitOf(0, r) == 0
  {
    ShiftBound(0, 7 - r);
    if Shifted(0, 7 - r) > 0 {
      AtLeast(Power2(7 - r), Shifted(0, 7 - r));
    }
  }

  lemma BitInByte(data: seq<octet>, i: nat, r: nat)
    requires r < 8
    ensures Bit(data, 8 * i + r) == BitOf(ByteAt(data, i), r)
  {
    hide BitOf, ByteAt;
    DivMod(8 * i + r, 8, i, r);
    ByteHere(data, i);
  }

  /** Four sextets of the bit string are three bytes, missing bytes counting as zero. */
  lemma SextetsOfGroup(data: seq<octet>, g: nat)
    ensures var b0, b1, b2 := ByteAt(data, 3 * g), ByteAt(data, 3 * g + 1), ByteAt(data, 3 * g + 2);
            && Sextet(data, 4 * g) == b0 / 4
            && Sextet(data, 4 * g + 1) == b0 % 4 * 16 + b1 / 16
            && Sextet(data, 4 * g + 2) == b1 % 16 * 4 + b2 / 64
            && Sextet(data, 4 * g + 3) == b2 % 64
  {
    hide Bit, BitOf, ByteAt;
    forall r: nat | r < 8
      ensures Bit(data, 24 * g + r) == BitOf(ByteAt(data, 3 * g), r)
      ensures Bit(data, 24 * g + 8 + r) == BitOf(ByteAt(data, 3 * g + 1), r)
      ensures Bit(data, 24 * g + 16 + r) == BitOf(ByteAt(data, 3 * g + 2), r)
    {
      BitInByte(data, 3 * g, r);
      BitInByte(data, 3 * g + 1, r);
      BitInByte(data, 3 * g + 2, r);
    }
    ByteBits(ByteAt(data, 3 * g));
    ByteBits(ByteAt(data, 3 * g + 1));
    ByteBits(ByteAt(data, 3 * g + 2));
    FourSextets(data, g);
  }

  lemma FourSextets(data: seq<octet>, g: nat)
    ensures Sextet(data, 4 * g) == 32 * Bit(data, 24 * g) + 16 * Bit(data, 24 * g + 1) + 8 * Bit(data, 24 * g + 2)
                                   + 4 * Bit(data, 24 * g + 3) + 2 * Bit(data, 24 * g + 4) + Bit(data, 24 * g + 5)
    ensures Sextet(data, 4 * g + 1) == 32 * Bit(data, 24 * g + 6) + 16 * Bit(data, 24 * g + 7) + 8 * Bit(data, 24 * g + 8)
                                       + 4 * Bit(data, 24 * g + 9) + 2 * Bit(data, 24 * g + 10) + Bit(data, 24 * g + 11)
    ensures Sextet(data, 4 * g + 2) == 32 * Bit(data, 24 * g + 12) + 16 * Bit(data, 24 * g + 13) + 8 * Bit(data, 24 * g + 14)
                                       + 4 * Bit(data, 24 * g + 15) + 2 * Bit(data, 24 * g + 16) + Bit(data, 24 * g + 17)
    ensures Sextet(data, 4 * g + 3) == 32 * Bit(data, 24 * g + 18) + 16 * Bit(data, 24 * g + 19) + 8 * Bit(data, 24 * g + 20)
                                       + 4 * Bit(data, 24 * g + 21) + 2 * Bit(data, 24 * g + 22) + Bit(data, 24 * g + 23)
  {
    hide Bit;
  }

  /** The letters of group `g`: all four of them, or as many as the bytes left over need. */
  lemma EncodedGroup(data: seq<octet>, g: nat)
    requires 3 * g < |data|
    ensures var text := Encoded(data);
            var b0, b1, b2 := data[3 * g], ByteAt(data, 3 * g + 1), ByteAt(data, 3 * g + 2);
            var n := if 3 * g + 2 < |data| then 4 else if 3 * g + 2 == |data| then 3 else 2;
            && 4 * g + n <= |text| && (n < 4 ==> 4 * g + n == |text|)
            && text[4 * g..4 * g + n] == Letters(b0, b1, b2)[..n]
  {
    hide Letter, Sextet, EncodedLength;
    SextetsOfGroup(data, g);
    GroupEnd(|data|, g);
    var text := Encoded(data);
    assert forall k: nat :: k < |text| ==> text[k] == Letter(Sextet(data, k));
  }

  /** The letters of three bytes. */
  function Letters(b0: octet, b1: octet, b2: octet): (text: string)
    ensures |text| == 4
  {
    [Letter(b0 / 4), Letter(b0 % 4 * 16 + b1 / 16), Letter(b1 % 16 * 4 + b2 / 64), Letter(b2 % 64)]
  }

  lemma ShiftedOut(b0: octet, b1: octet, b2: octet)
    ensures var v := Group(b0, b1, b2);
            [Letter(v / 262144 % 64), Letter(v / 4096 % 64), Letter(v / 64 % 64), Letter(v % 64)] == Letters(b0, b1, b2)
  {
    hide Letter;
    GroupSextets(b0, b1, b2);
  }

  lemma Fewer(a: char, b: char, c: char, d: char)
    ensures [a, b, c, d][..3] == [a, b, c] && [a, b, c, d][..2] == [a, b]
  {
  }

  lemma GroupEnd(n: nat, g: nat)
    requires 3 * g < n
    ensures 3 * g + 2 < n ==> 4 * g + 4 <= EncodedLength(n)
    ensures 3 * g + 2 == n ==> EncodedLength(n) == 4 * g + 3
    ensures 3 * g + 1 == n ==> EncodedLength(n) == 4 * g + 2
  {
    if 3 * g + 2 < n {
      assert n / 3 >= g + 1;
    } else {
      assert n / 3 == g && n % 3 == n - 3 * g;
    }
  }

  method EncodeInto(data: seq<octet>) returns (encoded: string)
    ensures encoded == Encoded(data)
  {
    hide Letter, Encoded, Letters, Group, EncodedLength;
    encoded := "";
    var offset := 0;
    ghost var g, text := 0, Encoded(data);
    while offset + 2 < |data|
      invariant offset == 3 * g && offset <= |data| && 4 * g <= |text|
      invariant encoded == text[..4 * g]
    {
      EncodedGroup(data, g);
      ShiftedOut(data[offset], data[offset + 1], data[offset + 2]);
      var value := Group(data[offset], data[offset + 1], data[offset + 2]);
      var quad := [Letter(value / 262144 % 64), Letter(value / 4096 % 64), Letter(value / 64 % 64), Letter(value % 64)];
      assert quad[..4] == quad;
      TakeMore(text, 4 * g, quad);
      encoded := encoded + quad;
      offset := offset + 3;
      g := g + 1;
    }
    GroupsLeft(|data|, g);
    var remaining := |data| - offset;
    if remaining == 1 {
      EncodedGroup(data, g);
      ShiftedOut(data[offset], 0, 0);
      var value := Group(data[offset], 0, 0);
      var pair := [Letter(value / 262144 % 64), Letter(value / 4096 % 64)];
      Fewer(pair[0], pair[1], Letter(value / 64 % 64), Letter(value % 64));
      TakeMore(text, 4 * g, pair);
      encoded := encoded + pair;
    } else if remaining == 2 {
      EncodedGroup(data, g);
      ShiftedOut(data[offset], data[offset + 1], 0);
      var value := Group(data[offset], data[offset + 1], 0);
      var triple := [Letter(value / 262144 % 64), Letter(value / 4096 % 64), Letter(value / 64 % 64)];
      Fewer(triple[0], triple[1], triple[2], Letter(value % 64));
      TakeMore(text, 4 * g, triple);
      encoded := encoded + triple;
    }
  }

  /** Three bytes as a 24-bit number. */
  function Group(b0: octet, b1: octet, b2: octet): (v: nat) {
    (b0 as nat) * 65536 + (b1 as nat) * 256 + b2
  }

  lemma TakeMore(text: string, k: nat, more: string)
    requires k + |more| <= |text| && text[k..k + |more|] == more
    ensures text[..k] + more == text[..k + |more|]
    ensures k + |more| == |text| ==> text[..k] + more == text
  {
  }

  lemma GroupsLeft(n: nat, g: nat)
    requires 3 * g <= n <= 3 * g + 2
    ensures n == 3 * g ==> EncodedLength(n) == 4 * g
  {
    assert n == 3 * g ==> n / 3 == g;
  }

  // ----- Decoding (section 4 of RFC 4648, without padding as in section 3.2) -----

  function Decoded(text: string): Result<seq<octet>> {
    if !AllInAlphabet(text) then Err("not in the alphabet")
    else if |text| == 0 then Ok([])
    else if |text| == 1 then Err("a single letter holds no byte")
    else
      var v0, v1 := ValueOf(text[0]), ValueOf(text[1]);
      if |text| == 2 then Ok([First(v0, v1)])
      else
        var v2 := ValueOf(text[2]);
        if |text| == 3 then Ok([First(v0, v1), Second(v1, v2)])
        else
          var rest := Decoded(text[4..]);
          if rest.Err? then rest
          else Ok([First(v0, v1), Second(v1, v2), Third(v2, ValueOf(text[3]))] + rest.value)
  }

  predicate AllInAlphabet(text: string) {
    forall i :: 0 <= i < |text| ==> IsLetter(text[i])
  }

  /** The bytes that four sextets make up. */
  function First(v0: sextet, v1: sextet): octet {
    v0 * 4 + v1 / 16
  }

  function Second(v1: sextet, v2: sextet): octet {
    v1 % 16 * 16 + v2 / 4
  }

  function Third(v2: sextet, v3: sextet): octet {
    v2 % 4 * 64 + v3
  }

  lemma BitsLater(data: seq<octet>, j: nat)
    requires |data| >= 3
    ensures Bit(data, 24 + j) == Bit(data[3..], j)
  {
    assert (24 + j) / 8 == 3 + j / 8 && (24 + j) % 8 == j % 8;
  }

  /** Each whole group is encoded on its own. */
  lemma EncodedLater(data: seq<octet>)
    requires |data| >= 3
    ensures |Encoded(data)| >= 4 && Encoded(data)[4..] == Encoded(data[3..])
  {
    hide Letter, Bit;
    var n := |data|;
    assert (n - 3) / 3 == n / 3 - 1 && (n - 3) % 3 == n % 3;
    forall k: nat | k < EncodedLength(n - 3) ensures Sextet(data, 4 + k) == Sextet(data[3..], k) {
      var j := 6 * k;
      BitsLater(data, j);
      BitsLater(data, j + 1);
      BitsLater(data, j + 2);
      BitsLater(data, j + 3);
      BitsLater(data, j + 4);
      BitsLater(data, j + 5);
    }
  }

  /** The bytes of one group's letters. */
  lemma GroupDecoded(b0: octet, b1: octet, b2: octet)
    ensures var v0, v1, v2, v3 := b0 / 4, b0 % 4 * 16 + b1 / 16, b1 % 16 * 4 + b2 / 64, b2 % 64;
            First(v0, v1) == b0 && Second(v1, v2) == b1 && Third(v2, v3) == b2
  {
    var n1: nat, n2: nat := b1, b2;
    DivMod(b0 % 4 * 16 + n1 / 16, 16, b0 % 4, n1 / 16);
    DivMod(n1 % 16 * 4 + n2 / 64, 4, n1 % 16, n2 / 64);
  }

  lemma LettersMean(b0: octet, b1: octet, b2: octet)
    ensures var t := Letters(b0, b1, b2);
            && (forall i :: 0 <= i < 4 ==> IsLetter(t[i]))
            && ValueOf(t[0]) == b0 / 4 && ValueOf(t[1]) == b0 % 4 * 16 + b1 / 16
            && ValueOf(t[2]) == b1 % 16 * 4 + b2 / 64 && ValueOf(t[3]) == b2 % 64
  {
    hide Letter, ValueOf, IsLetter;
    LetterValue(b0 / 4);
    LetterValue(b0 % 4 * 16 + b1 / 16);
    LetterValue(b1 % 16 * 4 + b2 / 64);
    LetterValue(b2 % 64);
  }

  lemma AllLetters(data: seq<octet>)
    ensures AllInAlphabet(Encoded(data)) && '$' !in Encoded(data)
  {
    hide Letter, IsLetter, Sextet;
    forall v: sextet ensures IsLetter(Letter(v)) && Letter(v) != '$' {
      LetterValue(v);
    }
  }

  /** Decoding a text that begins with the letters of up to three bytes. */
  lemma DecodedGroup(text: string, b0: octet, b1: octet, b2: octet)
    requires |text| >= 2 && AllInAlphabet(text)
    requires forall k: nat :: k < 4 && k < |text| ==> text[k] == Letters(b0, b1, b2)[k]
    ensures |text| == 2 && b1 == 0 ==> Decoded(text) == Ok([b0])
    ensures |text| == 3 && b2 == 0 ==> Decoded(text) == Ok([b0, b1])
    ensures |text| >= 4 && Decoded(text[4..]).Ok? ==> Decoded(text) == Ok([b0, b1, b2] + Decoded(text[4..]).value)
  {
    hide Letters, ValueOf, IsLetter, Letter, First, Second, Third;
    LettersMean(b0, b1, b2);
    GroupDecoded(b0, b1, b2);
  }

  /** Decoding recovers the bytes. */
  lemma {:induction false} RoundTrip(data: seq<octet>)
    ensures Decoded(Encoded(data)) == Ok(data)
  {
    hide Letter, ValueOf, IsLetter, Letters, Encoded;
    var text := Encoded(data);
    AllLetters(data);
    if data != [] {
      hide Decoded;
      var b0, b1, b2 := data[0], ByteAt(data, 1), ByteAt(data, 2);
      EncodedGroup(data, 0);
      var n := if |data| > 2 then 4 else |data| + 1;
      assert forall k: nat :: k < n ==> text[k] == text[4 * 0..4 * 0 + n][k] == Letters(b0, b1, b2)[k];
      DecodedGroup(text, b0, b1, b2);
      if |data| >= 3 {
        EncodedLater(data);
        RoundTrip(data[3..]);
        assert data == [b0, b1, b2] + data[3..];
      } else if |data| == 2 {
        assert data == [b0, b1];
      } else {
        assert data == [b0];
      }
    }
  }
}
