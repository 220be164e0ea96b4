/** Reading the digest out of a protocol PHC string: digestFromProtocolPhc of src/CpuMiningWorker.cpp. */
module Phc {

  import opened Common
  import opened Base64

  function Decimal(n: nat): (s: string)
    ensures s != [] && '$' !in s
  {
    if n < 10 then [Digit(n)] else Decimal(n / 10) + [Digit(n % 10)]
  }

  function Digit(d: nat): (c: char)
    requires d < 10
    ensures c != '$' && '0' <= c <= '9'
  {
    (48 + d) as char
  }

  function Number(s: string): int {
    if s == [] then 0 else 10 * Number(s[..|s| - 1]) + (s[|s| - 1] as int - 48)
  }

  /** The decimal text of a number has only digits, no leading zero, and reads back as the number. */
  lemma {:induction false} DecimalReadsBack(n: nat)
    ensures (forall c :: c in Decimal(n) ==> '0' <= c <= '9') && Number(Decimal(n)) == n
    ensures n > 0 ==> Decimal(n)[0] != '0'
  {
    if n < 10 {
      assert Decimal(n)[..0] == [];
    } else {
      DecimalReadsBack(n / 10);
      assert Decimal(n)[..|Decimal(n)| - 1] == Decimal(n / 10);
    }
  }

  /** The parameters the protocol demands: memory cost, one pass, one lane. */
  function Parameters(difficulty: nat): string {
    "$argon2id$v=19$m=" + Decimal(difficulty) + ",t=1,p=1$"
  }

  /** The whole text for one difficulty. */
  lemma ParametersSpelled()
    ensures Parameters(1727) == "$argon2id$v=19$m=1727,t=1,p=1$"
  {
    assert Decimal(1) == "1" && Decimal(17) == "17" && Decimal(172) == "172" && Decimal(1727) == "1727";
  }

  /** Position of the last '$'; the length of the text when there is none. */
  function LastDollar(s: string): (p: nat)
    ensures p <= |s| && (p < |s| ==> s[p] == '$' && '$' !in s[p + 1..])
    ensures p == |s| ==> '$' !in s
  {
    if s == [] then 0
    else
      var q := LastDollar(s[1..]);
      if q < |s| - 1 then q + 1 else if s[0] == '$' then 0 else |s|
  }

  function DigestFromPhc(phc: string, difficulty: nat): Result<string> {
    var parameters := Parameters(difficulty);
    if !(parameters <= phc) then Err("CPU backend returned a non-protocol Argon2id hash")
    else
      var p := LastDollar(phc);
      if p == |phc| || p + 1 >= |phc| then Err("CPU backend returned an invalid PHC string")
      else Ok(phc[p + 1..])
  }

  lemma {:induction false} LastDollarAt(a: string, b: string)
    requires '$' !in b
    ensures LastDollar(a + "$" + b) == |a|
  {
    var s := a + "$" + b;
    if a == [] {
      assert s[1..] == b;
    } else {
      assert s[1..] == a[1..] + "$" + b;
      LastDollarAt(a[1..], b);
    }
  }

  /** Exactly the texts after the last '$' of a string that begins with the protocol's parameters are returned. */
  lemma DigestIff(phc: string, difficulty: nat, digest: string)
    ensures DigestFromPhc(phc, difficulty) == Ok(digest) <==>
            Parameters(difficulty) <= phc && '$' !in digest && digest != [] && exists a: string :: phc == a + "$" + digest
  {
    hide Parameters, LastDollar;
    if exists a: string :: phc == a + "$" + digest {
      var a: string :| phc == a + "$" + digest;
      if '$' !in digest {
        LastDollarAt(a, digest);
        assert phc[|a| + 1..] == digest;
      }
    }
    var p := LastDollar(phc);
    if DigestFromPhc(phc, difficulty) == Ok(digest) {
      assert phc == phc[..p] + "$" + digest;
    }
  }

  /** The digest that was encoded comes back, whatever the salt text. */
  lemma EncodedDigestReturned(difficulty: nat, salt: string, digest: seq<octet>)
    requires digest != []
    ensures var phc := Parameters(difficulty) + salt + "$" + Encoded(digest);
            DigestFromPhc(phc, difficulty) == Ok(Encoded(digest)) && Decoded(Encoded(digest)) == Ok(digest)
  {
    hide Encoded, Decoded, Parameters, DigestFromPhc;
    var text := Encoded(digest);
    var a := Parameters(difficulty) + salt;
    var phc := a + "$" + text;
    AllLetters(digest);
    RoundTrip(digest);
    LengthCoversBits(|digest|);
    assert a + "$" + text == phc;
    DigestIff(phc, difficulty, text);
  }
}
