/** The simulated chain of server/chain_simulator.py. Text is taken to be ASCII. */
module ChainSimulator {
  import opened Common
  import opened Ledger

  datatype BlockType = Normal | Super | Xuni

  datatype ChainBlock = ChainBlock(blockId: nat, account: string, key: string, hash: string, kind: BlockType)

  datatype Chain = Chain(blocks: seq<ChainBlock>, nextId: nat, balances: map<string, real>, known: set<string>,
                         difficulty: int)

  /** What the constructor fixes. `keyIsNumber` stands for int(key, 16) succeeding; it is given with each submission. */
  datatype Rules = Rules(marker: string, xuniAlwaysValid: bool, interval: nat)

  datatype Submission = Submission(hash: string, key: string, account: string, keyIsNumber: bool, inWindow: bool)

  // ----- Text -----

  function LowerChar(c: char): char {
    if 'A' <= c <= 'Z' then (c as int + 32) as char else c
  }

  function Lower(s: string): (l: string)
    ensures |l| == |s|
  {
    seq(|s|, i requires 0 <= i < |s| => LowerChar(s[i]))
  }

  const SMALL := "abcdefghijklmnopqrstuvwxyz"
  const CAPITAL := "ABCDEFGHIJKLMNOPQRSTUVWXYZ"

  /** Each capital letter has its small one, and every other character stays. */
  lemma LowerLetters(k: nat, c: char)
    requires k < 26
    ensures LowerChar(CAPITAL[k]) == SMALL[k]
    ensures c !in CAPITAL ==> LowerChar(c) == c
  {
    if 'A' <= c <= 'Z' {
      CapitalAt(c as int - 'A' as int);
    }
    CapitalAt(k);
  }

  lemma CapitalAt(k: nat)
    requires k < 26
    ensures CAPITAL[k] == (65 + k) as char && SMALL[k] == (97 + k) as char
  {
  }

  /** Two texts of one length that differ at most in case. */
  predicate SameButCase(a: string, b: string) {
    |a| == |b| && forall i :: 0 <= i < |a| ==> LowerChar(a[i]) == LowerChar(b[i])
  }

  lemma LowerEqual(a: string, b: string)
    ensures Lower(a) == Lower(b) <==> SameButCase(a, b)
  {
    if Lower(a) == Lower(b) {
      forall i | 0 <= i < |a| ensures LowerChar(a[i]) == LowerChar(b[i]) {
        assert Lower(a)[i] == Lower(b)[i];
      }
    }
  }

  function Take16(s: string): string {
    if |s| <= 16 then s else s[..16]
  }

  predicate OccursAt(text: string, part: string, i: nat) {
    i + |part| <= |text| && text[i..i + |part|] == part
  }

  predicate Contains(text: string, part: string) {
    exists i :: 0 <= i <= |text| && OccursAt(text, part, i)
  }

  /** The regular expression XUNI followed by a digit. */
  predicate HasXuni(text: string) {
    exists i :: 0 <= i <= |text| && OccursAt(text, "XUNI", i) && i + 4 < |text| && '0' <= text[i + 4] <= '9'
  }

  function Uppercase(s: string): (n: nat) {
    if s == "" then 0 else Uppercase(s[..|s| - 1]) + if 'A' <= s[|s| - 1] <= 'Z' then 1 else 0
  }

  // ----- Submission -----

  function Classify(rules: Rules, s: Submission): Option<BlockType> {
    if Contains(s.hash, rules.marker) then Some(if Uppercase(s.hash) >= 50 then Super else Normal)
    else if HasXuni(s.hash) && (rules.xuniAlwaysValid || s.inWindow) then Some(Xuni)
    else None
  }

  /** How many positions of a text hold a capital letter. */
  ghost function Capitals(s: string): set<int> {
    set i | 0 <= i < |s| && 'A' <= s[i] <= 'Z'
  }

  lemma {:induction false} UppercaseCounts(s: string)
    ensures Uppercase(s) == |Capitals(s)|
  {
    if s != "" {
      var n := |s| - 1;
      UppercaseCounts(s[..n]);
      assert Capitals(s) == Capitals(s[..n]) + if 'A' <= s[n] <= 'Z' then {n} else {};
    }
  }

  /** A hash that contains the marker is a super block from fifty capital letters on and a normal block below; one
      without it is a XUNI block exactly when XUNI and a digit occur in it and its time allows; anything else is none. */
  lemma ClassifiedAs(rules: Rules, s: Submission)
    ensures var marked := exists a, b :: s.hash == a + rules.marker + b;
            var xuni := exists a, d, b :: s.hash == a + "XUNI" + [d] + b && d in "0123456789";
            && (Classify(rules, s) == Some(Super) <==> marked && |Capitals(s.hash)| >= 50)
            && (Classify(rules, s) == Some(Normal) <==> marked && |Capitals(s.hash)| < 50)
            && (Classify(rules, s) == Some(Xuni) <==> !marked && xuni && (rules.xuniAlwaysValid || s.inWindow))
  {
    hide Contains, HasXuni, Uppercase, Capitals;
    UppercaseCounts(s.hash);
    ContainsParts(s.hash, rules.marker);
    XuniParts(s.hash);
  }

  lemma ContainsParts(text: string, part: string)
    ensures Contains(text, part) <==> exists a, b :: text == a + part + b
  {
    if a, b :| text == a + part + b {
      assert text[|a|..|a| + |part|] == part;
      assert OccursAt(text, part, |a|);
    }
    if i :| 0 <= i <= |text| && OccursAt(text, part, i) {
      assert text == text[..i] + part + text[i + |part|..];
    }
  }

  lemma XuniParts(text: string)
    ensures HasXuni(text) <==> exists a, d, b :: text == a + "XUNI" + [d] + b && d in "0123456789"
  {
    if a, d, b :| text == a + "XUNI" + [d] + b && d in "0123456789" {
      assert text[|a|..|a| + 4] == "XUNI" && text[|a| + 4] == d;
      assert OccursAt(text, "XUNI", |a|);
    }
    if i :| 0 <= i <= |text| && OccursAt(text, "XUNI", i) && i + 4 < |text| && '0' <= text[i + 4] <= '9' {
      var d := text[i + 4];
      assert text == text[..i] + "XUNI" + [d] + text[i + 5..];
      assert "0123456789"[d as int - '0' as int] == d;
    }
  }

  function Reward(kind: BlockType): real {
    match kind
    case Super => 50.0
    case Normal => 10.0
    case Xuni => 1.0
  }

  /** Five per cent up, kept between 100 and 100000. */
  function Adjusted(difficulty: int): int {
    var raised := difficulty * 105 / 100;
    var capped := if raised < 100000 then raised else 100000;
    if capped < 100 then 100 else capped
  }

  function BalanceOf(balances: map<string, real>, account: string): real {
    if account in balances then balances[account] else 0.0
  }

  function Accepts(c: Chain, rules: Rules, s: Submission): bool {
    |s.key| >= 64 && s.keyIsNumber && s.key !in c.known && Classify(rules, s).Some?
  }

  function Submitted(c: Chain, rules: Rules, s: Submission): Chain
    requires rules.interval > 0
  {
    if !Accepts(c, rules, s) then c
    else
      var grown := Appended(c, ChainBlock(c.nextId, s.account, s.key, s.hash, Classify(rules, s).value));
      if |grown.blocks| % rules.interval == 0 then grown.(difficulty := Adjusted(grown.difficulty)) else grown
  }

  /** The block is stored, its key remembered and its miner credited. */
  function Appended(c: Chain, block: ChainBlock): Chain {
    var account := Lower(block.account);
    c.(blocks := c.blocks + [block], nextId := c.nextId + 1, known := c.known + {block.key},
       balances := c.balances[account := BalanceOf(c.balances, account) + Reward(block.kind)])
  }

  /** The rewards of the blocks mined for an account, whatever the case it was written in. */
  function Earned(blocks: seq<ChainBlock>, account: string): real {
    if blocks == [] then 0.0
    else
      var last := blocks[|blocks| - 1];
      Earned(blocks[..|blocks| - 1], account) + if Lower(last.account) == account then Reward(last.kind) else 0.0
  }

  /** Ids are 1..n, keys are distinct and are exactly the known ones. */
  ghost predicate Indexed(c: Chain) {
    && c.nextId == |c.blocks| + 1
    && (forall i :: 0 <= i < |c.blocks| ==> c.blocks[i].blockId == i + 1 && c.blocks[i].key in c.known)
    && (forall i, j :: 0 <= i < j < |c.blocks| ==> c.blocks[i].key != c.blocks[j].key)
    && (forall k :: k in c.known ==> exists i :: 0 <= i < |c.blocks| && c.blocks[i].key == k)
  }

  /** Every balance is the sum of its rewards. */
  ghost predicate Paid(c: Chain) {
    forall a :: BalanceOf(c.balances, a) == Earned(c.blocks, a)
  }

  ghost predicate Consistent(c: Chain) {
    Indexed(c) && Paid(c)
  }

  lemma AppendIndexed(c: Chain, block: ChainBlock)
    requires Indexed(c) && block.blockId == c.nextId && block.key !in c.known
    ensures Indexed(Appended(c, block))
  {
    var after := Appended(c, block);
    forall k | k in after.known ensures exists i :: 0 <= i < |after.blocks| && after.blocks[i].key == k {
      if k == block.key {
        assert after.blocks[|c.blocks|].key == k;
      } else {
        var i :| 0 <= i < |c.blocks| && c.blocks[i].key == k;
        assert after.blocks[i].key == k;
      }
    }
  }

  lemma AppendPaid(c: Chain, block: ChainBlock)
    requires Paid(c)
    ensures Paid(Appended(c, block))
  {
    hide Lower;
    var after := Appended(c, block);
    assert after.blocks[..|c.blocks|] == c.blocks;
    forall a ensures BalanceOf(after.balances, a) == Earned(after.blocks, a) {
      assert BalanceOf(c.balances, a) == Earned(c.blocks, a);
    }
  }

  /** Every submission keeps the chain consistent; a key already on the chain is refused. */
  lemma SubmitKeeps(c: Chain, rules: Rules, s: Submission)
    requires Consistent(c) && rules.interval > 0
    ensures Consistent(Submitted(c, rules, s))
    ensures c.known <= Submitted(c, rules, s).known && c.blocks <= Submitted(c, rules, s).blocks
    ensures s.key in c.known ==> Submitted(c, rules, s) == c
  {
    hide Classify, Indexed, Paid;
    if Accepts(c, rules, s) {
      var block := ChainBlock(c.nextId, s.account, s.key, s.hash, Classify(rules, s).value);
      AppendIndexed(c, block);
      AppendPaid(c, block);
      SameButDifficulty(Appended(c, block), Adjusted(c.difficulty));
    }
  }

  lemma SameButDifficulty(c: Chain, difficulty: int)
    requires Consistent(c)
    ensures Consistent(c.(difficulty := difficulty))
  {
  }

  /** What a submission does. One with a key that is too short, no number or known, or with an unclassified hash, does
      nothing; any other is stored under the next id, its key remembered, and its kind's reward added to the account
      in small letters. Every `interval`-th block raises the difficulty by five per cent, rounded down, within its
      bounds. */
  lemma SubmittedRows(c: Chain, rules: Rules, s: Submission)
    requires rules.interval > 0
    ensures var a := Submitted(c, rules, s);
            if |s.key| >= 64 && s.keyIsNumber && s.key !in c.known && Classify(rules, s).Some? then
              var kind, account := Classify(rules, s).value, Lower(s.account);
              && a.blocks == c.blocks + [ChainBlock(c.nextId, s.account, s.key, s.hash, kind)]
              && a.nextId == c.nextId + 1 && a.known == c.known + {s.key}
              && a.balances == c.balances[account := (if account in c.balances then c.balances[account] else 0.0)
                                                     + (if kind == Super then 50.0 else if kind == Normal then 10.0 else 1.0)]
              && (if (|c.blocks| + 1) % rules.interval == 0 then IsRaised(c.difficulty, a.difficulty)
                  else a.difficulty == c.difficulty)
            else a == c
  {
    hide Classify, Lower;
    assert RoundedDown(c.difficulty, c.difficulty * 105 / 100);
  }

  ghost predicate IsRaised(before: int, after: int) {
    exists raised :: RoundedDown(before, raised)
      && (if raised < 100 then after == 100 else if raised > 100_000 then after == 100_000 else after == raised)
  }

  predicate RoundedDown(difficulty: int, raised: int) {
    100 * raised <= 105 * difficulty < 100 * raised + 100
  }

  /** Difficulty never falls and never leaves its bounds. */
  lemma DifficultyRises(c: Chain, rules: Rules, s: Submission)
    requires rules.interval > 0 && 100 <= c.difficulty <= 100000
    ensures c.difficulty <= Submitted(c, rules, s).difficulty <= 100000
  {
  }

  // ----- Looking a key up -----

  predicate SharesPrefix(block: ChainBlock, prefix: string) {
    Lower(prefix) <= Lower(block.key)
  }

  /** Blocks sharing a prefix, newest first. */
  function Hits(blocks: seq<ChainBlock>, prefix: string): seq<ChainBlock> {
    if blocks == [] then []
    else
      var last := blocks[|blocks| - 1];
      (if SharesPrefix(last, prefix) then [last] else []) + Hits(blocks[..|blocks| - 1], prefix)
  }

  function Newest(hits: seq<ChainBlock>, limit: nat): seq<ChainBlock> {
    if |hits| <= limit then hits else hits[..limit]
  }

  /** The hits of a concatenation: the newer part comes first. */
  lemma {:induction false} HitsAppend(a: seq<ChainBlock>, b: seq<ChainBlock>, prefix: string)
    ensures Hits(a + b, prefix) == Hits(b, prefix) + Hits(a, prefix)
  {
    if b == [] {
      assert a + b == a;
    } else {
      assert (a + b)[..|a + b| - 1] == a + b[..|b| - 1];
      HitsAppend(a, b[..|b| - 1], prefix);
    }
  }

  /** A block that shares the prefix stands right after the hits newer than it. */
  lemma HitAt(blocks: seq<ChainBlock>, i: nat, prefix: string)
    requires i < |blocks| && SharesPrefix(blocks[i], prefix)
    ensures var newer := |Hits(blocks[i + 1..], prefix)|;
            newer < |Hits(blocks, prefix)| && Hits(blocks, prefix)[newer] == blocks[i]
  {
    assert blocks == blocks[..i + 1] + blocks[i + 1..];
    HitsAppend(blocks[..i + 1], blocks[i + 1..], prefix);
    assert blocks[..i + 1][..i] == blocks[..i];
  }

  lemma {:induction false} HitsAreBlocks(blocks: seq<ChainBlock>, prefix: string, b: ChainBlock)
    requires b in Hits(blocks, prefix)
    ensures b in blocks && SharesPrefix(b, prefix)
  {
    var last := blocks[|blocks| - 1];
    if !(SharesPrefix(last, prefix) && b == last) {
      HitsAreBlocks(blocks[..|blocks| - 1], prefix, b);
    }
  }

  lemma LowerPrefix(key: string)
    ensures Lower(Take16(key)) <= Lower(key)
  {
    assert Lower(Take16(key)) == Lower(key)[..|Take16(key)|];
  }

  /** Which blocks the lookup by prefix and exact key can find: those with fewer than `limit` newer blocks on the
      same prefix. */
  lemma FoundIff(c: Chain, key: string, limit: nat)
    requires Consistent(c)
    ensures (exists b :: b in Newest(Hits(c.blocks, Take16(key)), limit) && b.key == key)
       <==> (exists i :: 0 <= i < |c.blocks| && Reachable(c.blocks, key, limit, i))
  {
    hide Hits, Take16, SharesPrefix, Consistent;
    if b :| b in Newest(Hits(c.blocks, Take16(key)), limit) && b.key == key {
      var i := FoundIsReachable(c, key, limit, b);
    }
    if i :| 0 <= i < |c.blocks| && Reachable(c.blocks, key, limit, i) {
      ReachableIsFound(c.blocks, key, limit, i);
    }
  }

  /** Block `i` has this key and fewer than `limit` newer blocks share its 16-character prefix. */
  predicate Reachable(blocks: seq<ChainBlock>, key: string, limit: nat, i: nat) {
    i < |blocks| && blocks[i].key == key && |Hits(blocks[i + 1..], Take16(key))| < limit
  }

  lemma ReachableIsFound(blocks: seq<ChainBlock>, key: string, limit: nat, i: nat)
    requires Reachable(blocks, key, limit, i)
    ensures blocks[i] in Newest(Hits(blocks, Take16(key)), limit)
  {
    hide Hits;
    LowerPrefix(key);
    HitAt(blocks, i, Take16(key));
    assert Newest(Hits(blocks, Take16(key)), limit)[|Hits(blocks[i + 1..], Take16(key))|] == blocks[i];
  }

  lemma FoundIsReachable(c: Chain, key: string, limit: nat, b: ChainBlock) returns (i: nat)
    requires Consistent(c) && b in Newest(Hits(c.blocks, Take16(key)), limit) && b.key == key
    ensures Reachable(c.blocks, key, limit, i)
  {
    hide Hits, Take16, Indexed, Paid;
    var prefix := Take16(key);
    var hits := Hits(c.blocks, prefix);
    var k :| 0 <= k < |Newest(hits, limit)| && Newest(hits, limit)[k] == b;
    assert hits[k] == b;
    HitsAreBlocks(c.blocks, prefix, b);
    i :| 0 <= i < |c.blocks| && c.blocks[i] == b;
    HitAt(c.blocks, i, prefix);
    HitOnce(c, prefix, |Hits(c.blocks[i + 1..], prefix)|, k);
  }

  /** A block occurs once among the hits. */
  lemma HitOnce(c: Chain, prefix: string, j: nat, k: nat)
    requires Consistent(c) && j < |Hits(c.blocks, prefix)| && k < |Hits(c.blocks, prefix)|
    requires Hits(c.blocks, prefix)[j] == Hits(c.blocks, prefix)[k]
    ensures j == k
  {
    HitsDescend(c.blocks, prefix);
  }

  lemma {:induction false} HitsDescend(blocks: seq<ChainBlock>, prefix: string)
    requires forall i :: 0 <= i < |blocks| ==> blocks[i].blockId == i + 1
    ensures forall j, k :: 0 <= j < k < |Hits(blocks, prefix)| ==> Hits(blocks, prefix)[j].blockId > Hits(blocks, prefix)[k].blockId
    ensures forall j :: 0 <= j < |Hits(blocks, prefix)| ==> Hits(blocks, prefix)[j].blockId <= |blocks|
  {
    if blocks != [] {
      HitsDescend(blocks[..|blocks| - 1], prefix);
    }
  }

  // ----- The simulator -----

  datatype Verdict = Accepted(kind: BlockType) | BadKey | DuplicateKey | BadHash

  class ChainSimulator {
    const rules: Rules
    var difficulty: int
    var blocks: seq<ChainBlock>
    var nextBlockId: nat
    var balances: map<string, real>
    var knownKeys: set<string>

    constructor (rules: Rules, baseDifficulty: int)
      ensures this.rules == rules && View() == Chain([], 1, map[], {}, baseDifficulty) && Consistent(View())
    {
      this.rules, difficulty := rules, baseDifficulty;
      blocks, nextBlockId, balances, knownKeys := [], 1, map[], {};
    }

    function View(): Chain
      reads this
    {
      Chain(blocks, nextBlockId, balances, knownKeys, difficulty)
    }

    /** The number of capital letters, which decides between a normal and a super block. */
    static method CountUppercase(hash: string) returns (n: nat)
      ensures n == Uppercase(hash)
    {
      n := 0;
      for i := 0 to |hash|
        invariant n == Uppercase(hash[..i])
      {
        assert hash[..i + 1][..i] == hash[..i];
        if 'A' <= hash[i] <= 'Z' {
          n := n + 1;
        }
      }
      assert hash[..|hash|] == hash;
    }

    method ClassifyBlock(s: Submission) returns (kind: Option<BlockType>)
      ensures kind == Classify(rules, s)
    {
      if Contains(s.hash, rules.marker) {
        var n := CountUppercase(s.hash);
        return Some(if n >= 50 then Super else Normal);
      }
      if HasXuni(s.hash) {
        if !rules.xuniAlwaysValid && !s.inWindow {
          return None;
        }
        return Some(Xuni);
      }
      return None;
    }

    method SubmitBlock(s: Submission) returns (verdict: Verdict)
      requires rules.interval > 0
      modifies this
      ensures View() == Submitted(old(View()), rules, s)
      ensures verdict.Accepted? <==> Accepts(old(View()), rules, s)
      ensures verdict.Accepted? ==> Classify(rules, s) == Some(verdict.kind)
    {
      hide Classify;
      if |s.key| < 64 || !s.keyIsNumber {
        return BadKey;
      }
      if s.key in knownKeys {
        return DuplicateKey;
      }
      var kind := ClassifyBlock(s);
      if kind.None? {
        return BadHash;
      }
      blocks := blocks + [ChainBlock(nextBlockId, s.account, s.key, s.hash, kind.value)];
      knownKeys := knownKeys + {s.key};
      nextBlockId := nextBlockId + 1;
      var account := Lower(s.account);
      balances := balances[account := BalanceOf(balances, account) + Reward(kind.value)];
      if |blocks| % rules.interval == 0 {
        difficulty := Adjusted(difficulty);
      }
      return Accepted(kind.value);
    }

    /** The comprehension over the reversed block list, cut to `limit`. */
    method GetBlocksByKeyPrefix(prefix: string, limit: nat) returns (found: seq<ChainBlock>)
      ensures found == Newest(Hits(blocks, prefix), limit)
    {
      hide SharesPrefix;
      found := [];
      var i := |blocks|;
      assert blocks[..i] == blocks;
      while i > 0
        invariant 0 <= i <= |blocks| && found + Hits(blocks[..i], prefix) == Hits(blocks, prefix)
      {
        i := i - 1;
        assert blocks[..i + 1][..i] == blocks[..i];
        if SharesPrefix(blocks[i], prefix) {
          found := found + [blocks[i]];
        }
      }
      assert found == Hits(blocks, prefix);
      if |found| > limit {
        found := found[..limit];
      }
    }
  }
}
