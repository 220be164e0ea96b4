/** The Merkle tree of src/MerkleTree.cpp over an arbitrary hash function. */
module MerkleTree {

  import opened Common

  type Hash = string -> string

  /** The right partner of element `i`: the last element of an odd level is paired with itself. */
  function Partner(elements: seq<string>, i: nat): string
    requires i < |elements|
  {
    if i + 1 < |elements| then elements[i + 1] else elements[i]
  }

  /** The number of parents of a level of `n` elements. */
  function Half(n: nat): (m: nat)
    ensures m <= n && (n > 1 ==> 0 < m < n)
    ensures 2 * m == n || 2 * m == n + 1
  {
    (n + 1) / 2
  }

  /** The texts hashed for one level. */
  function Combined(elements: seq<string>): (c: seq<string>)
    ensures |c| == Half(|elements|)
    ensures forall i :: 0 <= i < |c| ==> c[i] == elements[2 * i] + Partner(elements, 2 * i)
  {
    seq(Half(|elements|), i requires 0 <= i < Half(|elements|) => elements[2 * i] + Partner(elements, 2 * i))
  }

  function Parents(h: Hash, elements: seq<string>): (p: seq<string>)
    ensures |p| == Half(|elements|)
  {
    var c := Combined(elements);
    seq(|c|, i requires 0 <= i < |c| => h(c[i]))
  }

  function Root(h: Hash, elements: seq<string>): string
    requires elements != []
    decreases |elements|
  {
    if |elements| == 1 then elements[0] else Root(h, Parents(h, elements))
  }

  /** The smallest trees, written out: a lone element is its own root, left stands before right, and an odd one is
      paired with itself. */
  lemma SmallTrees(h: Hash, a: string, b: string, c: string)
    ensures Root(h, [a]) == a && Root(h, [a, b]) == h(a + b) && Root(h, [a, b, c]) == h(h(a + b) + h(c + c))
  {
    TwoLeaves(h, a, b);
    TwoLeaves(h, h(a + b), h(c + c));
    assert Parents(h, [a, b, c]) == [h(a + b), h(c + c)];
    assert Root(h, [a, b, c]) == Root(h, Parents(h, [a, b, c]));
  }

  lemma TwoLeaves(h: Hash, a: string, b: string)
    ensures Root(h, [a, b]) == h(a + b)
  {
    assert Parents(h, [a, b]) == [h(a + b)];
    assert Root(h, [a, b]) == Root(h, Parents(h, [a, b])) == Root(h, [h(a + b)]);
  }

  function Elements(s: seq<string>): set<string> {
    set e | e in s
  }

  /** Every text hashed on the way to the root. */
  function Hashed(h: Hash, elements: seq<string>): set<string>
    requires elements != []
    decreases |elements|
  {
    if |elements| == 1 then {} else Elements(Combined(elements)) + Hashed(h, Parents(h, elements))
  }

  ghost predicate Width(elements: seq<string>, w: nat) {
    forall e :: e in elements ==> |e| == w
  }

  ghost predicate Collision(h: Hash, a: string, b: string) {
    a != b && h(a) == h(b)
  }

  // ----- What the root commits to -----

  lemma CombinedSplit(xs: seq<string>, ys: seq<string>, w: nat)
    requires |xs| == |ys| && Width(xs, w) && Width(ys, w) && Combined(xs) == Combined(ys)
    ensures xs == ys
  {
    hide Width, Combined;
    forall k | 0 <= k < |xs| ensures xs[k] == ys[k] {
      var i := k / 2;
      PairSplit(xs, ys, i, w);
      assert k == 2 * i || k == 2 * i + 1;
    }
  }

  lemma PairSplit(xs: seq<string>, ys: seq<string>, i: nat, w: nat)
    requires |xs| == |ys| && Width(xs, w) && Width(ys, w) && i < Half(|xs|) && Combined(xs)[i] == Combined(ys)[i]
    ensures xs[2 * i] == ys[2 * i] && (2 * i + 1 < |xs| ==> xs[2 * i + 1] == ys[2 * i + 1])
  {
    hide Half;
    var x, y := xs[2 * i], ys[2 * i];
    var c := Combined(xs)[i];
    assert x in xs && y in ys;
    assert c[..w] == x && c[..w] == y;
    assert c[w..] == Partner(xs, 2 * i) && c[w..] == Partner(ys, 2 * i);
  }

  lemma ParentsWidth(h: Hash, elements: seq<string>, w: nat)
    requires forall s: string :: |h(s)| == w
    ensures Width(Parents(h, elements), w)
  {
  }

  /** One level up: equal parents come from equal children or from two colliding texts of that level. */
  lemma LevelBinds(h: Hash, xs: seq<string>, ys: seq<string>, w: nat) returns (a: string, b: string)
    requires |xs| == |ys| > 1 && Width(xs, w) && Width(ys, w) && Parents(h, xs) == Parents(h, ys)
    ensures xs == ys || (a in Combined(xs) && b in Combined(ys) && Collision(h, a, b))
  {
    var cx, cy := Combined(xs), Combined(ys);
    a, b := cx[0], cy[0];
    if cx == cy {
      CombinedSplit(xs, ys, w);
    } else {
      var i :| 0 <= i < |cx| && cx[i] != cy[i];
      a, b := cx[i], cy[i];
      assert Parents(h, xs)[i] == h(cx[i]) && Parents(h, ys)[i] == h(cy[i]);
    }
  }

  // ----- Lists of any two lengths -----

  /** The number of levels above a list of `n` elements. */
  function Depth(n: nat): nat
    requires n >= 1
  {
    if n == 1 then 0 else 1 + Depth(Half(n))
  }

  /** Which of `n` elements stands at leaf `i` once every odd level has its last node repeated. */
  function Clip(n: nat, i: nat): (c: nat)
    requires n >= 1
    ensures c < n && (i < n ==> c == i)
    decreases n
  {
    if n == 1 then 0
    else
      var j := 2 * Clip(Half(n), i / 2) + i % 2;
      if j < n then j else n - 1
  }

  /** The list with every odd level's last node repeated: the leaves of a perfect tree. */
  function Perfect(xs: seq<string>): (leaves: seq<string>)
    requires xs != []
    ensures |leaves| == Power2(Depth(|xs|))
  {
    seq(Power2(Depth(|xs|)), i requires 0 <= i => xs[Clip(|xs|, i)])
  }

  /** The level `k` steps above the list. */
  function Above(h: Hash, xs: seq<string>, k: nat): (level: seq<string>)
    requires xs != [] && k <= Depth(|xs|)
    ensures level != [] && Depth(|level|) == Depth(|xs|) - k
    decreases k
  {
    if k == 0 then xs else Above(h, Parents(h, xs), k - 1)
  }

  /** No level above a list can be told from the list by its root. */
  lemma {:induction false} LevelAccepted(h: Hash, xs: seq<string>, k: nat)
    requires xs != [] && k <= Depth(|xs|)
    ensures Root(h, Above(h, xs, k)) == Root(h, xs)
    ensures |xs| > 1 ==> Root(h, [Root(h, xs)]) == Root(h, xs)
    decreases k
  {
    if k > 0 {
      LevelAccepted(h, Parents(h, xs), k - 1);
    }
  }

  lemma HashedStep(h: Hash, xs: seq<string>)
    requires |xs| > 1
    ensures Hashed(h, Parents(h, xs)) <= Hashed(h, xs)
    ensures exists text :: text in Hashed(h, xs) && Parents(h, xs)[0] == h(text)
  {
    hide Combined;
    var text := Combined(xs)[0];
    assert text in Elements(Combined(xs)) && Parents(h, xs)[0] == h(text);
  }

  lemma AboveStep(h: Hash, xs: seq<string>, k: nat)
    requires xs != [] && k <= Depth(|xs|)
    ensures Above(h, xs, 0) == xs
    ensures k > 0 ==> |xs| > 1 && k - 1 <= Depth(|Parents(h, xs)|) && Above(h, xs, k) == Above(h, Parents(h, xs), k - 1)
  {
  }

  lemma {:induction false} AboveHashed(h: Hash, xs: seq<string>, k: nat)
    requires xs != [] && k <= Depth(|xs|)
    ensures Hashed(h, Above(h, xs, k)) <= Hashed(h, xs)
    ensures k > 0 ==> exists text :: text in Hashed(h, xs) && Above(h, xs, k)[0] == h(text)
    decreases k
  {
    hide Depth, Above, Hashed, Parents;
    AboveStep(h, xs, k);
    if k > 0 {
      var up := Parents(h, xs);
      HashedStep(h, xs);
      AboveHashed(h, up, k - 1);
      if k == 1 {
        AboveStep(h, up, 0);
      }
    }
  }

  lemma DepthStep(n: nat)
    requires n >= 1
    ensures n == 1 <==> Depth(n) == 0
    ensures n > 1 ==> Depth(n) == 1 + Depth(Half(n)) && Power2(Depth(n)) == 2 * Power2(Depth(Half(n)))
  {
  }

  lemma {:induction false} DepthFits(n: nat)
    requires n >= 1
    ensures n <= Power2(Depth(n))
  {
    if n > 1 {
      DepthFits(Half(n));
    }
  }

  lemma ClipPair(n: nat, i: nat)
    requires n > 1
    ensures var c := Clip(Half(n), i);
            Clip(n, 2 * i) == 2 * c && Clip(n, 2 * i + 1) == if 2 * c + 1 < n then 2 * c + 1 else 2 * c
  {
    hide Clip, Half;
    ClipStep(n, i, 0);
    ClipStep(n, i, 1);
  }

  lemma ClipStep(n: nat, i: nat, bit: nat)
    requires n > 1 && bit < 2
    ensures var j := 2 * Clip(Half(n), i) + bit;
            Clip(n, 2 * i + bit) == if j < n then j else n - 1
  {
    hide Half;
    assert (2 * i + bit) / 2 == i && (2 * i + bit) % 2 == bit;
  }

  /** Repeating the last node of every odd level adds no new text, and one level up it is the same repetition. */
  lemma PerfectStep(h: Hash, xs: seq<string>)
    requires |xs| > 1
    ensures |Perfect(xs)| > 1 && Parents(h, Perfect(xs)) == Perfect(Parents(h, xs))
    ensures forall text :: text in Combined(Perfect(xs)) ==> text in Combined(xs)
  {
    hide Clip, Depth;
    var n, leaves, up := |xs|, Perfect(xs), Perfect(Parents(h, xs));
    DepthStep(n);
    assert |leaves| == 2 * |up|;
    forall i | 0 <= i < |up| ensures Combined(leaves)[i] == Combined(xs)[Clip(Half(n), i)] {
      ClipPair(n, i);
      var c := Clip(Half(n), i);
      assert leaves[2 * i] == xs[2 * c] && leaves[2 * i + 1] == Partner(xs, 2 * c);
    }
    forall i | 0 <= i < |up| ensures Parents(h, leaves)[i] == up[i] {
      assert up[i] == Parents(h, xs)[Clip(Half(n), i)];
    }
  }

  /** With as many levels: lists that become equal by the repetition have one root, for every hash. */
  lemma {:induction false} PerfectSameRoot(h: Hash, xs: seq<string>, ys: seq<string>)
    requires xs != [] && ys != [] && Perfect(xs) == Perfect(ys)
    ensures Depth(|xs|) == Depth(|ys|) ==> Root(h, xs) == Root(h, ys)
    decreases |xs|
  {
    hide Perfect, Depth;
    DepthStep(|xs|);
    DepthStep(|ys|);
    if |xs| == 1 && |ys| == 1 {
      PerfectStart(xs);
      PerfectStart(ys);
    } else if |xs| > 1 && |ys| > 1 {
      PerfectStep(h, xs);
      PerfectStep(h, ys);
      PerfectSameRoot(h, Parents(h, xs), Parents(h, ys));
    }
  }

  /** The repetition leaves the list itself in front. */
  lemma PerfectStart(xs: seq<string>)
    requires xs != []
    ensures |Perfect(xs)| >= |xs| && Perfect(xs)[..|xs|] == xs
  {
    hide Clip, Depth;
    DepthFits(|xs|);
  }

  lemma PerfectWidth(xs: seq<string>, w: nat)
    requires xs != [] && Width(xs, w)
    ensures Width(Perfect(xs), w)
  {
    hide Clip, Depth;
  }

  /** With as many levels: lists with one root become equal by the repetition, or two texts hashed for them collide. */
  lemma {:induction false} SameRootPerfect(h: Hash, xs: seq<string>, ys: seq<string>, w: nat) returns (a: string, b: string)
    requires forall s: string :: |h(s)| == w
    requires xs != [] && ys != [] && Depth(|xs|) == Depth(|ys|) && Width(xs, w) && Width(ys, w)
    ensures Root(h, xs) == Root(h, ys) ==>
      Perfect(xs) == Perfect(ys) || (a in Hashed(h, xs) && b in Hashed(h, ys) && Collision(h, a, b))
    decreases |xs|
  {
    hide Collision, Width, Perfect, Depth, Combined;
    a, b := "", "";
    DepthStep(|xs|);
    DepthStep(|ys|);
    if |xs| == 1 {
      if xs[0] == ys[0] {
        PerfectOne(xs, ys);
      }
    } else {
      ParentsWidth(h, xs, w);
      ParentsWidth(h, ys, w);
      a, b := SameRootPerfect(h, Parents(h, xs), Parents(h, ys), w);
      PerfectStep(h, xs);
      PerfectStep(h, ys);
      if Perfect(Parents(h, xs)) == Perfect(Parents(h, ys)) {
        PerfectWidth(xs, w);
        PerfectWidth(ys, w);
        a, b := LevelBinds(h, Perfect(xs), Perfect(ys), w);
      }
    }
  }

  lemma PerfectOne(xs: seq<string>, ys: seq<string>)
    requires |xs| == |ys| == 1 && xs[0] == ys[0]
    ensures Perfect(xs) == Perfect(ys)
  {
    assert xs == ys;
  }

  /** The shallower list and the level of the deeper one that lies as deep become equal by the repetition. */
  ghost predicate SameShape(h: Hash, xs: seq<string>, ys: seq<string>)
    requires xs != [] && ys != [] && Depth(|xs|) <= Depth(|ys|)
  {
    Perfect(xs) == Perfect(Above(h, ys, Depth(|ys|) - Depth(|xs|)))
  }

  /** For lists of any two lengths: the same root exactly when they have the same shape, up to two colliding texts. */
  lemma SameRootIff(h: Hash, xs: seq<string>, ys: seq<string>, w: nat) returns (a: string, b: string)
    requires forall s: string :: |h(s)| == w
    requires xs != [] && ys != [] && Depth(|xs|) <= Depth(|ys|) && Width(xs, w) && Width(ys, w)
    ensures SameShape(h, xs, ys) ==> Root(h, xs) == Root(h, ys)
    ensures Root(h, xs) == Root(h, ys) ==>
      SameShape(h, xs, ys) || (a in Hashed(h, xs) && b in Hashed(h, ys) && Collision(h, a, b))
  {
    hide Collision, Width, Perfect, Depth, Root, Above, Hashed;
    var k := Depth(|ys|) - Depth(|xs|);
    var level := Above(h, ys, k);
    LevelAccepted(h, ys, k);
    AboveHashed(h, ys, k);
    AboveWidth(h, ys, k, w);
    a, b := SameRootPerfect(h, xs, level, w);
    if Perfect(xs) == Perfect(level) {
      PerfectSameRoot(h, xs, level);
    }
  }

  lemma {:induction false} AboveWidth(h: Hash, xs: seq<string>, k: nat, w: nat)
    requires forall s: string :: |h(s)| == w
    requires xs != [] && k <= Depth(|xs|) && Width(xs, w)
    ensures Width(Above(h, xs, k), w)
    decreases k
  {
    hide Width, Depth, Parents;
    DepthStep(|xs|);
    if k > 0 {
      ParentsWidth(h, xs, w);
      AboveWidth(h, Parents(h, xs), k - 1, w);
    }
  }

  ghost predicate CollisionFree(h: Hash, texts: set<string>) {
    forall a, b :: a in texts && b in texts && h(a) == h(b) ==> a == b
  }

  /** Without a collision among the texts hashed for the two lists this is an equivalence. */
  lemma SameRootIffSameShape(h: Hash, xs: seq<string>, ys: seq<string>, w: nat)
    requires forall s: string :: |h(s)| == w
    requires xs != [] && ys != [] && Depth(|xs|) <= Depth(|ys|) && Width(xs, w) && Width(ys, w)
    requires CollisionFree(h, Hashed(h, xs) + Hashed(h, ys))
    ensures Root(h, xs) == Root(h, ys) <==> SameShape(h, xs, ys)
  {
    hide Width, Depth, Root, Hashed, SameShape;
    var a, b := SameRootIff(h, xs, ys, w);
  }

  ghost predicate Distinct(xs: seq<string>) {
    forall i, j :: 0 <= i < j < |xs| ==> xs[i] != xs[j]
  }

  /** No element is itself the hash of a text hashed for the other list. */
  ghost predicate LeavesOnly(h: Hash, xs: seq<string>, texts: set<string>) {
    forall text :: text in texts ==> h(text) !in xs
  }

  /** When the root does bind the length: no list repeats an element, and none has an inner node of the other as an
      element. Then lists of any two lengths with one root are equal, or a collision is returned. */
  lemma DistinctLeavesBind(h: Hash, xs: seq<string>, ys: seq<string>, w: nat) returns (a: string, b: string)
    requires forall s: string :: |h(s)| == w
    requires xs != [] && ys != [] && Width(xs, w) && Width(ys, w) && Distinct(xs) && Distinct(ys)
    requires LeavesOnly(h, xs, Hashed(h, ys)) && LeavesOnly(h, ys, Hashed(h, xs))
    ensures Root(h, xs) == Root(h, ys) ==> xs == ys || (a in Hashed(h, xs) && b in Hashed(h, ys) && Collision(h, a, b))
  {
    hide Width, Depth, Root, Hashed, SameShape, Collision, Distinct, LeavesOnly;
    if Depth(|xs|) <= Depth(|ys|) {
      a, b := SameRootIff(h, xs, ys, w);
      if SameShape(h, xs, ys) {
        SameShapeDistinct(h, xs, ys);
      }
    } else {
      b, a := SameRootIff(h, ys, xs, w);
      CollisionTurns(h, a, b);
      if SameShape(h, ys, xs) {
        SameShapeDistinct(h, ys, xs);
      }
    }
  }

  lemma CollisionTurns(h: Hash, a: string, b: string)
    ensures Collision(h, a, b) <==> Collision(h, b, a)
  {
  }

  lemma SameShapeDistinct(h: Hash, xs: seq<string>, ys: seq<string>)
    requires xs != [] && ys != [] && Depth(|xs|) <= Depth(|ys|) && SameShape(h, xs, ys)
    requires Distinct(xs) && Distinct(ys) && LeavesOnly(h, xs, Hashed(h, ys))
    ensures xs == ys
  {
    hide Perfect, Depth, Hashed, Above;
    var k := Depth(|ys|) - Depth(|xs|);
    var level := Above(h, ys, k);
    FirstLeaf(xs, level);
    if k > 0 {
      assert xs[0] in xs;
      AboveHashed(h, ys, k);
    } else {
      PerfectStart(xs);
      PerfectStart(ys);
      AboveNone(h, ys);
      if |xs| < |ys| {
        NoRepeat(xs, ys);
      } else if |ys| < |xs| {
        NoRepeat(ys, xs);
      }
    }
  }

  lemma FirstLeaf(xs: seq<string>, ys: seq<string>)
    requires xs != [] && ys != [] && Perfect(xs) == Perfect(ys)
    ensures xs[0] == ys[0]
  {
    hide Perfect;
    PerfectStart(xs);
    PerfectStart(ys);
    assert xs[0] == Perfect(xs)[..|xs|][0] == Perfect(xs)[0];
    assert ys[0] == Perfect(ys)[..|ys|][0] == Perfect(ys)[0];
  }

  lemma AboveNone(h: Hash, xs: seq<string>)
    requires xs != []
    ensures Above(h, xs, 0) == xs
  {
  }

  /** A longer list with the same perfect leaves repeats an element. */
  lemma NoRepeat(xs: seq<string>, ys: seq<string>)
    requires 0 < |xs| < |ys| && Perfect(xs) == Perfect(ys)
    ensures !Distinct(ys)
  {
    hide Clip, Depth;
    var n := |xs|;
    PerfectStart(ys);
    var c := Clip(n, n);
    assert ys[n] == Perfect(ys)[..|ys|][n] == Perfect(xs)[n] == xs[c];
    assert ys[c] == Perfect(ys)[..|ys|][c] == Perfect(xs)[c] == xs[c];
  }

  /** Two lists of the same length with the same root are equal, or two texts hashed for them collide; these are
      returned. */
  lemma RootBinds(h: Hash, xs: seq<string>, ys: seq<string>, w: nat) returns (a: string, b: string)
    requires forall s: string :: |h(s)| == w
    requires |xs| == |ys| >= 1 && Width(xs, w) && Width(ys, w)
    ensures Root(h, xs) == Root(h, ys) ==> xs == ys || (a in Hashed(h, xs) && b in Hashed(h, ys) && Collision(h, a, b))
  {
    hide Perfect, Width, Collision, Root, Hashed;
    a, b := SameRootPerfect(h, xs, ys, w);
    PerfectStart(xs);
    PerfectStart(ys);
  }

  /** The length is not committed to: an odd list and the same list with its last element repeated have one root. */
  lemma OddLastRepeated(h: Hash, xs: seq<string>)
    requires |xs| % 2 == 1 && |xs| >= 3
    ensures Root(h, xs) == Root(h, xs + [xs[|xs| - 1]])
  {
    hide Half;
    var ys := xs + [xs[|xs| - 1]];
    SameHalf(|xs|);
    var cx, cy := Combined(xs), Combined(ys);
    forall i | 0 <= i < |cx| ensures cx[i] == cy[i] {
      SamePair(xs, i);
    }
    assert cx == cy;
    SameParents(h, xs, ys);
  }

  lemma SameHalf(n: nat)
    requires n % 2 == 1
    ensures Half(n) == Half(n + 1)
  {
  }

  lemma SamePair(xs: seq<string>, i: nat)
    requires |xs| % 2 == 1 && 2 * i < |xs|
    ensures var ys := xs + [xs[|xs| - 1]];
            xs[2 * i] + Partner(xs, 2 * i) == ys[2 * i] + Partner(ys, 2 * i)
  {
  }

  lemma SameParents(h: Hash, xs: seq<string>, ys: seq<string>)
    requires Combined(xs) == Combined(ys)
    ensures Parents(h, xs) == Parents(h, ys)
  {
  }

  /** An empty level has an empty level above it, and no other level has: from it no root is ever reached. */
  lemma EmptyStaysEmpty(h: Hash, elements: seq<string>)
    ensures Parents(h, elements) == [] <==> elements == []
  {
  }

  // ----- The builder -----

  /** Every entry's key is the hash of its two children put together, and these were hashed for this list. */
  ghost predicate Sound(h: Hash, tree: map<string, (string, string)>, texts: set<string>) {
    forall key :: key in tree ==> key == h(tree[key].0 + tree[key].1) && tree[key].0 + tree[key].1 in texts
  }

  ghost predicate Covers(h: Hash, tree: map<string, (string, string)>, texts: set<string>) {
    forall text :: text in texts ==> h(text) in tree
  }

  class Tree {
    const hash: Hash
    var merkleTree: map<string, (string, string)>
    var merkleRoot: string

    /** An empty list of elements makes the original recurse without end. */
    constructor (h: Hash, elements: seq<string>)
      requires elements != []
      ensures hash == h && merkleRoot == Root(h, elements)
      ensures Sound(h, merkleTree, Hashed(h, elements)) && Covers(h, merkleTree, Hashed(h, elements))
    {
      hash, merkleTree, merkleRoot := h, map[], "";
      new;
      BuildTree(elements, {});
    }

    method BuildTree(elements: seq<string>, ghost above: set<string>)
      requires elements != []
      requires Sound(hash, merkleTree, above) && Covers(hash, merkleTree, above)
      modifies this
      ensures merkleRoot == Root(hash, elements)
      ensures Sound(hash, merkleTree, above + Hashed(hash, elements)) && Covers(hash, merkleTree, above + Hashed(hash, elements))
      decreases |elements|
    {
      hide Sound, Covers, Combined, Parents, Elements, Hashed;
      Alone(hash, elements);
      assert above + {} == above;
      if |elements| == 1 {
        merkleRoot := elements[0];
        return;
      }
      var newElements, i := [], 0;
      ghost var texts, k := above, 0;
      ghost var combinedTexts := Combined(elements);
      assert combinedTexts[..0] == [];
      while i < |elements|
        invariant i == 2 * k && k <= |combinedTexts| && newElements == Parents(hash, elements)[..k]
        invariant texts == above + Elements(combinedTexts[..k])
        invariant Sound(hash, merkleTree, texts) && Covers(hash, merkleTree, texts)
      {
        var left := elements[i];
        var right := if i + 1 < |elements| then elements[i + 1] else left;
        var combined := left + right;
        var newHash := hash(combined);
        NextPair(hash, elements, k, above, texts);
        Insert(hash, merkleTree, texts, left, right);
        merkleTree := merkleTree[newHash := (left, right)];
        newElements := newElements + [newHash];
        texts := texts + {combined};
        i := i + 2;
        k := k + 1;
      }
      LevelDone(hash, elements, k, above, texts);
      BuildTree(newElements, texts);
    }
  }

  lemma Alone(h: Hash, elements: seq<string>)
    requires elements != []
    ensures |elements| == 1 ==> Hashed(h, elements) == {}
    ensures Elements([]) == {}
  {
  }

  lemma NextPair(h: Hash, elements: seq<string>, k: nat, above: set<string>, texts: set<string>)
    requires 2 * k < |elements| && texts == above + Elements(Combined(elements)[..k])
    ensures k + 1 <= |Combined(elements)|
    ensures var combined := elements[2 * k] + Partner(elements, 2 * k);
            Parents(h, elements)[..k + 1] == Parents(h, elements)[..k] + [h(combined)]
            && texts + {combined} == above + Elements(Combined(elements)[..k + 1])
  {
    var combined := elements[2 * k] + Partner(elements, 2 * k);
    assert Combined(elements)[k] == combined;
    assert Combined(elements)[..k + 1] == Combined(elements)[..k] + [combined];
    assert Parents(h, elements)[k] == h(combined);
  }

  lemma LevelDone(h: Hash, elements: seq<string>, k: nat, above: set<string>, texts: set<string>)
    requires |elements| > 1 && 2 * k >= |elements| && k <= |Combined(elements)|
    requires texts == above + Elements(Combined(elements)[..k])
    ensures Parents(h, elements)[..k] == Parents(h, elements)
    ensures texts + Hashed(h, Parents(h, elements)) == above + Hashed(h, elements)
  {
    assert Combined(elements)[..k] == Combined(elements);
  }

  lemma Insert(h: Hash, tree: map<string, (string, string)>, texts: set<string>, left: string, right: string)
    requires Sound(h, tree, texts) && Covers(h, tree, texts)
    ensures var next := tree[h(left + right) := (left, right)];
            Sound(h, next, texts + {left + right}) && Covers(h, next, texts + {left + right})
  {
  }
}
