/**
 The sorted-pair Merkle tree over policy leaves: levels, membership proofs, and what a proof that
 reaches the root says. SHA-256 is a parameter, an arbitrary function from byte strings to digests;
 no result assumes that it is injective. Where security rests on the hash, the result reads "the
 claim holds, or two different strings of this explicitly named finite set have one digest".
 */
module PolicyTree {
  import opened Arithmetic
  import opened Wrappers
  import opened Bytes
  import opened PolicyLeaf

  type Hasher = ByteSeq -> Digest

  const MAX_POLICY_LEAVES := 4096
  const MAX_MERKLE_PROOF_DEPTH := 12

  ghost predicate CollisionIn(h: Hasher, strings: set<ByteSeq>)
  {
    exists x, y :: x in strings && y in strings && x != y && h(x) == h(y)
  }

  // ---- Nodes ----

  /** The byte string hashed for an inner node: the smaller child first. */
  function NodeInput(first: Digest, second: Digest): (s: ByteSeq)
  {
    NODE_DOMAIN + if LexLe(first, second) then first + second else second + first
  }

  function NodeHash(h: Hasher, first: Digest, second: Digest): Digest
  {
    h(NodeInput(first, second))
  }

  lemma NodeInputSymmetric(a: Digest, b: Digest)
    ensures NodeInput(a, b) == NodeInput(b, a)
  {
    LexTotal(a, b);
    if LexLe(a, b) && LexLe(b, a) {
      LexAntisymmetric(a, b);
    }
  }

  lemma NodeInputInjective(a: Digest, b: Digest, c: Digest, d: Digest)
    requires NodeInput(a, b) == NodeInput(c, d)
    ensures (a == c && b == d) || (a == d && b == c)
  {
    var x, y := NodeInput(a, b), NodeInput(c, d);
    var p, q := if LexLe(a, b) then a + b else b + a, if LexLe(c, d) then c + d else d + c;
    AppendCancel(NODE_DOMAIN, NODE_DOMAIN, p, q);
    AppendCancel(p[..32], q[..32], p[32..], q[32..]);
  }

  /** Byte for byte: the domain, then the two children, the smaller one first. */
  lemma NodeInputForm(a: Digest, b: Digest)
    ensures var s := NodeInput(a, b);
            && |s| == 102 && s[..38] == NODE_DOMAIN && LexLe(s[38..70], s[70..])
            && ((s[38..70] == a && s[70..] == b) || (s[38..70] == b && s[70..] == a))
  {
    DomainsDiffer();
    LexTotal(a, b);
    var s := NodeInput(a, b);
    var first, second := if LexLe(a, b) then a else b, if LexLe(a, b) then b else a;
    assert s == NODE_DOMAIN + first + second;
    assert s[38..70] == first && s[70..] == second;
  }

  /** No leaf string is a node string: the domains have one length and differ. */
  lemma LeafIsNotNode(leaf: ByteSeq, a: Digest, b: Digest)
    requires LEAF_DOMAIN <= leaf
    ensures leaf != NodeInput(a, b)
  {
    DomainsDiffer();
    assert leaf[..38] == LEAF_DOMAIN && NodeInput(a, b)[..38] == NODE_DOMAIN;
  }

  // ---- Levels ----

  function Sibling(level: seq<Digest>, index: nat): Digest
    requires index < |level|
  {
    if index % 2 == 0 then (if index + 1 < |level| then level[index + 1] else level[index]) else level[index - 1]
  }

  /** One level up: neighbours are paired, an odd last node is paired with itself. */
  function NextLevel(h: Hasher, level: seq<Digest>): (next: seq<Digest>)
    ensures |next| == (|level| + 1) / 2
    ensures forall k :: 0 <= k < |next| ==> next[k] == NodeHash(h, level[2 * k], Sibling(level, 2 * k))
  {
    seq((|level| + 1) / 2, (k: nat) requires k < (|level| + 1) / 2 => NodeHash(h, level[2 * k], Sibling(level, 2 * k)))
  }

  function Levels(h: Hasher, level: seq<Digest>): (levels: seq<seq<Digest>>)
    requires level != []
    ensures levels != [] && levels[0] == level
    ensures |levels[|levels| - 1]| == 1
    decreases |level|
  {
    if |level| == 1 then [level] else [level] + Levels(h, NextLevel(h, level))
  }

  function Root(h: Hasher, level: seq<Digest>): Digest
    requires level != []
  {
    var levels := Levels(h, level);
    levels[|levels| - 1][0]
  }

  lemma RootStep(h: Hasher, level: seq<Digest>)
    requires |level| > 1
    ensures Root(h, level) == Root(h, NextLevel(h, level))
  {
  }

  // ---- Shape ----

  function Pow2(k: nat): (p: nat)
    ensures p > 0
  {
    if k == 0 then 1 else 2 * Pow2(k - 1)
  }

  lemma CeilDivHalves(n: nat, d: nat)
    requires d > 0
    ensures CeilDiv(CeilDiv(n, 2), d) == CeilDiv(n, 2 * d)
  {
    var q := CeilDiv(n, 2 * d);
    var r := (n + 2 * d - 1) % (2 * d);
    assert n + 2 * d - 1 == q * (2 * d) + r;
    var m := CeilDiv(n, 2);
    assert n <= 2 * m <= n + 1;
    assert (q - 1) * (2 * d) < n <= q * (2 * d);
    assert (q - 1) * d < m <= q * d by {
      assert q * (2 * d) == 2 * (q * d) && (q - 1) * (2 * d) == 2 * ((q - 1) * d);
    }
    CeilDivUnique(m, d, q);
  }

  /** Level k holds ceil(n / 2^k) nodes; there are as many levels as halvings down to one node, plus one. */
  lemma {:induction false} LevelSizes(h: Hasher, level: seq<Digest>, k: nat)
    requires level != [] && k < |Levels(h, level)|
    ensures |Levels(h, level)[k]| == CeilDiv(|level|, Pow2(k))
    ensures k > 0 ==> |Levels(h, level)[k]| == CeilDiv(|Levels(h, level)[k - 1]|, 2)
    ensures k + 1 < |Levels(h, level)| ==> |Levels(h, level)[k]| > 1
    decreases k
  {
    if k > 0 {
      var next := NextLevel(h, level);
      assert Levels(h, level) == [level] + Levels(h, next);
      LevelSizes(h, next, k - 1);
      CeilDivHalves(|level|, Pow2(k - 1));
    }
  }

  /** The number of levels above the leaves is ceil(log2 n): n <= 2^k, and 2^(k-1) is too few. */
  lemma {:induction false} LevelCount(h: Hasher, level: seq<Digest>)
    requires level != []
    ensures var height := |Levels(h, level)| - 1;
            && |level| <= Pow2(height)
            && (height > 0 ==> Pow2(height - 1) < |level|)
    decreases |level|
  {
    hide NextLevel, NodeHash, Pow2;
    if |level| == 1 {
      PowersAbove(0);
    } else {
      var next := NextLevel(h, level);
      var below := |Levels(h, next)| - 1;
      LevelCount(h, next);
      assert |Levels(h, level)| == |Levels(h, next)| + 1;
      hide Levels;
      PowersAbove(below);
      if below > 0 {
        PowersAbove(below - 1);
      }
    }
  }

  lemma PowersAbove(k: nat)
    ensures Pow2(0) == 1 && Pow2(k + 1) == 2 * Pow2(k)
  {
  }

  lemma {:induction false} Pow2Monotone(a: nat, b: nat)
    requires a <= b
    ensures Pow2(a) <= Pow2(b)
  {
    if a < b {
      Pow2Monotone(a, b - 1);
    }
  }

  lemma Pow2Twelve()
    ensures Pow2(12) == 4096
  {
    assert Pow2(4) == 16;
    assert Pow2(8) == 256;
  }

  /** A tree of at most 4096 leaves has proofs of at most 12 digests. */
  lemma DepthBound(h: Hasher, level: seq<Digest>)
    requires 0 < |level| <= MAX_POLICY_LEAVES
    ensures |Levels(h, level)| - 1 <= MAX_MERKLE_PROOF_DEPTH
  {
    hide Levels, Pow2;
    LevelCount(h, level);
    var height := |Levels(h, level)| - 1;
    Pow2Twelve();
    if height > 12 {
      Pow2Monotone(12, height - 1);
    }
  }

  // ---- Proofs ----

  function ProofFrom(levels: seq<seq<Digest>>, index: nat): (proof: seq<Digest>)
    requires levels != [] && WellShaped(levels) && index < |levels[0]|
    ensures |proof| == |levels| - 1
    decreases |levels|
  {
    if |levels| == 1 then []
    else [Sibling(levels[0], index)] + ProofFrom(levels[1..], index / 2)
  }

  /** Every level has half the nodes of the one below, rounded up. */
  predicate WellShaped(levels: seq<seq<Digest>>)
  {
    forall k :: 0 < k < |levels| ==> |levels[k]| == (|levels[k - 1]| + 1) / 2
  }

  lemma ProofFromStep(levels: seq<seq<Digest>>, k: nat, index: nat)
    requires WellShaped(levels) && k + 1 < |levels| && index < |levels[k]|
    ensures WellShaped(levels[k..]) && WellShaped(levels[k + 1..])
    ensures ProofFrom(levels[k..], index) == [Sibling(levels[k], index)] + ProofFrom(levels[k + 1..], index / 2)
  {
    var rest := levels[k..];
    assert rest[1..] == levels[k + 1..];
    assert rest[1] == levels[k + 1];
  }

  /** Left fold of the node hash over a proof, starting from a leaf. */
  function Fold(h: Hasher, leaf: Digest, proof: seq<Digest>): Digest
    decreases |proof|
  {
    if proof == [] then leaf else Fold(h, NodeHash(h, leaf, proof[0]), proof[1..])
  }

  lemma {:induction false} FoldSnoc(h: Hasher, leaf: Digest, proof: seq<Digest>, last: Digest)
    ensures Fold(h, leaf, proof + [last]) == NodeHash(h, Fold(h, leaf, proof), last)
    decreases |proof|
  {
    if proof == [] {
      assert [last][1..] == [];
      assert proof + [last] == [last];
    } else {
      assert (proof + [last])[1..] == proof[1..] + [last];
      FoldSnoc(h, NodeHash(h, leaf, proof[0]), proof[1..], last);
    }
  }

  lemma {:induction false} LevelsWellShaped(h: Hasher, level: seq<Digest>)
    requires level != []
    ensures WellShaped(Levels(h, level))
    decreases |level|
  {
    if |level| > 1 {
      LevelsWellShaped(h, NextLevel(h, level));
      assert Levels(h, level) == [level] + Levels(h, NextLevel(h, level));
    }
  }

  // ---- Which strings are hashed ----

  /** The strings hashed to make the nodes above `level`. */
  ghost function TreeInputs(h: Hasher, level: seq<Digest>): set<ByteSeq>
    requires level != []
    decreases |level|
  {
    if |level| == 1 then {}
    else
      (set k | 0 <= k < |level| :: NodeInput(level[k], Sibling(level, k)))
      + TreeInputs(h, NextLevel(h, level))
  }

  /** The strings hashed while folding a proof. */
  ghost function FoldInputs(h: Hasher, leaf: Digest, proof: seq<Digest>): set<ByteSeq>
    decreases |proof|
  {
    if proof == [] then {}
    else {NodeInput(leaf, proof[0])} + FoldInputs(h, NodeHash(h, leaf, proof[0]), proof[1..])
  }

  lemma {:induction false} FoldInputsAt(h: Hasher, leaf: Digest, proof: seq<Digest>, k: nat)
    requires k < |proof|
    ensures NodeInput(Fold(h, leaf, proof[..k]), proof[k]) in FoldInputs(h, leaf, proof)
    decreases |proof|
  {
    if k > 0 {
      assert proof[..k][1..] == proof[1..][..k - 1];
      FoldInputsAt(h, NodeHash(h, leaf, proof[0]), proof[1..], k - 1);
    }
  }

  // ---- Completeness ----

  lemma FoldStep(h: Hasher, leaf: Digest, sibling: Digest, rest: seq<Digest>)
    ensures Fold(h, leaf, [sibling] + rest) == Fold(h, NodeHash(h, leaf, sibling), rest)
    ensures FoldInputs(h, leaf, [sibling] + rest)
         == {NodeInput(leaf, sibling)} + FoldInputs(h, NodeHash(h, leaf, sibling), rest)
  {
    assert ([sibling] + rest)[1..] == rest;
  }

  /** The parent of node `index` is the hash of that node and its sibling, on either side. */
  lemma ParentHash(h: Hasher, level: seq<Digest>, index: nat)
    requires index < |level|
    ensures NextLevel(h, level)[index / 2] == NodeHash(h, level[index], Sibling(level, index))
  {
    NodeInputSymmetric(level[index], Sibling(level, index));
  }

  lemma LevelsStep(h: Hasher, level: seq<Digest>)
    requires |level| > 1
    ensures Levels(h, level) == [level] + Levels(h, NextLevel(h, level))
    ensures Levels(h, level)[1..] == Levels(h, NextLevel(h, level))
    ensures TreeInputs(h, NextLevel(h, level)) <= TreeInputs(h, level)
    ensures forall k :: 0 <= k < |level| ==> NodeInput(level[k], Sibling(level, k)) in TreeInputs(h, level)
  {
  }

  lemma MoveAcross<T>(front: seq<T>, x: T, back: seq<T>)
    ensures front + ([x] + back) == (front + [x]) + back
  {
  }

  /** Adding one more level to those below leaves the list of all levels and the root as they are. */
  lemma LevelClosed(h: Hasher, level: seq<Digest>, below: seq<seq<Digest>>)
    requires |level| > 1
    ensures below + Levels(h, level) == (below + [level]) + Levels(h, NextLevel(h, level))
    ensures Root(h, level) == Root(h, NextLevel(h, level))
  {
    hide Levels, NextLevel, Root;
    LevelsStep(h, level);
    RootStep(h, level);
    MoveAcross(below, level, Levels(h, NextLevel(h, level)));
  }

  lemma TopLevel(h: Hasher, level: seq<Digest>)
    requires |level| == 1
    ensures Levels(h, level) == [level] && Root(h, level) == level[0]
  {
  }

  function LeafProof(h: Hasher, level: seq<Digest>, index: nat): (proof: seq<Digest>)
    requires index < |level|
    ensures |proof| == |Levels(h, level)| - 1
  {
    LevelsWellShaped(h, level);
    ProofFrom(Levels(h, level), index)
  }

  lemma LeafProofStep(h: Hasher, level: seq<Digest>, index: nat)
    requires 1 < |level| && index < |level|
    ensures LeafProof(h, level, index) == [Sibling(level, index)] + LeafProof(h, NextLevel(h, level), index / 2)
  {
    LevelsWellShaped(h, level);
    LevelsStep(h, level);
  }

  /**
   Every leaf of every tree has its proof: folding it gives the root, odd levels included, and the
   fold hashes nothing that building the tree did not hash.
   */
  lemma {:induction false} ProofReachesRoot(h: Hasher, level: seq<Digest>, index: nat)
    requires index < |level|
    ensures Fold(h, level[index], LeafProof(h, level, index)) == Root(h, level)
    ensures FoldInputs(h, level[index], LeafProof(h, level, index)) <= TreeInputs(h, level)
    decreases |level|
  {
    if |level| > 1 {
      var next := NextLevel(h, level);
      ProofReachesRoot(h, next, index / 2);
      LevelsStep(h, level);
      LeafProofStep(h, level, index);
      ParentHash(h, level, index);
      FoldStep(h, level[index], Sibling(level, index), LeafProof(h, next, index / 2));
      RootStep(h, level);
    }
  }

  // ---- Soundness ----

  lemma CollisionWitness(h: Hasher, x: ByteSeq, y: ByteSeq, strings: set<ByteSeq>)
    requires x in strings && y in strings && x != y && h(x) == h(y)
    ensures CollisionIn(h, strings)
  {
  }

  /** A leaf string with a node's digest is a collision. */
  lemma Collide(h: Hasher, leaf: ByteSeq, child: Digest, sibling: Digest, strings: set<ByteSeq>)
    requires LEAF_DOMAIN <= leaf && leaf in strings && NodeInput(child, sibling) in strings
    requires h(leaf) == NodeHash(h, child, sibling)
    ensures CollisionIn(h, strings)
  {
    LeafIsNotNode(leaf, child, sibling);
    CollisionWitness(h, leaf, NodeInput(child, sibling), strings);
  }

  /** A node of the level above that came out of folding one step has its child in this level. */
  lemma StepDown(h: Hasher, level: seq<Digest>, child: Digest, sibling: Digest, strings: set<ByteSeq>)
    requires |level| > 1
    requires TreeInputs(h, level) <= strings && NodeInput(child, sibling) in strings
    requires NodeHash(h, child, sibling) in NextLevel(h, level)
    ensures child in level || CollisionIn(h, strings)
  {
    var k := Position(NextLevel(h, level), NodeHash(h, child, sibling));
    var left := level[2 * k];
    var right := Sibling(level, 2 * k);
    PairHashed(h, level, k);
    PairInLevel(level, 2 * k);
    SamePairOrCollision(h, left, right, child, sibling, strings);
  }

  lemma PairInLevel(level: seq<Digest>, index: nat)
    requires index < |level|
    ensures level[index] in level && Sibling(level, index) in level
  {
  }

  lemma PairHashed(h: Hasher, level: seq<Digest>, k: nat)
    requires |level| > 1 && k < |NextLevel(h, level)|
    ensures NodeInput(level[2 * k], Sibling(level, 2 * k)) in TreeInputs(h, level)
    ensures NextLevel(h, level)[k] == NodeHash(h, level[2 * k], Sibling(level, 2 * k))
  {
    LevelsStep(h, level);
  }

  lemma SamePairOrCollision(h: Hasher, a: Digest, b: Digest, c: Digest, d: Digest, strings: set<ByteSeq>)
    requires NodeInput(a, b) in strings && NodeInput(c, d) in strings
    requires NodeHash(h, a, b) == NodeHash(h, c, d)
    ensures (a == c && b == d) || (a == d && b == c) || CollisionIn(h, strings)
  {
    if NodeInput(a, b) == NodeInput(c, d) {
      NodeInputInjective(a, b, c, d);
    } else {
      CollisionWitness(h, NodeInput(a, b), NodeInput(c, d), strings);
    }
  }

  ghost function Position(s: seq<Digest>, d: Digest): (k: nat)
    requires d in s
    ensures k < |s| && s[k] == d
  {
    var k :| 0 <= k < |s| && s[k] == d;
    k
  }

  lemma FoldLast(h: Hasher, leaf: Digest, proof: seq<Digest>, m: nat)
    requires 0 < m <= |proof|
    ensures Fold(h, leaf, proof[..m]) == NodeHash(h, Fold(h, leaf, proof[..m - 1]), proof[m - 1])
    ensures NodeInput(Fold(h, leaf, proof[..m - 1]), proof[m - 1]) in FoldInputs(h, leaf, proof)
  {
    assert proof[..m] == proof[..m - 1] + [proof[m - 1]];
    FoldSnoc(h, leaf, proof[..m - 1], proof[m - 1]);
    FoldInputsAt(h, leaf, proof, m - 1);
  }

  /** If a fold reaches the root, some prefix of it arrives in `level`, unless two strings collide. */
  lemma {:induction false} FoldVisits(h: Hasher, level: seq<Digest>, start: ByteSeq, proof: seq<Digest>, strings: set<ByteSeq>)
    returns (m: nat)
    requires level != [] && LEAF_DOMAIN <= start
    requires start in strings
    requires TreeInputs(h, level) <= strings && FoldInputs(h, h(start), proof) <= strings
    requires Fold(h, h(start), proof) == Root(h, level)
    ensures m <= |proof|
    ensures CollisionIn(h, strings) || Fold(h, h(start), proof[..m]) in level
    decreases |level|
  {
    hide NodeInput, NodeHash, NextLevel, Levels, Root, TreeInputs, FoldInputs, CollisionIn;
    if |level| == 1 {
      m := |proof|;
      TopLevel(h, level);
      assert proof[..m] == proof && level[0] in level;
    } else {
      var next := NextLevel(h, level);
      RootStep(h, level);
      LevelsStep(h, level);
      m := FoldVisits(h, next, start, proof, strings);
      if !CollisionIn(h, strings) {
        if m == 0 {
          assert proof[..m] == [];
          NodeIsNoLeaf(h, level, start, strings);
        } else {
          FoldLast(h, h(start), proof, m);
          m := m - 1;
          StepDown(h, level, Fold(h, h(start), proof[..m]), proof[m], strings);
        }
      }
    }
  }

  lemma NodeIsNoLeaf(h: Hasher, level: seq<Digest>, start: ByteSeq, strings: set<ByteSeq>)
    requires |level| > 1 && LEAF_DOMAIN <= start && start in strings
    requires TreeInputs(h, level) <= strings
    requires h(start) in NextLevel(h, level)
    ensures CollisionIn(h, strings)
  {
    var k := Position(NextLevel(h, level), h(start));
    LevelsStep(h, level);
    Collide(h, start, level[2 * k], Sibling(level, 2 * k), strings);
  }

  /** The leaf digests of a list of leaf strings. */
  function Digests(h: Hasher, leaves: seq<ByteSeq>): (r: seq<Digest>)
    ensures |r| == |leaves| && forall i :: 0 <= i < |r| ==> r[i] == h(leaves[i])
  {
    seq(|leaves|, (i: nat) requires i < |leaves| => h(leaves[i]))
  }

  ghost predicate LeafStrings(leaves: seq<ByteSeq>)
  {
    forall i :: 0 <= i < |leaves| ==> LEAF_DOMAIN <= leaves[i]
  }

  ghost function Members(leaves: seq<ByteSeq>): set<ByteSeq>
  {
    set s | s in leaves
  }

  /** Everything hashed to build the tree over `leaves` (in sorted order) and to fold one proof. */
  ghost function HashedStrings(h: Hasher, leaves: seq<ByteSeq>, start: ByteSeq, proof: seq<Digest>): set<ByteSeq>
    requires leaves != []
  {
    Members(leaves) + TreeInputs(h, Sorted(Digests(h, leaves))) + {start} + FoldInputs(h, h(start), proof)
  }

  /**
   Soundness: a proof of any length that takes a leaf string to the root of the tree over `leaves`
   shows that the string is one of the leaves, or two of the strings hashed on the way collide.
   Proofs that stop at an inner node or run past a leaf are covered by the differing domains.
   */
  lemma ProofSound(h: Hasher, leaves: seq<ByteSeq>, start: ByteSeq, proof: seq<Digest>)
    requires leaves != [] && LeafStrings(leaves) && LEAF_DOMAIN <= start
    requires Fold(h, h(start), proof) == Root(h, Sorted(Digests(h, leaves)))
    ensures start in leaves || CollisionIn(h, HashedStrings(h, leaves, start, proof))
  {
    SoundWithin(h, leaves, start, proof, HashedStrings(h, leaves, start, proof));
  }

  lemma SoundWithin(h: Hasher, leaves: seq<ByteSeq>, start: ByteSeq, proof: seq<Digest>, strings: set<ByteSeq>)
    requires leaves != [] && LeafStrings(leaves) && LEAF_DOMAIN <= start
    requires HashedStrings(h, leaves, start, proof) <= strings
    requires Fold(h, h(start), proof) == Root(h, Sorted(Digests(h, leaves)))
    ensures start in leaves || CollisionIn(h, strings)
  {
    var digests := Digests(h, leaves);
    var m := FoldVisits(h, Sorted(digests), start, proof, strings);
    if !CollisionIn(h, strings) {
      SortedMembers(digests);
      var i :| 0 <= i < |digests| && digests[i] == Fold(h, h(start), proof[..m]);
      assert leaves[i] in Members(leaves);
      ArrivalIsStart(h, leaves[i], start, proof, m, strings);
    }
  }

  /** A fold that arrives at a leaf digest has not taken a step yet. */
  lemma ArrivalIsStart(h: Hasher, leaf: ByteSeq, start: ByteSeq, proof: seq<Digest>, m: nat, strings: set<ByteSeq>)
    requires LEAF_DOMAIN <= leaf && m <= |proof|
    requires leaf in strings && start in strings && FoldInputs(h, h(start), proof) <= strings
    requires h(leaf) == Fold(h, h(start), proof[..m])
    ensures leaf == start || CollisionIn(h, strings)
  {
    if m > 0 {
      FoldLast(h, h(start), proof, m);
      Collide(h, leaf, Fold(h, h(start), proof[..m - 1]), proof[m - 1], strings);
    } else {
      assert proof[..m] == [];
    }
  }

  // ---- Roots determine leaf sets ----

  ghost function BothTrees(h: Hasher, a: seq<ByteSeq>, b: seq<ByteSeq>): set<ByteSeq>
    requires a != [] && b != []
  {
    Members(a) + TreeInputs(h, Sorted(Digests(h, a))) + Members(b) + TreeInputs(h, Sorted(Digests(h, b)))
  }

  lemma LeafInOtherTree(h: Hasher, a: seq<ByteSeq>, b: seq<ByteSeq>, i: nat)
    requires a != [] && b != [] && LeafStrings(a) && LeafStrings(b) && i < |a|
    requires Root(h, Sorted(Digests(h, a))) == Root(h, Sorted(Digests(h, b)))
    ensures a[i] in b || CollisionIn(h, BothTrees(h, a, b))
  {
    var digests := Digests(h, a);
    var level := Sorted(digests);
    SortedMembers(digests);
    assert digests[i] in level;
    var k :| 0 <= k < |level| && level[k] == digests[i];
    ProofReachesRoot(h, level, k);
    SoundWithin(h, b, a[i], LeafProof(h, level, k), BothTrees(h, a, b));
  }

  /**
   Equal roots mean equal leaf sets, whatever the two sizes, or two strings hashed for the two
   trees collide.
   */
  lemma EqualRootsEqualLeafSets(h: Hasher, a: seq<ByteSeq>, b: seq<ByteSeq>)
    requires a != [] && b != [] && LeafStrings(a) && LeafStrings(b)
    requires Root(h, Sorted(Digests(h, a))) == Root(h, Sorted(Digests(h, b)))
    ensures (forall s :: s in a <==> s in b) || CollisionIn(h, BothTrees(h, a, b))
  {
    if !CollisionIn(h, BothTrees(h, a, b)) {
      forall s | s in a ensures s in b {
        var i :| 0 <= i < |a| && a[i] == s;
        LeafInOtherTree(h, a, b, i);
      }
      assert BothTrees(h, a, b) == BothTrees(h, b, a);
      forall s | s in b ensures s in a {
        var i :| 0 <= i < |b| && b[i] == s;
        LeafInOtherTree(h, b, a, i);
      }
    }
  }

  /** Why only the sets are determined: repeating the last leaf of an odd list keeps the root. */
  lemma RepeatedLastLeafKeepsRoot(h: Hasher, level: seq<Digest>)
    requires |level| > 1 && |level| % 2 == 1
    ensures Root(h, level + [level[|level| - 1]]) == Root(h, level)
  {
    var longer := level + [level[|level| - 1]];
    assert NextLevel(h, longer) == NextLevel(h, level);
    RootStep(h, longer);
    RootStep(h, level);
  }

  // ---- Trees ----

  datatype Tree = Tree(leaves: seq<Digest>, levels: seq<seq<Digest>>, root: Digest)

  /** `NoSibling` is a proof that steps outside a level; only hand-made trees have such levels. */
  datatype TreeError = EmptyTree | TreeTooLarge | LeafIndexOutOfBounds | NoSibling

  /** The tree over a list of leaf digests. */
  function TreeOf(h: Hasher, leaves: seq<Digest>): (tree: Tree)
    requires leaves != []
    ensures tree.root == Root(h, Sorted(leaves))
  {
    Tree(Sorted(leaves), Levels(h, Sorted(leaves)), Root(h, Sorted(leaves)))
  }

  /** Every proof taken from a built tree leads from its leaf to the tree's root. */
  lemma TreeProofsVerify(h: Hasher, leaves: seq<Digest>, k: nat)
    requires leaves != [] && k < |TreeOf(h, leaves).leaves|
    ensures var tree := TreeOf(h, leaves);
            && tree.levels[0] == tree.leaves && WellShaped(tree.levels)
            && Fold(h, tree.leaves[k], ProofFrom(tree.levels, k)) == tree.root
  {
    LevelsWellShaped(h, Sorted(leaves));
    ProofReachesRoot(h, Sorted(leaves), k);
  }

  // ---- Proofs out of any tree, well made or not ----

  function SiblingAt(level: seq<Digest>, index: nat): Option<Digest>
  {
    var i := if index % 2 == 0 then index + 1 else index - 1;
    if i < |level| then Some(level[i]) else if index < |level| then Some(level[index]) else None
  }

  /** What a prover finds beside its path, level by level. */
  function Siblings(levels: seq<seq<Digest>>, index: nat): (r: seq<Option<Digest>>)
    ensures |r| == if levels == [] then 0 else |levels| - 1
    decreases |levels|
  {
    if |levels| <= 1 then [] else [SiblingAt(levels[0], index)] + Siblings(levels[1..], index / 2)
  }

  predicate NoneMissing(siblings: seq<Option<Digest>>)
  {
    forall k :: 0 <= k < |siblings| ==> siblings[k].Some?
  }

  function Found(siblings: seq<Option<Digest>>): (proof: seq<Digest>)
    requires NoneMissing(siblings)
    ensures |proof| == |siblings| && forall k :: 0 <= k < |proof| ==> siblings[k] == Some(proof[k])
  {
    seq(|siblings|, (k: nat) requires k < |siblings| => siblings[k].value)
  }

  /** In a well-shaped tree nothing is missing, and what is found is the proof. */
  lemma {:induction false} SiblingsOfShaped(levels: seq<seq<Digest>>, index: nat)
    requires levels != [] && WellShaped(levels) && index < |levels[0]|
    ensures NoneMissing(Siblings(levels, index)) && Found(Siblings(levels, index)) == ProofFrom(levels, index)
    decreases |levels|
  {
    if |levels| > 1 {
      assert levels[1..][0] == levels[1] && levels[0..] == levels;
      ProofFromStep(levels, 0, index);
      SiblingsOfShaped(levels[1..], index / 2);
      assert SiblingAt(levels[0], index) == Some(Sibling(levels[0], index));
    }
  }

  lemma SiblingsStep(levels: seq<seq<Digest>>, k: nat, index: nat)
    requires k + 1 < |levels|
    ensures Siblings(levels[k..], index) == [SiblingAt(levels[k], index)] + Siblings(levels[k + 1..], index / 2)
  {
    assert levels[k..][1..] == levels[k + 1..];
  }

  // ---- The order of leaves ----

  /** The order in which leaves are supplied does not matter. */
  lemma CanonicalTree(h: Hasher, a: seq<Digest>, b: seq<Digest>)
    requires a != [] && multiset(a) == multiset(b)
    ensures b != [] && TreeOf(h, a) == TreeOf(h, b)
  {
    assert |multiset(b)| == |b|;
    SortedPermutation(a, b);
  }
}
