/**
 What a root says about how often a leaf occurs. Repeating the last leaf of an odd list keeps the
 root, so a root alone does not fix the number of leaves; the root together with that number fixes
 the whole list up to order.
 */
module PolicyTreeCounts {
  import opened Bytes
  import opened PolicyTree

  // ---- A tree with its repeated nodes written out ----

  /** The second child of node `k` above a level of `n` nodes: the next one, or the first again. */
  function PairEnd(n: nat, k: nat): (i: nat)
    requires 2 * k < n
    ensures 2 * k <= i < n
  {
    if 2 * k + 1 < n then 2 * k + 1 else 2 * k
  }

  predicate Parents(parents: seq<nat>, n: nat)
  {
    forall t :: 0 <= t < |parents| ==> 2 * parents[t] < n
  }

  function Children(parents: seq<nat>, n: nat): (children: seq<nat>)
    requires Parents(parents, n)
    ensures |children| == 2 * |parents|
    ensures forall t :: 0 <= t < |children| ==> children[t] < n
  {
    seq(2 * |parents|, (t: nat) requires t < 2 * |parents| =>
      if t % 2 == 0 then 2 * parents[t / 2] else PairEnd(n, parents[t / 2]))
  }

  /** Which of `n` leaves stand, left to right, under the root when every repeated node is written twice. */
  function Unfolded(n: nat): (indices: seq<nat>)
    requires n > 0
    ensures forall t :: 0 <= t < |indices| ==> indices[t] < n
  {
    if n == 1 then [0] else Children(Unfolded((n + 1) / 2), n)
  }

  lemma ChildrenAt(parents: seq<nat>, n: nat, k: nat)
    requires Parents(parents, n) && k < |parents|
    ensures Children(parents, n)[2 * k] == 2 * parents[k]
    ensures Children(parents, n)[2 * k + 1] == PairEnd(n, parents[k])
  {
    assert (2 * k) % 2 == 0 && (2 * k) / 2 == k;
    assert (2 * k + 1) % 2 == 1 && (2 * k + 1) / 2 == k;
  }

  lemma UnfoldedStep(n: nat)
    requires n > 1
    ensures Unfolded(n) == Children(Unfolded((n + 1) / 2), n)
  {
  }

  /** Every leaf stands somewhere. */
  lemma {:induction false} UnfoldedCovers(n: nat, i: nat) returns (t: nat)
    requires i < n
    ensures t < |Unfolded(n)| && Unfolded(n)[t] == i
  {
    if n == 1 {
      t := 0;
    } else {
      var m, above := HalfOf(n, i);
      var k := UnfoldedCovers(m, above);
      UnfoldedStep(n);
      hide Unfolded, Children;
      ChildrenAt(Unfolded(m), n, k);
      t := if i == 2 * above then 2 * k else 2 * k + 1;
    }
  }

  lemma HalfOf(n: nat, i: nat) returns (m: nat, above: nat)
    requires i < n && n > 1
    ensures m == (n + 1) / 2 && above < m < n
    ensures i == 2 * above || (i == 2 * above + 1 && i < n)
  {
    m, above := (n + 1) / 2, i / 2;
  }

  function Picked(level: seq<Digest>, indices: seq<nat>): (r: seq<Digest>)
    requires forall t :: 0 <= t < |indices| ==> indices[t] < |level|
    ensures |r| == |indices| && forall t :: 0 <= t < |r| ==> r[t] == level[indices[t]]
  {
    seq(|indices|, (t: nat) requires t < |indices| => level[indices[t]])
  }

  // ---- Taking one element out ----

  function Without<T>(s: seq<T>, k: nat): (r: seq<T>)
    requires k < |s|
    ensures |r| == |s| - 1
  {
    s[..k] + s[k + 1..]
  }

  lemma WithoutOne<T>(s: seq<T>, k: nat)
    requires k < |s|
    ensures multiset(Without(s, k)) == multiset(s) - multiset{s[k]}
    ensures multiset(s) == multiset(Without(s, k)) + multiset{s[k]}
  {
    assert s == s[..k] + ([s[k]] + s[k + 1..]);
  }

  lemma WithoutFirst<T>(s: seq<T>)
    requires s != []
    ensures Without(s, 0) == s[1..]
  {
  }

  lemma WithoutLater<T>(s: seq<T>, k: nat)
    requires 0 < k < |s|
    ensures Without(s, k) == [s[0]] + Without(s[1..], k - 1)
    ensures Without(s, k)[1..] == Without(s[1..], k - 1)
  {
    assert s[..k] == [s[0]] + s[1..][..k - 1] && s[k + 1..] == s[1..][k..];
    assert Without(s, k) == [s[0]] + Without(s[1..], k - 1);
  }

  lemma HashesWithout(h: Hasher, pairs: seq<Pair>, k: nat)
    requires k < |pairs|
    ensures HashesOf(h, Without(pairs, k)) == Without(HashesOf(h, pairs), k)
  {
  }

  lemma DigestsWithout(h: Hasher, leaves: seq<ByteSeq>, k: nat)
    requires k < |leaves|
    ensures Digests(h, Without(leaves, k)) == Without(Digests(h, leaves), k)
  {
  }

  lemma SameLength<T>(s: seq<T>, t: seq<T>)
    requires multiset(s) == multiset(t)
    ensures |s| == |t|
  {
    assert |multiset(s)| == |s| && |multiset(t)| == |t|;
  }

  /** Where the first element of one arrangement stands in another. */
  lemma PlaceOf<T>(s: seq<T>, t: seq<T>) returns (k: nat)
    requires s != [] && multiset(s) == multiset(t)
    ensures k < |t| && t[k] == s[0]
    ensures multiset(Without(s, 0)) == multiset(Without(t, k))
  {
    assert s[0] in multiset(t);
    k :| 0 <= k < |t| && t[k] == s[0];
    WithoutOne(s, 0);
    WithoutOne(t, k);
  }

  // ---- Going down one level ----

  datatype Pair = Pair(first: Digest, second: Digest)

  function PairsOf(level: seq<Digest>, parents: seq<nat>): (r: seq<Pair>)
    requires Parents(parents, |level|)
    ensures |r| == |parents|
    ensures forall t :: 0 <= t < |r| ==> r[t] == Pair(level[2 * parents[t]], level[PairEnd(|level|, parents[t])])
  {
    seq(|parents|, (t: nat) requires t < |parents| =>
      Pair(level[2 * parents[t]], level[PairEnd(|level|, parents[t])]))
  }

  function HashesOf(h: Hasher, pairs: seq<Pair>): (r: seq<Digest>)
    ensures |r| == |pairs| && forall t :: 0 <= t < |r| ==> r[t] == NodeHash(h, pairs[t].first, pairs[t].second)
  {
    seq(|pairs|, (t: nat) requires t < |pairs| => NodeHash(h, pairs[t].first, pairs[t].second))
  }

  /** All digests in the pairs, with their number of occurrences. */
  function Halves(pairs: seq<Pair>): multiset<Digest>
  {
    if pairs == [] then multiset{} else multiset{pairs[0].first, pairs[0].second} + Halves(pairs[1..])
  }

  lemma {:induction false} HalvesOfPairs(level: seq<Digest>, parents: seq<nat>)
    requires Parents(parents, |level|)
    ensures Halves(PairsOf(level, parents)) == multiset(Picked(level, Children(parents, |level|)))
  {
    if parents != [] {
      hide Picked, Children;
      HalvesOfPairs(level, parents[1..]);
      PickedChildren(level, parents);
      assert PairsOf(level, parents)[1..] == PairsOf(level, parents[1..]);
    }
  }

  lemma PickedChildren(level: seq<Digest>, parents: seq<nat>)
    requires Parents(parents, |level|) && parents != []
    ensures Picked(level, Children(parents, |level|))
         == [level[2 * parents[0]], level[PairEnd(|level|, parents[0])]] + Picked(level, Children(parents[1..], |level|))
  {
    hide Children, Picked;
    ChildrenTail(parents, |level|);
  }

  lemma ChildrenTail(parents: seq<nat>, n: nat)
    requires Parents(parents, n) && parents != []
    ensures Children(parents, n) == [2 * parents[0], PairEnd(n, parents[0])] + Children(parents[1..], n)
  {
    var tail := Children(parents[1..], n);
    forall t | 2 <= t < 2 * |parents| ensures Children(parents, n)[t] == tail[t - 2] {
      assert t / 2 == (t - 2) / 2 + 1;
    }
  }

  predicate InStrings(pairs: seq<Pair>, strings: set<ByteSeq>)
  {
    forall t :: 0 <= t < |pairs| ==> NodeInput(pairs[t].first, pairs[t].second) in strings
  }

  lemma InStringsWithout(pairs: seq<Pair>, k: nat, strings: set<ByteSeq>)
    requires k < |pairs| && InStrings(pairs, strings)
    ensures InStrings(Without(pairs, k), strings)
  {
    hide NodeInput;
  }

  /** Pairs with the same hashes have the same digests in them, unless hashed strings collide. */
  lemma {:induction false} EqualHashesEqualHalves(h: Hasher, p: seq<Pair>, q: seq<Pair>, strings: set<ByteSeq>)
    requires multiset(HashesOf(h, p)) == multiset(HashesOf(h, q)) && !CollisionIn(h, strings)
    requires InStrings(p, strings) && InStrings(q, strings)
    ensures Halves(p) == Halves(q)
    decreases |p|
  {
    hide NodeInput, NodeHash, CollisionIn, Without, HashesOf, Halves;
    var ph, qh := HashesOf(h, p), HashesOf(h, q);
    SameLength(ph, qh);
    if p == [] {
      assert q == [];
    } else {
      var k := PlaceOf(ph, qh);
      SamePairOrCollision(h, p[0].first, p[0].second, q[k].first, q[k].second, strings);
      HashesWithout(h, p, 0);
      HashesWithout(h, q, k);
      InStringsWithout(p, 0, strings);
      InStringsWithout(q, k, strings);
      EqualHashesEqualHalves(h, Without(p, 0), Without(q, k), strings);
      HalvesWithout(p, 0);
      HalvesWithout(q, k);
    }
  }

  lemma {:induction false} HalvesWithout(q: seq<Pair>, k: nat)
    requires k < |q|
    ensures Halves(q) == multiset{q[k].first, q[k].second} + Halves(Without(q, k))
  {
    if k == 0 {
      WithoutFirst(q);
    } else {
      hide Without;
      HalvesWithout(q[1..], k - 1);
      WithoutLater(q, k);
    }
  }

  /** Trees over levels of one size with one root have the same leaves, with repetitions, unless strings collide. */
  lemma {:induction false} EqualRootsEqualUnfoldings(h: Hasher, p: seq<Digest>, q: seq<Digest>, strings: set<ByteSeq>)
    requires |p| == |q| > 0 && Root(h, p) == Root(h, q) && !CollisionIn(h, strings)
    requires TreeInputs(h, p) <= strings && TreeInputs(h, q) <= strings
    ensures multiset(Picked(p, Unfolded(|p|))) == multiset(Picked(q, Unfolded(|q|)))
    decreases |p|
  {
    if |p| == 1 {
      assert Picked(p, [0]) == [p[0]] && Picked(q, [0]) == [q[0]];
    } else {
      hide NodeInput, NodeHash, CollisionIn, Root, TreeInputs, NextLevel, Levels, Picked, Children;
      var parents := Unfolded((|p| + 1) / 2);
      RootStep(h, p);
      RootStep(h, q);
      LevelsStep(h, p);
      LevelsStep(h, q);
      EqualRootsEqualUnfoldings(h, NextLevel(h, p), NextLevel(h, q), strings);
      PairsHashed(h, p, parents);
      PairsHashed(h, q, parents);
      EqualHashesEqualHalves(h, PairsOf(p, parents), PairsOf(q, parents), strings);
      HalvesOfPairs(p, parents);
      HalvesOfPairs(q, parents);
    }
  }

  lemma PairEndIsSibling(level: seq<Digest>, k: nat)
    requires 2 * k < |level|
    ensures level[PairEnd(|level|, k)] == Sibling(level, 2 * k)
  {
    assert (2 * k) % 2 == 0;
  }

  lemma PairAt(h: Hasher, level: seq<Digest>, k: nat)
    requires |level| > 1 && 2 * k < |level|
    ensures level[PairEnd(|level|, k)] == Sibling(level, 2 * k)
    ensures NodeInput(level[2 * k], Sibling(level, 2 * k)) in TreeInputs(h, level)
    ensures NextLevel(h, level)[k] == NodeHash(h, level[2 * k], Sibling(level, 2 * k))
  {
    hide TreeInputs, NextLevel, NodeInput, NodeHash, Sibling, PairEnd;
    PairEndIsSibling(level, k);
    PairHashed(h, level, k);
  }

  lemma PairsHashed(h: Hasher, level: seq<Digest>, parents: seq<nat>)
    requires |level| > 1 && Parents(parents, |level|)
    ensures HashesOf(h, PairsOf(level, parents)) == Picked(NextLevel(h, level), parents)
    ensures InStrings(PairsOf(level, parents), TreeInputs(h, level))
  {
    hide NodeInput, NodeHash, TreeInputs, NextLevel, HashesOf, PairsOf, Picked, PairEnd, Sibling;
    var pairs, next := PairsOf(level, parents), NextLevel(h, level);
    forall t | 0 <= t < |parents|
      ensures NodeInput(pairs[t].first, pairs[t].second) in TreeInputs(h, level)
      ensures next[parents[t]] == NodeHash(h, pairs[t].first, pairs[t].second)
    {
      PairAt(h, level, parents[t]);
    }
    var hashes, picked := HashesOf(h, pairs), Picked(next, parents);
    assert |hashes| == |picked| && forall t :: 0 <= t < |hashes| ==> hashes[t] == picked[t];
  }

  // ---- Sorted levels with the same leaves are equal ----

  function CountUpTo(s: seq<Digest>, v: Digest): nat
  {
    if s == [] then 0 else (if LexLe(s[0], v) then 1 else 0) + CountUpTo(s[1..], v)
  }

  lemma {:induction false} CountWithout(s: seq<Digest>, v: Digest, k: nat)
    requires k < |s|
    ensures CountUpTo(s, v) == (if LexLe(s[k], v) then 1 else 0) + CountUpTo(Without(s, k), v)
  {
    hide LexLe;
    if k == 0 {
      WithoutFirst(s);
    } else {
      hide Without;
      CountWithout(s[1..], v, k - 1);
      WithoutLater(s, k);
    }
  }

  lemma {:induction false} CountOfPermutation(s: seq<Digest>, t: seq<Digest>, v: Digest)
    requires multiset(s) == multiset(t)
    ensures CountUpTo(s, v) == CountUpTo(t, v)
    decreases |s|
  {
    hide LexLe, Without, CountUpTo;
    SameLength(s, t);
    if s == [] {
      assert t == [];
    } else {
      var k := PlaceOf(s, t);
      CountOfPermutation(Without(s, 0), Without(t, k), v);
      CountWithout(s, v, 0);
      CountWithout(t, v, k);
    }
  }

  /** Place by place at least as many, and at place `k` one more. */
  lemma {:induction false} CountsMore(s: seq<Digest>, t: seq<Digest>, v: Digest, k: nat)
    requires |s| == |t| && k <= |s|
    requires forall i :: 0 <= i < |s| && LexLe(t[i], v) ==> LexLe(s[i], v)
    requires k < |s| ==> LexLe(s[k], v) && !LexLe(t[k], v)
    ensures CountUpTo(s, v) >= CountUpTo(t, v) + if k < |s| then 1 else 0
  {
    hide LexLe;
    if s != [] {
      CountsMore(s[1..], t[1..], v, if k == 0 then |s| - 1 else k - 1);
    }
  }

  /** At the first difference of two sorted levels the one with the smaller leaf counts more up to it. */
  lemma NoFirstDifference(p: seq<Digest>, q: seq<Digest>, i: nat)
    requires |p| == |q| && i < |p| && p[..i] == q[..i] && IsSorted(p) && IsSorted(q)
    requires multiset(Picked(p, Unfolded(|p|))) == multiset(Picked(q, Unfolded(|q|)))
    ensures LexLe(p[i], q[i]) ==> p[i] == q[i]
  {
    if LexLe(p[i], q[i]) && !LexLe(q[i], p[i]) {
      hide Picked, Unfolded, CountUpTo, LexLe;
      var v, indices := p[i], Unfolded(|p|);
      forall j | 0 <= j < |q| ensures LexLe(q[j], v) ==> LexLe(p[j], v) {
        if i <= j {
          NotBelow(q, v, i, j);
        } else {
          assert p[j] == p[..i][j] && q[j] == q[..i][j];
        }
      }
      LexTotal(v, v);
      var k := UnfoldedCovers(|p|, i);
      CountsMore(Picked(p, indices), Picked(q, indices), v, k);
      CountOfPermutation(Picked(p, indices), Picked(q, indices), v);
    } else if LexLe(p[i], q[i]) {
      LexAntisymmetric(p[i], q[i]);
    }
  }

  lemma NotBelow(q: seq<Digest>, v: Digest, i: nat, j: nat)
    requires i <= j < |q| && IsSorted(q) && !LexLe(q[i], v)
    ensures !LexLe(q[j], v)
  {
    if i < j && LexLe(q[j], v) {
      LexTransitive(q[i], q[j], v);
    }
  }

  lemma {:induction false} EqualUpTo(p: seq<Digest>, q: seq<Digest>, i: nat)
    requires |p| == |q| > 0 && i <= |p| && IsSorted(p) && IsSorted(q)
    requires multiset(Picked(p, Unfolded(|p|))) == multiset(Picked(q, Unfolded(|q|)))
    ensures p[..i] == q[..i]
  {
    if i > 0 {
      EqualUpTo(p, q, i - 1);
      NoFirstDifference(p, q, i - 1);
      NoFirstDifference(q, p, i - 1);
      LexTotal(p[i - 1], q[i - 1]);
      assert p[..i] == p[..i - 1] + [p[i - 1]] && q[..i] == q[..i - 1] + [q[i - 1]];
    }
  }

  // ---- The root and the number of leaves ----

  lemma {:induction false} EqualDigestsEqualLeaves(h: Hasher, a: seq<ByteSeq>, b: seq<ByteSeq>, strings: set<ByteSeq>)
    requires multiset(Digests(h, a)) == multiset(Digests(h, b)) && !CollisionIn(h, strings)
    requires (forall s :: s in a ==> s in strings) && (forall s :: s in b ==> s in strings)
    ensures multiset(a) == multiset(b)
    decreases |a|
  {
    hide Without, Digests;
    var ah, bh := Digests(h, a), Digests(h, b);
    SameLength(ah, bh);
    if a == [] {
      assert b == [];
    } else {
      var k := PlaceOf(ah, bh);
      assert a[0] == b[k];
      DigestsWithout(h, a, 0);
      DigestsWithout(h, b, k);
      MembersWithout(a, 0, strings);
      MembersWithout(b, k, strings);
      EqualDigestsEqualLeaves(h, Without(a, 0), Without(b, k), strings);
      WithoutOne(a, 0);
      WithoutOne(b, k);
    }
  }

  lemma MembersWithout(s: seq<ByteSeq>, k: nat, strings: set<ByteSeq>)
    requires k < |s| && forall x :: x in s ==> x in strings
    ensures forall x :: x in Without(s, k) ==> x in strings
  {
  }

  /** The digests of two lists agree, with repetitions, if the lists do. */
  lemma {:induction false} EqualLeavesEqualDigests(h: Hasher, a: seq<ByteSeq>, b: seq<ByteSeq>)
    requires multiset(a) == multiset(b)
    ensures multiset(Digests(h, a)) == multiset(Digests(h, b))
    decreases |a|
  {
    hide Without, Digests;
    SameLength(a, b);
    if a == [] {
      assert b == [];
    } else {
      var k := PlaceOf(a, b);
      var ah, bh := Digests(h, a), Digests(h, b);
      DigestsWithout(h, a, 0);
      DigestsWithout(h, b, k);
      EqualLeavesEqualDigests(h, Without(a, 0), Without(b, k));
      WithoutOne(ah, 0);
      WithoutOne(bh, k);
    }
  }

  /**
   For two lists of leaf strings of one length: the roots are equal exactly when the trees' leaves
   are, and exactly when the lists are permutations of each other, or two strings hashed for the
   trees collide. So a root and the number of leaves fix every leaf and how often it occurs.
   */
  lemma RootAndCountFixLeaves(h: Hasher, a: seq<ByteSeq>, b: seq<ByteSeq>)
    requires a != [] && |a| == |b|
    ensures multiset(a) == multiset(b) ==> Root(h, Sorted(Digests(h, a))) == Root(h, Sorted(Digests(h, b)))
    ensures Root(h, Sorted(Digests(h, a))) == Root(h, Sorted(Digests(h, b))) ==>
              || (multiset(a) == multiset(b) && Sorted(Digests(h, a)) == Sorted(Digests(h, b)))
              || CollisionIn(h, BothTrees(h, a, b))
  {
    hide CollisionIn, Root, TreeInputs, Digests, Members, Picked, Unfolded, Sorted;
    var p, q := Sorted(Digests(h, a)), Sorted(Digests(h, b));
    if multiset(a) == multiset(b) {
      EqualLeavesEqualDigests(h, a, b);
      SortedPermutation(Digests(h, a), Digests(h, b));
    }
    if Root(h, p) == Root(h, q) && !CollisionIn(h, BothTrees(h, a, b)) {
      EqualRootsEqualUnfoldings(h, p, q, BothTrees(h, a, b));
      SortedIsSorted(Digests(h, a));
      SortedIsSorted(Digests(h, b));
      EqualUpTo(p, q, |p|);
      assert p[..|p|] == p && q[..|q|] == q;
      LeavesHashed(h, a, b);
      EqualDigestsEqualLeaves(h, a, b, BothTrees(h, a, b));
    }
  }

  /** Where two roots are equal and nothing collides, the lists are permutations exactly when they are of one length. */
  lemma EqualRootsEqualLeavesIff(h: Hasher, a: seq<ByteSeq>, b: seq<ByteSeq>)
    requires a != [] && b != [] && Root(h, Sorted(Digests(h, a))) == Root(h, Sorted(Digests(h, b)))
    ensures (multiset(a) == multiset(b) <==> |a| == |b|) || CollisionIn(h, BothTrees(h, a, b))
  {
    hide CollisionIn, Root, Digests, Sorted, BothTrees;
    if |a| == |b| {
      RootAndCountFixLeaves(h, a, b);
    } else if multiset(a) == multiset(b) {
      SameLength(a, b);
    }
  }

  lemma LeavesHashed(h: Hasher, a: seq<ByteSeq>, b: seq<ByteSeq>)
    requires a != [] && b != []
    ensures (forall s :: s in a ==> s in BothTrees(h, a, b)) && (forall s :: s in b ==> s in BothTrees(h, a, b))
  {
    hide TreeInputs;
  }
}
