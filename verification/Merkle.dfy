/** The Merkle root of a log (pkg/hypercore/merkle.go) and the tree hash of section 2.1 of RFC 6962. */
module Merkle {
  import opened Bytes

  type Digest = d: Buf | |d| == 32 witness seq(32, _ => 0)

  /** BLAKE2b-256, kept as an arbitrary function. */
  type HashFn = Buf -> Digest

  datatype RootResult = EmptyLeaves | Root(digest: Digest)

  function LeafInput(data: Buf): Buf { [0] + data }

  function ParentInput(left: Digest, right: Digest): Buf { [1] + left + right }

  function HashLeaf(h: HashFn, data: Buf): Digest { h(LeafInput(data)) }

  function HashParent(h: HashFn, left: Digest, right: Digest): Digest { h(ParentInput(left, right)) }

  // ----- The recursive reference: section 2.1 of RFC 6962

  /** The largest power of two strictly below `n`. */
  function SplitPoint(n: nat): (k: nat)
    requires n >= 2
    ensures 1 <= k < n <= 2 * k
  {
    if n == 2 then 1 else 2 * SplitPoint((n + 1) / 2)
  }

  ghost predicate IsPowerOfTwo(k: nat) {
    k == 1 || (k > 1 && k % 2 == 0 && IsPowerOfTwo(k / 2))
  }

  lemma {:induction false} SplitPointIsLargestPowerOfTwo(n: nat)
    requires n >= 2
    ensures IsPowerOfTwo(SplitPoint(n))
    ensures forall p: nat | IsPowerOfTwo(p) && p < n :: p <= SplitPoint(n)
  {
    if n == 2 {
    } else {
      var half := (n + 1) / 2;
      SplitPointIsLargestPowerOfTwo(half);
      forall p: nat | IsPowerOfTwo(p) && p < n
        ensures p <= SplitPoint(n)
      {
        if p > 1 {
          assert IsPowerOfTwo(p / 2) && p / 2 < half;
        }
      }
    }
  }

  function TreeHash(h: HashFn, leaves: seq<Buf>): Digest
    requires leaves != []
    decreases |leaves|
  {
    if |leaves| == 1 then HashLeaf(h, leaves[0])
    else
      var k := SplitPoint(|leaves|);
      HashParent(h, TreeHash(h, leaves[..k]), TreeHash(h, leaves[k..]))
  }

  // ----- Audit paths: section 2.1.1 of RFC 6962, with the hashed bytes written out

  /** A sibling's digest on the way from a leaf to the root, and the side it is on. */
  datatype Sibling = OnLeft(digest: Digest) | OnRight(digest: Digest)

  /** The siblings of leaf `i` and of the nodes above it, the nearest to the leaf first. */
  function AuditPath(h: HashFn, leaves: seq<Buf>, i: nat): seq<Sibling>
    requires i < |leaves|
    decreases |leaves|
  {
    if |leaves| == 1 then []
    else
      var k := SplitPoint(|leaves|);
      if i < k then AuditPath(h, leaves[..k], i) + [OnRight(TreeHash(h, leaves[k..]))]
      else AuditPath(h, leaves[k..], i - k) + [OnLeft(TreeHash(h, leaves[..k]))]
  }

  /** The digest at the end of a path that starts at `d`. */
  function Climb(h: HashFn, d: Digest, path: seq<Sibling>): Digest {
    if path == [] then d
    else
      var front, last := path[..|path| - 1], path[|path| - 1];
      match last
      case OnLeft(left) => h([1] + left + Climb(h, d, front))
      case OnRight(right) => h([1] + Climb(h, d, front) + right)
  }

  /** From the hash of any leaf, its audit path leads to the root. */
  lemma {:induction false} AuditPathLeadsToRoot(h: HashFn, leaves: seq<Buf>, i: nat)
    requires i < |leaves|
    ensures Climb(h, h([0] + leaves[i]), AuditPath(h, leaves, i)) == TreeHash(h, leaves)
    decreases |leaves|
  {
    if |leaves| == 1 {
    } else {
      var k := SplitPoint(|leaves|);
      var path, d := AuditPath(h, leaves, i), h([0] + leaves[i]);
      if i < k {
        AuditPathLeadsToRoot(h, leaves[..k], i);
        assert path[..|path| - 1] == AuditPath(h, leaves[..k], i);
      } else {
        AuditPathLeadsToRoot(h, leaves[k..], i - k);
        assert path[..|path| - 1] == AuditPath(h, leaves[k..], i - k);
      }
    }
  }

  /** An audit path is no longer than the tree is high. */
  lemma {:induction false} AuditPathIsShort(h: HashFn, leaves: seq<Buf>, i: nat, height: nat)
    requires i < |leaves| <= Pow2(height)
    ensures |AuditPath(h, leaves, i)| <= height
    decreases |leaves|
  {
    if |leaves| > 1 {
      var k := SplitPoint(|leaves|);
      SplitBelow(|leaves|, height);
      if i < k {
        AuditPathIsShort(h, leaves[..k], i, height - 1);
      } else {
        AuditPathIsShort(h, leaves[k..], i - k, height - 1);
      }
    }
  }

  function Pow2(k: nat): (p: nat)
    ensures p > 0
  {
    if k == 0 then 1 else 2 * Pow2(k - 1)
  }

  lemma {:induction false} SplitBelow(n: nat, height: nat)
    requires 2 <= n <= Pow2(height)
    ensures height > 0 && SplitPoint(n) <= Pow2(height - 1) && n - SplitPoint(n) <= Pow2(height - 1)
  {
    if n > 2 {
      SplitBelow((n + 1) / 2, height - 1);
    }
  }

  /** The roots of one, two and three leaves. */
  lemma SmallRoots(h: HashFn, a: Buf, b: Buf, c: Buf)
    ensures TreeHash(h, [a]) == h([0] + a)
    ensures TreeHash(h, [a, b]) == h([1] + h([0] + a) + h([0] + b))
    ensures TreeHash(h, [a, b, c]) == h([1] + h([1] + h([0] + a) + h([0] + b)) + h([0] + c))
  {
    assert [a, b][..1] == [a] && [a, b][1..] == [b];
    assert SplitPoint(3) == 2;
    assert [a, b, c][..2] == [a, b] && [a, b, c][2..] == [c];
  }

  // ----- The level-by-level computation of the program

  /** One pass of the inner loop: pair neighbours, promote a last odd node. */
  function NextLevel(h: HashFn, nodes: seq<Digest>): (up: seq<Digest>)
    ensures |up| == (|nodes| + 1) / 2
  {
    if |nodes| <= 1 then nodes
    else [HashParent(h, nodes[0], nodes[1])] + NextLevel(h, nodes[2..])
  }

  /** The split recursion of the reference, started from digests instead of leaves. */
  function Fold(h: HashFn, nodes: seq<Digest>): Digest
    requires nodes != []
    decreases |nodes|
  {
    if |nodes| == 1 then nodes[0]
    else
      var k := SplitPoint(|nodes|);
      HashParent(h, Fold(h, nodes[..k]), Fold(h, nodes[k..]))
  }

  lemma {:induction false} NextLevelSplits(h: HashFn, a: seq<Digest>, b: seq<Digest>)
    requires |a| % 2 == 0
    ensures NextLevel(h, a + b) == NextLevel(h, a) + NextLevel(h, b)
  {
    if a == [] {
      assert a + b == b;
    } else {
      assert (a + b)[2..] == a[2..] + b;
      NextLevelSplits(h, a[2..], b);
    }
  }

  lemma {:induction false} FoldSkipsALevel(h: HashFn, nodes: seq<Digest>)
    requires |nodes| >= 2
    ensures Fold(h, NextLevel(h, nodes)) == Fold(h, nodes)
    decreases |nodes|
  {
    if |nodes| == 2 {
      assert nodes[..1] == [nodes[0]] && nodes[1..] == [nodes[1]];
      assert NextLevel(h, nodes[2..]) == [];
    } else {
      var k := SplitPoint(|nodes|);
      var lo, hi := nodes[..k], nodes[k..];
      var up := NextLevel(h, nodes);
      assert nodes == lo + hi;
      assert k % 2 == 0;
      NextLevelSplits(h, lo, hi);
      assert SplitPoint(|up|) == k / 2;
      assert up[..k / 2] == NextLevel(h, lo) && up[k / 2..] == NextLevel(h, hi);
      FoldSkipsALevel(h, lo);
      if |hi| >= 2 {
        FoldSkipsALevel(h, hi);
      }
    }
  }

  function LeafDigests(h: HashFn, leaves: seq<Buf>): (ds: seq<Digest>)
    ensures |ds| == |leaves|
    ensures forall i | 0 <= i < |leaves| :: ds[i] == HashLeaf(h, leaves[i])
  {
    seq(|leaves|, i requires 0 <= i < |leaves| => HashLeaf(h, leaves[i]))
  }

  lemma {:induction false} FoldOfLeavesIsTreeHash(h: HashFn, leaves: seq<Buf>)
    requires leaves != []
    ensures Fold(h, LeafDigests(h, leaves)) == TreeHash(h, leaves)
    decreases |leaves|
  {
    if |leaves| == 1 {
    } else {
      var k := SplitPoint(|leaves|);
      assert LeafDigests(h, leaves)[..k] == LeafDigests(h, leaves[..k]);
      assert LeafDigests(h, leaves)[k..] == LeafDigests(h, leaves[k..]);
      FoldOfLeavesIsTreeHash(h, leaves[..k]);
      FoldOfLeavesIsTreeHash(h, leaves[k..]);
    }
  }

  lemma NextLevelStep(h: HashFn, nodes: seq<Digest>, i: nat)
    requires i < |nodes|
    ensures NextLevel(h, Rest(nodes, i)) ==
            [if i + 1 < |nodes| then HashParent(h, nodes[i], nodes[i + 1]) else nodes[i]]
            + NextLevel(h, Rest(nodes, i + 2))
  {
    if i + 1 < |nodes| {
      assert nodes[i..][2..] == Rest(nodes, i + 2);
    } else {
      assert nodes[i..] == [nodes[i]];
    }
  }

  lemma LevelEnds(h: HashFn, nodes: seq<Digest>)
    ensures [] + NextLevel(h, Rest(nodes, 0)) == NextLevel(h, nodes)
    ensures forall i: nat | i >= |nodes| :: NextLevel(h, Rest(nodes, i)) == []
  {
    assert nodes[0..] == nodes;
  }

  /** The inner loop of the program: one level up. */
  method Ascend(h: HashFn, nodes: seq<Digest>) returns (nextLevel: seq<Digest>)
    ensures nextLevel == NextLevel(h, nodes)
  {
    hide NextLevel, Rest;
    LevelEnds(h, nodes);
    nextLevel := [];
    var i := 0;
    while i < |nodes|
      invariant 0 <= i <= |nodes| + 1
      invariant nextLevel + NextLevel(h, Rest(nodes, i)) == NextLevel(h, nodes)
    {
      NextLevelStep(h, nodes, i);
      if i + 1 < |nodes| {
        nextLevel := nextLevel + [HashParent(h, nodes[i], nodes[i + 1])];
      } else {
        // The last node has no partner and moves up as it is.
        nextLevel := nextLevel + [nodes[i]];
      }
      i := i + 2;
    }
  }

  ghost function Rest(nodes: seq<Digest>, i: nat): seq<Digest> {
    if i <= |nodes| then nodes[i..] else []
  }

  /** The program's nested loops return the recursive tree hash, for every non-empty list of leaves. */
  method ComputeRootHash(h: HashFn, leaves: seq<Buf>) returns (r: RootResult)
    ensures r == if leaves == [] then EmptyLeaves else Root(TreeHash(h, leaves))
    ensures forall i | 0 <= i < |leaves| :: r == Root(Climb(h, h([0] + leaves[i]), AuditPath(h, leaves, i)))
  {
    if |leaves| == 0 {
      return EmptyLeaves;
    }
    var nodes: seq<Digest> := [];
    for i := 0 to |leaves|
      invariant |nodes| == i
      invariant forall j | 0 <= j < i :: nodes[j] == HashLeaf(h, leaves[j])
    {
      nodes := nodes + [HashLeaf(h, leaves[i])];
    }
    assert nodes == LeafDigests(h, leaves);
    FoldOfLeavesIsTreeHash(h, leaves);
    while |nodes| > 1
      invariant nodes != []
      invariant Fold(h, nodes) == TreeHash(h, leaves)
      decreases |nodes|
    {
      FoldSkipsALevel(h, nodes);
      nodes := Ascend(h, nodes);
    }
    r := Root(nodes[0]);
    forall i | 0 <= i < |leaves|
      ensures r == Root(Climb(h, h([0] + leaves[i]), AuditPath(h, leaves, i)))
    {
      AuditPathLeadsToRoot(h, leaves, i);
    }
  }

  // ----- Binding: equal roots, or a collision inside the two computations

  /** Every byte string that is hashed on the way to the root. */
  ghost function HashInputs(h: HashFn, leaves: seq<Buf>): set<Buf>
    requires leaves != []
    decreases |leaves|
  {
    if |leaves| == 1 then {LeafInput(leaves[0])}
    else
      var k := SplitPoint(|leaves|);
      HashInputs(h, leaves[..k]) + HashInputs(h, leaves[k..])
      + {ParentInput(TreeHash(h, leaves[..k]), TreeHash(h, leaves[k..]))}
  }

  lemma ParentInputInjective(l: Digest, r: Digest, l': Digest, r': Digest)
    requires ParentInput(l, r) == ParentInput(l', r')
    ensures l == l' && r == r'
  {
    var p := ParentInput(l, r);
    assert p[1..33] == l && p[1..33] == l';
    assert p[33..] == r && p[33..] == r';
  }

  lemma LeafInputInjective(h: HashFn, xs: seq<Buf>, ys: seq<Buf>)
    requires xs != [] && ys != [] && xs != ys
    ensures |xs| == 1 || |ys| == 1 ==> RootInput(h, xs) != RootInput(h, ys)
  {
    if |xs| == 1 && |ys| == 1 {
      assert RootInput(h, xs)[1..] == xs[0] && RootInput(h, ys)[1..] == ys[0];
    } else if |xs| == 1 || |ys| == 1 {
      assert RootInput(h, xs)[0] != RootInput(h, ys)[0];
    }
  }

  /**
   * From two different leaf lists, of any lengths, with the same root, computes two different strings
   * with the same hash; one is hashed for the first root and the other for the second.
   */
  function Collision(h: HashFn, xs: seq<Buf>, ys: seq<Buf>): (c: (Buf, Buf))
    requires xs != [] && ys != [] && xs != ys
    requires TreeHash(h, xs) == TreeHash(h, ys)
    ensures c.0 != c.1 && h(c.0) == h(c.1)
    ensures c.0 in HashInputs(h, xs) && c.1 in HashInputs(h, ys)
    decreases |xs|
  {
    if RootInput(h, xs) != RootInput(h, ys) then
      (RootInput(h, xs), RootInput(h, ys))
    else
      SameRootInput(h, xs, ys);
      var k, m := SplitPoint(|xs|), SplitPoint(|ys|);
      if xs[..k] != ys[..m] then Collision(h, xs[..k], ys[..m]) else Collision(h, xs[k..], ys[m..])
  }

  /** Different lists hashed from one last string: both are split, and the halves have equal roots. */
  lemma SameRootInput(h: HashFn, xs: seq<Buf>, ys: seq<Buf>)
    requires xs != [] && ys != [] && xs != ys && RootInput(h, xs) == RootInput(h, ys)
    ensures |xs| >= 2 && |ys| >= 2
    ensures var k, m := SplitPoint(|xs|), SplitPoint(|ys|);
      && TreeHash(h, xs[..k]) == TreeHash(h, ys[..m])
      && TreeHash(h, xs[k..]) == TreeHash(h, ys[m..])
      && (xs[..k] != ys[..m] || xs[k..] != ys[m..])
  {
    LeafInputInjective(h, xs, ys);
    var k, m := SplitPoint(|xs|), SplitPoint(|ys|);
    SplitsDetermine(xs, ys, k, m);
    RootInputOfSplit(h, xs);
    RootInputOfSplit(h, ys);
    ParentInputInjective(TreeHash(h, xs[..k]), TreeHash(h, xs[k..]), TreeHash(h, ys[..m]), TreeHash(h, ys[m..]));
  }

  lemma SplitsDetermine(xs: seq<Buf>, ys: seq<Buf>, k: nat, m: nat)
    requires k <= |xs| && m <= |ys|
    ensures xs[..k] == ys[..m] && xs[k..] == ys[m..] ==> xs == ys
  {
    assert xs == xs[..k] + xs[k..] && ys == ys[..m] + ys[m..];
  }

  lemma RootInputOfSplit(h: HashFn, leaves: seq<Buf>)
    requires leaves != []
    ensures |leaves| >= 2 ==>
      var k := SplitPoint(|leaves|);
      RootInput(h, leaves) == ParentInput(TreeHash(h, leaves[..k]), TreeHash(h, leaves[k..]))
  {
  }

  /** The last string hashed for a root. */
  function RootInput(h: HashFn, leaves: seq<Buf>): (b: Buf)
    requires leaves != []
    ensures h(b) == TreeHash(h, leaves)
    ensures b in HashInputs(h, leaves)
  {
    if |leaves| == 1 then LeafInput(leaves[0])
    else
      var k := SplitPoint(|leaves|);
      ParentInput(TreeHash(h, leaves[..k]), TreeHash(h, leaves[k..]))
  }

  /** Two roots collide in `a` and `b`: different strings, hashed for the two roots, with one digest. */
  ghost predicate CollidesIn(h: HashFn, xs: seq<Buf>, ys: seq<Buf>, a: Buf, b: Buf)
    requires xs != [] && ys != []
  {
    a != b && h(a) == h(b) && a in HashInputs(h, xs) && b in HashInputs(h, ys)
  }
}
