/** Merkle commitments: the tree over a list of leaf hashes, membership proofs, and what they bind. */
module Merkle {
  import opened Collections

  /** The digest of a string; SHA-256 in the program. */
  type Digest = string -> string

  /** Two nodes are hashed as one string: where the left one ends is not recorded. */
  function HashPair(g: Digest, left: string, right: string): string
  {
    g(left + right)
  }

  /** Right partner of the node at an even index: its neighbour, or itself at the end of an odd level. */
  function RightOf(level: seq<string>, i: nat): string
    requires i < |level|
  {
    if i + 1 < |level| then level[i + 1] else level[i]
  }

  function Parent(g: Digest, level: seq<string>, k: nat): string
    requires 2 * k < |level|
  {
    HashPair(g, level[2 * k], RightOf(level, 2 * k))
  }

  function NextLevel(g: Digest, level: seq<string>): (next: seq<string>)
    ensures |next| == (|level| + 1) / 2
    ensures forall k :: 0 <= k < |next| ==> next[k] == Parent(g, level, k)
  {
    seq((|level| + 1) / 2, k requires 0 <= k < (|level| + 1) / 2 => Parent(g, level, k))
  }

  /** All levels, leaves first, single root last. */
  function Levels(g: Digest, leaves: seq<string>): seq<seq<string>>
    decreases |leaves|
  {
    if |leaves| <= 1 then [leaves] else [leaves] + Levels(g, NextLevel(g, leaves))
  }

  function Root(g: Digest, leaves: seq<string>): string
    requires leaves != []
    decreases |leaves|
  {
    if |leaves| == 1 then leaves[0] else Root(g, NextLevel(g, leaves))
  }

  /** Number of levels above the leaves. */
  function Height(n: nat): nat
  {
    if n <= 1 then 0 else 1 + Height((n + 1) / 2)
  }

  /** A sibling hash and whether it sits on the right. */
  type Sibling = (string, bool)

  function SiblingOf(level: seq<string>, i: nat): Sibling
    requires i < |level|
  {
    if i % 2 == 0 then (RightOf(level, i), true) else (level[i - 1], false)
  }

  /** The siblings from leaf `i` up to the root. */
  function Path(g: Digest, leaves: seq<string>, i: nat): seq<Sibling>
    requires i < |leaves|
    decreases |leaves|
  {
    if |leaves| <= 1 then []
    else [SiblingOf(leaves, i)] + Path(g, NextLevel(g, leaves), i / 2)
  }

  function Combine(g: Digest, current: string, s: Sibling): string
  {
    if s.1 then HashPair(g, current, s.0) else HashPair(g, s.0, current)
  }

  /** The root that a leaf and its siblings lead to. */
  function Climb(g: Digest, leaf: string, path: seq<Sibling>): string
    decreases |path|
  {
    if path == [] then leaf else Climb(g, Combine(g, leaf, path[0]), path[1..])
  }

  datatype MerkleProof = MerkleProof(leafIndex: int, leafHash: string, siblings: seq<Sibling>, rootHash: string)

  predicate Accepts(g: Digest, leaf: string, proof: MerkleProof, root: string)
  {
    leaf == proof.leafHash && Climb(g, leaf, proof.siblings) == root
  }

  // ---------- what trees and climbs are ----------

  /** Each node is the digest of two neighbours below it, the last of an odd level counted twice; the top level is one node. */
  ghost predicate IsTree(g: Digest, leaves: seq<string>, tree: seq<seq<string>>)
  {
    && tree != [] && tree[0] == leaves && |tree[|tree| - 1]| == 1
    && (forall l :: 0 <= l < |tree| - 1 ==> |tree[l]| > 1 && |tree[l + 1]| == (|tree[l]| + 1) / 2)
    && (forall l, k :: 0 <= l < |tree| - 1 && 0 <= k < |tree[l + 1]| && 2 * k + 1 < |tree[l]| ==>
          tree[l + 1][k] == g(tree[l][2 * k] + tree[l][2 * k + 1]))
    && (forall l, k :: 0 <= l < |tree| - 1 && 0 <= k < |tree[l + 1]| && 2 * k + 1 == |tree[l]| ==>
          tree[l + 1][k] == g(tree[l][2 * k] + tree[l][2 * k]))
  }

  lemma {:induction false} LevelsMean(g: Digest, leaves: seq<string>)
    requires leaves != []
    ensures IsTree(g, leaves, Levels(g, leaves))
    ensures Levels(g, leaves)[|Levels(g, leaves)| - 1] == [Root(g, leaves)]
    decreases |leaves|
  {
    if |leaves| > 1 {
      LevelsMean(g, NextLevel(g, leaves));
      TreeGrows(g, leaves, Levels(g, NextLevel(g, leaves)));
    } else {
      assert leaves == [leaves[0]];
    }
  }

  lemma TreeGrows(g: Digest, leaves: seq<string>, above: seq<seq<string>>)
    requires |leaves| > 1 && IsTree(g, NextLevel(g, leaves), above)
    ensures IsTree(g, leaves, [leaves] + above)
  {
    var tree := [leaves] + above;
    forall l | 0 <= l < |tree| - 1
      ensures |tree[l]| > 1 && |tree[l + 1]| == (|tree[l]| + 1) / 2
      ensures forall k :: 0 <= k < |tree[l + 1]| && 2 * k + 1 < |tree[l]| ==>
                tree[l + 1][k] == g(tree[l][2 * k] + tree[l][2 * k + 1])
      ensures forall k :: 0 <= k < |tree[l + 1]| && 2 * k + 1 == |tree[l]| ==>
                tree[l + 1][k] == g(tree[l][2 * k] + tree[l][2 * k])
    {
      if l > 0 {
        assert tree[l] == above[l - 1] && tree[l + 1] == above[l - 1 + 1];
      }
    }
  }

  /** The hashes met on the way up: each is the digest of the one before and its sibling, on the side the sibling says. */
  ghost predicate IsClimb(g: Digest, leaf: string, path: seq<Sibling>, hashes: seq<string>)
  {
    && |hashes| == |path| + 1 && hashes[0] == leaf
    && forall k :: 0 <= k < |path| ==>
         hashes[k + 1] == if path[k].1 then g(hashes[k] + path[k].0) else g(path[k].0 + hashes[k])
  }

  /** A proof is accepted exactly if it is for this leaf hash and the way up ends in the given root. */
  lemma AcceptsIff(g: Digest, leaf: string, proof: MerkleProof, root: string)
    ensures Accepts(g, leaf, proof, root) <==>
              leaf == proof.leafHash
              && exists hashes :: IsClimb(g, leaf, proof.siblings, hashes) && hashes[|proof.siblings|] == root
  {
    var up := WayUp(g, leaf, proof.siblings);
    forall hashes | IsClimb(g, leaf, proof.siblings, hashes)
      ensures hashes[|proof.siblings|] == Climb(g, leaf, proof.siblings)
    {
      OneWayUp(g, leaf, proof.siblings, hashes);
    }
  }

  lemma {:induction false} OneWayUp(g: Digest, leaf: string, path: seq<Sibling>, hashes: seq<string>)
    requires IsClimb(g, leaf, path, hashes)
    ensures hashes[|path|] == Climb(g, leaf, path)
    decreases |path|
  {
    if path != [] {
      forall k | 0 <= k < |path[1..]|
        ensures hashes[1..][k + 1]
                == if path[1..][k].1 then g(hashes[1..][k] + path[1..][k].0) else g(path[1..][k].0 + hashes[1..][k])
      {
        assert path[1..][k] == path[k + 1];
      }
      OneWayUp(g, Combine(g, leaf, path[0]), path[1..], hashes[1..]);
    }
  }

  lemma {:induction false} WayUp(g: Digest, leaf: string, path: seq<Sibling>) returns (hashes: seq<string>)
    ensures IsClimb(g, leaf, path, hashes)
    decreases |path|
  {
    if path == [] {
      hashes := [leaf];
    } else {
      var rest := WayUp(g, Combine(g, leaf, path[0]), path[1..]);
      hashes := [leaf] + rest;
      forall k | 0 <= k < |path|
        ensures hashes[k + 1] == if path[k].1 then g(hashes[k] + path[k].0) else g(path[k].0 + hashes[k])
      {
        if k > 0 {
          assert rest[k - 1 + 1]
                 == if path[1..][k - 1].1 then g(rest[k - 1] + path[1..][k - 1].0) else g(path[1..][k - 1].0 + rest[k - 1]);
        }
      }
    }
  }

  // ---------- indices counted from the end ----------

  /** `level[i]` as Python reads it: a negative index counts from the end, and may be out of range. */
  function At(level: seq<string>, i: int): Option<string>
  {
    if 0 <= i < |level| then Some(level[i])
    else if -|level| <= i < 0 then Some(level[|level| + i])
    else None
  }

  /** The sibling the walk picks at index `i`; None if the look-up raises. */
  function PickedSibling(level: seq<string>, i: int): Option<Sibling>
  {
    var sibling := if i % 2 == 0 then i + 1 else i - 1;
    match At(level, if sibling < |level| then sibling else i)
    case Some(node) => Some((node, i % 2 == 0))
    case None => None
  }

  /** What the walk from index `i` collects; None if a look-up raises. */
  function Walk(g: Digest, leaves: seq<string>, i: int): Option<seq<Sibling>>
    decreases |leaves|
  {
    if |leaves| <= 1 then Some([])
    else
      match PickedSibling(leaves, i)
      case None => None
      case Some(s) =>
        match Walk(g, NextLevel(g, leaves), i / 2)
        case None => None
        case Some(rest) => Some([s] + rest)
  }

  datatype ProofError = IndexError

  /** What `GetProof` returns for a stored tree. */
  function ProofFor(g: Digest, leaves: seq<string>, root: Option<string>, i: int): Result<Option<MerkleProof>, ProofError>
  {
    if leaves == [] || i >= |leaves| || root.None? then Ok(None)
    else if Walk(g, leaves, i).None? || At(leaves, i).None? then Err(IndexError)
    else Ok(Some(MerkleProof(i, At(leaves, i).value, Walk(g, leaves, i).value, root.value)))
  }

  // ---------- builds ----------

  /** The leaves stored after some builds: those of the last one that had any. */
  function LeavesAfter(builds: seq<seq<string>>): seq<string>
  {
    if builds == [] then []
    else if builds[|builds| - 1] != [] then builds[|builds| - 1]
    else LeavesAfter(builds[..|builds| - 1])
  }

  /** The root stored after some builds: that of the last one, even if it had no leaves. */
  function RootAfter(g: Digest, builds: seq<seq<string>>): Option<string>
  {
    if builds == [] then None
    else if builds[|builds| - 1] == [] then Some(g(""))
    else Some(Root(g, builds[|builds| - 1]))
  }

  class MerkleTree {
    const digest: Digest
    var leaves: seq<string>
    var tree: seq<seq<string>>
    var rootHash: Option<string>
    /** The arguments of all builds so far. */
    ghost var builds: seq<seq<string>>

    ghost predicate Valid()
      reads this
    {
      && leaves == LeavesAfter(builds) && rootHash == RootAfter(digest, builds)
      && tree == if leaves == [] then [] else Levels(digest, leaves)
    }

    constructor (digest: Digest)
      ensures Valid() && this.digest == digest && builds == []
    {
      this.digest := digest;
      leaves, tree, rootHash, builds := [], [], None, [];
    }

    method BuildTree(newLeaves: seq<string>) returns (root: string)
      requires Valid()
      modifies this
      ensures Valid() && builds == old(builds) + [newLeaves] && rootHash == Some(root)
      ensures newLeaves == [] ==> leaves == old(leaves) && tree == old(tree) && root == digest("")
      ensures newLeaves != [] ==> leaves == newLeaves && root == Root(digest, newLeaves)
      ensures newLeaves != [] ==> IsTree(digest, newLeaves, tree) && tree[|tree| - 1] == [root]
    {
      builds := builds + [newLeaves];
      assert builds[..|builds| - 1] == old(builds);
      if newLeaves == [] {
        root := digest("");
        rootHash := Some(root);
        return;
      }
      leaves := newLeaves;
      LevelsMean(digest, newLeaves);
      tree, root := StackLevels(digest, newLeaves);
      rootHash := Some(root);
    }

    /** Everything the walk collects, under the root of the last build. */
    method GetProof(leafIndex: int) returns (r: Result<Option<MerkleProof>, ProofError>)
      requires Valid()
      ensures r == ProofFor(digest, leaves, rootHash, leafIndex)
      ensures 0 <= leafIndex < |leaves| ==>
                && rootHash.Some?
                && r == Ok(Some(MerkleProof(leafIndex, leaves[leafIndex], Path(digest, leaves, leafIndex), rootHash.value)))
      ensures r == Ok(None) <==> leafIndex >= |leaves| || leaves == []
    {
      StoredRoot(digest, builds);
      if 0 <= leafIndex < |leaves| {
        WalkIsPath(digest, leaves, leafIndex);
      }
      if tree == [] || leafIndex >= |leaves| {
        return Ok(None);
      }
      var siblings := CollectSiblings(digest, leaves, tree, leafIndex);
      if siblings.None? || leafIndex < -|leaves| {
        return Err(IndexError);
      }
      var leaf := if leafIndex >= 0 then leaves[leafIndex] else leaves[|leaves| + leafIndex];
      r := Ok(Some(MerkleProof(leafIndex, leaf, siblings.value, rootHash.value)));
    }

    method VerifyProof(leafHash: string, proof: MerkleProof, root: string) returns (ok: bool)
      ensures ok <==> Accepts(digest, leafHash, proof, root)
    {
      if leafHash != proof.leafHash {
        return false;
      }
      var currentHash := leafHash;
      for i := 0 to |proof.siblings|
        invariant Climb(digest, currentHash, proof.siblings[i..]) == Climb(digest, leafHash, proof.siblings)
      {
        var (siblingHash, isRight) := proof.siblings[i];
        assert proof.siblings[i..][1..] == proof.siblings[i + 1..];
        if isRight {
          currentHash := digest(currentHash + siblingHash);
        } else {
          currentHash := digest(siblingHash + currentHash);
        }
      }
      ok := currentHash == root;
    }
  }

  /** The levels from the leaves to the root, one hashed from the other. */
  method StackLevels(g: Digest, leaves: seq<string>) returns (tree: seq<seq<string>>, root: string)
    requires leaves != []
    ensures tree == Levels(g, leaves) && root == Root(g, leaves)
  {
    var currentLevel := leaves;
    tree := [currentLevel];
    ghost var below: seq<seq<string>> := [];
    while |currentLevel| > 1
      invariant currentLevel != [] && tree == below + [currentLevel]
      invariant below + Levels(g, currentLevel) == Levels(g, leaves)
      invariant Root(g, currentLevel) == Root(g, leaves)
      decreases |currentLevel|
    {
      var nextLevel := HashLevel(g, currentLevel);
      below := below + [currentLevel];
      tree := tree + [nextLevel];
      currentLevel := nextLevel;
    }
    root := currentLevel[0];
  }

  /** The walk of `GetProof` over the stored levels. */
  method CollectSiblings(g: Digest, ghost leaves: seq<string>, tree: seq<seq<string>>, leafIndex: int)
    returns (r: Option<seq<Sibling>>)
    requires leaves != [] && tree == Levels(g, leaves) && leafIndex < |leaves|
    ensures r == Walk(g, leaves, leafIndex)
  {
    var siblings: seq<Sibling> := [];
    var currentIndex := leafIndex;
    ghost var level := leaves;
    PrependNothing(Walk(g, leaves, leafIndex));
    for levelIdx := 0 to |tree| - 1
      invariant level != [] && tree[levelIdx..] == Levels(g, level)
      invariant currentIndex < |level|
      invariant Walk(g, leaves, leafIndex) == Prepend(siblings, Walk(g, level, currentIndex))
    {
      LevelAt(g, tree, levelIdx, level);
      var picked := PickSibling(tree[levelIdx], currentIndex);
      if picked.None? {
        return None;
      }
      PrependOneMore(siblings, picked.value, Walk(g, NextLevel(g, level), currentIndex / 2));
      siblings := siblings + [picked.value];
      currentIndex := currentIndex / 2;
      level := NextLevel(g, level);
    }
    assert |Levels(g, level)| == 1;
    assert siblings + [] == siblings;
    r := Some(siblings);
  }

  /** The neighbour at the other side of the pair, or the node itself past the end of the level. */
  method PickSibling(nodes: seq<string>, currentIndex: int) returns (picked: Option<Sibling>)
    ensures picked == PickedSibling(nodes, currentIndex)
  {
    var siblingIndex, isRight := currentIndex + 1, true;
    if currentIndex % 2 != 0 {
      siblingIndex, isRight := currentIndex - 1, false;
    }
    var node := At(nodes, if siblingIndex < |nodes| then siblingIndex else currentIndex);
    picked := if node.Some? then Some((node.value, isRight)) else None;
  }

  function Prepend(front: seq<Sibling>, rest: Option<seq<Sibling>>): Option<seq<Sibling>>
  {
    if rest.None? then None else Some(front + rest.value)
  }

  lemma PrependNothing(rest: Option<seq<Sibling>>)
    ensures Prepend([], rest) == rest
  {
    if rest.Some? {
      assert [] + rest.value == rest.value;
    }
  }

  lemma PrependOneMore(front: seq<Sibling>, s: Sibling, rest: Option<seq<Sibling>>)
    ensures Prepend(front + [s], rest) == Prepend(front, Prepend([s], rest))
  {
    if rest.Some? {
      assert front + [s] + rest.value == front + ([s] + rest.value);
    }
  }

  /** Below the top, the tree's level is the current one and the levels above it are its own. */
  lemma LevelAt(g: Digest, tree: seq<seq<string>>, k: nat, level: seq<string>)
    requires level != [] && k < |tree| - 1 && tree[k..] == Levels(g, level)
    ensures tree[k] == level && |level| > 1 && tree[k + 1..] == Levels(g, NextLevel(g, level))
  {
    assert tree[k] == tree[k..][0];
    assert tree[k + 1..] == tree[k..][1..];
  }

  /** One level hashed pairwise, the last node of an odd level with itself. */
  method HashLevel(g: Digest, level: seq<string>) returns (next: seq<string>)
    ensures next == NextLevel(g, level)
  {
    next := [];
    var i := 0;
    while i < |level|
      invariant i % 2 == 0 && i <= |level| + 1 && |next| == i / 2
      invariant forall k :: 0 <= k < |next| ==> next[k] == Parent(g, level, k)
    {
      var left := level[i];
      var right := if i + 1 < |level| then level[i + 1] else left;
      assert i == 2 * (i / 2);
      next := next + [g(left + right)];
      i := i + 2;
    }
  }

  // ---------- what proofs establish ----------

  lemma StepUp(g: Digest, level: seq<string>, i: nat)
    requires i < |level|
    ensures Combine(g, level[i], SiblingOf(level, i)) == NextLevel(g, level)[i / 2]
  {
    assert i == 2 * (i / 2) || i == 2 * (i / 2) + 1;
  }

  lemma PathTail(g: Digest, leaves: seq<string>, i: nat)
    requires i < |leaves| && |leaves| > 1
    ensures Path(g, leaves, i) != [] && Path(g, leaves, i)[0] == SiblingOf(leaves, i)
    ensures Path(g, leaves, i)[1..] == Path(g, NextLevel(g, leaves), i / 2)
  {
  }

  /** Every leaf's own proof leads to the root, odd levels included. */
  lemma {:induction false} Completeness(g: Digest, leaves: seq<string>, i: nat)
    requires i < |leaves|
    ensures Climb(g, leaves[i], Path(g, leaves, i)) == Root(g, leaves)
    decreases |leaves|
  {
    if |leaves| > 1 {
      Completeness(g, NextLevel(g, leaves), i / 2);
      PathTail(g, leaves, i);
      StepUp(g, leaves, i);
    }
  }

  function Pow2(d: nat): nat
  {
    if d == 0 then 1 else 2 * Pow2(d - 1)
  }

  lemma {:induction false} HeightBounds(n: nat)
    requires n >= 1
    ensures n <= Pow2(Height(n))
    ensures n > 1 ==> Height(n) >= 1 && Pow2(Height(n) - 1) < n
    decreases n
  {
    if n > 1 {
      var m := (n + 1) / 2;
      HeightBounds(m);
      if m == 1 {
        assert n == 2;
      } else {
        assert Pow2(Height(m)) == 2 * Pow2(Height(m) - 1);
      }
    }
  }

  /** Proofs are as long as the tree is high: logarithmic in the number of leaves. */
  lemma {:induction false} PathLength(g: Digest, leaves: seq<string>, i: nat)
    requires i < |leaves|
    ensures |Path(g, leaves, i)| == Height(|leaves|)
    decreases |leaves|
  {
    if |leaves| > 1 {
      PathLength(g, NextLevel(g, leaves), i / 2);
    }
  }

  /** An index within range collects the leaf's own path. */
  lemma {:induction false} WalkIsPath(g: Digest, leaves: seq<string>, i: nat)
    requires i < |leaves|
    ensures Walk(g, leaves, i) == Some(Path(g, leaves, i))
    decreases |leaves|
  {
    if |leaves| > 1 {
      WalkIsPath(g, NextLevel(g, leaves), i / 2);
      assert PickedSibling(leaves, i) == Some(SiblingOf(leaves, i));
    }
  }

  /** On an even level an index counted from the end picks the sibling of its node. */
  lemma EvenLevel(g: Digest, leaves: seq<string>, i: int)
    requires |leaves| > 1 && |leaves| % 2 == 0 && -|leaves| <= i < 0
    ensures
      var n, next := |leaves|, NextLevel(g, leaves);
      && -|next| <= i / 2 < 0 && (n + i) / 2 == |next| + i / 2
      && (Walk(g, leaves, i) == Some(Path(g, leaves, n + i)) <==> Walk(g, next, i / 2) == Some(Path(g, next, |next| + i / 2)))
  {
    var n, next := |leaves|, NextLevel(g, leaves);
    EvenShift(n, i);
    EvenSibling(leaves, i);
    PathTail(g, leaves, n + i);
    var rest := Walk(g, next, i / 2);
    if rest.Some? {
      assert Walk(g, leaves, i).value[1..] == rest.value;
    }
  }

  lemma EvenShift(n: nat, i: int)
    requires n % 2 == 0 && 0 <= n + i && i < 0
    ensures (n + 1) / 2 == n / 2 && -(n / 2) <= i / 2 < 0 && (n + i) / 2 == n / 2 + i / 2 && (n + i) % 2 == i % 2
  {
  }

  /** On a level of even length the walk picks the sibling of the leaf counted from the front. */
  lemma EvenSibling(level: seq<string>, i: int)
    requires |level| % 2 == 0 && -|level| <= i < 0
    ensures PickedSibling(level, i) == Some(SiblingOf(level, |level| + i))
  {
    EvenShift(|level|, i);
  }

  /** On an odd level it takes a left child for a right one, or the other way round. */
  lemma OddLevel(g: Digest, leaves: seq<string>, i: int)
    requires |leaves| > 1 && |leaves| % 2 == 1 && -|leaves| <= i < 0
    ensures Walk(g, leaves, i) != Some(Path(g, leaves, |leaves| + i))
  {
    PathTail(g, leaves, |leaves| + i);
    WalkHead(g, leaves, i);
    OddShift(|leaves|, i);
  }

  lemma WalkHead(g: Digest, leaves: seq<string>, i: int)
    requires |leaves| > 1
    ensures Walk(g, leaves, i).Some? ==> Walk(g, leaves, i).value != [] && Walk(g, leaves, i).value[0].1 == (i % 2 == 0)
  {
  }

  lemma OddShift(n: nat, i: int)
    requires n % 2 == 1
    ensures ((n + i) % 2 == 0) != (i % 2 == 0)
  {
  }

  lemma PowerSized(n: nat)
    requires n > 1
    ensures n == Pow2(Height(n)) <==> n % 2 == 0 && (n + 1) / 2 == Pow2(Height((n + 1) / 2))
  {
    var half := (n + 1) / 2;
    assert Height(n) == 1 + Height(half);
    Halving(n, Pow2(Height(half)));
  }

  lemma Halving(n: nat, p: nat)
    ensures n == 2 * p <==> n % 2 == 0 && (n + 1) / 2 == p
  {
  }

  /** An index counted from the end collects the path of its leaf exactly in a tree without odd levels. */
  lemma {:induction false} NegativeIndexIff(g: Digest, leaves: seq<string>, i: int)
    requires -|leaves| <= i < 0
    ensures Walk(g, leaves, i) == Some(Path(g, leaves, |leaves| + i)) <==> |leaves| == Pow2(Height(|leaves|))
    decreases |leaves|
  {
    var n := |leaves|;
    if n > 1 {
      PowerSized(n);
      if n % 2 == 0 {
        EvenLevel(g, leaves, i);
        NegativeIndexIff(g, NextLevel(g, leaves), i / 2);
      } else {
        OddLevel(g, leaves, i);
      }
    }
  }

  lemma {:induction false} StoredRoot(g: Digest, builds: seq<seq<string>>)
    ensures LeavesAfter(builds) != [] ==> RootAfter(g, builds).Some?
  {
  }

  /** A proof verifies against the root it carries exactly if the last build had leaves or the two roots coincide. */
  lemma ProofSelfVerifiesIff(g: Digest, builds: seq<seq<string>>, i: nat)
    requires i < |LeavesAfter(builds)|
    ensures
      var leaves := LeavesAfter(builds);
      var r := ProofFor(g, leaves, RootAfter(g, builds), i);
      && r.Ok? && r.value.Some?
      && (Accepts(g, leaves[i], r.value.value, r.value.value.rootHash)
          <==> builds[|builds| - 1] != [] || Root(g, leaves) == g(""))
  {
    var leaves := LeavesAfter(builds);
    WalkIsPath(g, leaves, i);
    Completeness(g, leaves, i);
  }

  /** After a rebuild from nothing the old leaves are still served, under a root they do not lead to. */
  lemma EmptyRebuildBreaksProofs(g: Digest, i: nat)
    requires i < 2 && CollisionFree(g, {"ab", ""})
    ensures
      var leaves := ["a", "b"];
      var r := ProofFor(g, leaves, RootAfter(g, [leaves, []]), i);
      && r.Ok? && r.value.Some?
      && !Accepts(g, leaves[i], r.value.value, r.value.value.rootHash)
  {
    var leaves := ["a", "b"];
    var builds: seq<seq<string>> := [leaves, []];
    assert builds[..1] == [leaves];
    assert LeavesAfter(builds) == leaves;
    ProofSelfVerifiesIff(g, builds, i);
    assert NextLevel(g, leaves) == [HashPair(g, "a", "b")];
    assert "a" + "b" == "ab" != "";
  }

  // ---------- what an accepted proof establishes ----------

  /** The strings hashed to get from a level to the next. */
  ghost function LevelInputs(level: seq<string>): set<string>
  {
    set k | 0 <= k < (|level| + 1) / 2 :: level[2 * k] + RightOf(level, 2 * k)
  }

  /** The strings hashed to build the tree. */
  ghost function TreeInputs(g: Digest, leaves: seq<string>): set<string>
    decreases |leaves|
  {
    if |leaves| <= 1 then {} else LevelInputs(leaves) + TreeInputs(g, NextLevel(g, leaves))
  }

  function Joined(current: string, s: Sibling): string
  {
    if s.1 then current + s.0 else s.0 + current
  }

  /** The strings hashed to check a proof. */
  ghost function ClimbInputs(g: Digest, leaf: string, path: seq<Sibling>): set<string>
    decreases |path|
  {
    if path == [] then {} else {Joined(leaf, path[0])} + ClimbInputs(g, Combine(g, leaf, path[0]), path[1..])
  }

  /** No two of these strings have one digest. */
  ghost predicate CollisionFree(g: Digest, inputs: set<string>)
  {
    forall x, y :: x in inputs && y in inputs && g(x) == g(y) ==> x == y
  }

  lemma FewerInputs(g: Digest, inputs: set<string>, fewer: set<string>)
    requires CollisionFree(g, inputs) && fewer <= inputs
    ensures CollisionFree(g, fewer)
  {
  }

  lemma LevelsHash(g: Digest, leaves: seq<string>)
    requires |leaves| > 1
    ensures TreeInputs(g, leaves) == LevelInputs(leaves) + TreeInputs(g, NextLevel(g, leaves))
    ensures Root(g, leaves) == Root(g, NextLevel(g, leaves)) && Height(|leaves|) == 1 + Height(|NextLevel(g, leaves)|)
  {
  }

  ghost predicate FixedLength(g: Digest, size: nat)
  {
    forall x :: |g(x)| == size
  }

  lemma JoinedLevel(level: seq<string>, i: nat)
    requires i < |level|
    ensures Joined(level[i], SiblingOf(level, i)) == level[2 * (i / 2)] + RightOf(level, 2 * (i / 2))
    ensures Joined(level[i], SiblingOf(level, i)) in LevelInputs(level)
  {
    assert i == 2 * (i / 2) || i == 2 * (i / 2) + 1;
    assert 0 <= i / 2 < (|level| + 1) / 2;
  }

  /** Where the cut is known, a concatenation determines its parts. */
  lemma SameCut(a: string, b: string, c: string, d: string)
    requires a + b == c + d
    ensures a == c && b == d <==> |a| == |c|
    ensures a == c && b == d <==> |b| == |d|
  {
    assert |a + b| == |a| + |b| && |c + d| == |c| + |d|;
    if |a| == |c| {
      assert a == (a + b)[..|a|] && c == (c + d)[..|a|];
      assert b == (a + b)[|a|..] && d == (c + d)[|a|..];
    }
  }

  /** Undoing one step of the climb: the parent's digest fixes the joined string, and one length fixes its parts. */
  lemma StepBack(g: Digest, level: seq<string>, i: nat, node: string, s: Sibling)
    requires i < |level| && s.1 == SiblingOf(level, i).1
    requires CollisionFree(g, LevelInputs(level) + {Joined(node, s)})
    requires Combine(g, node, s) == Parent(g, level, i / 2)
    ensures node == level[i] && s == SiblingOf(level, i) <==> |s.0| == |SiblingOf(level, i).0|
    ensures node == level[i] && s == SiblingOf(level, i) <==> |node| == |level[i]|
  {
    var own := SiblingOf(level, i);
    JoinedLevel(level, i);
    assert Joined(node, s) == Joined(level[i], own);
    if s.1 {
      SameCut(node, s.0, level[i], own.0);
    } else {
      SameCut(s.0, node, own.0, level[i]);
    }
  }

  ghost predicate SameSides(p: seq<Sibling>, q: seq<Sibling>)
  {
    |p| == |q| && forall k :: 0 <= k < |p| ==> p[k].1 == q[k].1
  }

  ghost predicate SameLengths(p: seq<Sibling>, q: seq<Sibling>)
  {
    |p| == |q| && forall k :: 0 <= k < |p| ==> |p[k].0| == |q[k].0|
  }

  lemma SameTails(p: seq<Sibling>, q: seq<Sibling>)
    requires p != [] && q != []
    ensures SameSides(p, q) ==> p[0].1 == q[0].1 && SameSides(p[1..], q[1..])
    ensures SameLengths(p, q) ==> |p[0].0| == |q[0].0| && SameLengths(p[1..], q[1..])
  {
  }

  /**
   * A proof with the sides of position `i` that leads to the root is the tree's own proof exactly if
   * each sibling has the length of the tree's.
   */
  lemma {:induction false} PositionSoundIff(g: Digest, leaves: seq<string>, i: nat, leaf: string, path: seq<Sibling>)
    requires i < |leaves| && SameSides(path, Path(g, leaves, i)) && Climb(g, leaf, path) == Root(g, leaves)
    requires CollisionFree(g, TreeInputs(g, leaves) + ClimbInputs(g, leaf, path))
    ensures leaf == leaves[i] && path == Path(g, leaves, i) <==> SameLengths(path, Path(g, leaves, i))
    decreases |leaves|
  {
    if |leaves| > 1 && SameLengths(path, Path(g, leaves, i)) {
      PathTail(g, leaves, i);
      SameTails(path, Path(g, leaves, i));
      PositionSoundIff(g, NextLevel(g, leaves), i / 2, Combine(g, leaf, path[0]), path[1..]);
      StepBack(g, leaves, i, leaf, path[0]);
      assert path == [path[0]] + path[1..];
    }
  }

  /** With digests of one length it is enough to look at the leaf. */
  lemma {:induction false} PositionSound(g: Digest, size: nat, leaves: seq<string>, i: nat, leaf: string, path: seq<Sibling>)
    requires i < |leaves| && SameSides(path, Path(g, leaves, i)) && Climb(g, leaf, path) == Root(g, leaves)
    requires FixedLength(g, size) && CollisionFree(g, TreeInputs(g, leaves) + ClimbInputs(g, leaf, path))
    ensures leaf == leaves[i] && path == Path(g, leaves, i) <==> |leaf| == |leaves[i]|
    decreases |leaves|
  {
    if |leaves| > 1 && |leaf| == |leaves[i]| {
      var next, parent := NextLevel(g, leaves), Combine(g, leaf, path[0]);
      PathTail(g, leaves, i);
      SameTails(path, Path(g, leaves, i));
      assert |parent| == size && |next[i / 2]| == size;
      PositionSound(g, size, next, i / 2, parent, path[1..]);
      StepBack(g, leaves, i, leaf, path[0]);
      assert path == [path[0]] + path[1..];
    }
  }

  /** A proof as high as a tree of digests is accepted for one of its leaves exactly if it is for a digest-sized one. */
  lemma {:induction false} MembershipSound(g: Digest, size: nat, leaves: seq<string>, leaf: string, path: seq<Sibling>)
    requires leaves != [] && |path| == Height(|leaves|) && Climb(g, leaf, path) == Root(g, leaves)
    requires FixedLength(g, size) && forall x :: x in leaves ==> |x| == size
    requires CollisionFree(g, TreeInputs(g, leaves) + ClimbInputs(g, leaf, path))
    ensures leaf in leaves <==> |leaf| == size
    decreases |leaves|
  {
    if |leaves| > 1 && |leaf| == size {
      var next, parent := NextLevel(g, leaves), Combine(g, leaf, path[0]);
      MembershipSound(g, size, next, parent, path[1..]);
      var k :| 0 <= k < |next| && next[k] == parent;
      ChildOf(g, size, leaves, k, leaf, path[0]);
    }
  }

  lemma ChildOf(g: Digest, size: nat, level: seq<string>, k: nat, node: string, s: Sibling)
    requires 2 * k < |level| && Combine(g, node, s) == Parent(g, level, k) && |node| == size
    requires forall x :: x in level ==> |x| == size
    requires CollisionFree(g, LevelInputs(level) + {Joined(node, s)})
    ensures node in level
  {
    var left, right := level[2 * k], RightOf(level, 2 * k);
    assert 0 <= k < (|level| + 1) / 2;
    assert left + right in LevelInputs(level);
    assert left in level && right in level;
    if s.1 {
      SameCut(node, s.0, left, right);
    } else {
      assert |s.0 + node| == |left + right|;
      SameCut(s.0, node, left, right);
    }
  }

  ghost predicate SameLeafLengths(a: seq<string>, b: seq<string>)
  {
    |a| == |b| && forall i :: 0 <= i < |a| ==> |a[i]| == |b[i]|
  }

  lemma SameParents(g: Digest, a: seq<string>, b: seq<string>, i: nat)
    requires SameLeafLengths(a, b) && i < |a| && CollisionFree(g, LevelInputs(a) + LevelInputs(b))
    requires Parent(g, a, i / 2) == Parent(g, b, i / 2)
    ensures a[i] == b[i]
  {
    var k := 2 * (i / 2);
    JoinedLevel(a, i);
    JoinedLevel(b, i);
    SameCut(a[k], RightOf(a, k), b[k], RightOf(b, k));
  }

  /** Lists of equal length with one root are equal exactly if their leaves have equal lengths. */
  lemma {:induction false} Binding(g: Digest, size: nat, a: seq<string>, b: seq<string>)
    requires |a| == |b| && a != [] && Root(g, a) == Root(g, b)
    requires FixedLength(g, size) && CollisionFree(g, TreeInputs(g, a) + TreeInputs(g, b))
    ensures a == b <==> SameLeafLengths(a, b)
    decreases |a|
  {
    if |a| == 1 {
      assert a == [a[0]] && b == [b[0]];
    } else if SameLeafLengths(a, b) {
      InputsBelow(g, a, b);
      NextLengths(g, size, a, b);
      Binding(g, size, NextLevel(g, a), NextLevel(g, b));
      SameLevels(g, a, b);
    }
  }

  /** What is free of collisions for two trees is so for their upper parts, and for their leaves. */
  lemma InputsBelow(g: Digest, a: seq<string>, b: seq<string>)
    requires |a| > 1 && |b| > 1 && CollisionFree(g, TreeInputs(g, a) + TreeInputs(g, b))
    ensures CollisionFree(g, TreeInputs(g, NextLevel(g, a)) + TreeInputs(g, NextLevel(g, b)))
    ensures CollisionFree(g, LevelInputs(a) + LevelInputs(b))
  {
    LevelsHash(g, a);
    LevelsHash(g, b);
    var inputs := TreeInputs(g, a) + TreeInputs(g, b);
    FewerInputs(g, inputs, TreeInputs(g, NextLevel(g, a)) + TreeInputs(g, NextLevel(g, b)));
    FewerInputs(g, inputs, LevelInputs(a) + LevelInputs(b));
  }

  lemma NextLengths(g: Digest, size: nat, a: seq<string>, b: seq<string>)
    requires |a| == |b| && FixedLength(g, size)
    ensures SameLeafLengths(NextLevel(g, a), NextLevel(g, b))
  {
    var na, nb := NextLevel(g, a), NextLevel(g, b);
    forall k | 0 <= k < |na| ensures |na[k]| == |nb[k]| {
      assert na[k] == Parent(g, a, k) && nb[k] == Parent(g, b, k);
    }
  }

  lemma SameLevels(g: Digest, a: seq<string>, b: seq<string>)
    requires SameLeafLengths(a, b) && CollisionFree(g, LevelInputs(a) + LevelInputs(b))
    requires NextLevel(g, a) == NextLevel(g, b)
    ensures a == b
  {
    var na, nb := NextLevel(g, a), NextLevel(g, b);
    forall i | 0 <= i < |a| ensures a[i] == b[i] {
      assert na[i / 2] == Parent(g, a, i / 2) && nb[i / 2] == Parent(g, b, i / 2);
      SameParents(g, a, b, i);
    }
  }

  /** Moving characters from a leaf to its sibling leaves the hash as it is: any prefix of a leaf is accepted. */
  lemma ShiftedSplitAccepted(g: Digest, a: string, b: string, k: nat)
    requires k < |a|
    ensures
      var leaves, leaf, path := [a, b], a[..k], [(a[k..] + b, true)];
      && SameSides(path, Path(g, leaves, 0)) && leaf != a
      && Accepts(g, leaf, MerkleProof(0, leaf, path, Root(g, leaves)), Root(g, leaves))
  {
    var leaves, leaf, path := [a, b], a[..k], [(a[k..] + b, true)];
    assert NextLevel(g, leaves) == [g(a + b)];
    assert leaf + (a[k..] + b) == a + b;
    assert path[1..] == [];
    assert Climb(g, leaf, path) == g(a + b);
    PathLength(g, leaves, 0);
    PathTail(g, leaves, 0);
  }

  /** Equally many leaves can have one root, whatever the digest is. */
  lemma RootClash(g: Digest)
    ensures Root(g, ["ab", "c"]) == Root(g, ["a", "bc"]) && ["ab", "c"] != ["a", "bc"]
  {
    var a, b := ["ab", "c"], ["a", "bc"];
    assert "ab" + "c" == "a" + "bc";
    assert NextLevel(g, a) == [g("ab" + "c")] && NextLevel(g, b) == [g("a" + "bc")];
    assert |a[0]| != |b[0]|;
  }

  /** The root alone does not tell an odd list from the same list with its last leaf repeated. */
  lemma RepeatedLastLeaf(g: Digest, leaves: seq<string>)
    requires |leaves| > 1 && |leaves| % 2 == 1
    ensures Root(g, leaves + [leaves[|leaves| - 1]]) == Root(g, leaves)
  {
    var longer := leaves + [leaves[|leaves| - 1]];
    var a, b := NextLevel(g, longer), NextLevel(g, leaves);
    forall k | 0 <= k < |b| ensures a[k] == b[k] {
      assert longer[2 * k] == leaves[2 * k];
      assert RightOf(longer, 2 * k) == RightOf(leaves, 2 * k);
    }
    assert a == b;
  }

  /** VerifyProof never checks the length, so a node one level up passes for a leaf. */
  lemma InnerNodeAccepted(g: Digest, leaves: seq<string>, k: nat)
    requires |leaves| > 1 && k < |NextLevel(g, leaves)|
    ensures
      var next := NextLevel(g, leaves);
      Accepts(g, next[k], MerkleProof(k, next[k], Path(g, next, k), Root(g, leaves)), Root(g, leaves))
  {
    Completeness(g, NextLevel(g, leaves), k);
  }

  // ---------- what the root tells without the number of leaves ----------

  ghost predicate Sized(leaves: seq<string>, size: nat)
  {
    forall x :: x in leaves ==> |x| == size
  }

  /** Lists of digests with one root are equal exactly if they are equally long. */
  lemma SizedBinding(g: Digest, size: nat, a: seq<string>, b: seq<string>)
    requires a != [] && b != [] && Root(g, a) == Root(g, b) && Sized(a, size) && Sized(b, size)
    requires FixedLength(g, size) && CollisionFree(g, TreeInputs(g, a) + TreeInputs(g, b))
    ensures a == b <==> |a| == |b|
  {
    if |a| == |b| {
      forall i | 0 <= i < |a| ensures |a[i]| == |b[i]| {
        assert a[i] in a && b[i] in b;
      }
      Binding(g, size, a, b);
    }
  }

  /**
   * The leaf that stands at place `k` of the full tree of a list of `n` leaves, in which the last node of each
   * odd level stands twice with all that is below it.
   */
  function Place(n: nat, k: nat): nat
    requires n > 0
    ensures Place(n, k) < n
  {
    if n == 1 then 0
    else
      var place := 2 * Place((n + 1) / 2, k / 2) + k % 2;
      if place < n then place else place - 1
  }

  lemma PlaceBelow(n: nat, k: nat)
    requires n > 1
    ensures
      var q := Place((n + 1) / 2, k);
      Place(n, 2 * k) == 2 * q && Place(n, 2 * k + 1) == if 2 * q + 1 < n then 2 * q + 1 else 2 * q
  {
    assert 2 * k / 2 == k && (2 * k + 1) / 2 == k && (2 * k) % 2 == 0 && (2 * k + 1) % 2 == 1;
  }

  /** The leaf at place `k` of the full tree. */
  function FullLeaf(leaves: seq<string>, k: nat): string
    requires leaves != []
  {
    leaves[Place(|leaves|, k)]
  }

  /** Both full trees have the same leaves at all places. */
  ghost predicate SameFullTree(a: seq<string>, b: seq<string>)
    requires a != [] && b != []
  {
    forall k: nat :: k < Pow2(Height(|a|)) ==> FullLeaf(a, k) == FullLeaf(b, k)
  }

  /** The two places below place `k` of the next level hold the two parts of the parent. */
  lemma LeavesBelow(g: Digest, level: seq<string>, k: nat)
    requires |level| > 1
    ensures FullLeaf(NextLevel(g, level), k) == g(FullLeaf(level, 2 * k) + FullLeaf(level, 2 * k + 1))
    ensures FullLeaf(level, 2 * k) + FullLeaf(level, 2 * k + 1) in LevelInputs(level)
    ensures FullLeaf(level, 2 * k) in level
  {
    var next := NextLevel(g, level);
    var q := Place(|next|, k);
    PlaceBelow(|level|, k);
    assert next[q] == Parent(g, level, q);
    assert FullLeaf(level, 2 * k + 1) == RightOf(level, 2 * q);
    assert 0 <= q < (|level| + 1) / 2 && level[2 * q] + RightOf(level, 2 * q) in LevelInputs(level);
  }

  lemma SameBelow(g: Digest, size: nat, a: seq<string>, b: seq<string>, k: nat)
    requires |a| > 1 && |b| > 1 && Sized(a, size) && Sized(b, size)
    requires CollisionFree(g, LevelInputs(a) + LevelInputs(b))
    ensures FullLeaf(NextLevel(g, a), k) == FullLeaf(NextLevel(g, b), k)
            <==> FullLeaf(a, 2 * k) == FullLeaf(b, 2 * k) && FullLeaf(a, 2 * k + 1) == FullLeaf(b, 2 * k + 1)
  {
    LeavesBelow(g, a, k);
    LeavesBelow(g, b, k);
    var x, y := FullLeaf(a, 2 * k), FullLeaf(a, 2 * k + 1);
    var u, v := FullLeaf(b, 2 * k), FullLeaf(b, 2 * k + 1);
    if x + y == u + v {
      SameCut(x, y, u, v);
    }
  }

  /** Lists of digests whose trees are equally high have one root exactly if their full trees have the same leaves. */
  lemma {:induction false} SameRootIff(g: Digest, size: nat, a: seq<string>, b: seq<string>)
    requires a != [] && b != [] && Height(|a|) == Height(|b|) && Sized(a, size) && Sized(b, size)
    requires FixedLength(g, size) && CollisionFree(g, TreeInputs(g, a) + TreeInputs(g, b))
    ensures Root(g, a) == Root(g, b) <==> SameFullTree(a, b)
    decreases |a|
  {
    if |a| == 1 || |b| == 1 {
      OneLeafTrees(g, a, b);
    } else {
      SizedNext(g, size, a);
      SizedNext(g, size, b);
      LevelsHash(g, a);
      LevelsHash(g, b);
      InputsBelow(g, a, b);
      SameRootIff(g, size, NextLevel(g, a), NextLevel(g, b));
      SameFullTreeUp(g, size, a, b);
    }
  }

  lemma OneLeafTrees(g: Digest, a: seq<string>, b: seq<string>)
    requires a != [] && b != [] && Height(|a|) == Height(|b|) && (|a| == 1 || |b| == 1)
    ensures Root(g, a) == Root(g, b) <==> SameFullTree(a, b)
  {
    assert |a| == |b| == 1 && Pow2(Height(|a|)) == 1;
    assert FullLeaf(a, 0) == a[0] && FullLeaf(b, 0) == b[0];
  }

  lemma SameFullTreeUp(g: Digest, size: nat, a: seq<string>, b: seq<string>)
    requires |a| > 1 && |b| > 1 && Sized(a, size) && Sized(b, size)
    requires CollisionFree(g, LevelInputs(a) + LevelInputs(b))
    ensures SameFullTree(a, b) <==> SameFullTree(NextLevel(g, a), NextLevel(g, b))
  {
    var na, nb := NextLevel(g, a), NextLevel(g, b);
    forall k: nat
      ensures FullLeaf(na, k) == FullLeaf(nb, k)
              <==> FullLeaf(a, 2 * k) == FullLeaf(b, 2 * k) && FullLeaf(a, 2 * k + 1) == FullLeaf(b, 2 * k + 1)
    {
      SameBelow(g, size, a, b, k);
    }
    SameFullTreeNext(a, b, na, nb);
  }

  lemma SizedNext(g: Digest, size: nat, leaves: seq<string>)
    requires FixedLength(g, size)
    ensures Sized(NextLevel(g, leaves), size)
  {
    forall x | x in NextLevel(g, leaves) ensures |x| == size {
      var k :| 0 <= k < |NextLevel(g, leaves)| && NextLevel(g, leaves)[k] == x;
      assert x == Parent(g, leaves, k);
    }
  }

  lemma SameFullTreeNext(a: seq<string>, b: seq<string>, na: seq<string>, nb: seq<string>)
    requires |a| > 1 && |b| > 1 && |na| == (|a| + 1) / 2 && nb != []
    requires forall k: nat ::
               FullLeaf(na, k) == FullLeaf(nb, k)
               <==> FullLeaf(a, 2 * k) == FullLeaf(b, 2 * k) && FullLeaf(a, 2 * k + 1) == FullLeaf(b, 2 * k + 1)
    ensures SameFullTree(a, b) <==> SameFullTree(na, nb)
  {
    var half := Pow2(Height(|na|));
    assert Pow2(Height(|a|)) == 2 * half;
    if SameFullTree(na, nb) {
      forall k: nat | k < 2 * half ensures FullLeaf(a, k) == FullLeaf(b, k) {
        var h := k / 2;
        assert FullLeaf(na, h) == FullLeaf(nb, h);
        assert k == 2 * h || k == 2 * h + 1;
      }
    }
    if SameFullTree(a, b) {
      forall k: nat | k < half ensures FullLeaf(na, k) == FullLeaf(nb, k) {
        assert FullLeaf(a, 2 * k) == FullLeaf(b, 2 * k);
        assert FullLeaf(a, 2 * k + 1) == FullLeaf(b, 2 * k + 1);
      }
    }
  }

  // ---------- what a shorter path proves ----------

  /** The nodes `j` levels above the leaves. */
  function Up(g: Digest, leaves: seq<string>, j: nat): seq<string>
  {
    if j == 0 then leaves else NextLevel(g, Up(g, leaves, j - 1))
  }

  /** `above` is a level of the tree over `leaves`, `j` levels up. */
  ghost predicate IsLevel(g: Digest, leaves: seq<string>, above: seq<string>, j: nat)
  {
    && leaves != [] && above != [] && Height(|above|) + j == Height(|leaves|) && Root(g, above) == Root(g, leaves)
    && TreeInputs(g, above) <= TreeInputs(g, leaves)
  }

  lemma LevelAbove(g: Digest, leaves: seq<string>, above: seq<string>, j: nat)
    requires IsLevel(g, leaves, above, j) && j < Height(|leaves|)
    ensures IsLevel(g, leaves, NextLevel(g, above), j + 1)
  {
    LevelsHash(g, above);
  }

  /** A level of the tree, all of its nodes as long as a digest. */
  ghost predicate SizedLevel(g: Digest, size: nat, leaves: seq<string>, above: seq<string>, j: nat)
  {
    IsLevel(g, leaves, above, j) && Sized(above, size)
  }

  lemma SizedLevelAbove(g: Digest, size: nat, leaves: seq<string>, above: seq<string>, j: nat)
    requires FixedLength(g, size) && SizedLevel(g, size, leaves, above, j) && j < Height(|leaves|)
    ensures SizedLevel(g, size, leaves, NextLevel(g, above), j + 1)
  {
    LevelAbove(g, leaves, above, j);
    SizedNext(g, size, above);
  }

  lemma UpFacts(g: Digest, size: nat, leaves: seq<string>, j: nat)
    requires leaves != [] && j <= Height(|leaves|) && FixedLength(g, size) && Sized(leaves, size)
    ensures SizedLevel(g, size, leaves, Up(g, leaves, j), j)
  {
    var above := leaves;
    for k := 0 to j
      invariant above == Up(g, leaves, k) && SizedLevel(g, size, leaves, above, k)
    {
      SizedLevelAbove(g, size, leaves, above, k);
      above := NextLevel(g, above);
    }
  }

  /**
   * VerifyProof never checks the length of a path: what it accepts, if it is as long as a digest, is a node as
   * many levels above the leaves as the path is too short.
   */
  lemma NodeSound(g: Digest, size: nat, leaves: seq<string>, leaf: string, path: seq<Sibling>, j: nat)
    requires leaves != [] && |path| + j == Height(|leaves|) && Climb(g, leaf, path) == Root(g, leaves)
    requires FixedLength(g, size) && Sized(leaves, size)
    requires CollisionFree(g, TreeInputs(g, leaves) + ClimbInputs(g, leaf, path))
    ensures leaf in Up(g, leaves, j) <==> |leaf| == size
  {
    var above := Up(g, leaves, j);
    UpFacts(g, size, leaves, j);
    FewerInputs(g, TreeInputs(g, leaves) + ClimbInputs(g, leaf, path), TreeInputs(g, above) + ClimbInputs(g, leaf, path));
    MembershipSound(g, size, above, leaf, path);
  }
}
