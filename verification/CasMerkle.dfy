/** The second Merkle implementation, over the envelopes of a thread, and its agreement with the first. */
module CasMerkle {
  import opened Collections
  import opened Merkle

  datatype Proof = Proof(
    targetIndex: nat,
    targetHash: string,
    root: string,
    siblings: seq<string>,
    path: seq<string>,
    treeSize: nat)

  datatype ProofError = InvalidTargetIndex(index: int)

  const LEFT := "left"
  const RIGHT := "right"

  /** `"left"` says that the current node is the left child, so its sibling is on the right. */
  function DirectionOf(s: Sibling): string
  {
    if s.1 then LEFT else RIGHT
  }

  /** The climb over `zip(siblings, path)`: it stops at the shorter of the two lists. */
  function ClimbZipped(g: Digest, current: string, siblings: seq<string>, path: seq<string>): string
    decreases |siblings|
  {
    if siblings == [] || path == [] then current
    else
      var parent := if path[0] == LEFT then g(current + siblings[0]) else g(siblings[0] + current);
      ClimbZipped(g, parent, siblings[1..], path[1..])
  }

  method BuildTree(g: Digest, leaves: seq<string>) returns (tree: seq<seq<string>>)
    ensures tree == Levels(g, leaves)
  {
    if leaves == [] {
      return [[]];
    }
    tree := [leaves];
    var currentLevel := leaves;
    ghost var below: seq<seq<string>> := [];
    while |currentLevel| > 1
      invariant tree == below + [currentLevel]
      invariant below + Levels(g, currentLevel) == Levels(g, leaves)
      decreases |currentLevel|
    {
      var nextLevel := HashLevel(g, currentLevel);
      below := below + [currentLevel];
      tree := tree + [nextLevel];
      currentLevel := nextLevel;
    }
  }

  lemma {:induction false} LevelsEndInRoot(g: Digest, leaves: seq<string>)
    ensures Levels(g, leaves) != []
    ensures leaves != [] ==> Levels(g, leaves)[|Levels(g, leaves)| - 1] == [Root(g, leaves)]
    ensures leaves == [] ==> Levels(g, leaves)[|Levels(g, leaves)| - 1] == []
    decreases |leaves|
  {
    if |leaves| > 1 {
      LevelsEndInRoot(g, NextLevel(g, leaves));
    } else if |leaves| == 1 {
      assert leaves == [leaves[0]];
    }
  }

  method GetRoot(g: Digest, tree: seq<seq<string>>, ghost leaves: seq<string>) returns (root: Option<string>)
    requires tree == Levels(g, leaves)
    ensures root == if leaves == [] then None else Some(Root(g, leaves))
  {
    LevelsEndInRoot(g, leaves);
    if tree == [] || tree[|tree| - 1] == [] {
      return None;
    }
    root := Some(tree[|tree| - 1][0]);
  }

  function HashAll(hashEnvelope: string -> string, envelopes: seq<string>): (leaves: seq<string>)
    ensures |leaves| == |envelopes|
    ensures forall i :: 0 <= i < |leaves| ==> leaves[i] == hashEnvelope(envelopes[i])
  {
    seq(|envelopes|, i requires 0 <= i < |envelopes| => hashEnvelope(envelopes[i]))
  }

  /** `siblings` and `path` spell out the sibling list `s` of the first implementation. */
  ghost predicate Spells(siblings: seq<string>, path: seq<string>, s: seq<Sibling>)
  {
    && |siblings| == |path| == |s|
    && forall k :: 0 <= k < |s| ==> siblings[k] == s[k].0 && path[k] == DirectionOf(s[k])
  }

  ghost predicate ProofOf(proof: Proof, g: Digest, leaves: seq<string>, i: nat)
    requires i < |leaves|
  {
    && proof.targetIndex == i && proof.targetHash == leaves[i]
    && proof.root == Root(g, leaves) && proof.treeSize == |leaves|
    && Spells(proof.siblings, proof.path, Path(g, leaves, i))
  }

  /** Hashes and directions read as the first implementation's sibling list. */
  function Zipped(siblings: seq<string>, path: seq<string>): (s: seq<Sibling>)
    requires |siblings| == |path|
    ensures |s| == |siblings|
    ensures forall k :: 0 <= k < |s| ==> s[k] == (siblings[k], path[k] == LEFT)
  {
    seq(|siblings|, k requires 0 <= k < |siblings| => (siblings[k], path[k] == LEFT))
  }

  method BuildProof(g: Digest, hashEnvelope: string -> string, envelopes: seq<string>, targetIndex: int)
    returns (r: Result<Proof, ProofError>)
    ensures r.Err? <==> !(0 <= targetIndex < |envelopes|)
    ensures r.Err? ==> r.error == InvalidTargetIndex(targetIndex)
    ensures r.Ok? ==> ProofOf(r.value, g, HashAll(hashEnvelope, envelopes), targetIndex)
  {
    if targetIndex < 0 || targetIndex >= |envelopes| {
      return Err(InvalidTargetIndex(targetIndex));
    }
    var leaves := HashAll(hashEnvelope, envelopes);
    var tree := BuildTree(g, leaves);
    var root := GetRoot(g, tree, leaves);
    var siblings, path := WalkUp(g, leaves, tree, targetIndex);
    r := Ok(Proof(targetIndex, leaves[targetIndex], root.value, siblings, path, |leaves|));
  }

  /** The walk from the target leaf up to the root. */
  method WalkUp(g: Digest, ghost leaves: seq<string>, tree: seq<seq<string>>, targetIndex: nat)
    returns (siblings: seq<string>, path: seq<string>)
    requires targetIndex < |leaves| && tree == Levels(g, leaves)
    ensures Spells(siblings, path, Path(g, leaves, targetIndex))
  {
    siblings, path := [], [];
    var index := targetIndex;
    ghost var level := leaves;
    ghost var climbed: seq<Sibling> := [];
    for levelIdx := 0 to |tree| - 1
      invariant tree[levelIdx..] == Levels(g, level)
      invariant 0 <= index < |level|
      invariant Spells(siblings, path, climbed)
      invariant climbed + Path(g, level, index) == Path(g, leaves, targetIndex)
    {
      LevelAt(g, tree, levelIdx, level);
      var sibling, isLeft := SiblingAt(tree[levelIdx], index);
      SpellOneMore(siblings, path, climbed, SiblingOf(level, index));
      ClimbOneMore(g, climbed, level, index);
      siblings := siblings + [sibling];
      path := path + [if isLeft then LEFT else RIGHT];
      climbed := climbed + [SiblingOf(level, index)];
      index := index / 2;
      level := NextLevel(g, level);
    }
    assert |Levels(g, level)| == 1;
    assert climbed + [] == climbed;
  }

  lemma SpellOneMore(siblings: seq<string>, path: seq<string>, s: seq<Sibling>, next: Sibling)
    requires Spells(siblings, path, s)
    ensures Spells(siblings + [next.0], path + [DirectionOf(next)], s + [next])
  {
  }

  lemma ClimbOneMore(g: Digest, climbed: seq<Sibling>, level: seq<string>, index: nat)
    requires index < |level| && |level| > 1
    ensures climbed + Path(g, level, index)
            == climbed + [SiblingOf(level, index)] + Path(g, NextLevel(g, level), index / 2)
  {
  }

  /** The sibling's hash, the node's own where there is none, and whether the node is a left child. */
  method SiblingAt(levelNodes: seq<string>, index: nat) returns (sibling: string, isLeft: bool)
    requires index < |levelNodes|
    ensures (sibling, isLeft) == SiblingOf(levelNodes, index)
  {
    var siblingIndex;
    if index % 2 == 0 {
      siblingIndex, isLeft := index + 1, true;
    } else {
      siblingIndex, isLeft := index - 1, false;
    }
    if siblingIndex < |levelNodes| {
      sibling := levelNodes[siblingIndex];
    } else {
      sibling := levelNodes[index];
    }
  }

  method VerifyProof(g: Digest, hashEnvelope: string -> string, root: string, envelope: string, proof: Proof)
    returns (valid: bool)
    ensures valid <==>
              && hashEnvelope(envelope) == proof.targetHash
              && ClimbZipped(g, hashEnvelope(envelope), proof.siblings, proof.path) == root
  {
    var envelopeHash := hashEnvelope(envelope);
    if envelopeHash != proof.targetHash {
      return false;
    }
    var currentHash := envelopeHash;
    var n := if |proof.siblings| < |proof.path| then |proof.siblings| else |proof.path|;
    for i := 0 to n
      invariant ClimbZipped(g, currentHash, proof.siblings[i..], proof.path[i..])
                == ClimbZipped(g, envelopeHash, proof.siblings, proof.path)
    {
      assert proof.siblings[i..][1..] == proof.siblings[i + 1..] && proof.path[i..][1..] == proof.path[i + 1..];
      if proof.path[i] == LEFT {
        currentHash := g(currentHash + proof.siblings[i]);
      } else {
        currentHash := g(proof.siblings[i] + currentHash);
      }
    }
    valid := currentHash == root;
  }

  /** The two verifiers compute the same root from the same siblings and directions. */
  lemma {:induction false} VerifiersAgree(g: Digest, current: string, siblings: seq<string>, path: seq<string>)
    requires |siblings| == |path|
    ensures ClimbZipped(g, current, siblings, path) == Climb(g, current, Zipped(siblings, path))
    decreases |siblings|
  {
    if siblings != [] {
      var s := Zipped(siblings, path);
      assert s[1..] == Zipped(siblings[1..], path[1..]);
      VerifiersAgree(g, Combine(g, current, s[0]), siblings[1..], path[1..]);
    }
  }

  /** Where the ancestor of node `i` stands, `k` levels up. */
  function AncestorOf(i: nat, k: nat): nat
  {
    if k == 0 then i else AncestorOf(i / 2, k - 1)
  }

  lemma {:induction false} SidesMean(g: Digest, leaves: seq<string>, i: nat, k: nat)
    requires i < |leaves| && k < |Path(g, leaves, i)|
    ensures Path(g, leaves, i)[k].1 <==> AncestorOf(i, k) % 2 == 0
    decreases |leaves|
  {
    if k > 0 {
      SidesMean(g, NextLevel(g, leaves), i / 2, k - 1);
    }
  }

  /** A proof's direction is "left" where the node on the way up is a left child, and "right" where it is a right one. */
  lemma DirectionsMean(g: Digest, leaves: seq<string>, i: nat, proof: Proof, k: nat)
    requires i < |leaves| && ProofOf(proof, g, leaves, i) && k < |proof.path|
    ensures proof.path[k] == if AncestorOf(i, k) % 2 == 0 then "left" else "right"
  {
    SidesMean(g, leaves, i, k);
  }

  /** Of lists of unequal length the surplus is ignored. */
  lemma {:induction false} ZipStops(g: Digest, current: string, siblings: seq<string>, path: seq<string>)
    ensures
      var n := if |siblings| < |path| then |siblings| else |path|;
      ClimbZipped(g, current, siblings, path) == Climb(g, current, Zipped(siblings[..n], path[..n]))
    decreases |siblings|
  {
    var n := if |siblings| < |path| then |siblings| else |path|;
    if n > 0 {
      var s := Zipped(siblings[..n], path[..n]);
      ZipStops(g, Combine(g, current, s[0]), siblings[1..], path[1..]);
      assert s[1..] == Zipped(siblings[1..][..n - 1], path[1..][..n - 1]);
    }
  }

  /** Proofs of this implementation verify here, and their siblings verify in the other one. */
  lemma ProofsVerifyInBoth(g: Digest, leaves: seq<string>, i: nat, proof: Proof)
    requires i < |leaves| && ProofOf(proof, g, leaves, i)
    ensures ClimbZipped(g, leaves[i], proof.siblings, proof.path) == Root(g, leaves)
    ensures Accepts(g, leaves[i], MerkleProof(i, leaves[i], Zipped(proof.siblings, proof.path), proof.root), proof.root)
  {
    VerifiersAgree(g, leaves[i], proof.siblings, proof.path);
    Completeness(g, leaves, i);
    assert LEFT[0] != RIGHT[0];
    assert Zipped(proof.siblings, proof.path) == Path(g, leaves, i);
  }

  /** The verifier hashes the envelope itself, so no length is left to choose: a proof for position `i` is the tree's own. */
  lemma EnvelopeSound(g: Digest, size: nat, hashEnvelope: string -> string, envelopes: seq<string>, i: nat,
                      envelope: string, siblings: seq<string>, path: seq<string>)
    requires i < |envelopes| && |siblings| == |path|
    requires FixedLength(g, size) && FixedLength(hashEnvelope, size)
    requires
      var leaves, leaf, s := HashAll(hashEnvelope, envelopes), hashEnvelope(envelope), Zipped(siblings, path);
      && SameSides(s, Path(g, leaves, i)) && ClimbZipped(g, leaf, siblings, path) == Root(g, leaves)
      && CollisionFree(g, TreeInputs(g, leaves) + ClimbInputs(g, leaf, s))
    ensures hashEnvelope(envelope) == hashEnvelope(envelopes[i])
    ensures Zipped(siblings, path) == Path(g, HashAll(hashEnvelope, envelopes), i)
  {
    var leaves := HashAll(hashEnvelope, envelopes);
    VerifiersAgree(g, hashEnvelope(envelope), siblings, path);
    PositionSound(g, size, leaves, i, hashEnvelope(envelope), Zipped(siblings, path));
  }

  /** Whatever directions it claims, a proof as high as the tree is accepted only for an envelope of the thread. */
  lemma EnvelopeMember(g: Digest, size: nat, hashEnvelope: string -> string, envelopes: seq<string>,
                       envelope: string, siblings: seq<string>, path: seq<string>)
    requires envelopes != [] && |siblings| == |path| == Height(|envelopes|)
    requires FixedLength(g, size) && FixedLength(hashEnvelope, size)
    requires
      var leaves, leaf := HashAll(hashEnvelope, envelopes), hashEnvelope(envelope);
      && ClimbZipped(g, leaf, siblings, path) == Root(g, leaves)
      && CollisionFree(g, TreeInputs(g, leaves) + ClimbInputs(g, leaf, Zipped(siblings, path)))
    ensures exists i :: 0 <= i < |envelopes| && hashEnvelope(envelope) == hashEnvelope(envelopes[i])
  {
    var leaves := HashAll(hashEnvelope, envelopes);
    VerifiersAgree(g, hashEnvelope(envelope), siblings, path);
    MembershipSound(g, size, leaves, hashEnvelope(envelope), Zipped(siblings, path));
    var i :| 0 <= i < |leaves| && leaves[i] == hashEnvelope(envelope);
  }

  /** `VerifyEnvelopeInThread`: the envelope at the expected position verifies exactly when it hashes like it. */
  method VerifyEnvelopeInThread(g: Digest, hashEnvelope: string -> string, envelope: string,
                                envelopes: seq<string>, expectedIndex: int)
    returns (valid: bool, proof: Option<Proof>)
    ensures valid <==> 0 <= expectedIndex < |envelopes| && hashEnvelope(envelope) == hashEnvelope(envelopes[expectedIndex])
    ensures proof.Some? <==> 0 <= expectedIndex < |envelopes|
  {
    var r := BuildProof(g, hashEnvelope, envelopes, expectedIndex);
    if r.Err? {
      return false, None;
    }
    ProofsVerifyInBoth(g, HashAll(hashEnvelope, envelopes), expectedIndex, r.value);
    valid := VerifyProof(g, hashEnvelope, r.value.root, envelope, r.value);
    proof := Some(r.value);
  }
}
