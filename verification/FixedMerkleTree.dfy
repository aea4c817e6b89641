/**
 * The fixed merkle tree over 2^d leaves (d is 10 in the blobber), the buffer it is stored in and
 * the single-leaf proofs cut out of that buffer.  All its levels are even until one node is left,
 * so the branch that repeats a lone last node is never taken and levels are those of Next.
 */
module FixedMerkleTree {
  import opened Bytes
  import opened ValidationTree
  import opened ValidationProof
  import opened ValidationBinding

  const FIXED_MT_DEPTH: nat := 11
  const FMT_SIZE: nat := 65472

  /** The bytes of all levels but the root, over 2^d leaves. */
  function NodesSize(d: nat): nat { 32 * (2 * Pow2(d) - 2) }

  lemma BlobberSizes()
    ensures Pow2(FIXED_MT_DEPTH - 1) == FIXED_MERKLE_LEAVES && NodesSize(FIXED_MT_DEPTH - 1) == FMT_SIZE
  {
    assert Pow2(5) == 32;
    assert Pow2(10) == 32 * Pow2(5);
  }

  lemma {:induction false} StoredCountPow2(d: nat)
    ensures StoredCount(Pow2(d)) == 2 * Pow2(d) - 2
  {
    if d > 0 {
      StoredCountPow2(d - 1);
      assert (Pow2(d) + 1) / 2 == Pow2(d - 1);
    }
  }

  /** One level, of even size: its pairs to the buffer, their hashes above. */
  method HashEvenLevel(sha: Hasher, nodes: seq<Digest>, buffer: array<Byte>, bufInd: nat)
    returns (newNodes: seq<Digest>, end: nat)
    requires |nodes| % 2 == 0 && bufInd + 32 * |nodes| <= buffer.Length
    modifies buffer
    ensures end == bufInd + 32 * |nodes|
    ensures buffer[..end] == old(buffer[..bufInd]) + Flat(nodes)
    ensures newNodes == Next(sha, nodes)
  {
    newNodes, end := HashPairs(sha, nodes, |nodes|, buffer, bufInd);
    WholeSlice(nodes);
    WholeSlice(Next(sha, nodes));
  }

  lemma WholeSlice<T>(s: seq<T>)
    ensures s[..|s|] == s
  {}

  /** The loop over the levels, into a buffer of exactly the right size. */
  method StoreLevels(sha: Hasher, leaves: seq<Digest>, d: nat, buffer: array<Byte>) returns (root: Digest)
    requires |leaves| == Pow2(d) && buffer.Length == |StoredNodes(sha, leaves)|
    modifies buffer
    ensures root == Root(sha, leaves) && buffer[..] == StoredNodes(sha, leaves)
  {
    var nodes := leaves;
    var bufLen: nat := 0;
    NothingWritten(sha, buffer[..0], leaves);
    var i := 0;
    while i < d + 1 && |nodes| != 1
      invariant i <= d && |nodes| == Pow2(d - i)
      invariant bufLen <= buffer.Length
      invariant Written(sha, buffer[..bufLen], nodes, leaves)
    {
      Halves(d - i);
      nodes, bufLen := StoreLevel(sha, leaves, nodes, buffer, bufLen);
      i := i + 1;
    }
    AllWritten(sha, buffer[..bufLen], nodes, leaves);
    assert buffer[..bufLen] == buffer[..];
    root := nodes[0];
  }

  lemma NothingWritten(sha: Hasher, done: Bytes, leaves: seq<Digest>)
    requires leaves != [] && done == []
    ensures Written(sha, done, leaves, leaves)
  {
    assert [] + StoredNodes(sha, leaves) == StoredNodes(sha, leaves);
  }

  lemma Halves(k: nat)
    requires Pow2(k) != 1
    ensures k > 0 && Pow2(k) % 2 == 0 && Pow2(k) / 2 == Pow2(k - 1) && Pow2(k) > 1
  {}

  lemma AllWritten(sha: Hasher, done: Bytes, nodes: seq<Digest>, leaves: seq<Digest>)
    requires |nodes| == 1 && leaves != [] && Written(sha, done, nodes, leaves)
    ensures done == StoredNodes(sha, leaves) && nodes[0] == Root(sha, leaves)
  {
    assert done + [] == done;
  }

  /** One turn of the loop. */
  method StoreLevel(sha: Hasher, leaves: seq<Digest>, nodes: seq<Digest>, buffer: array<Byte>, bufLen: nat)
    returns (newNodes: seq<Digest>, end: nat)
    requires leaves != [] && |nodes| > 1 && |nodes| % 2 == 0
    requires bufLen <= buffer.Length == |StoredNodes(sha, leaves)| && Written(sha, buffer[..bufLen], nodes, leaves)
    modifies buffer
    ensures |newNodes| == |nodes| / 2 && end <= buffer.Length && Written(sha, buffer[..end], newNodes, leaves)
  {
    WrittenRound(sha, buffer[..bufLen], nodes, leaves);
    newNodes, end := HashEvenLevel(sha, nodes, buffer, bufLen);
  }

  /** Returns the root and the bytes written to the file: they fill the buffer exactly. */
  method CalculateRootAndStoreNodes(sha: Hasher, leaves: seq<Digest>, d: nat)
    returns (root: Digest, written: Bytes)
    requires |leaves| == Pow2(d)
    ensures root == Root(sha, leaves)
    ensures written == StoredNodes(sha, leaves) && |written| == NodesSize(d)
  {
    StoredLength(sha, leaves);
    StoredCountPow2(d);
    var buffer := new Byte[NodesSize(d)](_ => 0);
    root := StoreLevels(sha, leaves, d, buffer);
    written := buffer[..];
  }

  function SiblingIndex(idx: nat): nat {
    if idx % 2 == 0 then idx + 1 else idx - 1
  }

  /** Byte offsets of the d siblings on the way from leaf idx to the root. */
  function PathOffsets(idx: nat, d: nat, levelOffset: nat, levelNodes: nat): (offsets: seq<nat>)
    ensures |offsets| == d
  {
    if d == 0 then [] else
    var above := PathOffsets(idx / 2, d - 1, levelOffset + levelNodes * 32, levelNodes / 2);
    [SiblingIndex(idx) * 32 + levelOffset] + above
  }

  /** The proof for a leaf of a stored tree over 2^d leaves. */
  function PathOf(data: Bytes, d: nat, idx: nat): seq<Digest>
    requires Fits(data, PathOffsets(idx, d, 0, Pow2(d)))
  {
    SlicesAt(data, PathOffsets(idx, d, 0, Pow2(d)))
  }

  datatype PathError = InvalidTreeSize

  /** GetMerkleProof: b is what the read at the tree's offset returned. */
  method GetMerkleProof(b: Bytes, d: nat, idx: nat) returns (r: Result<seq<Digest>, PathError>)
    requires idx < Pow2(d)
    ensures |b| != NodesSize(d) ==> r == Err(InvalidTreeSize)
    ensures |b| == NodesSize(d) ==> Fits(b, PathOffsets(idx, d, 0, Pow2(d))) && r == Ok(PathOf(b, d, idx))
  {
    if |b| != NodesSize(d) {
      return Err(InvalidTreeSize);
    }
    PathFits(b, idx, d, 0);
    ghost var offsets := PathOffsets(idx, d, 0, Pow2(d));
    var proof: seq<Digest> := [];
    var levelOffset: nat, totalLevelNodes: nat, cur: nat := 0, Pow2(d), idx;
    for i := 0 to d
      invariant |proof| == i && proof == SlicesAt(b, offsets)[..i]
      invariant offsets[i..] == PathOffsets(cur, d - i, levelOffset, totalLevelNodes)
    {
      var offset: nat;
      if cur % 2 == 0 {
        offset := (cur + 1) * 32 + levelOffset;
      } else {
        offset := (cur - 1) * 32 + levelOffset;
      }
      assert offsets[i..][0] == offset == offsets[i];
      assert offsets[i..][1..] == offsets[i + 1..];
      proof := proof + [b[offset..offset + 32]];
      levelOffset := levelOffset + totalLevelNodes * 32;
      totalLevelNodes := totalLevelNodes / 2;
      cur := cur / 2;
    }
    assert proof == SlicesAt(b, offsets);
    r := Ok(proof);
  }

  lemma {:induction false} PathFits(data: Bytes, idx: nat, d: nat, levelOffset: nat)
    requires idx < Pow2(d) && |data| == levelOffset + NodesSize(d)
    ensures Fits(data, PathOffsets(idx, d, levelOffset, Pow2(d)))
  {
    if d > 0 {
      PathFits(data, idx / 2, d - 1, levelOffset + Pow2(d) * 32);
      var first := [SiblingIndex(idx) * 32 + levelOffset];
      assert Fits(data, first) by {
        assert SiblingIndex(idx) < Pow2(d);
      }
      FitsSplit(data, first, PathOffsets(idx / 2, d - 1, levelOffset + Pow2(d) * 32, Pow2(d - 1)));
    }
  }

  /** The verifier: the hash at hand goes left of its sibling at an even index, right of it at an odd one. */
  function FoldPath(sha: Hasher, idx: nat, h: Digest, path: seq<Digest>): Digest
    decreases |path|
  {
    if path == [] then h else FoldPath(sha, idx / 2, sha(Join(idx, h, path[0])), path[1..])
  }

  function Join(idx: nat, h: Bytes, sibling: Bytes): Bytes {
    if idx % 2 == 0 then h + sibling else sibling + h
  }

  /** The nodes beside the way from leaf idx to the root. */
  function Siblings(sha: Hasher, level: seq<Digest>, d: nat, idx: nat): (path: seq<Digest>)
    requires |level| == Pow2(d) && idx < |level|
    ensures |path| == d
    decreases d
  {
    if d == 0 then [] else [level[SiblingIndex(idx)]] + Siblings(sha, Next(sha, level), d - 1, idx / 2)
  }

  lemma JoinIsPreimage(level: seq<Digest>, idx: nat)
    requires |level| % 2 == 0 && idx < |level|
    ensures Join(idx, level[idx], level[SiblingIndex(idx)]) == Preimage(level, idx / 2)
  {
  }

  lemma {:induction false} SiblingsFold(sha: Hasher, level: seq<Digest>, d: nat, idx: nat)
    requires |level| == Pow2(d) && idx < |level|
    ensures FoldPath(sha, idx, level[idx], Siblings(sha, level, d, idx)) == Root(sha, level)
    decreases d
  {
    if d > 0 {
      var up, path := Next(sha, level), Siblings(sha, level, d, idx);
      JoinIsPreimage(level, idx);
      assert up[idx / 2] == sha(Preimage(level, idx / 2));
      assert path[1..] == Siblings(sha, up, d - 1, idx / 2);
      SiblingsFold(sha, up, d - 1, idx / 2);
    }
  }

  lemma {:induction false} SlicesAreSiblings(
      sha: Hasher, data: Bytes, below: Bytes, total: nat, level: seq<Digest>, d: nat, idx: nat)
    requires |level| == Pow2(d) && idx < |level|
    requires data == below + StoredNodes(sha, level) && |below| == 32 * total
    ensures Fits(data, PathOffsets(idx, d, 32 * total, Pow2(d)))
    ensures SlicesAt(data, PathOffsets(idx, d, 32 * total, Pow2(d))) == Siblings(sha, level, d, idx)
    decreases d
  {
    if d > 0 {
      var up, n, sib := Next(sha, level), |level|, SiblingIndex(idx);
      StoredNodesAt(sha, data, below, total, level);
      StoredAbove(sha, data, below, level);
      SlicesAreSiblings(sha, data, below + Flat(level), total + n, up, d - 1, idx / 2);
      var rest := PathOffsets(idx / 2, d - 1, 32 * (total + n), Pow2(d - 1));
      PathOffsetsStep(idx, d, total);
      SliceOfSibling(data, total, level, sib);
      SlicesConcat(data, [NodeOffset(total, sib)], rest);
    }
  }

  lemma PathOffsetsStep(idx: nat, d: nat, total: nat)
    requires d > 0
    ensures PathOffsets(idx, d, 32 * total, Pow2(d))
         == [NodeOffset(total, SiblingIndex(idx))] + PathOffsets(idx / 2, d - 1, 32 * (total + Pow2(d)), Pow2(d - 1))
  {
    assert Pow2(d) / 2 == Pow2(d - 1) && 32 * total + Pow2(d) * 32 == 32 * (total + Pow2(d));
  }

  lemma SliceOfSibling(data: Bytes, total: nat, level: seq<Digest>, i: nat)
    requires StoredAt(data, total, level) && i < |level|
    ensures Fits(data, [NodeOffset(total, i)]) && SlicesAt(data, [NodeOffset(total, i)]) == [level[i]]
  {}

  lemma SlicesConcat(data: Bytes, a: seq<nat>, b: seq<nat>)
    requires Fits(data, a) && Fits(data, b)
    ensures Fits(data, a + b) && SlicesAt(data, a + b) == SlicesAt(data, a) + SlicesAt(data, b)
  {
    FitsSplit(data, a, b);
  }

  /** Every proof cut out of the stored buffer verifies against the stored root. */
  lemma LeafProofVerifies(sha: Hasher, leaves: seq<Digest>, d: nat, idx: nat)
    requires |leaves| == Pow2(d) && idx < |leaves|
    ensures var data := StoredNodes(sha, leaves);
            && Fits(data, PathOffsets(idx, d, 0, Pow2(d)))
            && FoldPath(sha, idx, leaves[idx], PathOf(data, d, idx)) == Root(sha, leaves)
  {
    var data := StoredNodes(sha, leaves);
    assert data == [] + data;
    SlicesAreSiblings(sha, data, [], 0, leaves, d, idx);
    SiblingsFold(sha, leaves, d, idx);
  }

  ghost function PathInputs(sha: Hasher, idx: nat, h: Digest, path: seq<Digest>): set<Bytes>
    decreases |path|
  {
    if path == [] then {}
    else {Join(idx, h, path[0])} + PathInputs(sha, idx / 2, sha(Join(idx, h, path[0])), path[1..])
  }

  /** Folding the path with this hash gives the root of this level. */
  ghost predicate PathFoldsTo(sha: Hasher, idx: nat, h: Digest, path: seq<Digest>, level: seq<Digest>)
    requires level != []
  {
    FoldPath(sha, idx, h, path) == Root(sha, level)
  }

  /** All strings hashed while folding the path, and while computing the root, are among these. */
  ghost predicate PathHashed(
      sha: Hasher, idx: nat, h: Digest, path: seq<Digest>, level: seq<Digest>, strings: set<Bytes>)
  {
    PathInputs(sha, idx, h, path) <= strings && TreeInputs(sha, level) <= strings
  }

  /** Whatever path a blobber answers with: if it folds to the root, it proves the genuine leaf. */
  lemma {:induction false} VerifiedLeafIsGenuine(
      sha: Hasher, level: seq<Digest>, d: nat, idx: nat, h: Digest, path: seq<Digest>, strings: set<Bytes>)
    requires |level| == Pow2(d) && idx < |level| && |path| == d
    requires PathFoldsTo(sha, idx, h, path, level) && PathHashed(sha, idx, h, path, level, strings)
    requires CollisionFree(sha, strings)
    ensures h == level[idx] && path == Siblings(sha, level, d, idx)
    decreases d
  {
    if d > 0 {
      var x := Join(idx, h, path[0]);
      FoldsAbove(sha, level, d, idx, h, path, strings);
      VerifiedLeafIsGenuine(sha, Next(sha, level), d - 1, idx / 2, sha(x), path[1..], strings);
      GenuinePair(sha, level, idx, h, path[0], strings);
      assert path == [path[0]] + path[1..];
    }
  }

  /** The rest of the path is one for the hash above it, in the tree above. */
  lemma FoldsAbove(
      sha: Hasher, level: seq<Digest>, d: nat, idx: nat, h: Digest, path: seq<Digest>, strings: set<Bytes>)
    requires d > 0 && |level| == Pow2(d) && idx < |level| && |path| == d
    requires PathFoldsTo(sha, idx, h, path, level) && PathHashed(sha, idx, h, path, level, strings)
    ensures var up, x := Next(sha, level), Join(idx, h, path[0]);
            && |up| == Pow2(d - 1) && idx / 2 < |up| && |level| % 2 == 0
            && PathFoldsTo(sha, idx / 2, sha(x), path[1..], up)
            && PathHashed(sha, idx / 2, sha(x), path[1..], up, strings)
            && x in strings && LevelInputs(level) <= strings
  {
    TreeInputsStep(sha, level, strings);
    LevelAbove(sha, level, d);
    PathStep(sha, idx, h, path);
  }

  lemma LevelAbove(sha: Hasher, level: seq<Digest>, d: nat)
    requires d > 0 && |level| == Pow2(d)
    ensures |level| == 2 * Pow2(d - 1) && |Next(sha, level)| == Pow2(d - 1)
    ensures Root(sha, Next(sha, level)) == Root(sha, level)
  {}

  lemma PathStep(sha: Hasher, idx: nat, h: Digest, path: seq<Digest>)
    requires path != []
    ensures var x := Join(idx, h, path[0]);
            && FoldPath(sha, idx, h, path) == FoldPath(sha, idx / 2, sha(x), path[1..])
            && PathInputs(sha, idx, h, path) == {x} + PathInputs(sha, idx / 2, sha(x), path[1..])
  {}

  lemma GenuinePair(sha: Hasher, level: seq<Digest>, idx: nat, h: Digest, sibling: Digest, strings: set<Bytes>)
    requires |level| % 2 == 0 && idx < |level| && sha(Join(idx, h, sibling)) == Next(sha, level)[idx / 2]
    requires Join(idx, h, sibling) in strings && LevelInputs(level) <= strings && CollisionFree(sha, strings)
    ensures h == level[idx] && sibling == level[SiblingIndex(idx)]
  {
    assert Preimage(level, idx / 2) in LevelInputs(level);
    JoinIsPreimage(level, idx);
    JoinSplits(idx, h, sibling, level[idx], level[SiblingIndex(idx)]);
  }

  lemma JoinSplits(idx: nat, h: Digest, s: Digest, h': Digest, s': Digest)
    requires Join(idx, h, s) == Join(idx, h', s')
    ensures h == h' && s == s'
  {
    var x, y := Join(idx, h, s), Join(idx, h', s');
    assert x[..32] == y[..32] && x[32..] == y[32..];
    if idx % 2 == 0 {
      assert x[..32] == h && x[32..] == s && y[..32] == h' && y[32..] == s';
    } else {
      assert x[..32] == s && x[32..] == h && y[..32] == s' && y[32..] == h';
    }
  }
}
