/**
 * Proofs for a range of leaves of the validation tree: which nodes are picked, at which byte
 * offsets they are read back, and why they fold to the root that was returned on writing.
 */
module ValidationProof {
  import opened Bytes
  import opened ValidationTree

  datatype Side = Left | Right

  datatype ProofError = NegativeIndex | EndBeforeStart | SliceOutOfBounds

  datatype RangeProof = RangeProof(nodes: seq<seq<Digest>>, sides: seq<seq<Side>>)

  predicate WellShaped(p: RangeProof) {
    |p.nodes| == |p.sides| && forall i :: 0 <= i < |p.sides| ==> |p.nodes[i]| == |p.sides[i]|
  }

  // ---------- the nodes picked at each level ----------

  function LevelIndexes(n: nat, s: nat, e: nat): seq<nat> {
    (if s % 2 == 1 then [s - 1] else []) + (if e != n - 1 && e % 2 == 0 then [e + 1] else [])
  }

  function LevelSides(n: nat, s: nat, e: nat): (sides: seq<Side>)
    ensures |sides| == |LevelIndexes(n, s, e)|
  {
    (if s % 2 == 1 then [Left] else []) + (if e != n - 1 && e % 2 == 0 then [Right] else [])
  }

  function PlanIndexes(n: nat, depth: nat, s: nat, e: nat): seq<seq<nat>> {
    if depth == 0 || (s == 0 && e == n - 1) then []
    else [LevelIndexes(n, s, e)] + PlanIndexes((n + 1) / 2, depth - 1, s / 2, e / 2)
  }

  function PlanSides(n: nat, depth: nat, s: nat, e: nat): (sides: seq<seq<Side>>)
  {
    if depth == 0 || (s == 0 && e == n - 1) then []
    else [LevelSides(n, s, e)] + PlanSides((n + 1) / 2, depth - 1, s / 2, e / 2)
  }

  /** Byte offsets of the picked nodes, when `total` nodes are stored below a level of n nodes. */
  function OffsetsFrom(total: nat, n: nat, indexes: seq<seq<nat>>): seq<nat>
    decreases |indexes|
  {
    if indexes == [] then []
    else LevelOffsets(total, indexes[0]) + OffsetsFrom(total + n, (n + 1) / 2, indexes[1..])
  }

  function LevelOffsets(total: nat, indexes: seq<nat>): seq<nat> {
    seq(|indexes|, k requires 0 <= k < |indexes| => NodeOffset(total, indexes[k]))
  }

  function NodeOffset(total: nat, i: nat): nat { (i + total) * 32 }

  /** The two tests in the body of getNodeIndexes' loop. */
  method PickNodes(totalNodes: nat, s: nat, e: nat) returns (nodeOffsets: seq<nat>, lftRtInd: seq<Side>)
    ensures nodeOffsets == LevelIndexes(totalNodes, s, e)
    ensures lftRtInd == LevelSides(totalNodes, s, e)
    ensures |nodeOffsets| == |lftRtInd|
    ensures forall k :: 0 <= k < |lftRtInd| ==>
              nodeOffsets[k] == match lftRtInd[k] case Left => s - 1 case Right => e + 1
  {
    nodeOffsets, lftRtInd := [], [];
    if s % 2 == 1 {
      nodeOffsets := nodeOffsets + [s - 1];
      lftRtInd := lftRtInd + [Left];
    }
    if e + 1 != totalNodes && e % 2 == 0 {
      nodeOffsets := nodeOffsets + [e + 1];
      lftRtInd := lftRtInd + [Right];
    }
  }

  /** getNodeIndexes */
  method GetNodeIndexes(totalLeaves: nat, depth: nat, startInd: nat, endInd: nat)
    returns (indexes: seq<seq<nat>>, leftRightIndexes: seq<seq<Side>>)
    ensures indexes == PlanIndexes(totalLeaves, depth, startInd, endInd)
    ensures leftRightIndexes == PlanSides(totalLeaves, depth, startInd, endInd)
  {
    indexes, leftRightIndexes := [], [];
    var s, e, totalNodes := startInd, endInd, totalLeaves;
    var i := depth;
    while i > 0 && !(s == 0 && e + 1 == totalNodes)
      invariant 0 <= i <= depth
      invariant indexes + PlanIndexes(totalNodes, i, s, e)
             == PlanIndexes(totalLeaves, depth, startInd, endInd)
      invariant leftRightIndexes + PlanSides(totalNodes, i, s, e)
             == PlanSides(totalLeaves, depth, startInd, endInd)
    {
      var nodeOffsets, lftRtInd := PickNodes(totalNodes, s, e);
      Assoc(indexes, [nodeOffsets], PlanIndexes((totalNodes + 1) / 2, i - 1, s / 2, e / 2));
      Assoc(leftRightIndexes, [lftRtInd], PlanSides((totalNodes + 1) / 2, i - 1, s / 2, e / 2));
      indexes := indexes + [nodeOffsets];
      leftRightIndexes := leftRightIndexes + [lftRtInd];
      s, e, totalNodes, i := s / 2, e / 2, (totalNodes + 1) / 2, i - 1;
    }
  }

  method GetLevelOffsets(totalNodes: nat, indexes: seq<nat>) returns (offsets: seq<nat>)
    ensures offsets == LevelOffsets(totalNodes, indexes)
  {
    offsets := [];
    for k := 0 to |indexes|
      invariant offsets == LevelOffsets(totalNodes, indexes)[..k]
    {
      offsets := offsets + [(indexes[k] + totalNodes) * 32];
    }
  }

  lemma OffsetsStep(total: nat, n: nat, indexes: seq<seq<nat>>, i: nat)
    requires i < |indexes|
    ensures OffsetsFrom(total, n, indexes[i..])
         == LevelOffsets(total, indexes[i]) + OffsetsFrom(total + n, (n + 1) / 2, indexes[i + 1..])
  {
    TailOfTail(indexes, i);
  }

  lemma TailOfTail<T>(s: seq<T>, i: nat)
    requires i < |s|
    ensures s[i..] != [] && s[i..][0] == s[i] && s[i..][1..] == s[i + 1..]
  {}

  /** getFileOffsetsAndNodeIndexes */
  method GetFileOffsetsAndNodeIndexes(totalLeaves: nat, depth: nat, startInd: nat, endInd: nat)
    returns (offsets: seq<nat>, leftRightIndexes: seq<seq<Side>>)
    ensures offsets == OffsetsFrom(0, totalLeaves, PlanIndexes(totalLeaves, depth, startInd, endInd))
    ensures leftRightIndexes == PlanSides(totalLeaves, depth, startInd, endInd)
  {
    var nodeIndexes;
    nodeIndexes, leftRightIndexes := GetNodeIndexes(totalLeaves, depth, startInd, endInd);
    offsets := [];
    var totalNodes: nat, curNodesTot: nat := 0, totalLeaves;
    var i := 0;
    while i < |nodeIndexes|
      invariant i <= |nodeIndexes|
      invariant offsets + OffsetsFrom(totalNodes, curNodesTot, nodeIndexes[i..])
             == OffsetsFrom(0, totalLeaves, nodeIndexes)
    {
      var level := GetLevelOffsets(totalNodes, nodeIndexes[i]);
      OffsetsStep(totalNodes, curNodesTot, nodeIndexes, i);
      Assoc(offsets, level, OffsetsFrom(totalNodes + curNodesTot, (curNodesTot + 1) / 2, nodeIndexes[i + 1..]));
      offsets := offsets + level;
      totalNodes := totalNodes + curNodesTot;
      curNodesTot := (curNodesTot + 1) / 2;
      i := i + 1;
    }
  }

  // ---------- reading the nodes back ----------

  predicate Fits(data: Bytes, offsets: seq<nat>) {
    forall k :: 0 <= k < |offsets| ==> offsets[k] + 32 <= |data|
  }

  function Total(sides: seq<seq<Side>>): nat {
    if sides == [] then 0 else |sides[0]| + Total(sides[1..])
  }

  function SlicesAt(data: Bytes, offsets: seq<nat>): (nodes: seq<Digest>)
    requires Fits(data, offsets)
    ensures |nodes| == |offsets|
  {
    seq<Digest>(|offsets|, k requires 0 <= k < |offsets| => data[offsets[k]..offsets[k] + 32])
  }

  /** The slices cut at the offsets, grouped by level as the side tags are. */
  function TakeNodes(data: Bytes, offsets: seq<nat>, sides: seq<seq<Side>>): (nodes: seq<seq<Digest>>)
    requires Fits(data, offsets) && |offsets| == Total(sides)
    ensures |nodes| == |sides|
    ensures forall i :: 0 <= i < |sides| ==> |nodes[i]| == |sides[i]|
  {
    if sides == [] then []
    else [SlicesAt(data, offsets[..|sides[0]|])] + TakeNodes(data, offsets[|sides[0]|..], sides[1..])
  }

  method ReadLevel(data: Bytes, offsets: seq<nat>) returns (ok: bool, hashes: seq<Digest>)
    ensures ok <==> Fits(data, offsets)
    ensures ok ==> hashes == SlicesAt(data, offsets)
  {
    ok, hashes := true, [];
    var k := 0;
    while k < |offsets|
      invariant k <= |offsets| && |hashes| == k
      invariant forall j :: 0 <= j < k ==> offsets[j] + 32 <= |data| && hashes[j] == data[offsets[j]..offsets[j] + 32]
    {
      if offsets[k] + 32 > |data| {
        return false, [];
      }
      hashes := hashes + [data[offsets[k]..offsets[k] + 32]];
      k := k + 1;
    }
  }

  lemma TakeNodesSplit(data: Bytes, first: seq<nat>, rest: seq<nat>, sides: seq<seq<Side>>)
    requires sides != [] && |first| == |sides[0]| && |rest| == Total(sides[1..])
    requires Fits(data, first) && Fits(data, rest)
    ensures Fits(data, first + rest)
    ensures TakeNodes(data, first + rest, sides) == [SlicesAt(data, first)] + TakeNodes(data, rest, sides[1..])
  {
    assert (first + rest)[..|first|] == first;
    assert (first + rest)[|first|..] == rest;
  }

  /** The groups read so far, followed by the groups still to read, are the whole answer. */
  ghost predicate ReadSoFar(data: Bytes, offsets: seq<nat>, sides: seq<seq<Side>>,
                            done: seq<seq<Digest>>, offsetsLeft: seq<nat>, sidesLeft: seq<seq<Side>>)
    requires |offsets| == Total(sides) && |offsetsLeft| == Total(sidesLeft)
  {
    && (Fits(data, offsetsLeft) <==> Fits(data, offsets))
    && (Fits(data, offsets) ==>
          done + TakeNodes(data, offsetsLeft, sidesLeft) == TakeNodes(data, offsets, sides))
  }

  lemma ReadOneMore(data: Bytes, offsets: seq<nat>, sides: seq<seq<Side>>,
                    done: seq<seq<Digest>>, wanted: seq<nat>, rest: seq<nat>, sidesLeft: seq<seq<Side>>)
    requires sidesLeft != [] && |wanted| == |sidesLeft[0]| && |rest| == Total(sidesLeft[1..])
    requires |offsets| == Total(sides)
    requires ReadSoFar(data, offsets, sides, done, wanted + rest, sidesLeft)
    requires Fits(data, wanted)
    ensures ReadSoFar(data, offsets, sides, done + [SlicesAt(data, wanted)], rest, sidesLeft[1..])
  {
    FitsSplit(data, wanted, rest);
    if Fits(data, offsets) {
      TakeNodesSplit(data, wanted, rest, sidesLeft);
      var tail := TakeNodes(data, rest, sidesLeft[1..]);
      assert done + ([SlicesAt(data, wanted)] + tail) == (done + [SlicesAt(data, wanted)]) + tail;
    }
  }

  /** The slicing loop at the end of getMerkleProofOfMultipleIndexes. */
  method ReadNodes(data: Bytes, offsets: seq<nat>, sides: seq<seq<Side>>)
    returns (ok: bool, nodeHashes: seq<seq<Digest>>)
    requires |offsets| == Total(sides)
    ensures ok <==> Fits(data, offsets)
    ensures ok ==> nodeHashes == TakeNodes(data, offsets, sides)
  {
    nodeHashes := [];
    var offsetInd: nat, i: nat := 0, 0;
    assert offsets[0..] == offsets && sides[0..] == sides;
    while i < |sides|
      invariant i <= |sides| && offsetInd <= |offsets|
      invariant |offsets[offsetInd..]| == Total(sides[i..])
      invariant ReadSoFar(data, offsets, sides, nodeHashes, offsets[offsetInd..], sides[i..])
    {
      ghost var sidesLeft := sides[i..];
      assert sidesLeft[0] == sides[i] && sidesLeft[1..] == sides[i + 1..];
      var next := offsetInd + |sides[i]|;
      var wanted := offsets[offsetInd..next];
      ghost var rest := offsets[next..];
      assert offsets[offsetInd..] == wanted + rest;
      FitsSplit(data, wanted, rest);
      var fit, hashes := ReadLevel(data, wanted);
      if !fit {
        return false, [];
      }
      ReadOneMore(data, offsets, sides, nodeHashes, wanted, rest, sidesLeft);
      nodeHashes := nodeHashes + [hashes];
      offsetInd, i := next, i + 1;
    }
    assert Fits(data, offsets[offsetInd..]);
    ok := true;
  }

  lemma FitsSplit(data: Bytes, a: seq<nat>, b: seq<nat>)
    ensures Fits(data, a + b) <==> Fits(data, a) && Fits(data, b)
  {
    if Fits(data, a + b) {
      assert forall k :: 0 <= k < |a| ==> a[k] == (a + b)[k];
      assert forall k :: 0 <= k < |b| ==> b[k] == (a + b)[|a| + k];
    }
  }

  lemma {:induction false} PlanAligned(total: nat, n: nat, depth: nat, s: nat, e: nat)
    ensures |OffsetsFrom(total, n, PlanIndexes(n, depth, s, e))| == Total(PlanSides(n, depth, s, e))
    ensures |PlanIndexes(n, depth, s, e)| == |PlanSides(n, depth, s, e)|
    decreases depth
  {
    if depth > 0 && !(s == 0 && e == n - 1) {
      var idx, sides := PlanIndexes(n, depth, s, e), PlanSides(n, depth, s, e);
      assert idx[1..] == PlanIndexes((n + 1) / 2, depth - 1, s / 2, e / 2);
      assert sides[1..] == PlanSides((n + 1) / 2, depth - 1, s / 2, e / 2);
      PlanAligned(total + n, (n + 1) / 2, depth - 1, s / 2, e / 2);
    }
  }

  function PlanOffsets(total: nat, n: nat, depth: nat, s: nat, e: nat): seq<nat> {
    OffsetsFrom(total, n, PlanIndexes(n, depth, s, e))
  }

  /** The nodes read for a level of n nodes and all levels above it. */
  function Planned(data: Bytes, total: nat, n: nat, depth: nat, s: nat, e: nat): (p: RangeProof)
    requires Fits(data, PlanOffsets(total, n, depth, s, e))
    ensures WellShaped(p)
  {
    PlanAligned(total, n, depth, s, e);
    var sides := PlanSides(n, depth, s, e);
    RangeProof(TakeNodes(data, PlanOffsets(total, n, depth, s, e), sides), sides)
  }

  /** The end index after the clamp: an end equal to the number of leaves is let through. */
  function Clamp(endInd: int, totalLeaves: nat): int {
    if endInd > totalLeaves then totalLeaves - 1 else endInd
  }

  /** The answer to a range request, over the stored nodes of a file with n leaves. */
  function ProofOf(nodesData: Bytes, n: nat, s: nat, e: nat): Result<RangeProof, ProofError> {
    if Fits(nodesData, PlanOffsets(0, n, Depth(n), s, e)) then Ok(Planned(nodesData, 0, n, Depth(n), s, e))
    else Err(SliceOutOfBounds)
  }

  /** getMerkleProofOfMultipleIndexes, with the slice bounds panic as an error. */
  method GetMerkleProofOfMultipleIndexes(nodesData: Bytes, dataSize: nat, startInd: int, endInd: int)
    returns (r: Result<RangeProof, ProofError>)
    requires dataSize > 0
    ensures startInd < 0 || endInd < 0 ==> r == Err(NegativeIndex)
    ensures r == Err(NegativeIndex) ==> startInd < 0 || endInd < 0
    ensures startInd >= 0 && endInd >= 0 ==>
              (r == Err(EndBeforeStart) <==>
               endInd < startInd || (endInd > Leaves(dataSize) && startInd >= Leaves(dataSize)))
    ensures 0 <= startInd <= Clamp(endInd, Leaves(dataSize)) && endInd >= 0 ==>
              r == ProofOf(nodesData, Leaves(dataSize), startInd, Clamp(endInd, Leaves(dataSize)))
  {
    if startInd < 0 || endInd < 0 {
      return Err(NegativeIndex);
    }
    var totalLeaves := Leaves(dataSize);
    var end := endInd;
    if end > totalLeaves {
      end := totalLeaves - 1;
    }
    if end < startInd {
      return Err(EndBeforeStart);
    }
    var depth := Depth(totalLeaves);
    var offsets, sides := GetFileOffsetsAndNodeIndexes(totalLeaves, depth, startInd, end);
    PlanAligned(0, totalLeaves, depth, startInd, end);
    var ok, nodeHashes := ReadNodes(nodesData, offsets, sides);
    r := if ok then Ok(RangeProof(nodeHashes, sides)) else Err(SliceOutOfBounds);
  }

  // ---------- the verifier, as a specification ----------

  /** Left nodes are put before the hashes at hand, Right nodes after them. */
  function Extend<T>(cur: seq<T>, nodes: seq<T>, sides: seq<Side>): (all: seq<T>)
    requires |nodes| == |sides|
    ensures |all| == |cur| + |nodes|
    decreases |nodes|
  {
    if sides == [] then cur
    else Extend(if sides[0] == Left then [nodes[0]] + cur else cur + [nodes[0]], nodes[1..], sides[1..])
  }

  function Fold(sha: Hasher, cur: seq<Digest>, p: RangeProof): Digest
    requires cur != [] && WellShaped(p)
    decreases |p.sides|
  {
    if p.sides == [] then Root(sha, cur)
    else Fold(sha, Next(sha, Extend(cur, p.nodes[0], p.sides[0])), RangeProof(p.nodes[1..], p.sides[1..]))
  }

  // ---------- the range after the picked nodes are added ----------

  function Low(s: nat): (lo: nat)
    ensures lo % 2 == 0 && lo / 2 == s / 2 && lo <= s
  {
    s - s % 2
  }

  function High(n: nat, e: nat): (hi: nat)
    requires e < n
    ensures e <= hi < n && hi / 2 == e / 2 && (hi % 2 == 1 || hi == n - 1)
  {
    if e != n - 1 && e % 2 == 0 then e + 1 else e
  }

  lemma ExtendBoth<T>(cur: seq<T>, a: T, b: T)
    ensures Extend(cur, [a, b], [Left, Right]) == [a] + cur + [b]
    ensures Extend(cur, [a], [Left]) == [a] + cur
    ensures Extend(cur, [a], [Right]) == cur + [a]
  {
    assert [a, b][1..] == [b] && [Left, Right][1..] == [Right];
    assert [a][1..] == [] && [b][1..] == [] && [Left][1..] == [] && [Right][1..] == [];
    assert Extend([a] + cur, [b], [Right]) == Extend([a] + cur + [b], [b][1..], [Right][1..]);
  }

  /** At most one node is put on each side of the hashes at hand. */
  lemma ExtendShape<T>(cur: seq<T>, nodes: seq<T>, n: nat, s: nat, e: nat)
    requires |nodes| == |LevelSides(n, s, e)|
    ensures Extend(cur, nodes, LevelSides(n, s, e))
         == (if s % 2 == 1 then [nodes[0]] else []) + cur
          + (if e != n - 1 && e % 2 == 0 then [nodes[|nodes| - 1]] else [])
  {
    if |nodes| == 2 {
      assert nodes == [nodes[0], nodes[1]];
      ExtendBoth(cur, nodes[0], nodes[1]);
    } else if |nodes| == 1 {
      assert nodes == [nodes[0]];
      ExtendBoth(cur, nodes[0], nodes[0]);
    }
  }

  /** The nodes of this level that LevelIndexes picks. */
  ghost predicate Picked<T>(level: seq<T>, nodes: seq<T>, s: nat, e: nat) {
    && |nodes| == |LevelIndexes(|level|, s, e)|
    && (s % 2 == 1 ==> s - 1 < |level| && nodes[0] == level[s - 1])
    && (e != |level| - 1 && e % 2 == 0 ==> e + 1 < |level| && nodes[|nodes| - 1] == level[e + 1])
  }

  lemma ExtendFillsRange<T>(level: seq<T>, nodes: seq<T>, s: nat, e: nat)
    requires s <= e < |level| && Picked(level, nodes, s, e)
    ensures Extend(level[s..e + 1], nodes, LevelSides(|level|, s, e)) == level[Low(s)..High(|level|, e) + 1]
  {
    var lo, hi := Low(s), High(|level|, e);
    var left := if s % 2 == 1 then [nodes[0]] else [];
    var right := if e != |level| - 1 && e % 2 == 0 then [nodes[|nodes| - 1]] else [];
    assert left == level[lo..s];
    assert right == level[e + 1..hi + 1];
    ThreeSlices(level, lo, s, e + 1, hi + 1);
    ExtendShape(level[s..e + 1], nodes, |level|, s, e);
  }

  lemma ThreeSlices<T>(level: seq<T>, a: nat, b: nat, c: nat, d: nat)
    requires a <= b <= c <= d <= |level|
    ensures level[a..b] + level[b..c] + level[c..d] == level[a..d]
  {
  }

  /** A range that starts even and ends odd, or at the last node, has as parents a range of the parents. */
  lemma PreimageOfRange(level: seq<Digest>, lo: nat, hi: nat, k: nat)
    requires lo <= hi < |level| && lo % 2 == 0 && (hi % 2 == 1 || hi == |level| - 1)
    requires k < (hi - lo + 2) / 2
    ensures Preimage(level[lo..hi + 1], k) == Preimage(level, lo / 2 + k)
  {
    assert 2 * (lo / 2 + k) == lo + 2 * k;
  }

  lemma NextOfRange(sha: Hasher, level: seq<Digest>, lo: nat, hi: nat)
    requires lo <= hi < |level| && lo % 2 == 0 && (hi % 2 == 1 || hi == |level| - 1)
    ensures Next(sha, level[lo..hi + 1]) == Next(sha, level)[lo / 2..hi / 2 + 1]
  {
    var up, want := Next(sha, level[lo..hi + 1]), Next(sha, level)[lo / 2..hi / 2 + 1];
    assert |up| == |want|;
    forall k | 0 <= k < |up| ensures up[k] == want[k] {
      PreimageOfRange(level, lo, hi, k);
    }
  }

  // ---------- main results ----------

  /** Node i of this level is the 32 bytes at its offset. */
  ghost predicate StoredAt(data: Bytes, total: nat, level: seq<Digest>) {
    forall i :: 0 <= i < |level| ==>
      NodeOffset(total, i) + 32 <= |data| && data[NodeOffset(total, i)..NodeOffset(total, i) + 32] == level[i]
  }

  lemma LevelIsStoredAt(data: Bytes, below: Bytes, total: nat, level: seq<Digest>, above: Bytes)
    requires data == below + (Flat(level) + above) && |below| == 32 * total
    ensures StoredAt(data, total, level)
  {
    forall i | 0 <= i < |level|
      ensures NodeOffset(total, i) + 32 <= |data| && data[NodeOffset(total, i)..NodeOffset(total, i) + 32] == level[i]
    {
      var off := NodeOffset(total, i);
      var rest := Flat(level) + above;
      FlatAt(level, i);
      assert data[off..off + 32] == rest[32 * i..32 * i + 32];
      assert rest[32 * i..32 * i + 32] == Flat(level)[32 * i..32 * i + 32];
    }
  }

  /** Reading one level back: the bytes at its offsets are its nodes. */
  lemma SlicesAreNodes(data: Bytes, total: nat, level: seq<Digest>, indexes: seq<nat>)
    requires StoredAt(data, total, level)
    requires forall k :: 0 <= k < |indexes| ==> indexes[k] < |level|
    ensures Fits(data, LevelOffsets(total, indexes))
    ensures forall k :: 0 <= k < |indexes| ==> SlicesAt(data, LevelOffsets(total, indexes))[k] == level[indexes[k]]
  {
    var offsets := LevelOffsets(total, indexes);
    assert forall k :: 0 <= k < |indexes| ==> offsets[k] == NodeOffset(total, indexes[k]);
  }

  /** The nodes read for a level and all above it fold, with these hashes at hand, to this root. */
  ghost predicate PlanFolds(sha: Hasher, data: Bytes, total: nat, n: nat, depth: nat, s: nat, e: nat,
                            cur: seq<Digest>, root: Digest)
  {
    && cur != []
    && Fits(data, PlanOffsets(total, n, depth, s, e))
    && Fold(sha, cur, Planned(data, total, n, depth, s, e)) == root
  }

  /** The plan for a level is the plan of its own nodes followed by the plan for the next level. */
  lemma PlanFoldsStep(sha: Hasher, data: Bytes, total: nat, n: nat, depth: nat, s: nat, e: nat,
                      cur: seq<Digest>, root: Digest)
    requires cur != [] && depth > 0 && !(s == 0 && e == n - 1)
    requires Fits(data, LevelOffsets(total, LevelIndexes(n, s, e)))
    requires PlanFolds(sha, data, total + n, (n + 1) / 2, depth - 1, s / 2, e / 2,
                       Next(sha, Extend(cur, SlicesAt(data, LevelOffsets(total, LevelIndexes(n, s, e))),
                                        LevelSides(n, s, e))),
                       root)
    ensures PlanFolds(sha, data, total, n, depth, s, e, cur, root)
  {
    var indexes, sides := PlanIndexes(n, depth, s, e), PlanSides(n, depth, s, e);
    assert indexes[1..] == PlanIndexes((n + 1) / 2, depth - 1, s / 2, e / 2);
    assert sides[1..] == PlanSides((n + 1) / 2, depth - 1, s / 2, e / 2);
    var first := LevelOffsets(total, LevelIndexes(n, s, e));
    var rest := PlanOffsets(total + n, (n + 1) / 2, depth - 1, s / 2, e / 2);
    assert PlanOffsets(total, n, depth, s, e) == first + rest;
    PlanAligned(total + n, (n + 1) / 2, depth - 1, s / 2, e / 2);
    TakeNodesSplit(data, first, rest, sides);
    var p := Planned(data, total, n, depth, s, e);
    assert p.nodes[1..] == TakeNodes(data, rest, sides[1..]);
    assert p.nodes[0] == SlicesAt(data, first);
  }

  lemma EmptyPlanFolds(sha: Hasher, data: Bytes, total: nat, level: seq<Digest>, depth: nat)
    requires level != []
    ensures PlanFolds(sha, data, total, |level|, depth, 0, |level| - 1, level, Root(sha, level))
  {
  }

  lemma PlanSidesStep(n: nat, depth: nat, s: nat, e: nat)
    requires depth > 0 && !(s == 0 && e == n - 1)
    ensures var sides := PlanSides(n, depth, s, e);
            && sides != [] && sides[0] == LevelSides(n, s, e)
            && sides[1..] == PlanSides((n + 1) / 2, depth - 1, s / 2, e / 2)
  {
  }

  /** This level's nodes and all above it are stored after these bytes. */
  ghost predicate Stores(sha: Hasher, data: Bytes, below: Bytes, level: seq<Digest>)
    requires level != []
  {
    data == below + StoredNodes(sha, level)
  }

  lemma StoredAbove(sha: Hasher, data: Bytes, below: Bytes, level: seq<Digest>)
    requires |level| > 1 && Stores(sha, data, below, level)
    ensures Stores(sha, data, below + Flat(level), Next(sha, level))
  {
    Assoc(below, Flat(level), StoredNodes(sha, Next(sha, level)));
  }

  lemma TailSlice<T>(s: seq<T>, i: nat)
    requires i < |s|
    ensures s[i..|s| - 1 + 1] == s[i..]
  {
  }

  lemma SlicesArePicked(data: Bytes, total: nat, level: seq<Digest>, s: nat, e: nat)
    requires s <= e < |level| && StoredAt(data, total, level)
    ensures Fits(data, LevelOffsets(total, LevelIndexes(|level|, s, e)))
    ensures Picked(level, SlicesAt(data, LevelOffsets(total, LevelIndexes(|level|, s, e))), s, e)
  {
    SlicesAreNodes(data, total, level, LevelIndexes(|level|, s, e));
  }

  /** The picked nodes of one level turn the range of that level into the range of the next one. */
  lemma PickedCompleteRange(sha: Hasher, data: Bytes, below: Bytes, total: nat, level: seq<Digest>, s: nat, e: nat)
    requires s <= e < |level| && |level| > 1
    requires data == below + StoredNodes(sha, level) && |below| == 32 * total
    ensures var first := LevelOffsets(total, LevelIndexes(|level|, s, e));
            && Fits(data, first)
            && Next(sha, Extend(level[s..e + 1], SlicesAt(data, first), LevelSides(|level|, s, e)))
            == Next(sha, level)[s / 2..e / 2 + 1]
  {
    StoredNodesAt(sha, data, below, total, level);
    SlicesArePicked(data, total, level, s, e);
    PickedNext(sha, level, SlicesAt(data, LevelOffsets(total, LevelIndexes(|level|, s, e))), s, e);
  }

  lemma StoredNodesAt(sha: Hasher, data: Bytes, below: Bytes, total: nat, level: seq<Digest>)
    requires |level| > 1 && data == below + StoredNodes(sha, level) && |below| == 32 * total
    ensures StoredAt(data, total, level)
  {
    LevelIsStoredAt(data, below, total, level, StoredNodes(sha, Next(sha, level)));
  }

  lemma PickedNext(sha: Hasher, level: seq<Digest>, nodes: seq<Digest>, s: nat, e: nat)
    requires s <= e < |level| && Picked(level, nodes, s, e)
    ensures Next(sha, Extend(level[s..e + 1], nodes, LevelSides(|level|, s, e))) == Next(sha, level)[s / 2..e / 2 + 1]
  {
    ExtendFillsRange(level, nodes, s, e);
    NextOfRange(sha, level, Low(s), High(|level|, e));
  }

  lemma FoldsFromAbove(
      sha: Hasher, data: Bytes, below: Bytes, total: nat, level: seq<Digest>, depth: nat, s: nat, e: nat)
    requires s <= e < |level| && depth > 0 && !(s == 0 && e == |level| - 1)
    requires Stores(sha, data, below, level) && |below| == 32 * total
    requires var up := Next(sha, level);
             PlanFolds(sha, data, total + |level|, |up|, depth - 1, s / 2, e / 2, up[s / 2..e / 2 + 1], Root(sha, up))
    ensures PlanFolds(sha, data, total, |level|, depth, s, e, level[s..e + 1], Root(sha, level))
  {
    PickedCompleteRange(sha, data, below, total, level, s, e);
    PlanFoldsStep(sha, data, total, |level|, depth, s, e, level[s..e + 1], Root(sha, level));
  }

  /**
   * From any level of the tree upwards: the nodes read at the computed offsets, folded with the
   * nodes s..e of that level by their side tags, give the root.
   */
  lemma {:induction false} RangeFolds(
      sha: Hasher, data: Bytes, below: Bytes, total: nat, level: seq<Digest>, depth: nat, s: nat, e: nat)
    requires s <= e < |level| && CeilLog2(|level|) < depth
    requires Stores(sha, data, below, level) && |below| == 32 * total
    ensures PlanFolds(sha, data, total, |level|, depth, s, e, level[s..e + 1], Root(sha, level))
    decreases depth
  {
    var n := |level|;
    if s == 0 && e == n - 1 {
      assert level[s..e + 1] == level;
      EmptyPlanFolds(sha, data, total, level, depth);
    } else {
      StoredAbove(sha, data, below, level);
      RangeFolds(sha, data, below + Flat(level), total + n, Next(sha, level), depth - 1, s / 2, e / 2);
      FoldsFromAbove(sha, data, below, total, level, depth, s, e);
    }
  }

  /** The answer is a proof, and a client holding these hashes folds it to the root over these leaves. */
  ghost predicate Verifies(sha: Hasher, leaves: seq<Digest>, cur: seq<Digest>, r: Result<RangeProof, ProofError>)
    requires leaves != []
  {
    cur != [] && r.Ok? && WellShaped(r.value) && Fold(sha, cur, r.value) == Root(sha, leaves)
  }

  /** Whatever end is asked for but the number of leaves itself: the hashes up to it, or to the last, verify. */
  lemma AnyOtherEndVerifies(sha: Hasher, leaves: seq<Digest>, s: nat, e: nat)
    requires s < |leaves| && s <= e && e != |leaves|
    ensures var last := if e < |leaves| then e else |leaves| - 1;
            Verifies(sha, leaves, leaves[s..last + 1],
                     ProofOf(StoredNodes(sha, leaves), |leaves|, s, Clamp(e, |leaves|)))
  {
    ClampedEnd(e, |leaves|);
    RangeProofVerifies(sha, leaves, s, Clamp(e, |leaves|));
  }

  lemma ClampedEnd(e: nat, n: nat)
    requires e != n && n > 0
    ensures Clamp(e, n) == if e < n then e else n - 1
  {}

  /** What a client checks: a range proof built from the stored nodes verifies against the stored root. */
  lemma RangeProofVerifies(sha: Hasher, leaves: seq<Digest>, s: nat, e: nat)
    requires s <= e < |leaves|
    ensures Verifies(sha, leaves, leaves[s..e + 1], ProofOf(StoredNodes(sha, leaves), |leaves|, s, e))
  {
    var data := StoredNodes(sha, leaves);
    assert data == [] + data;
    RangeFolds(sha, data, [], 0, leaves, Depth(|leaves|), s, e);
  }
}
