/**
 * Requests whose end index is the number of leaves: the clamp lets them through.  When such a request
 * is answered at all, and when the answer verifies.
 */
module ValidationClamp {
  import opened Bytes
  import opened ValidationTree
  import opened ValidationProof
  import opened ValidationBinding

  // ---------- an odd number of leaves ----------

  lemma OddCountPlan(n: nat, s: nat)
    requires s < n && n % 2 == 1 && n > 1
    ensures s == 0 ==> PlanIndexes(n, Depth(n), s, n) == [[]] && PlanSides(n, Depth(n), s, n) == [[]]
    ensures s > 0 ==> PlanIndexes(n, Depth(n), s, n) == PlanIndexes(n, Depth(n), s, n - 1)
    ensures s > 0 ==> PlanSides(n, Depth(n), s, n) == PlanSides(n, Depth(n), s, n - 1)
  {
    assert n / 2 == (n - 1) / 2 == (n + 1) / 2 - 1;
    assert Depth(n) >= 2;
    if s == 0 {
      assert LevelIndexes(n, s, n) == [] && LevelSides(n, s, n) == [];
      assert PlanIndexes((n + 1) / 2, Depth(n) - 1, 0, n / 2) == [];
    }
  }

  lemma OddCountSameAnswer(data: Bytes, n: nat, s: nat)
    requires 0 < s < n && n % 2 == 1
    ensures ProofOf(data, n, s, n) == ProofOf(data, n, s, n - 1)
  {
    OddCountPlan(n, s);
  }

  lemma EmptyLevelPlanned(data: Bytes, n: nat)
    requires n % 2 == 1 && n > 1
    ensures ProofOf(data, n, 0, n) == Ok(RangeProof([[]], [[]]))
  {
    OddCountPlan(n, 0);
    var indexes: seq<seq<nat>> := [[]];
    var sides: seq<seq<Side>> := [[]];
    assert LevelOffsets(0, []) == [] && indexes[1..] == [] && OffsetsFrom(0, n, indexes) == [];
    assert sides[1..] == [] && SlicesAt(data, []) == [];
    assert TakeNodes(data, [], sides) == [[]];
  }

  lemma EmptyLevelFolds(sha: Hasher, level: seq<Digest>)
    requires |level| > 1
    ensures Fold(sha, level, RangeProof([[]], [[]])) == Root(sha, level)
  {
    var p := RangeProof([[]], [[]]);
    assert p.nodes[1..] == [] && p.sides[1..] == [];
    assert Extend(level, p.nodes[0], p.sides[0]) == level;
  }

  lemma OddCountFromFirst(sha: Hasher, leaves: seq<Digest>)
    requires |leaves| % 2 == 1 && |leaves| > 1
    ensures Verifies(sha, leaves, leaves[0..], ProofOf(StoredNodes(sha, leaves), |leaves|, 0, |leaves|))
  {
    EmptyLevelPlanned(StoredNodes(sha, leaves), |leaves|);
    EmptyLevelFolds(sha, leaves);
    assert leaves[0..] == leaves;
  }

  lemma OddCountFromLater(sha: Hasher, leaves: seq<Digest>, s: nat)
    requires 0 < s < |leaves| && |leaves| % 2 == 1
    ensures Verifies(sha, leaves, leaves[s..], ProofOf(StoredNodes(sha, leaves), |leaves|, s, |leaves|))
  {
    RangeProofVerifies(sha, leaves, s, |leaves| - 1);
    TailSlice(leaves, s);
    OddCountSameAnswer(StoredNodes(sha, leaves), |leaves|, s);
  }

  /** With an odd number of leaves, at least three, such a request is answered as if it ended at the last leaf. */
  lemma EndEqualToOddCountVerifies(sha: Hasher, leaves: seq<Digest>, s: nat)
    requires s < |leaves| && |leaves| % 2 == 1 && |leaves| > 1
    ensures Verifies(sha, leaves, leaves[s..], ProofOf(StoredNodes(sha, leaves), |leaves|, s, |leaves|))
  {
    if s == 0 {
      OddCountFromFirst(sha, leaves);
    } else {
      OddCountFromLater(sha, leaves, s);
    }
  }

  // ---------- when the answer is a proof at all ----------

  ghost predicate IsPow2(n: nat) { exists d :: n == Pow2(d) }

  lemma {:induction false} CeilLog2OfPow2(d: nat)
    ensures CeilLog2(Pow2(d)) == d
  {
    if d > 0 {
      CeilLog2OfPow2(d - 1);
      assert (Pow2(d) + 1) / 2 == Pow2(d - 1);
    }
  }

  lemma IsPow2Exactly(n: nat)
    ensures IsPow2(n) <==> n == Pow2(CeilLog2(n))
  {
    if d :| n == Pow2(d) {
      CeilLog2OfPow2(d);
    }
  }

  lemma HalfIsPow2(n: nat)
    requires n >= 2
    ensures IsPow2(1) && IsPow2(2)
    ensures IsPow2(n) <==> n % 2 == 0 && IsPow2(n / 2)
  {
    IsPow2Exactly(1);
    IsPow2Exactly(2);
    IsPow2Exactly(n);
    IsPow2Exactly(n / 2);
    assert n % 2 == 0 ==> (n + 1) / 2 == n / 2;
  }

  /** How many nodes are stored from a level up says which indexes of it can be read. */
  lemma LevelFits(data: Bytes, total: nat, n: nat, indexes: seq<nat>)
    requires n >= 1 && |data| == 32 * (total + StoredCount(n))
    ensures Fits(data, LevelOffsets(total, indexes)) <==> forall k :: 0 <= k < |indexes| ==> indexes[k] < StoredCount(n)
  {
    var offsets := LevelOffsets(total, indexes);
    assert forall k :: 0 <= k < |indexes| ==> (offsets[k] + 32 <= |data| <==> indexes[k] < StoredCount(n));
  }

  /** The indexes picked at a level of n nodes for an end of n. */
  lemma EndLevelFits(data: Bytes, total: nat, n: nat, s: nat)
    requires n >= 1 && s <= n && |data| == 32 * (total + StoredCount(n))
    ensures Fits(data, LevelOffsets(total, LevelIndexes(n, s, n))) <==> !(n == 2 || (n == 1 && s == 1))
  {
    LevelFits(data, total, n, LevelIndexes(n, s, n));
    var indexes := LevelIndexes(n, s, n);
    assert n >= 2 ==> StoredCount(n) >= n && StoredCount(n) == n + StoredCount((n + 1) / 2);
    assert s % 2 == 1 ==> indexes[0] == s - 1;
    assert n % 2 == 0 ==> indexes[|indexes| - 1] == n + 1;
    if n >= 4 {
      assert StoredCount((n + 1) / 2) >= 2;
    }
  }

  lemma PlanOffsetsStep(total: nat, n: nat, depth: nat, s: nat, e: nat)
    requires depth > 0 && !(s == 0 && e == n - 1)
    ensures PlanOffsets(total, n, depth, s, e)
         == LevelOffsets(total, LevelIndexes(n, s, e)) + PlanOffsets(total + n, (n + 1) / 2, depth - 1, s / 2, e / 2)
  {
    assert PlanIndexes(n, depth, s, e)[1..] == PlanIndexes((n + 1) / 2, depth - 1, s / 2, e / 2);
  }

  lemma PlanFitsStep(data: Bytes, total: nat, n: nat, depth: nat, s: nat, e: nat)
    requires depth > 0 && !(s == 0 && e == n - 1)
    ensures Fits(data, PlanOffsets(total, n, depth, s, e)) <==>
              && Fits(data, LevelOffsets(total, LevelIndexes(n, s, e)))
              && Fits(data, PlanOffsets(total + n, (n + 1) / 2, depth - 1, s / 2, e / 2))
  {
    PlanOffsetsStep(total, n, depth, s, e);
    FitsSplit(data, LevelOffsets(total, LevelIndexes(n, s, e)),
              PlanOffsets(total + n, (n + 1) / 2, depth - 1, s / 2, e / 2));
  }

  /** A range of nodes of a level is read from what is stored. */
  lemma {:induction false} RangePlanFits(data: Bytes, total: nat, n: nat, depth: nat, s: nat, e: nat)
    requires s <= e < n && CeilLog2(n) < depth && |data| == 32 * (total + StoredCount(n))
    ensures Fits(data, PlanOffsets(total, n, depth, s, e))
    decreases depth
  {
    if !(s == 0 && e == n - 1) {
      PlanFitsStep(data, total, n, depth, s, e);
      LevelFits(data, total, n, LevelIndexes(n, s, e));
      assert StoredCount(n) == n + StoredCount((n + 1) / 2);
      RangePlanFits(data, total + n, (n + 1) / 2, depth - 1, s / 2, e / 2);
    }
  }

  lemma {:induction false} EndPlanFits(data: Bytes, total: nat, n: nat, depth: nat, s: nat)
    requires n >= 1 && s <= n && CeilLog2(n) < depth && |data| == 32 * (total + StoredCount(n))
    ensures Fits(data, PlanOffsets(total, n, depth, s, n)) <==> !(IsPow2(n) && (n >= 2 || s == n))
    decreases depth
  {
    EndPlanSplits(data, total, n, depth, s);
    if n >= 2 {
      HalfIsPow2(n);
      if n % 2 == 0 {
        EndPlanFits(data, total + n, n / 2, depth - 1, s / 2);
      } else {
        RangePlanFits(data, total + n, (n + 1) / 2, depth - 1, s / 2, n / 2);
      }
    } else {
      IsPow2Exactly(1);
      assert PlanIndexes(1, depth - 1, 0, 0) == [];
    }
  }

  lemma EndPlanSplits(data: Bytes, total: nat, n: nat, depth: nat, s: nat)
    requires n >= 1 && s <= n && depth > 0 && |data| == 32 * (total + StoredCount(n))
    ensures Fits(data, PlanOffsets(total, n, depth, s, n)) <==>
              n != 2 && !(n == 1 && s == 1)
              && Fits(data, PlanOffsets(total + n, (n + 1) / 2, depth - 1, s / 2, n / 2))
    ensures n >= 2 ==> |data| == 32 * (total + n + StoredCount((n + 1) / 2))
  {
    PlanFitsStep(data, total, n, depth, s, n);
    EndLevelFits(data, total, n, s);
  }

  /**
   * A slice lies beyond the stored nodes exactly when the number of leaves is a power of two; but one
   * leaf, asked for from 0, needs no slice.
   */
  lemma EndEqualToCountPanicsExactly(sha: Hasher, leaves: seq<Digest>, s: nat)
    requires leaves != [] && s <= |leaves|
    ensures ProofOf(StoredNodes(sha, leaves), |leaves|, s, |leaves|) == Err(SliceOutOfBounds)
       <==> IsPow2(|leaves|) && (|leaves| >= 2 || s == |leaves|)
  {
    StoredLength(sha, leaves);
    EndPlanFits(StoredNodes(sha, leaves), 0, |leaves|, Depth(|leaves|), s);
  }

  // ---------- when the answer verifies ----------

  /**
   * With one hash too many at its end, a fold does not give the root: at the first level of odd size
   * the last node is hashed with it, and not alone.
   */
  lemma {:induction false} OneTooManyNeverFolds(
      sha: Hasher, level: seq<Digest>, depth: nat, s: nat, cur: seq<Digest>, p: RangeProof, strings: set<Bytes>)
    requires |level| >= 2 && s < |level| && |cur| == |level| - s + 1 && CeilLog2(|level|) < depth
    requires !IsPow2(|level|)
    requires WellShaped(p) && p.sides == PlanSides(|level|, depth, s, |level|)
    requires Hashed(sha, cur, p, level, strings) && CollisionFree(sha, strings)
    ensures !FoldsTo(sha, cur, p, level)
    decreases depth
  {
    HalfIsPow2(|level|);
    if |level| % 2 == 0 {
      var up, rest := OneTooManyAbove(sha, level, depth, s, cur, p, strings);
      OneTooManyNeverFolds(sha, Next(sha, level), depth - 1, s / 2, up, rest, strings);
    } else {
      OneTooManyAtOddLevel(sha, level, depth, s, cur, p, strings);
    }
  }

  /** At a level of even size the fold goes on, still with one too many. */
  lemma OneTooManyAbove(
      sha: Hasher, level: seq<Digest>, depth: nat, s: nat, cur: seq<Digest>, p: RangeProof, strings: set<Bytes>)
    returns (up: seq<Digest>, rest: RangeProof)
    requires |level| >= 2 && |level| % 2 == 0 && s < |level| && |cur| == |level| - s + 1 && depth > 0
    requires WellShaped(p) && p.sides == PlanSides(|level|, depth, s, |level|)
    requires Hashed(sha, cur, p, level, strings)
    ensures |up| == |level| / 2 - s / 2 + 1 && s / 2 < |level| / 2
    ensures WellShaped(rest) && rest.sides == PlanSides(|level| / 2, depth - 1, s / 2, |level| / 2)
    ensures Hashed(sha, up, rest, Next(sha, level), strings)
    ensures FoldsTo(sha, cur, p, level) <==> FoldsTo(sha, up, rest, Next(sha, level))
  {
    var all;
    all, rest := FoldLevel(sha, level, depth, s, |level|, cur, p, strings);
    EndSides(|level|, s);
    up := Next(sha, all);
  }

  lemma OneTooManyAtOddLevel(
      sha: Hasher, level: seq<Digest>, depth: nat, s: nat, cur: seq<Digest>, p: RangeProof, strings: set<Bytes>)
    requires |level| >= 2 && |level| % 2 == 1 && s < |level| && |cur| == |level| - s + 1 && CeilLog2(|level|) < depth
    requires WellShaped(p) && p.sides == PlanSides(|level|, depth, s, |level|)
    requires Hashed(sha, cur, p, level, strings) && CollisionFree(sha, strings)
    ensures !FoldsTo(sha, cur, p, level)
  {
    var all, rest := OneTooManyPaired(sha, level, depth, s, cur, p, strings);
    PairedLastNeverFolds(sha, level, depth - 1, s, all, rest, strings);
  }

  /** At a level of odd size the one too many makes a pair with the last node. */
  lemma OneTooManyPaired(
      sha: Hasher, level: seq<Digest>, depth: nat, s: nat, cur: seq<Digest>, p: RangeProof, strings: set<Bytes>)
    returns (all: seq<Digest>, rest: RangeProof)
    requires |level| >= 2 && |level| % 2 == 1 && s < |level| && |cur| == |level| - s + 1 && depth > 0
    requires WellShaped(p) && p.sides == PlanSides(|level|, depth, s, |level|)
    requires Hashed(sha, cur, p, level, strings)
    ensures |level| >= 3 && |all| == |level| - Low(s) + 1
    ensures WellShaped(rest) && rest.sides == PlanSides((|level| + 1) / 2, depth - 1, s / 2, |level| / 2)
    ensures Hashed(sha, Next(sha, all), rest, Next(sha, level), strings)
    ensures LevelInputs(all) <= strings && LevelInputs(level) <= strings
    ensures FoldsTo(sha, cur, p, level) <==> FoldsTo(sha, Next(sha, all), rest, Next(sha, level))
  {
    all, rest := FoldLevel(sha, level, depth, s, |level|, cur, p, strings);
    OddEndSides(|level|, s);
  }

  lemma PairedLastNeverFolds(
      sha: Hasher, level: seq<Digest>, depth: nat, s: nat, all: seq<Digest>, rest: RangeProof, strings: set<Bytes>)
    requires |level| >= 3 && |level| % 2 == 1 && s < |level| && CeilLog2(|level|) <= depth
    requires |all| == |level| - Low(s) + 1
    requires WellShaped(rest) && rest.sides == PlanSides((|level| + 1) / 2, depth, s / 2, |level| / 2)
    requires Hashed(sha, Next(sha, all), rest, Next(sha, level), strings)
    requires LevelInputs(all) <= strings && LevelInputs(level) <= strings && CollisionFree(sha, strings)
    ensures !FoldsTo(sha, Next(sha, all), rest, Next(sha, level))
  {
    if FoldsTo(sha, Next(sha, all), rest, Next(sha, level)) {
      GenuineAbove(sha, level, depth, s, all, rest, strings);
      LastIsNotLone(sha, level, all, Low(s), strings);
    }
  }

  lemma GenuineAbove(
      sha: Hasher, level: seq<Digest>, depth: nat, s: nat, all: seq<Digest>, rest: RangeProof, strings: set<Bytes>)
    requires |level| >= 3 && |level| % 2 == 1 && s < |level| && CeilLog2(|level|) <= depth
    requires |all| == |level| - Low(s) + 1
    requires WellShaped(rest) && rest.sides == PlanSides((|level| + 1) / 2, depth, s / 2, |level| / 2)
    requires FoldsTo(sha, Next(sha, all), rest, Next(sha, level))
    requires Hashed(sha, Next(sha, all), rest, Next(sha, level), strings)
    requires CollisionFree(sha, strings)
    ensures Next(sha, all) == Next(sha, level)[Low(s) / 2..|level| / 2 + 1]
  {
    VerifiedRangeIsGenuine(sha, Next(sha, level), depth, s / 2, |level| / 2, Next(sha, all), rest, strings);
  }

  lemma OddEndSides(n: nat, s: nat)
    requires n >= 2 && n % 2 == 1 && s < n
    ensures n - s + 1 + |LevelSides(n, s, n)| == n - Low(s) + 1 && n >= 3
  {}

  lemma EndSides(n: nat, s: nat)
    requires n >= 2 && s < n
    ensures |LevelSides(n, s, n)| == s % 2 + (1 - n % 2)
  {}

  /** The hash of a pair is not the hash of the lone last node. */
  lemma LastIsNotLone(sha: Hasher, level: seq<Digest>, all: seq<Digest>, lo: nat, strings: set<Bytes>)
    requires |level| % 2 == 1 && lo % 2 == 0 && lo < |level| && |all| == |level| - lo + 1
    requires LevelInputs(all) <= strings && LevelInputs(level) <= strings && CollisionFree(sha, strings)
    ensures Next(sha, all) != Next(sha, level)[lo / 2..|level| / 2 + 1]
  {
    var k, last := |all| / 2 - 1, |level| / 2;
    assert Preimage(all, k) in LevelInputs(all) && Preimage(level, last) in LevelInputs(level);
    assert |Preimage(all, k)| == 64 && |Preimage(level, last)| == 32;
    assert Next(sha, all)[k] == sha(Preimage(all, k)) && Next(sha, level)[last] == sha(Preimage(level, last));
    assert lo / 2 + k == last;
  }

  /** An even number of leaves that is no power of two: the first level adds the one too many. */
  lemma EvenCountNeverVerifies(
      sha: Hasher, leaves: seq<Digest>, s: nat, p: RangeProof, strings: set<Bytes>)
    requires |leaves| >= 2 && |leaves| % 2 == 0 && !IsPow2(|leaves|) && s < |leaves|
    requires WellShaped(p) && p.sides == PlanSides(|leaves|, Depth(|leaves|), s, |leaves|)
    requires Hashed(sha, leaves[s..], p, leaves, strings) && CollisionFree(sha, strings)
    ensures !FoldsTo(sha, leaves[s..], p, leaves)
  {
    HalfIsPow2(|leaves|);
    var up, rest := FirstLevelAddsOne(sha, leaves, Depth(|leaves|), s, leaves[s..], p, strings);
    OneTooManyNeverFolds(sha, Next(sha, leaves), Depth(|leaves|) - 1, s / 2, up, rest, strings);
  }

  lemma FirstLevelAddsOne(
      sha: Hasher, level: seq<Digest>, depth: nat, s: nat, cur: seq<Digest>, p: RangeProof, strings: set<Bytes>)
    returns (up: seq<Digest>, rest: RangeProof)
    requires |level| >= 2 && |level| % 2 == 0 && s < |level| && |cur| == |level| - s && depth > 0
    requires WellShaped(p) && p.sides == PlanSides(|level|, depth, s, |level|)
    requires Hashed(sha, cur, p, level, strings)
    ensures |up| == |level| / 2 - s / 2 + 1 && s / 2 < |level| / 2
    ensures WellShaped(rest) && rest.sides == PlanSides(|level| / 2, depth - 1, s / 2, |level| / 2)
    ensures Hashed(sha, up, rest, Next(sha, level), strings)
    ensures FoldsTo(sha, cur, p, level) <==> FoldsTo(sha, up, rest, Next(sha, level))
  {
    var all;
    all, rest := FoldLevel(sha, level, depth, s, |level|, cur, p, strings);
    EndSides(|level|, s);
    up := Next(sha, all);
  }

  lemma OneLeafPlanned(data: Bytes)
    ensures ProofOf(data, 1, 0, 1) == Ok(RangeProof([[]], [[]]))
  {
    var indexes: seq<seq<nat>> := [[]];
    var sides: seq<seq<Side>> := [[]];
    assert indexes[1..] == [] && sides[1..] == [];
    assert PlanIndexes(1, 0, 0, 0) == [] && PlanSides(1, 0, 0, 0) == [];
    assert Depth(1) == 1 && LevelIndexes(1, 0, 1) == [] && LevelSides(1, 0, 1) == [];
    assert PlanIndexes(1, 1, 0, 1) == [LevelIndexes(1, 0, 1)] + PlanIndexes(1, 0, 0, 0) == indexes;
    assert PlanSides(1, 1, 0, 1) == [LevelSides(1, 0, 1)] + PlanSides(1, 0, 0, 0) == sides;
    assert LevelOffsets(0, []) == [] && OffsetsFrom(1, 1, []) == [] && OffsetsFrom(0, 1, indexes) == [];
    assert SlicesAt(data, []) == [];
    assert TakeNodes(data, [], sides) == [[]];
  }

  lemma OneLeafFolds(sha: Hasher, leaves: seq<Digest>)
    requires |leaves| == 1
    ensures Verifies(sha, leaves, leaves, ProofOf(StoredNodes(sha, leaves), 1, 0, 1)) <==> sha(leaves[0]) == leaves[0]
  {
    OneLeafPlanned(StoredNodes(sha, leaves));
    var p := RangeProof([[]], [[]]);
    assert p.nodes[1..] == [] && p.sides[1..] == [];
    assert Extend(leaves, p.nodes[0], p.sides[0]) == leaves;
    var up: seq<Digest> := [sha(leaves[0])];
    assert Preimage(leaves, 0) == leaves[0] && Next(sha, leaves) == up && Root(sha, up) == sha(leaves[0]);
    assert Fold(sha, up, RangeProof([], [])) == Root(sha, up);
  }

  /** The request for the leaves from s on, ending at their number, gets an answer that verifies with them. */
  ghost predicate EndVerifies(sha: Hasher, leaves: seq<Digest>, s: nat)
    requires s < |leaves|
  {
    Verifies(sha, leaves, leaves[s..], ProofOf(StoredNodes(sha, leaves), |leaves|, s, |leaves|))
  }

  /** The strings hashed for the root and, if there is an answer, while folding it. */
  ghost predicate EndHashed(sha: Hasher, leaves: seq<Digest>, s: nat, strings: set<Bytes>)
    requires s < |leaves|
  {
    var r := ProofOf(StoredNodes(sha, leaves), |leaves|, s, |leaves|);
    TreeInputs(sha, leaves) <= strings &&
    (r.Ok? && WellShaped(r.value) ==> FoldInputs(sha, leaves[s..], r.value) <= strings)
  }

  lemma OneLeafVerifiesExactly(sha: Hasher, leaves: seq<Digest>)
    requires |leaves| == 1
    ensures EndVerifies(sha, leaves, 0) <==> sha(leaves[0]) == leaves[0]
  {
    OneLeafFolds(sha, leaves);
    assert leaves[0..] == leaves;
  }

  lemma OddCountVerifies(sha: Hasher, leaves: seq<Digest>, s: nat)
    requires s < |leaves| && |leaves| % 2 == 1 && |leaves| > 1
    ensures EndVerifies(sha, leaves, s)
  {
    EndEqualToOddCountVerifies(sha, leaves, s);
  }

  lemma EvenCountDoesNotVerify(sha: Hasher, leaves: seq<Digest>, s: nat, strings: set<Bytes>)
    requires s < |leaves| && |leaves| % 2 == 0 && EndHashed(sha, leaves, s, strings) && CollisionFree(sha, strings)
    ensures !EndVerifies(sha, leaves, s)
  {
    EndEqualToCountPanicsExactly(sha, leaves, s);
    var r := ProofOf(StoredNodes(sha, leaves), |leaves|, s, |leaves|);
    if r.Ok? {
      EvenCountNeverVerifies(sha, leaves, s, r.value, strings);
    }
  }

  /**
   * Without a collision among the strings hashed, a request that ends at the number of leaves gets an
   * answer that verifies exactly when that number is odd and at least three, or the hash of the one
   * leaf is the leaf.
   */
  lemma EndEqualToCountVerifiesExactly(sha: Hasher, leaves: seq<Digest>, s: nat, strings: set<Bytes>)
    requires s < |leaves| && EndHashed(sha, leaves, s, strings) && CollisionFree(sha, strings)
    ensures EndVerifies(sha, leaves, s) <==>
              (|leaves| % 2 == 1 && |leaves| >= 3) || (|leaves| == 1 && sha(leaves[0]) == leaves[0])
  {
    if |leaves| == 1 {
      OneLeafVerifiesExactly(sha, leaves);
    } else if |leaves| % 2 == 1 {
      OddCountVerifies(sha, leaves, s);
    } else {
      EvenCountDoesNotVerify(sha, leaves, s, strings);
    }
  }
}
