/**
 * What a root commits to: as long as the hash has no collision among the strings that were
 * hashed, a root determines its leaves, and a range proof that verifies determines the range.
 */
module ValidationBinding {
  import opened Bytes
  import opened ValidationTree
  import opened ValidationProof

  ghost predicate CollisionFree(sha: Hasher, strings: set<Bytes>) {
    forall x, y {:trigger x in strings, y in strings} :: x in strings && y in strings && sha(x) == sha(y) ==> x == y
  }

  ghost function LevelInputs(level: seq<Digest>): set<Bytes> {
    set k | 0 <= k < (|level| + 1) / 2 :: Preimage(level, k)
  }

  /** The strings hashed while computing a root. */
  ghost function TreeInputs(sha: Hasher, level: seq<Digest>): set<Bytes>
    decreases |level|
  {
    if |level| <= 1 then {} else LevelInputs(level) + TreeInputs(sha, Next(sha, level))
  }

  /** The strings hashed while folding a range proof. */
  ghost function FoldInputs(sha: Hasher, cur: seq<Digest>, p: RangeProof): set<Bytes>
    requires cur != [] && WellShaped(p)
    decreases |p.sides|
  {
    if p.sides == [] then TreeInputs(sha, cur)
    else
      var all := Extend(cur, p.nodes[0], p.sides[0]);
      LevelInputs(all) + FoldInputs(sha, Next(sha, all), RangeProof(p.nodes[1..], p.sides[1..]))
  }

  /** Folding the proof with these hashes gives the root of this level. */
  ghost predicate FoldsTo(sha: Hasher, cur: seq<Digest>, p: RangeProof, level: seq<Digest>)
    requires cur != [] && WellShaped(p) && level != []
  {
    Fold(sha, cur, p) == Root(sha, level)
  }

  /** All strings hashed while folding, and while computing the root of this level, are among these. */
  ghost predicate Hashed(sha: Hasher, cur: seq<Digest>, p: RangeProof, level: seq<Digest>, strings: set<Bytes>)
    requires cur != [] && WellShaped(p)
  {
    FoldInputs(sha, cur, p) <= strings && TreeInputs(sha, level) <= strings
  }

  lemma TreeInputsStep(sha: Hasher, level: seq<Digest>, strings: set<Bytes>)
    requires |level| > 1 && TreeInputs(sha, level) <= strings
    ensures LevelInputs(level) <= strings && TreeInputs(sha, Next(sha, level)) <= strings
    ensures Root(sha, level) == Root(sha, Next(sha, level))
  {
  }

  lemma SamePreimages(a: seq<Digest>, b: seq<Digest>)
    requires |a| == |b|
    requires forall k :: 0 <= k < (|a| + 1) / 2 ==> Preimage(a, k) == Preimage(b, k)
    ensures a == b
  {
    forall i | 0 <= i < |a| ensures a[i] == b[i] {
      var k := i / 2;
      var x, y := Preimage(a, k), Preimage(b, k);
      if i % 2 == 0 {
        assert a[i] == x[..32] && b[i] == y[..32];
      } else {
        assert a[i] == x[32..] && b[i] == y[32..];
      }
    }
  }

  lemma NextBinds(sha: Hasher, a: seq<Digest>, b: seq<Digest>, strings: set<Bytes>)
    requires |a| == |b| && Next(sha, a) == Next(sha, b)
    requires LevelInputs(a) <= strings && LevelInputs(b) <= strings && CollisionFree(sha, strings)
    ensures a == b
  {
    forall k | 0 <= k < (|a| + 1) / 2 ensures Preimage(a, k) == Preimage(b, k) {
      assert Next(sha, a)[k] == sha(Preimage(a, k)) && Next(sha, b)[k] == sha(Preimage(b, k));
      assert Preimage(a, k) in LevelInputs(a) && Preimage(b, k) in LevelInputs(b);
    }
    SamePreimages(a, b);
  }

  /** Equal roots over equally many leaves mean equal leaves. */
  lemma {:induction false} RootBindsLeaves(sha: Hasher, a: seq<Digest>, b: seq<Digest>, strings: set<Bytes>)
    requires |a| == |b| > 0 && Root(sha, a) == Root(sha, b)
    requires TreeInputs(sha, a) <= strings && TreeInputs(sha, b) <= strings && CollisionFree(sha, strings)
    ensures a == b
    decreases |a|
  {
    if |a| > 1 {
      RootBindsLeaves(sha, Next(sha, a), Next(sha, b), strings);
      NextBinds(sha, a, b, strings);
    }
  }

  lemma ExtendKeepsMiddle<T>(cur: seq<T>, nodes: seq<T>, n: nat, s: nat, e: nat)
    requires |nodes| == |LevelSides(n, s, e)|
    ensures Extend(cur, nodes, LevelSides(n, s, e))[s % 2..s % 2 + |cur|] == cur
  {
    ExtendShape(cur, nodes, n, s, e);
  }

  lemma RangeInputs(level: seq<Digest>, lo: nat, hi: nat)
    requires lo <= hi < |level| && lo % 2 == 0 && (hi % 2 == 1 || hi == |level| - 1)
    ensures LevelInputs(level[lo..hi + 1]) <= LevelInputs(level)
  {
    var part := level[lo..hi + 1];
    forall k | 0 <= k < (|part| + 1) / 2 ensures Preimage(part, k) in LevelInputs(level) {
      assert Preimage(part, k) == Preimage(level, lo / 2 + k);
    }
  }

  lemma NextRangeBinds(sha: Hasher, level: seq<Digest>, lo: nat, hi: nat, all: seq<Digest>, strings: set<Bytes>)
    requires lo <= hi < |level| && lo % 2 == 0 && (hi % 2 == 1 || hi == |level| - 1)
    requires |all| == hi - lo + 1 && Next(sha, all) == Next(sha, level)[lo / 2..hi / 2 + 1]
    requires LevelInputs(all) <= strings && LevelInputs(level) <= strings && CollisionFree(sha, strings)
    ensures all == level[lo..hi + 1]
  {
    NextOfRange(sha, level, lo, hi);
    RangeInputs(level, lo, hi);
    NextBinds(sha, all, level[lo..hi + 1], strings);
  }

  lemma MiddleOfRange<T>(level: seq<T>, s: nat, e: nat, cur: seq<T>, nodes: seq<T>)
    requires s <= e < |level| && |cur| == e - s + 1 && |nodes| == |LevelSides(|level|, s, e)|
    requires Extend(cur, nodes, LevelSides(|level|, s, e)) == level[Low(s)..High(|level|, e) + 1]
    ensures cur == level[s..e + 1]
  {
    ExtendKeepsMiddle(cur, nodes, |level|, s, e);
    SliceOfSlice(level, Low(s), High(|level|, e) + 1, s, e + 1);
  }

  lemma SliceOfSlice<T>(level: seq<T>, a: nat, d: nat, b: nat, c: nat)
    requires a <= b <= c <= d <= |level|
    ensures level[a..d][b - a..b - a + (c - b)] == level[b..c]
  {
    var part := level[a..d];
    assert |part[b - a..b - a + (c - b)]| == c - b;
    forall k | 0 <= k < c - b ensures part[b - a..b - a + (c - b)][k] == level[b..c][k] {
      assert part[b - a + k] == level[b + k];
    }
  }

  lemma RangeFromNext(sha: Hasher, level: seq<Digest>, s: nat, e: nat,
                      cur: seq<Digest>, nodes: seq<Digest>, strings: set<Bytes>)
    requires s <= e < |level| && |cur| == e - s + 1 && |nodes| == |LevelSides(|level|, s, e)|
    requires var all := Extend(cur, nodes, LevelSides(|level|, s, e));
             Next(sha, all) == Next(sha, level)[s / 2..e / 2 + 1] && LevelInputs(all) <= strings
    requires LevelInputs(level) <= strings && CollisionFree(sha, strings)
    ensures cur == level[s..e + 1]
  {
    var all := Extend(cur, nodes, LevelSides(|level|, s, e));
    NextRangeBinds(sha, level, Low(s), High(|level|, e), all, strings);
    MiddleOfRange(level, s, e, cur, nodes);
  }

  /**
   * Whatever nodes an untrusted blobber sends: if the fold gives the root, the hashes the client
   * computed from the data are the leaves s..e the root was computed from.
   */
  lemma {:induction false} VerifiedRangeIsGenuine(
      sha: Hasher, level: seq<Digest>, depth: nat, s: nat, e: nat, cur: seq<Digest>, p: RangeProof,
      strings: set<Bytes>)
    requires s <= e < |level| && |cur| == e - s + 1 && CeilLog2(|level|) < depth
    requires WellShaped(p) && p.sides == PlanSides(|level|, depth, s, e)
    requires FoldsTo(sha, cur, p, level) && Hashed(sha, cur, p, level, strings)
    requires CollisionFree(sha, strings)
    ensures cur == level[s..e + 1]
    decreases depth, 1
  {
    if s == 0 && e == |level| - 1 {
      RootBindsLeaves(sha, cur, level, strings);
    } else {
      FoldsGenuineNext(sha, level, depth, s, e, cur, p, strings);
      RangeFromNext(sha, level, s, e, cur, p.nodes[0], strings);
    }
  }

  lemma FoldInputsStep(sha: Hasher, cur: seq<Digest>, p: RangeProof, strings: set<Bytes>)
    requires cur != [] && WellShaped(p) && p.sides != [] && FoldInputs(sha, cur, p) <= strings
    ensures var all := Extend(cur, p.nodes[0], p.sides[0]);
            var rest := RangeProof(p.nodes[1..], p.sides[1..]);
            && WellShaped(rest)
            && Fold(sha, cur, p) == Fold(sha, Next(sha, all), rest)
            && FoldInputs(sha, Next(sha, all), rest) <= strings
            && LevelInputs(all) <= strings
  {
  }

  /**
   * One level of a fold against one level of the tree; e may be the number of nodes.  What comes back
   * are the hashes with the picked nodes of this level, and the rest of the proof.
   */
  lemma FoldLevel(sha: Hasher, level: seq<Digest>, depth: nat, s: nat, e: nat,
                  cur: seq<Digest>, p: RangeProof, strings: set<Bytes>)
    returns (all: seq<Digest>, rest: RangeProof)
    requires |level| > 1 && depth > 0 && cur != [] && !(s == 0 && e == |level| - 1)
    requires WellShaped(p) && p.sides == PlanSides(|level|, depth, s, e)
    requires Hashed(sha, cur, p, level, strings)
    ensures p.nodes != [] && |p.nodes[0]| == |LevelSides(|level|, s, e)|
    ensures all == Extend(cur, p.nodes[0], LevelSides(|level|, s, e)) && |all| == |cur| + |LevelSides(|level|, s, e)|
    ensures WellShaped(rest) && rest.sides == PlanSides((|level| + 1) / 2, depth - 1, s / 2, e / 2)
    ensures FoldsTo(sha, cur, p, level) <==> FoldsTo(sha, Next(sha, all), rest, Next(sha, level))
    ensures Hashed(sha, Next(sha, all), rest, Next(sha, level), strings)
    ensures LevelInputs(all) <= strings && LevelInputs(level) <= strings
  {
    PlanSidesStep(|level|, depth, s, e);
    FoldInputsStep(sha, cur, p, strings);
    TreeInputsStep(sha, level, strings);
    all, rest := Extend(cur, p.nodes[0], p.sides[0]), RangeProof(p.nodes[1..], p.sides[1..]);
  }

  lemma {:induction false} FoldsGenuineNext(
      sha: Hasher, level: seq<Digest>, depth: nat, s: nat, e: nat, cur: seq<Digest>, p: RangeProof,
      strings: set<Bytes>)
    requires s <= e < |level| && |cur| == e - s + 1 && CeilLog2(|level|) < depth
    requires !(s == 0 && e == |level| - 1)
    requires WellShaped(p) && p.sides == PlanSides(|level|, depth, s, e)
    requires FoldsTo(sha, cur, p, level) && Hashed(sha, cur, p, level, strings)
    requires CollisionFree(sha, strings)
    ensures |p.nodes[0]| == |LevelSides(|level|, s, e)|
    ensures var all := Extend(cur, p.nodes[0], LevelSides(|level|, s, e));
            Next(sha, all) == Next(sha, level)[s / 2..e / 2 + 1] && LevelInputs(all) <= strings
    decreases depth, 0
  {
    var all, rest := FoldLevel(sha, level, depth, s, e, cur, p, strings);
    RangeSides(|level|, s, e);
    VerifiedRangeIsGenuine(sha, Next(sha, level), depth - 1, s / 2, e / 2, Next(sha, all), rest, strings);
  }

  lemma RangeSides(n: nat, s: nat, e: nat)
    requires s <= e < n
    ensures (e - s + 1 + |LevelSides(n, s, e)| + 1) / 2 == e / 2 - s / 2 + 1
  {}
}
