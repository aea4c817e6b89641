/** The nodes of the validation tree, each by itself: what the root is, and where the stored ones lie. */
module ValidationNodes {
  import opened Bytes
  import opened ValidationTree

  /** How many nodes there are h levels above n leaves. */
  function Width(n: nat, h: nat): nat { if h == 0 then n else (Width(n, h - 1) + 1) / 2 }

  /** The hash of two nodes, or of a lone one. */
  function HashOf(sha: Hasher, left: Digest, right: Option<Digest>): Digest {
    var bytes: Bytes := left;
    match right
    case Some(r) => sha(bytes + r)
    case None => sha(bytes)
  }

  /** Node i, h levels above the leaves: the hash of its two children, or of the only one. */
  function Node(sha: Hasher, leaves: seq<Digest>, h: nat, i: nat): Digest
    requires i < Width(|leaves|, h)
    decreases h, 0
  {
    if h == 0 then leaves[i]
    else
      HashOf(sha, Node(sha, leaves, h - 1, 2 * i), NodeAt(sha, leaves, h - 1, 2 * i + 1))
  }

  function NodeAt(sha: Hasher, leaves: seq<Digest>, h: nat, i: nat): Option<Digest>
    decreases h, 1
  {
    if i < Width(|leaves|, h) then Some(Node(sha, leaves, h, i)) else None
  }

  /** How many nodes are stored before those h levels above the leaves. */
  function Before(n: nat, h: nat): nat { if h == 0 then 0 else Before(n, h - 1) + Width(n, h - 1) }

  lemma {:induction false} WidthAbove(n: nat, h: nat)
    ensures Width(n, h + 1) == Width((n + 1) / 2, h) && Before(n, h + 1) == n + Before((n + 1) / 2, h)
  {
    if h > 0 {
      WidthAbove(n, h - 1);
    }
  }

  lemma NodeOfNext(sha: Hasher, leaves: seq<Digest>, i: nat)
    requires i < Width(|leaves|, 1)
    ensures i < |Next(sha, leaves)| && Next(sha, leaves)[i] == Node(sha, leaves, 1, i)
  {
    assert Node(sha, leaves, 0, 2 * i) == leaves[2 * i];
    assert Next(sha, leaves)[i] == sha(Preimage(leaves, i));
  }

  lemma {:induction false} NodeAbove(sha: Hasher, leaves: seq<Digest>, h: nat, i: nat)
    requires i < Width(|leaves|, h + 1)
    ensures i < Width(|Next(sha, leaves)|, h) && Node(sha, leaves, h + 1, i) == Node(sha, Next(sha, leaves), h, i)
  {
    WidthAbove(|leaves|, h);
    if h == 0 {
      NodeOfNext(sha, leaves, i);
    } else {
      WidthAbove(|leaves|, h - 1);
      NodeAbove(sha, leaves, h - 1, 2 * i);
      if 2 * i + 1 < Width(|leaves|, h) {
        NodeAbove(sha, leaves, h - 1, 2 * i + 1);
      }
      assert NodeAt(sha, leaves, h, 2 * i + 1) == NodeAt(sha, Next(sha, leaves), h - 1, 2 * i + 1);
    }
  }

  /** The root is the one node of the level that has no more. */
  lemma {:induction false} RootIsTopNode(sha: Hasher, leaves: seq<Digest>)
    requires leaves != []
    ensures Width(|leaves|, CeilLog2(|leaves|)) == 1 && Root(sha, leaves) == Node(sha, leaves, CeilLog2(|leaves|), 0)
    decreases |leaves|
  {
    if |leaves| > 1 {
      var h := CeilLog2(|leaves|) - 1;
      RootIsTopNode(sha, Next(sha, leaves));
      WidthAbove(|leaves|, h);
      NodeAbove(sha, leaves, h, 0);
    }
  }

  /** This digest lies at this place. */
  predicate HoldsAt(data: Bytes, at: nat, node: Digest) { at + 32 <= |data| && data[at..at + 32] == node }

  lemma HeldBefore(a: Bytes, b: Bytes, at: nat, node: Digest)
    requires HoldsAt(a, at, node)
    ensures HoldsAt(a + b, at, node)
  {
    assert (a + b)[at..at + 32] == a[at..at + 32];
  }

  lemma HeldAfter(a: Bytes, b: Bytes, at: nat, node: Digest)
    requires HoldsAt(b, at, node)
    ensures HoldsAt(a + b, |a| + at, node)
  {
    assert (a + b)[|a| + at..|a| + at + 32] == b[at..at + 32];
  }

  lemma StoredInTwo(sha: Hasher, leaves: seq<Digest>)
    requires |leaves| > 1
    ensures StoredNodes(sha, leaves) == Flat(leaves) + StoredNodes(sha, Next(sha, leaves))
  {}

  /** Every node but the root is stored, level by level from the leaves up. */
  lemma {:induction false} NodeIsStored(sha: Hasher, leaves: seq<Digest>, h: nat, i: nat)
    requires h < CeilLog2(|leaves|) && i < Width(|leaves|, h)
    ensures HoldsAt(StoredNodes(sha, leaves), 32 * (Before(|leaves|, h) + i), Node(sha, leaves, h, i))
    decreases h
  {
    StoredInTwo(sha, leaves);
    if h == 0 {
      FlatAt(leaves, i);
      HeldBefore(Flat(leaves), StoredNodes(sha, Next(sha, leaves)), 32 * i, leaves[i]);
    } else {
      WidthAbove(|leaves|, h - 1);
      NodeIsStored(sha, Next(sha, leaves), h - 1, i);
      StepUp(sha, leaves, h, i);
    }
  }

  lemma StepUp(sha: Hasher, leaves: seq<Digest>, h: nat, i: nat)
    requires h > 0 && |leaves| > 1 && i < Width(|leaves|, h) && i < Width(|Next(sha, leaves)|, h - 1)
    requires var up := Next(sha, leaves);
             HoldsAt(StoredNodes(sha, up), 32 * (Before(|up|, h - 1) + i), Node(sha, up, h - 1, i))
    ensures HoldsAt(Flat(leaves) + StoredNodes(sha, Next(sha, leaves)),
                    32 * (Before(|leaves|, h) + i), Node(sha, leaves, h, i))
  {
    PlaceAbove(|leaves|, h, i);
    NodeAbove(sha, leaves, h - 1, i);
    var up := Next(sha, leaves);
    HeldAfter(Flat(leaves), StoredNodes(sha, up), 32 * (Before(|up|, h - 1) + i), Node(sha, up, h - 1, i));
  }

  lemma PlaceAbove(n: nat, h: nat, i: nat)
    requires h > 0
    ensures 32 * (Before(n, h) + i) == 32 * n + 32 * (Before((n + 1) / 2, h - 1) + i)
  {
    WidthAbove(n, h - 1);
  }
}
