/**
 * The validation tree: its levels, the flat buffer they are stored in, and the method that
 * computes the root while filling that buffer.
 */
module ValidationTree {
  import opened Bytes

  /** The string whose digest is node k of the next level: two nodes, or a lone last one. */
  function Preimage(level: seq<Digest>, k: nat): (b: Bytes)
    requires k < (|level| + 1) / 2
  {
    if 2 * k + 1 < |level| then var left: Bytes := level[2 * k]; left + level[2 * k + 1] else level[2 * k]
  }

  function Next(sha: Hasher, level: seq<Digest>): (up: seq<Digest>)
    ensures |up| == (|level| + 1) / 2
  {
    seq<Digest>((|level| + 1) / 2, k requires 0 <= k < (|level| + 1) / 2 => sha(Preimage(level, k)))
  }

  function Root(sha: Hasher, level: seq<Digest>): Digest
    requires level != []
    decreases |level|
  {
    if |level| == 1 then level[0] else Root(sha, Next(sha, level))
  }

  /** Every level except the root, lowest first. */
  function StoredNodes(sha: Hasher, level: seq<Digest>): Bytes
    requires level != []
    decreases |level|
  {
    if |level| == 1 then [] else Flat(level) + StoredNodes(sha, Next(sha, level))
  }

  /** How many nodes are stored above and including a level of n nodes. */
  function StoredCount(n: nat): nat
    requires n >= 1
  {
    if n == 1 then 0 else n + StoredCount((n + 1) / 2)
  }

  lemma {:induction false} StoredLength(sha: Hasher, level: seq<Digest>)
    requires level != []
    ensures |StoredNodes(sha, level)| == 32 * StoredCount(|level|)
    decreases |level|
  {
    if |level| > 1 {
      StoredLength(sha, Next(sha, level));
    }
  }

  function Leaves(dataSize: nat): nat { (dataSize + LEAF_SIZE - 1) / LEAF_SIZE }

  /** calculateDepth and the tree writer's CalculateDepth, without the floating point. */
  function Depth(totalLeaves: nat): nat { CeilLog2(totalLeaves) + 1 }

  /** getNodesSize: an empty file counts no nodes at all. */
  method GetNodesSize(dataSize: nat, merkleLeafSize: nat) returns (size: nat)
    requires merkleLeafSize > 0
    ensures var n := (dataSize + merkleLeafSize - 1) / merkleLeafSize;
            size == if n == 0 then 0 else 32 * StoredCount(n)
  {
    var totalLeaves := (dataSize + merkleLeafSize - 1) / merkleLeafSize;
    if totalLeaves == 1 {
      return 0;
    }
    var totalNodes := totalLeaves;
    ghost var n := totalLeaves;
    while totalLeaves > 2
      invariant n == 0 ==> totalLeaves == totalNodes == 0
      invariant n > 0 ==> totalLeaves >= 2
      invariant n > 0 ==> totalNodes + StoredCount(totalLeaves) == StoredCount(n) + totalLeaves
    {
      totalLeaves := (totalLeaves + 1) / 2;
      totalNodes := totalNodes + totalLeaves;
    }
    assert n > 0 ==> StoredCount(totalLeaves) == 2 + StoredCount(1);
    size := totalNodes * 32;
  }

  /** h.Write of the bytes the two copies have just put in the buffer. */
  method HashPair(sha: Hasher, left: Digest, right: Bytes, buffer: array<Byte>, bufInd: nat)
    returns (h: Digest, end: nat)
    requires bufInd + 32 + |right| <= buffer.Length
    modifies buffer
    ensures end == bufInd + 32 + |right|
    ensures buffer[..end] == old(buffer[..bufInd]) + (left + right)
    ensures h == sha(left + right)
  {
    var n := CopyInto(buffer, bufInd, left);
    end := bufInd + n;
    n := CopyInto(buffer, end, right);
    end := end + n;
    var whole: Bytes := left;
    whole := whole + right;
    assert buffer[..end] == old(buffer[..bufInd]) + whole;
    assert buffer[bufInd..end] == whole;
    h := sha(buffer[bufInd..end]);
  }

  method HashLone(sha: Hasher, last: Digest, buffer: array<Byte>, bufInd: nat)
    returns (h: Digest, end: nat)
    requires bufInd + 32 <= buffer.Length
    modifies buffer
    ensures end == bufInd + 32
    ensures buffer[..end] == old(buffer[..bufInd]) + last
    ensures h == sha(last)
  {
    var n := CopyInto(buffer, bufInd, last);
    end := bufInd + n;
    assert buffer[bufInd..end] == last;
    h := sha(buffer[bufInd..end]);
  }

  lemma FlatPair(nodes: seq<Digest>, j: nat)
    requires j + 1 < |nodes|
    ensures var pair: Bytes := nodes[j]; Flat(nodes[..j + 2]) == Flat(nodes[..j]) + (pair + nodes[j + 1])
  {
    var pair: Bytes := nodes[j];
    FlatPush(nodes[..j], nodes[j]);
    FlatPush(nodes[..j + 1], nodes[j + 1]);
    assert nodes[..j] + [nodes[j]] == nodes[..j + 1];
    assert nodes[..j + 1] + [nodes[j + 1]] == nodes[..j + 2];
    assert (Flat(nodes[..j]) + pair) + nodes[j + 1] == Flat(nodes[..j]) + (pair + nodes[j + 1]);
  }

  /** One pass over nodes[..limit]: every pair is copied to the buffer and hashed from there. */
  method HashPairs(sha: Hasher, nodes: seq<Digest>, limit: nat, buffer: array<Byte>, bufInd: nat)
    returns (newNodes: seq<Digest>, end: nat)
    requires limit % 2 == 0 && limit <= |nodes| && bufInd + 32 * limit <= buffer.Length
    modifies buffer
    ensures end == bufInd + 32 * limit
    ensures buffer[..end] == old(buffer[..bufInd]) + Flat(nodes[..limit])
    ensures newNodes == Next(sha, nodes)[..limit / 2]
  {
    ghost var before := buffer[..bufInd];
    newNodes, end := [], bufInd;
    var j := 0;
    while j < limit
      invariant j % 2 == 0 && j <= limit
      invariant end == bufInd + 32 * j
      invariant buffer[..end] == before + Flat(nodes[..j])
      invariant newNodes == Next(sha, nodes)[..j / 2]
    {
      ghost var pair: Bytes := nodes[j];
      var h;
      h, end := HashPair(sha, nodes[j], nodes[j + 1], buffer, end);
      FlatPair(nodes, j);
      assert 2 * (j / 2) == j;
      assert Preimage(nodes, j / 2) == pair + nodes[j + 1];
      assert h == Next(sha, nodes)[j / 2];
      newNodes := newNodes + [h];
      j := j + 2;
    }
  }

  /** One round of the writer's loop, for an even and for an odd number of nodes. */
  method HashLevel(sha: Hasher, nodes: seq<Digest>, buffer: array<Byte>, bufInd: nat)
    returns (newNodes: seq<Digest>, end: nat)
    requires nodes != [] && bufInd + 32 * |nodes| <= buffer.Length
    modifies buffer
    ensures end == bufInd + 32 * |nodes|
    ensures buffer[..end] == old(buffer[..bufInd]) + Flat(nodes)
    ensures newNodes == Next(sha, nodes)
  {
    if |nodes| % 2 == 0 {
      newNodes, end := HashPairs(sha, nodes, |nodes|, buffer, bufInd);
      assert nodes[..|nodes|] == nodes;
    } else {
      var last := |nodes| - 1;
      newNodes, end := HashPairs(sha, nodes, last, buffer, bufInd);
      var h;
      h, end := HashLone(sha, nodes[last], buffer, end);
      assert Preimage(nodes, last / 2) == nodes[last];
      assert h == Next(sha, nodes)[last / 2];
      newNodes := newNodes + [h];
      FlatPush(nodes[..last], nodes[last]);
      assert nodes[..last] + [nodes[last]] == nodes;
      ghost var lone: Bytes := nodes[last];
      assert (old(buffer[..bufInd]) + Flat(nodes[..last])) + lone
          == old(buffer[..bufInd]) + (Flat(nodes[..last]) + lone);
    }
  }

  /** What the writer has put in the buffer and what it still has to put there make up the whole. */
  ghost predicate Written(sha: Hasher, done: Bytes, nodes: seq<Digest>, leaves: seq<Digest>)
    requires nodes != [] && leaves != []
  {
    done + StoredNodes(sha, nodes) == StoredNodes(sha, leaves) && Root(sha, nodes) == Root(sha, leaves)
  }

  lemma WrittenRound(sha: Hasher, done: Bytes, nodes: seq<Digest>, leaves: seq<Digest>)
    requires |nodes| > 1 && leaves != [] && Written(sha, done, nodes, leaves)
    ensures Written(sha, done + Flat(nodes), Next(sha, nodes), leaves)
    ensures |done| + 32 * |nodes| <= |StoredNodes(sha, leaves)|
  {
    var up := StoredNodes(sha, Next(sha, nodes));
    assert StoredNodes(sha, nodes) == Flat(nodes) + up;
    assert done + (Flat(nodes) + up) == (done + Flat(nodes)) + up;
  }

  /** Returns the root and the bytes written to the file. */
  method CalculateRootAndStoreNodes(sha: Hasher, leaves: seq<Digest>, dataSize: nat)
    returns (root: Digest, written: Bytes)
    requires dataSize > 0 && |leaves| == Leaves(dataSize)
    ensures root == Root(sha, leaves)
    ensures written == StoredNodes(sha, leaves)
  {
    var nodes := leaves;
    var depth := Depth(|leaves|);
    var s := GetNodesSize(dataSize, LEAF_SIZE);
    var buffer := new Byte[s](_ => 0);
    var bufInd: nat := 0;
    StoredLength(sha, leaves);
    assert buffer[..0] + StoredNodes(sha, leaves) == StoredNodes(sha, leaves);
    var i := 0;
    while i < depth && |nodes| != 1
      invariant nodes != [] && i <= depth
      invariant CeilLog2(|nodes|) + i < depth
      invariant bufInd <= buffer.Length == |StoredNodes(sha, leaves)|
      invariant Written(sha, buffer[..bufInd], nodes, leaves)
    {
      WrittenRound(sha, buffer[..bufInd], nodes, leaves);
      nodes, bufInd := HashLevel(sha, nodes, buffer, bufInd);
      i := i + 1;
    }
    root := nodes[0];
    written := buffer[..];
    assert buffer[..bufInd] + [] == buffer[..bufInd];
    assert buffer[..bufInd] == buffer[..];
  }
}
