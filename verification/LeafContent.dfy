/** The content of one leaf of the fixed tree: the leaf's 64-byte slice of every 64 KB block of the file. */
module LeafContent {
  import opened Bytes

  /** How much of the file is read at a time: a whole number of blocks. */
  const DISK_READ: nat := 10485760

  function Block(data: Bytes): Bytes { data[..Min(LEAF_SIZE, |data|)] }

  /** The idx-th 64-byte slice of a block: short, or empty, where the block ends. */
  function SliceOf(block: Bytes, idx: nat): (s: Bytes)
    ensures |s| == if |block| <= idx * CHUNK then 0 else Min(CHUNK, |block| - idx * CHUNK)
  {
    block[Min(idx * CHUNK, |block|)..Min(idx * CHUNK + CHUNK, |block|)]
  }

  function Column(data: Bytes, idx: nat): Bytes {
    if data == [] then [] else SliceOf(Block(data), idx) + Column(data[|Block(data)|..], idx)
  }

  /** CalculateLeafContentLevelForIndex */
  function ContentLevels(dataSize: nat, idx: nat): int {
    var levelFor0Idx := (dataSize + LEAF_SIZE - 1) / LEAF_SIZE;
    if dataSize % LEAF_SIZE == 0 || idx == 0 then levelFor0Idx
    else
      var curRowSize := dataSize - (levelFor0Idx - 1) * LEAF_SIZE;
      if idx >= (curRowSize + CHUNK - 1) / CHUNK then levelFor0Idx - 1 else levelFor0Idx
  }

  lemma BlocksAfterFirst(n: nat)
    requires n >= LEAF_SIZE
    ensures (n - LEAF_SIZE) % LEAF_SIZE == n % LEAF_SIZE && (n - LEAF_SIZE) / LEAF_SIZE == n / LEAF_SIZE - 1
  {}

  lemma {:induction false} ColumnLength(data: Bytes, idx: nat)
    requires idx < FIXED_MERKLE_LEAVES
    ensures var last := |data| % LEAF_SIZE;
            |Column(data, idx)| == CHUNK * (|data| / LEAF_SIZE)
              + (if last <= idx * CHUNK then 0 else Min(CHUNK, last - idx * CHUNK))
  {
    if |data| >= LEAF_SIZE {
      ColumnLength(data[LEAF_SIZE..], idx);
      BlocksAfterFirst(|data|);
      assert Block(data) == data[..LEAF_SIZE] && |SliceOf(Block(data), idx)| == CHUNK;
    } else if data != [] {
      assert Block(data) == data && data[|data|..] == [];
    }
  }

  /** The content has a j-th byte from the k-th block exactly when the block has it, and it is the same. */
  ghost predicate SameByte(proof: Bytes, data: Bytes, idx: nat, k: nat, j: nat) {
    var to, from := CHUNK * k + j, LEAF_SIZE * k + CHUNK * idx + j;
    (to < |proof| <==> from < |data|) && (to < |proof| && from < |data| ==> proof[to] == data[from])
  }

  ghost predicate IsLeafContent(proof: Bytes, data: Bytes, idx: nat) {
    forall k: nat, j: nat :: j < CHUNK ==> SameByte(proof, data, idx, k, j)
  }

  lemma ColumnIsLeafContent(data: Bytes, idx: nat)
    requires idx < FIXED_MERKLE_LEAVES
    ensures IsLeafContent(Column(data, idx), data, idx)
  {
    forall k: nat, j: nat | j < CHUNK ensures SameByte(Column(data, idx), data, idx, k, j) {
      ColumnByte(data, idx, k, j);
    }
  }

  lemma {:induction false} ColumnByte(data: Bytes, idx: nat, k: nat, j: nat)
    requires idx < FIXED_MERKLE_LEAVES && j < CHUNK
    ensures SameByte(Column(data, idx), data, idx, k, j)
    decreases k
  {
    ColumnUnfolds(data, idx);
    if |data| >= LEAF_SIZE {
      if k > 0 {
        ColumnByte(data[LEAF_SIZE..], idx, k - 1, j);
        LaterByte(data, Column(data[LEAF_SIZE..], idx), idx, k, j);
      } else {
        FirstByte(data, Column(data[LEAF_SIZE..], idx), idx, j);
      }
    } else {
      LastByte(data, idx, k, j);
    }
  }

  lemma ColumnUnfolds(data: Bytes, idx: nat)
    ensures |data| >= LEAF_SIZE ==>
              Column(data, idx) == SliceOf(data[..LEAF_SIZE], idx) + Column(data[LEAF_SIZE..], idx)
    ensures |data| < LEAF_SIZE ==> Column(data, idx) == SliceOf(data, idx)
  {
    if |data| >= LEAF_SIZE {
      assert Block(data) == data[..LEAF_SIZE];
    } else if data != [] {
      assert Block(data) == data && data[|data|..] == [] && Column([], idx) == [];
    }
  }

  lemma LastByte(data: Bytes, idx: nat, k: nat, j: nat)
    requires idx < FIXED_MERKLE_LEAVES && j < CHUNK && |data| < LEAF_SIZE
    ensures SameByte(SliceOf(data, idx), data, idx, k, j)
  {
    assert k > 0 ==> CHUNK * k >= CHUNK && LEAF_SIZE * k >= LEAF_SIZE;
  }

  lemma FirstByte(data: Bytes, rest: Bytes, idx: nat, j: nat)
    requires idx < FIXED_MERKLE_LEAVES && j < CHUNK && |data| >= LEAF_SIZE
    ensures SameByte(SliceOf(data[..LEAF_SIZE], idx) + rest, data, idx, 0, j)
  {
    assert |SliceOf(data[..LEAF_SIZE], idx)| == CHUNK;
  }

  lemma LaterByte(data: Bytes, rest: Bytes, idx: nat, k: nat, j: nat)
    requires idx < FIXED_MERKLE_LEAVES && j < CHUNK && k > 0 && |data| >= LEAF_SIZE
    requires SameByte(rest, data[LEAF_SIZE..], idx, k - 1, j)
    ensures SameByte(SliceOf(data[..LEAF_SIZE], idx) + rest, data, idx, k, j)
  {
    assert |SliceOf(data[..LEAF_SIZE], idx)| == CHUNK;
  }

  /** The content fills all its levels but perhaps the last, which is never empty. */
  lemma ContentFillsLevels(data: Bytes, idx: nat)
    requires idx < FIXED_MERKLE_LEAVES
    ensures var levels := ContentLevels(|data|, idx);
            (levels - 1) * CHUNK < |Column(data, idx)| <= levels * CHUNK
  {
    ColumnLength(data, idx);
    var q, last := |data| / LEAF_SIZE, |data| % LEAF_SIZE;
    var level0 := (|data| + LEAF_SIZE - 1) / LEAF_SIZE;
    if last == 0 {
      assert level0 == q;
    } else {
      assert level0 == q + 1 && last == |data| - q * LEAF_SIZE;
      assert idx >= (last + CHUNK - 1) / CHUNK <==> last <= idx * CHUNK;
    }
  }

  lemma {:induction false} ColumnSplit(a: Bytes, b: Bytes, idx: nat)
    requires |a| % LEAF_SIZE == 0 || b == []
    ensures Column(a + b, idx) == Column(a, idx) + Column(b, idx)
  {
    if b == [] {
      assert a + b == a;
    } else if a == [] {
      assert a + b == b;
    } else {
      assert Block(a + b) == Block(a);
      var rest := a[|Block(a)|..];
      assert (a + b)[|Block(a)|..] == rest + b;
      ColumnSplit(rest, b, idx);
    }
  }

  function Blocks(n: nat): nat { (n + LEAF_SIZE - 1) / LEAF_SIZE }

  /** The offsets cut down to a block, as the inner loop does it. */
  method CutSlice(data: Bytes, idx: nat, offset: nat, limit: nat)
    returns (idxOffset: nat, idxLimit: nat)
    requires offset == idx * CHUNK && limit == offset + CHUNK
    ensures idxOffset == Min(offset, |data|) && idxLimit == Min(limit, |data|)
    ensures idxOffset <= idxLimit && data[idxOffset..idxLimit] == SliceOf(data, idx)
    ensures limit <= |data| ==> idxOffset == offset && idxLimit == limit
  {
    idxOffset, idxLimit := offset, limit;
    if idxLimit > |data| {
      idxLimit := |data|;
      if idxOffset > |data| {
        idxOffset := |data|;
      }
    }
  }

  /**
   * The inner loop, over the blocks of one read.  The offsets are shrunk for a short block and
   * stay so; `more` says that there is something left to read after b.
   */
  method CopyBlocks(b: Bytes, idx: nat, offset: nat, limit: nat, capacity: nat, written: Bytes, ghost more: bool)
    returns (proof: Bytes, idxOffset: nat, idxLimit: nat)
    requires idx < FIXED_MERKLE_LEAVES && b != [] && (|b| % LEAF_SIZE == 0 || !more)
    requires offset == idx * CHUNK && limit == offset + CHUNK
    requires |written| + CHUNK * Blocks(|b|) <= capacity
    ensures proof == written + Column(b, idx)
    ensures more ==> idxOffset == offset && idxLimit == limit
    ensures |proof| <= |written| + CHUNK * Blocks(|b|)
  {
    proof, idxOffset, idxLimit := written, offset, limit;
    var i := 0;
    ghost var k := 0;
    assert b[0..] == b;
    while i < |b|
      invariant i == LEAF_SIZE * k && k <= Blocks(|b|)
      invariant Copied(b, idx, written, i, proof)
      invariant i < |b| || more ==> idxOffset == offset && idxLimit == limit
      invariant |proof| <= |written| + CHUNK * k
    {
      var endIndex := Min(i + LEAF_SIZE, |b|);
      var data := b[i..endIndex];
      BlockArithmetic(|b|, i, k, idx, more);
      assert |proof| + CHUNK <= capacity;   // the 64-byte window the slice is copied to
      CopiedStep(b, idx, written, i, proof);
      idxOffset, idxLimit := CutSlice(data, idx, idxOffset, idxLimit);
      proof := proof + data[idxOffset..idxLimit];
      i, k := i + LEAF_SIZE, k + 1;
    }
    AllCopied(b, idx, written, i, proof);
  }

  /** The k-th block counts as one, and is whole unless it is the last of a read that is the last. */
  lemma BlockArithmetic(n: nat, i: nat, k: nat, idx: nat, more: bool)
    requires i == LEAF_SIZE * k && i < n && (n % LEAF_SIZE == 0 || !more) && idx < FIXED_MERKLE_LEAVES
    ensures k + 1 <= Blocks(n) && CHUNK * k + CHUNK <= CHUNK * Blocks(n)
    ensures i + LEAF_SIZE <= n || (!more && i + LEAF_SIZE >= n)
    ensures idx * CHUNK + CHUNK <= LEAF_SIZE
  {}

  lemma AllCopied(b: Bytes, idx: nat, written: Bytes, i: nat, proof: Bytes)
    requires i >= |b| && Copied(b, idx, written, i, proof)
    ensures proof == written + Column(b, idx)
  {
    assert b[|b|..] == [] && proof + [] == proof;
  }

  /** The bytes before i are done. */
  ghost predicate Copied(b: Bytes, idx: nat, written: Bytes, i: nat, proof: Bytes) {
    proof + Column(b[Min(i, |b|)..], idx) == written + Column(b, idx)
  }

  lemma CopiedStep(b: Bytes, idx: nat, written: Bytes, i: nat, proof: Bytes)
    requires i < |b| && Copied(b, idx, written, i, proof)
    ensures Copied(b, idx, written, i + LEAF_SIZE, proof + SliceOf(b[i..Min(i + LEAF_SIZE, |b|)], idx))
  {
    var end := Min(i + LEAF_SIZE, |b|);
    ColumnStep(b, i, idx);
    Assoc(proof, SliceOf(b[i..end], idx), Column(b[end..], idx));
  }

  lemma ColumnStep(b: Bytes, i: nat, idx: nat)
    requires i < |b|
    ensures var end := Min(i + LEAF_SIZE, |b|); Column(b[i..], idx) == SliceOf(b[i..end], idx) + Column(b[end..], idx)
  {
    var end := Min(i + LEAF_SIZE, |b|);
    assert Block(b[i..]) == b[i..end];
    assert b[i..][end - i..] == b[end..];
  }

  /**
   * GetLeafContent over a reader that fills its buffer except at the end: data is what the reader
   * delivers, and every read returns as much of it as the buffer, cut to the last read, can hold.
   */
  method GetLeafContent(data: Bytes, idx: nat) returns (proof: Bytes)
    requires idx < FIXED_MERKLE_LEAVES
    ensures proof == Column(data, idx) && IsLeafContent(proof, data, idx)
  {
    var levels := ContentLevels(|data|, idx) + 1;
    LevelsHoldBlocks(|data|, idx);
    var capacity: nat := levels * CHUNK;
    var idxOffset, idxLimit := idx * CHUNK, idx * CHUNK + CHUNK;
    var bufSize, pos := DISK_READ, 0;
    ghost var k := 0;
    proof := [];
    assert data[0..] == data;
    while true
      invariant pos <= |data| && bufSize > 0
      invariant pos < |data| ==> bufSize == DISK_READ && pos == LEAF_SIZE * k
      invariant pos < |data| ==> idxOffset == idx * CHUNK && idxLimit == idx * CHUNK + CHUNK && |proof| <= CHUNK * k
      invariant proof + Column(data[pos..], idx) == Column(data, idx)
      decreases |data| - pos
    {
      var n := Min(bufSize, |data| - pos);
      if n == 0 {
        break;
      }
      var b := data[pos..pos + n];
      bufSize := n;
      ghost var rest := data[pos + n..];
      assert data[pos..] == b + rest;
      ColumnSplit(b, rest, idx);
      Assoc(proof, Column(b, idx), Column(rest, idx));
      BlocksSoFar(pos, n, |data|, k);
      proof, idxOffset, idxLimit := CopyBlocks(b, idx, idxOffset, idxLimit, capacity, proof, pos + n < |data|);
      pos, k := pos + n, k + Blocks(n);
    }
    ColumnIsLeafContent(data, idx);
  }

  lemma BlocksSoFar(pos: nat, n: nat, size: nat, k: nat)
    requires pos == LEAF_SIZE * k && pos + n <= size && (pos + n < size ==> n == DISK_READ)
    ensures k + Blocks(n) <= Blocks(size) && (pos + n < size ==> n == LEAF_SIZE * Blocks(n))
  {}

  /** The buffer has room for a whole slice of every block. */
  lemma LevelsHoldBlocks(dataSize: nat, idx: nat)
    ensures ContentLevels(dataSize, idx) + 1 >= Blocks(dataSize)
  {
  }
}
