/**
 * Incremental recomputation of hashes and sizes in a tree of references: only flagged nodes are
 * recomputed.  The tree is a structure of objects updated in place; what a call does is a function
 * of the value of the tree before it.
 */
module RefTree {
  type Positive = n: nat | n > 0 witness 1

  /** What is hashed for a file and for a directory. */
  datatype HashInput =
    | FileMeta(path: string, size: nat, actualFileSize: nat, actualFileHash: string)
    | DirMeta(path: string, childHashes: seq<string>)

  /** encryption.Hash over the formatted input: any function. */
  type Hash = HashInput -> string

  /** The fields that are the same whatever is recomputed. */
  datatype Info = Info(isDir: bool, path: string, actualFileHash: string, chunkSize: Positive, hashToBeComputed: bool)

  /** The fields a recomputation sets; a file's sizes are given. */
  datatype Sums = Sums(fileMetaHash: string, numBlocks: nat, size: nat, actualFileSize: nat)

  datatype Tree = Tree(info: Info, sums: Sums, children: seq<Tree>)

  // ---------- recomputation on values ----------

  function Blocks(size: nat, chunkSize: Positive): nat { (size + chunkSize - 1) / chunkSize }

  function FileSums(h: Hash, info: Info, s: Sums): Sums {
    s.(fileMetaHash := h(FileMeta(info.path, s.size, s.actualFileSize, info.actualFileHash)),
       numBlocks := Blocks(s.size, info.chunkSize))
  }

  function HashesOf(children: seq<Tree>): seq<string> {
    seq(|children|, i requires 0 <= i < |children| => children[i].sums.fileMetaHash)
  }

  function Total(children: seq<Tree>, f: Sums -> nat): nat {
    if children == [] then 0 else Total(children[..|children| - 1], f) + f(children[|children| - 1].sums)
  }

  function DirSums(h: Hash, info: Info, children: seq<Tree>): Sums {
    Sums(h(DirMeta(info.path, HashesOf(children))),
         Total(children, (s: Sums) => s.numBlocks),
         Total(children, (s: Sums) => s.size),
         Total(children, (s: Sums) => s.actualFileSize))
  }

  /** CalculateHash: an unflagged directory is left alone, and so are unflagged children. */
  function Incremental(h: Hash, t: Tree): (r: Tree)
    ensures r.info == t.info && |r.children| == |t.children|
    decreases t, 0
  {
    if !t.info.isDir then t.(sums := FileSums(h, t.info, t.sums))
    else if !t.info.hashToBeComputed then t
    else
      var children := seq(|t.children|, i requires 0 <= i < |t.children| => IncrementalChild(h, t.children[i]));
      t.(children := children, sums := DirSums(h, t.info, children))
  }

  function IncrementalChild(h: Hash, c: Tree): (r: Tree)
    ensures r.info == c.info
    decreases c, 1
  {
    if c.info.hashToBeComputed then Incremental(h, c) else c
  }

  /** The same with every node recomputed. */
  function Full(h: Hash, t: Tree): Tree {
    if !t.info.isDir then t.(sums := FileSums(h, t.info, t.sums))
    else
      var children := seq(|t.children|, i requires 0 <= i < |t.children| => Full(h, t.children[i]));
      t.(children := children, sums := DirSums(h, t.info, children))
  }

  /** Every node has the hash and the sums of its own fields and its children. */
  ghost predicate Consistent(h: Hash, t: Tree) {
    if t.info.isDir then t.sums == DirSums(h, t.info, t.children) && forall c :: c in t.children ==> Consistent(h, c)
    else t.sums == FileSums(h, t.info, t.sums)
  }

  /** Every topmost unflagged node below t is consistent, and so are all below it. */
  ghost predicate UnflaggedConsistent(h: Hash, t: Tree)
    decreases t, 0
  {
    t.info.isDir ==>
      if !t.info.hashToBeComputed then Consistent(h, t)
      else forall c :: c in t.children ==> ChildConsistent(h, c)
  }

  ghost predicate ChildConsistent(h: Hash, c: Tree)
    decreases c, 1
  {
    if c.info.hashToBeComputed then UnflaggedConsistent(h, c) else Consistent(h, c)
  }

  /** Recomputing everything changes nothing exactly in a consistent tree. */
  lemma {:induction false} ConsistentExactly(h: Hash, t: Tree)
    ensures Consistent(h, t) <==> Full(h, t) == t
    decreases t
  {
    if t.info.isDir {
      var children := Full(h, t).children;
      forall i | 0 <= i < |t.children| ensures Consistent(h, t.children[i]) <==> children[i] == t.children[i] {
        ConsistentExactly(h, t.children[i]);
      }
      if Consistent(h, t) {
        forall i | 0 <= i < |t.children| ensures children[i] == t.children[i] {
          assert t.children[i] in t.children;
        }
        assert children == t.children;
      }
      if Full(h, t) == t {
        forall c | c in t.children ensures Consistent(h, c) {
          var i :| 0 <= i < |t.children| && t.children[i] == c;
          assert children[i] == t.children[i];
        }
      }
    }
  }

  lemma {:induction false} FullIsConsistent(h: Hash, t: Tree)
    ensures Consistent(h, Full(h, t))
    decreases t
  {
    if t.info.isDir {
      var r := Full(h, t);
      forall c | c in r.children ensures Consistent(h, c) {
        var i :| 0 <= i < |r.children| && r.children[i] == c;
        FullIsConsistent(h, t.children[i]);
      }
    }
  }

  /** CalculateHash leaves a consistent tree exactly when the subtrees it leaves alone were consistent. */
  lemma {:induction false} IncrementalIsConsistentExactly(h: Hash, t: Tree)
    ensures Consistent(h, Incremental(h, t)) <==> UnflaggedConsistent(h, t)
    decreases t
  {
    if t.info.isDir && t.info.hashToBeComputed {
      var r := Incremental(h, t);
      forall i | 0 <= i < |t.children|
        ensures Consistent(h, r.children[i]) <==> ChildConsistent(h, t.children[i])
      {
        assert r.children[i] == IncrementalChild(h, t.children[i]);
        IncrementalIsConsistentExactly(h, t.children[i]);
      }
      if Consistent(h, r) {
        forall c | c in t.children ensures ChildConsistent(h, c) {
          var i :| 0 <= i < |t.children| && t.children[i] == c;
          assert r.children[i] in r.children;
        }
      }
      if UnflaggedConsistent(h, t) {
        forall c | c in r.children ensures Consistent(h, c) {
          var i :| 0 <= i < |r.children| && r.children[i] == c;
          assert t.children[i] in t.children;
        }
      }
    }
  }

  lemma {:induction false} ChildIsFullExactly(h: Hash, c: Tree)
    ensures IncrementalChild(h, c) == Full(h, c) <==> ChildConsistent(h, c)
    decreases c, 1
  {
    if c.info.hashToBeComputed {
      IncrementalIsFullExactly(h, c);
    } else {
      ConsistentExactly(h, c);
    }
  }

  /** The incremental recomputation is a full one exactly then, too. */
  lemma {:induction false} IncrementalIsFullExactly(h: Hash, t: Tree)
    ensures Incremental(h, t) == Full(h, t) <==> UnflaggedConsistent(h, t)
    decreases t, 0
  {
    if t.info.isDir && t.info.hashToBeComputed {
      var a, b := Incremental(h, t).children, Full(h, t).children;
      forall i | 0 <= i < |t.children| ensures a[i] == b[i] <==> ChildConsistent(h, t.children[i]) {
        assert a[i] == IncrementalChild(h, t.children[i]) && b[i] == Full(h, t.children[i]);
        ChildIsFullExactly(h, t.children[i]);
      }
      if a == b {
        forall c | c in t.children ensures ChildConsistent(h, c) {
          var i :| 0 <= i < |t.children| && t.children[i] == c;
          assert a[i] == b[i];
        }
      }
      if UnflaggedConsistent(h, t) {
        forall i | 0 <= i < |t.children| ensures a[i] == b[i] {
          assert t.children[i] in t.children;
        }
        assert a == b;
      }
    } else {
      ConsistentExactly(h, t);
    }
  }

  // ---------- totals over the files ----------

  function Leaves(t: Tree): seq<Sums>
    decreases t, 1
  {
    if t.info.isDir then LeavesOf(t.children) else [t.sums]
  }

  function LeavesOf(ts: seq<Tree>): seq<Sums>
    decreases ts, 0
  {
    if ts == [] then [] else LeavesOf(ts[..|ts| - 1]) + Leaves(ts[|ts| - 1])
  }

  function SumOf(leaves: seq<Sums>, f: Sums -> nat): nat {
    if leaves == [] then 0 else SumOf(leaves[..|leaves| - 1], f) + f(leaves[|leaves| - 1])
  }

  lemma {:induction false} SumOfConcat(a: seq<Sums>, b: seq<Sums>, f: Sums -> nat)
    ensures SumOf(a + b, f) == SumOf(a, f) + SumOf(b, f)
    decreases |b|
  {
    if b == [] {
      assert a + b == a;
    } else {
      assert (a + b)[..|a + b| - 1] == a + b[..|b| - 1];
      SumOfConcat(a, b[..|b| - 1], f);
    }
  }

  /** Every directory has, in this field, the total of its children. */
  ghost predicate Summed(t: Tree, f: Sums -> nat) {
    t.info.isDir ==> f(t.sums) == Total(t.children, f) && forall c :: c in t.children ==> Summed(c, f)
  }

  lemma {:induction false} SummedIsSumOverFiles(t: Tree, f: Sums -> nat)
    requires Summed(t, f)
    ensures f(t.sums) == SumOf(Leaves(t), f)
    decreases t, 1
  {
    if t.info.isDir {
      SummedChildren(t.children, f);
    } else {
      assert SumOf([t.sums], f) == SumOf([t.sums][..0], f) + f(t.sums);
    }
  }

  lemma {:induction false} SummedChildren(ts: seq<Tree>, f: Sums -> nat)
    requires forall c :: c in ts ==> Summed(c, f)
    ensures Total(ts, f) == SumOf(LeavesOf(ts), f)
    decreases ts, 0
  {
    if ts != [] {
      var last := |ts| - 1;
      SummedChildren(ts[..last], f);
      SummedIsSumOverFiles(ts[last], f);
      SumOfConcat(LeavesOf(ts[..last]), Leaves(ts[last]), f);
    }
  }

  /** A field in which DirSums adds the children up. */
  ghost predicate Additive(h: Hash, f: Sums -> nat) {
    forall info, children :: f(DirSums(h, info, children)) == Total(children, f)
  }

  lemma {:induction false} ConsistentIsSummed(h: Hash, t: Tree, f: Sums -> nat)
    requires Additive(h, f) && Consistent(h, t)
    ensures Summed(t, f)
    decreases t
  {
    if t.info.isDir {
      forall c | c in t.children ensures Summed(c, f) {
        ConsistentIsSummed(h, c, f);
      }
      assert f(DirSums(h, t.info, t.children)) == Total(t.children, f);
    }
  }

  // ---------- the blocks of a file ----------

  /** So many chunks hold the file, and no fewer would. */
  predicate BlocksCover(size: nat, chunkSize: Positive, numBlocks: nat) {
    if size == 0 then numBlocks == 0 else chunkSize * (numBlocks - 1) < size <= chunkSize * numBlocks
  }

  lemma CeilingCovers(size: nat, chunkSize: Positive)
    ensures BlocksCover(size, chunkSize, (size + chunkSize - 1) / chunkSize)
  {
    var x := size + chunkSize - 1;
    var q := x / chunkSize;
    assert x == chunkSize * q + x % chunkSize;
    if size == 0 {
      assert q == 0 by {
        assert q >= 1 ==> chunkSize * q >= chunkSize;
      }
    } else {
      assert chunkSize * (q - 1) == chunkSize * q - chunkSize;
    }
  }

  /** Every file of the tree has the blocks that hold it. */
  ghost predicate FilesCovered(t: Tree) {
    if t.info.isDir then forall c :: c in t.children ==> FilesCovered(c)
    else BlocksCover(t.sums.size, t.info.chunkSize, t.sums.numBlocks)
  }

  lemma {:induction false} ConsistentIsCovered(h: Hash, t: Tree)
    requires Consistent(h, t)
    ensures FilesCovered(t)
    decreases t
  {
    if t.info.isDir {
      forall c | c in t.children ensures FilesCovered(c) {
        ConsistentIsCovered(h, c);
      }
    } else {
      CeilingCovers(t.sums.size, t.info.chunkSize);
    }
  }

  /** What is hashed: a file's own fields, or a directory's path with the new hashes of its children in order. */
  lemma RecomputedHash(h: Hash, t: Tree)
    requires t.info.isDir ==> t.info.hashToBeComputed
    ensures var r := Incremental(h, t);
            if t.info.isDir then
              exists hashes ::
                && r.sums.fileMetaHash == h(DirMeta(t.info.path, hashes)) && |hashes| == |t.children|
                && forall i :: 0 <= i < |hashes| ==> hashes[i] == r.children[i].sums.fileMetaHash
            else
              && r.sums.fileMetaHash
                 == h(FileMeta(t.info.path, t.sums.size, t.sums.actualFileSize, t.info.actualFileHash))
              && r.sums.size == t.sums.size && r.sums.actualFileSize == t.sums.actualFileSize
  {
    if t.info.isDir {
      var hashes := HashesOf(Incremental(h, t).children);
      assert Incremental(h, t).sums.fileMetaHash == h(DirMeta(t.info.path, hashes));
    }
  }

  /**
   * With the topmost unflagged nodes consistent, CalculateHash leaves the tree a full recomputation
   * would, every node of it consistent, every file with the blocks that hold it, and the root's totals
   * are the sums over all its files.
   */
  lemma TotalsAreSumsOverFiles(h: Hash, t: Tree)
    requires UnflaggedConsistent(h, t)
    ensures Incremental(h, t) == Full(h, t) && Consistent(h, Incremental(h, t)) && FilesCovered(Incremental(h, t))
    ensures var r := Incremental(h, t);
            && r.sums.numBlocks == SumOf(Leaves(r), (s: Sums) => s.numBlocks)
            && r.sums.size == SumOf(Leaves(r), (s: Sums) => s.size)
            && r.sums.actualFileSize == SumOf(Leaves(r), (s: Sums) => s.actualFileSize)
  {
    IncrementalIsFullExactly(h, t);
    FullIsConsistent(h, t);
    var r := Full(h, t);
    ConsistentIsCovered(h, r);
    var blocks, size, actual := (s: Sums) => s.numBlocks, (s: Sums) => s.size, (s: Sums) => s.actualFileSize;
    ConsistentIsSummed(h, r, blocks);
    ConsistentIsSummed(h, r, size);
    ConsistentIsSummed(h, r, actual);
    SummedIsSumOverFiles(r, blocks);
    SummedIsSumOverFiles(r, size);
    SummedIsSumOverFiles(r, actual);
  }
}
