/**
 * Reference nodes as the objects the program updates in place: the incremental hash computation
 * over a tree of them, and the insertion of a child in its sorted place.
 */
module RefNodes {
  import opened RefTree

  // ---------- the order of paths ----------

  /** strings.Compare(a, b) == -1. */
  predicate Less(a: string, b: string) {
    b != [] && (a == [] || a[0] < b[0] || (a[0] == b[0] && Less(a[1..], b[1..])))
  }

  lemma {:induction false} LessIsStrict(a: string)
    ensures !Less(a, a)
  {
    if a != [] {
      LessIsStrict(a[1..]);
    }
  }

  lemma {:induction false} LessIsTransitive(a: string, b: string, c: string)
    requires Less(a, b) && Less(b, c)
    ensures Less(a, c)
  {
    if a != [] && a[0] == b[0] && b[0] == c[0] {
      LessIsTransitive(a[1..], b[1..], c[1..]);
    }
  }

  lemma {:induction false} LessIsTotal(a: string, b: string)
    ensures a == b || Less(a, b) || Less(b, a)
  {
    if a != [] && b != [] && a[0] == b[0] {
      LessIsTotal(a[1..], b[1..]);
      if a[1..] == b[1..] {
        assert a == [a[0]] + a[1..] == b;
      }
    }
  }

  /** The running values of CalculateDirHash after these children. */
  ghost predicate Summarised(ts: seq<Tree>, hashes: seq<string>, blocks: nat, total: nat, actual: nat) {
    && hashes == HashesOf(ts)
    && blocks == Total(ts, (s: Sums) => s.numBlocks)
    && total == Total(ts, (s: Sums) => s.size)
    && actual == Total(ts, (s: Sums) => s.actualFileSize)
  }

  lemma SummarisedPush(ts: seq<Tree>, c: Tree, hashes: seq<string>, blocks: nat, total: nat, actual: nat)
    requires Summarised(ts, hashes, blocks, total, actual)
    ensures Summarised(ts + [c], hashes + [c.sums.fileMetaHash], blocks + c.sums.numBlocks,
                       total + c.sums.size, actual + c.sums.actualFileSize)
  {
    assert (ts + [c])[..|ts|] == ts;
    assert HashesOf(ts + [c]) == HashesOf(ts) + [c.sums.fileMetaHash];
  }

  /** The children when the first n have had their turn. */
  ghost function Refreshed(h: Hash, ts: seq<Tree>, n: nat): seq<Tree> {
    seq(|ts|, i requires 0 <= i < |ts| => if i < n then IncrementalChild(h, ts[i]) else ts[i])
  }

  lemma RefreshedStep(h: Hash, ts: seq<Tree>, n: nat)
    requires n < |ts|
    ensures var now, next := Refreshed(h, ts, n), Refreshed(h, ts, n + 1);
            && now[n] == ts[n]
            && now[n := IncrementalChild(h, ts[n])] == next
            && next[..n + 1] == now[..n] + [IncrementalChild(h, ts[n])]
  {}

  class Ref {
    const isDir: bool
    const name: string
    const path: string
    const parentPath: string
    const actualFileHash: string
    const chunkSize: Positive
    const hashToBeComputed: bool
    var fileMetaHash: string
    var numBlocks: nat
    var size: nat
    var actualFileSize: nat
    var children: seq<Ref>
    ghost var Repr: set<Ref>

    constructor (isDir: bool, name: string, path: string, parentPath: string, actualFileHash: string,
                 chunkSize: Positive, hashToBeComputed: bool, sums: Sums)
      ensures this.isDir == isDir && this.name == name && this.path == path && this.parentPath == parentPath
      ensures this.actualFileHash == actualFileHash && this.chunkSize == chunkSize
      ensures this.hashToBeComputed == hashToBeComputed && SumsNow() == sums && children == []
      ensures Valid() && fresh(Repr)
    {
      this.isDir, this.name, this.path, this.parentPath := isDir, name, path, parentPath;
      this.actualFileHash, this.chunkSize, this.hashToBeComputed := actualFileHash, chunkSize, hashToBeComputed;
      fileMetaHash, numBlocks := sums.fileMetaHash, sums.numBlocks;
      size, actualFileSize := sums.size, sums.actualFileSize;
      children := [];
      Repr := {this};
    }

    /** The node is the root of a tree: its children's subtrees are disjoint and do not hold it. */
    ghost predicate Valid()
      reads this, Repr
      decreases Repr
    {
      && this in Repr
      && (forall c :: c in children ==>
            c in Repr && c.Repr <= Repr && this !in c.Repr && c.Valid())
      && (forall i, j :: 0 <= i < j < |children| ==> children[i].Repr !! children[j].Repr)
    }

    ghost function SumsNow(): Sums
      reads this
    {
      Sums(fileMetaHash, numBlocks, size, actualFileSize)
    }

    ghost function InfoNow(): Info {
      Info(isDir, path, actualFileHash, chunkSize, hashToBeComputed)
    }

    /** The tree below this node has the value t. */
    ghost predicate Is(t: Tree)
      requires Valid()
      reads this, Repr
      decreases t
    {
      && t.info == InfoNow() && t.sums == SumsNow() && ChildrenAre(t.children)
    }

    ghost predicate ChildrenAre(ts: seq<Tree>)
      requires Valid()
      reads this, Repr
      decreases ts
    {
      && |ts| == |children|
      && forall i :: 0 <= i < |children| ==> children[i].Is(ts[i])
    }

    /** Every node has a value. */
    ghost function Value(): (t: Tree)
      requires Valid()
      ensures Is(t)
      reads this, Repr
      decreases Repr, 1
    {
      Tree(InfoNow(), SumsNow(), ValuesOf(|children|))
    }

    ghost function ValuesOf(n: nat): (ts: seq<Tree>)
      requires Valid() && n <= |children|
      ensures |ts| == n && forall i :: 0 <= i < n ==> children[i].Is(ts[i])
      reads this, Repr
      decreases Repr, 0, n
    {
      if n == 0 then [] else ValuesOf(n - 1) + [children[n - 1].Value()]
    }

    /** And no more than one. */
    lemma {:induction false} ValueIsUnique(t: Tree, u: Tree)
      requires Valid() && Is(t) && Is(u)
      ensures t == u
      decreases t
    {
      forall i | 0 <= i < |children| ensures t.children[i] == u.children[i] {
        children[i].ValueIsUnique(t.children[i], u.children[i]);
      }
      assert t.children == u.children;
    }

    method CalculateFileHash(h: Hash) returns (hash: string)
      modifies this`fileMetaHash, this`numBlocks
      ensures SumsNow() == FileSums(h, InfoNow(), old(SumsNow())) && hash == fileMetaHash
      ensures BlocksCover(size, chunkSize, numBlocks)
      ensures fileMetaHash == h(FileMeta(path, size, actualFileSize, actualFileHash))
    {
      CeilingCovers(size, chunkSize);
      fileMetaHash := h(FileMeta(path, size, actualFileSize, actualFileHash));
      numBlocks := Blocks(size, chunkSize);
      return fileMetaHash;
    }

    method CalculateHash(h: Hash, ghost t: Tree) returns (hash: string)
      requires Valid() && Is(t)
      modifies Repr`fileMetaHash, Repr`numBlocks, Repr`size, Repr`actualFileSize
      ensures Valid() && Is(Incremental(h, t)) && hash == fileMetaHash
      ensures Value() == Incremental(h, t)
      decreases t, 1
    {
      if isDir {
        hash := CalculateDirHash(h, t);
      } else {
        hash := CalculateFileHash(h);
      }
      ValueIsUnique(Value(), Incremental(h, t));
    }

    method CalculateDirHash(h: Hash, ghost t: Tree) returns (hash: string)
      requires Valid() && Is(t) && isDir
      modifies Repr`fileMetaHash, Repr`numBlocks, Repr`size, Repr`actualFileSize
      ensures Valid() && Is(Incremental(h, t)) && hash == fileMetaHash
      decreases t, 0
    {
      if !hashToBeComputed {
        return fileMetaHash;
      }
      var sums := RefreshChildren(h, t.children);
      ghost var after := Refreshed(h, t.children, |children|);
      assert after == Incremental(h, t).children;
      SetSums(sums, after);
      return fileMetaHash;
    }

    /** The loop of CalculateDirHash. */
    method RefreshChildren(h: Hash, ghost ts: seq<Tree>) returns (sums: Sums)
      requires Valid() && ChildrenAre(ts) && isDir
      modifies Repr`fileMetaHash, Repr`numBlocks, Repr`size, Repr`actualFileSize
      ensures Valid() && ChildrenAre(Refreshed(h, ts, |ts|))
      ensures sums == DirSums(h, InfoNow(), Refreshed(h, ts, |ts|))
      decreases ts
    {
      var hashes: seq<string> := [];
      var blocks: nat, total: nat, actual: nat := 0, 0, 0;
      assert Refreshed(h, ts, 0) == ts;
      for i := 0 to |children|
        invariant Valid() && ChildrenAre(Refreshed(h, ts, i))
        invariant Summarised(Refreshed(h, ts, i)[..i], hashes, blocks, total, actual)
      {
        RefreshedStep(h, ts, i);
        var child := RefreshChild(h, i, Refreshed(h, ts, i));
        SummarisedPush(Refreshed(h, ts, i)[..i], IncrementalChild(h, ts[i]), hashes, blocks, total, actual);
        hashes := hashes + [child.fileMetaHash];
        blocks, total, actual := blocks + child.numBlocks, total + child.size, actual + child.actualFileSize;
      }
      assert Refreshed(h, ts, |ts|)[..|ts|] == Refreshed(h, ts, |ts|);
      return Sums(h(DirMeta(path, hashes)), blocks, total, actual);
    }

    /** The turn of one child: what it then shows. */
    method RefreshChild(h: Hash, i: nat, ghost ts: seq<Tree>) returns (sums: Sums)
      requires Valid() && ChildrenAre(ts) && i < |children|
      modifies children[i].Repr`fileMetaHash, children[i].Repr`numBlocks
      modifies children[i].Repr`size, children[i].Repr`actualFileSize
      ensures Valid() && ChildrenAre(ts[i := IncrementalChild(h, ts[i])])
      ensures sums == IncrementalChild(h, ts[i]).sums
      decreases ts[i], 2
    {
      var child := children[i];
      if child.hashToBeComputed {
        var _ := child.CalculateHash(h, ts[i]);
      }
      assert child.Is(IncrementalChild(h, ts[i]));
      return Sums(child.fileMetaHash, child.numBlocks, child.size, child.actualFileSize);
    }

    method SetSums(sums: Sums, ghost ts: seq<Tree>)
      requires Valid() && ChildrenAre(ts)
      modifies this`fileMetaHash, this`numBlocks, this`size, this`actualFileSize
      ensures Valid() && ChildrenAre(ts) && SumsNow() == sums
    {
      fileMetaHash, numBlocks := sums.fileMetaHash, sums.numBlocks;
      size, actualFileSize := sums.size, sums.actualFileSize;
    }

    /** A child of the same name is replaced; otherwise the child goes before the first greater path. */
    method AddChild(child: Ref)
      modifies this`children
      ensures children == Inserted(old(children), child)
    {
      ghost var before := children;
      var i := 0;
      assert before[..0] == [] && before[0..] == before;
      while i < |children|
        invariant 0 <= i <= |children| && children == before
        invariant Inserted(before, child) == before[..i] + Inserted(before[i..], child)
      {
        InsertedFrom(before, child, i);
        if child.name == children[i].name {
          children := children[i := child];
          return;
        }
        if Less(child.path, children[i].path) {
          children := children[..i + 1] + children[i..];
          children := children[i := child];
          return;
        }
        i := i + 1;
      }
      children := children + [child];
    }
  }

  // ---------- keeping children sorted ----------

  function Inserted(children: seq<Ref>, child: Ref): seq<Ref> {
    if children == [] then [child]
    else if child.name == children[0].name then [child] + children[1..]
    else if Less(child.path, children[0].path) then [child] + children
    else [children[0]] + Inserted(children[1..], child)
  }

  lemma InsertedFrom(children: seq<Ref>, child: Ref, i: nat)
    requires i < |children|
    ensures children[..i] + Inserted(children[i..], child) ==
            if child.name == children[i].name then children[i := child]
            else if Less(child.path, children[i].path) then (children[..i + 1] + children[i..])[i := child]
            else children[..i + 1] + Inserted(children[i + 1..], child)
  {
    assert children[i..][0] == children[i] && children[i..][1..] == children[i + 1..];
    assert children[..i] + [children[i]] == children[..i + 1];
  }

  predicate Sorted(children: seq<Ref>) {
    forall i, j :: 0 <= i < j < |children| ==> Less(children[i].path, children[j].path)
  }

  /** Among siblings, the same name is the same path. */
  predicate SameNameSamePath(a: Ref, b: Ref) {
    a.name == b.name <==> a.path == b.path
  }

  /** The elements of after are the child and every element of before at another path. */
  ghost predicate PutAtPath(before: seq<Ref>, child: Ref, after: seq<Ref>) {
    && child in after
    && (forall i :: 0 <= i < |after| ==> after[i] == child || (after[i] in before && after[i].path != child.path))
    && (forall c :: c in before && c.path != child.path ==> c in after)
  }

  /** AddChild keeps siblings strictly sorted, and changes nothing but the place of the child's path. */
  lemma {:induction false} InsertedIsSorted(children: seq<Ref>, child: Ref)
    requires Sorted(children) && forall c :: c in children ==> SameNameSamePath(c, child)
    ensures Sorted(Inserted(children, child)) && PutAtPath(children, child, Inserted(children, child))
  {
    if children != [] {
      var head, tail, after := children[0], children[1..], Inserted(children, child);
      assert SameNameSamePath(head, child);
      forall i | 0 <= i < |tail| ensures Less(head.path, tail[i].path) && tail[i] in children {
        assert tail[i] == children[i + 1];
      }
      LessIsStrict(head.path);
      LessIsStrict(child.path);
      if child.name == head.name {
        assert after == [child] + tail;
      } else if Less(child.path, head.path) {
        assert after == [child] + children;
        forall i | 0 <= i < |children| ensures Less(child.path, children[i].path) {
          if i > 0 {
            LessIsTransitive(child.path, head.path, children[i].path);
          }
        }
      } else {
        LessIsTotal(child.path, head.path);
        InsertedIsSorted(tail, child);
        assert after == [head] + Inserted(tail, child);
      }
    }
  }
}
