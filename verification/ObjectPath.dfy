/** Choosing a file by a block number of the whole allocation, for a challenge. */
module ObjectPath {
  import opened Bytes

  /** A reference with its children sorted by path. */
  datatype Ref =
    | File(path: string, numBlocks: nat)
    | Dir(path: string, numBlocks: nat, children: seq<Ref>)

  function Total(refs: seq<Ref>): nat {
    if refs == [] then 0 else refs[0].numBlocks + Total(refs[1..])
  }

  /** Every directory counts the blocks of its children. */
  ghost predicate Consistent(r: Ref) {
    r.Dir? ==> r.numBlocks == Total(r.children) && forall c :: c in r.children ==> Consistent(c)
  }

  /** The files below a reference, in traversal order. */
  function Files(r: Ref): seq<Ref> {
    match r
    case File(_, _) => [r]
    case Dir(_, _, children) => FilesOf(children)
  }

  function FilesOf(refs: seq<Ref>): seq<Ref> {
    if refs == [] then [] else Files(refs[0]) + FilesOf(refs[1..])
  }

  lemma {:induction false} TotalConcat(a: seq<Ref>, b: seq<Ref>)
    ensures Total(a + b) == Total(a) + Total(b)
  {
    if a == [] {
      assert a + b == b;
    } else {
      assert (a + b)[1..] == a[1..] + b;
      TotalConcat(a[1..], b);
    }
  }

  /** A consistent reference has the blocks of its files, */
  lemma {:induction false} BlocksOfFiles(r: Ref)
    requires Consistent(r)
    ensures Total(Files(r)) == r.numBlocks
    decreases r, 1
  {
    match r {
      case File(_, _) => assert [r][1..] == [];
      case Dir(_, _, children) => BlocksOfFilesOf(children);
    }
  }

  lemma {:induction false} BlocksOfFilesOf(refs: seq<Ref>)
    requires forall c :: c in refs ==> Consistent(c)
    ensures Total(FilesOf(refs)) == Total(refs)
    decreases refs, 0
  {
    if refs != [] {
      BlocksOfFiles(refs[0]);
      BlocksOfFilesOf(refs[1..]);
      TotalConcat(Files(refs[0]), FilesOf(refs[1..]));
    }
  }

  // ---------- block numbers and (file, block) pairs ----------

  /** The number of block k, from 1, of file i. */
  function BlockNumber(files: seq<Ref>, i: nat, k: nat): nat
    requires i < |files|
  {
    Total(files[..i]) + k
  }

  predicate IsBlock(files: seq<Ref>, i: nat, k: nat) {
    i < |files| && 1 <= k <= files[i].numBlocks
  }

  lemma TotalUpTo(files: seq<Ref>, i: nat)
    requires i < |files|
    ensures Total(files[..i + 1]) == Total(files[..i]) + files[i].numBlocks
  {
    TotalConcat(files[..i], [files[i]]);
    assert files[..i] + [files[i]] == files[..i + 1];
    assert [files[i]][1..] == [];
  }

  lemma {:induction false} TotalGrows(files: seq<Ref>, i: nat, j: nat)
    requires i <= j <= |files|
    ensures Total(files[..i]) <= Total(files[..j])
    decreases j - i
  {
    if i < j {
      TotalUpTo(files, j - 1);
      TotalGrows(files, i, j - 1);
    }
  }

  /** No number belongs to two blocks, and every one from 1 to the total belongs to one. */
  lemma BlockNumbersAreUnique(files: seq<Ref>, i: nat, k: nat, i': nat, k': nat)
    requires IsBlock(files, i, k) && IsBlock(files, i', k')
    requires BlockNumber(files, i, k) == BlockNumber(files, i', k')
    ensures i == i' && k == k'
  {
    TotalUpTo(files, i);
    TotalUpTo(files, i');
    if i < i' {
      TotalGrows(files, i + 1, i');
    } else if i' < i {
      TotalGrows(files, i' + 1, i);
    }
  }

  lemma BlockNumbersInRange(files: seq<Ref>, i: nat, k: nat)
    requires IsBlock(files, i, k)
    ensures 1 <= BlockNumber(files, i, k) <= Total(files)
  {
    TotalUpTo(files, i);
    TotalGrows(files, i + 1, |files|);
    assert files[..|files|] == files;
  }

  // ---------- the descent ----------

  datatype Found = Found(file: Ref, fileBlockNum: int)

  /** The block found is the one with this number among all files. */
  ghost predicate IsNumbered(files: seq<Ref>, found: Found, blockNum: nat) {
    found.fileBlockNum >= 1 &&
    exists i: nat :: IsBlock(files, i, found.fileBlockNum) && files[i] == found.file
                     && BlockNumber(files, i, found.fileBlockNum) == blockNum
  }

  datatype ObjectPathError = InvalidBlockNum

  /** The first child of the first child, and so on, leads to a file. */
  predicate FirstEnds(r: Ref) { r.File? || (r.children != [] && FirstEnds(r.children[0])) }

  function FirstFile(r: Ref): Ref
    requires FirstEnds(r)
  {
    if r.File? then r else FirstFile(r.children[0])
  }

  /**
   * The children before the chosen one are passed over; `left` is what remains of the block number.
   * A number that is not positive passes over none.
   */
  method ChooseChild(children: seq<Ref>, remaining: int) returns (idx: nat, left: int)
    requires children != [] && remaining <= Total(children)
    ensures idx < |children| && left <= children[idx].numBlocks
    ensures Total(children[..idx]) + left == remaining
    ensures remaining >= 1 ==> left >= 1
    ensures remaining <= 0 ==> idx == 0 && left == remaining
  {
    idx, left := 0, remaining;
    while children[idx].numBlocks < left
      invariant idx < |children| && (remaining >= 1 ==> left >= 1) && (remaining <= 0 ==> idx == 0)
      invariant Total(children[..idx]) + left == remaining
      invariant left <= Total(children[idx..])
      decreases |children| - idx
    {
      TotalUpTo(children, idx);
      assert children[idx..][1..] == children[idx + 1..];
      left := left - children[idx].numBlocks;
      idx := idx + 1;
    }
  }

  lemma {:induction false} FilesOfSplit(refs: seq<Ref>, i: nat)
    requires i < |refs|
    ensures FilesOf(refs) == FilesOf(refs[..i]) + Files(refs[i]) + FilesOf(refs[i + 1..])
  {
    if i == 0 {
      assert refs[..0] == [];
    } else {
      FilesOfSplit(refs[1..], i - 1);
      assert refs[1..][..i - 1] == refs[..i][1..] && refs[1..][i..] == refs[i + 1..];
      assert refs[..i][0] == refs[0];
    }
  }

  /**
   * GetObjectPath.  Found is the block whose number was asked for; None an allocation without blocks.
   * For a number that is not positive it is the first file, with that number, which is no block of it:
   * the search then ends exactly when there is one (NotPositiveSearchEndsExactly).
   */
  method GetObjectPath(root: Ref, blockNum: int) returns (r: Result<Option<Found>, ObjectPathError>)
    requires root.Dir? && Consistent(root)
    requires blockNum <= 0 && root.numBlocks > 0 ==> FirstEnds(root)
    ensures r == Err(InvalidBlockNum) <==> root.numBlocks < blockNum
    ensures r == Ok(None) <==> root.numBlocks == 0 && blockNum <= 0
    ensures r.Ok? && r.value.Some? ==> r.value.value.file.File?
    ensures r.Ok? && r.value.Some? && blockNum >= 1 ==> IsNumbered(Files(root), r.value.value, blockNum)
    ensures root.numBlocks > 0 && blockNum <= 0 ==> r == Ok(Some(Found(FirstFile(root), blockNum)))
  {
    if root.numBlocks < blockNum {
      return Err(InvalidBlockNum);
    }
    if root.numBlocks == 0 {
      return Ok(None);
    }
    var curRef, remainingBlocks := root, blockNum;
    ghost var before: seq<Ref>, after: seq<Ref> := [], [];
    while curRef.Dir?
      invariant Consistent(curRef) && remainingBlocks <= curRef.numBlocks
      invariant blockNum >= 1 ==> remainingBlocks >= 1
      invariant blockNum <= 0 ==>
          remainingBlocks == blockNum && FirstEnds(curRef) && FirstFile(curRef) == FirstFile(root)
      invariant blockNum >= 1 ==> Files(root) == before + Files(curRef) + after
      invariant blockNum >= 1 ==> Total(before) + remainingBlocks == blockNum
      decreases curRef
    {
      var children := curRef.children;
      var idx, left := ChooseChild(children, remainingBlocks);
      FilesOfSplit(children, idx);
      BlocksOfFilesOf(children[..idx]);
      TotalConcat(before, FilesOf(children[..idx]));
      JoinAround(before, FilesOf(children[..idx]), Files(children[idx]), FilesOf(children[idx + 1..]), after);
      before, after := before + FilesOf(children[..idx]), FilesOf(children[idx + 1..]) + after;
      curRef, remainingBlocks := children[idx], left;
    }
    r := Ok(Some(Found(curRef, remainingBlocks)));
    if blockNum >= 1 {
      FoundIsNumbered(Files(root), before, curRef, after, remainingBlocks);
    }
  }

  lemma FoundIsNumbered(files: seq<Ref>, before: seq<Ref>, f: Ref, after: seq<Ref>, k: int)
    requires f.File? && files == before + Files(f) + after && 1 <= k <= f.numBlocks
    ensures IsNumbered(files, Found(f, k), Total(before) + k)
  {
    var i := |before|;
    assert files[..i] == before && files[i] == f;
    assert IsBlock(files, i, k) && BlockNumber(files, i, k) == Total(before) + k;
  }

  lemma JoinAround<T>(a: seq<T>, b: seq<T>, c: seq<T>, d: seq<T>, e: seq<T>)
    ensures a + (b + c + d) + e == (a + b) + c + (d + e)
  {
  }

  /** The numbers 1..numBlocks of the root are exactly those of the blocks of its files. */
  lemma BlocksOfAllocation(root: Ref, b: nat)
    requires Consistent(root)
    ensures 1 <= b <= root.numBlocks <==>
              exists i: nat, k: nat :: IsBlock(Files(root), i, k) && b == BlockNumber(Files(root), i, k)
  {
    BlocksOfFiles(root);
    var files := Files(root);
    if 1 <= b <= root.numBlocks {
      BlockExists(files, b);
    }
    if i: nat, k: nat :| IsBlock(files, i, k) && b == BlockNumber(files, i, k) {
      BlockNumbersInRange(files, i, k);
    }
  }

  lemma {:induction false} BlockExists(files: seq<Ref>, b: nat)
    requires 1 <= b <= Total(files)
    ensures exists i: nat, k: nat :: IsBlock(files, i, k) && b == BlockNumber(files, i, k)
    decreases |files|
  {
    var last := |files| - 1;
    TotalUpTo(files, last);
    assert files[..last + 1] == files;
    if b <= Total(files[..last]) {
      BlockExists(files[..last], b);
      var i: nat, k: nat :| IsBlock(files[..last], i, k) && b == BlockNumber(files[..last], i, k);
      assert files[..last][..i] == files[..i];
      assert IsBlock(files, i, k) && b == BlockNumber(files, i, k);
    } else {
      var k := b - Total(files[..last]);
      assert IsBlock(files, last, k) && b == BlockNumber(files, last, k);
    }
  }

  // ---------- when the search ends ----------

  /** The variables of the search; found ends it. */
  datatype Search = Search(curRef: Ref, remainingBlocks: int, found: bool)

  /** The inner loop: the first child not passed over, if any. */
  function Scan(children: seq<Ref>, remaining: int): (Option<Ref>, int) {
    if children == [] then (None, remaining)
    else if children[0].numBlocks < remaining then Scan(children[1..], remaining - children[0].numBlocks)
    else (Some(children[0]), remaining)
  }

  /** One turn of the outer loop. */
  function Round(s: Search): Search {
    if s.found || s.curRef.File? then s
    else
      match Scan(s.curRef.children, s.remainingBlocks)
      case (None, left) => s.(remainingBlocks := left)
      case (Some(c), left) => Search(c, left, c.File?)
  }

  function Rounds(s: Search, n: nat): Search
    decreases n
  {
    if n == 0 then s else Rounds(Round(s), n - 1)
  }

  ghost predicate Ends(s: Search) { exists n: nat :: Rounds(s, n).found }

  lemma {:induction false} StuckNeverEnds(s: Search, n: nat)
    requires !s.found && s.remainingBlocks <= 0 && !FirstEnds(s.curRef)
    ensures !Rounds(s, n).found
    decreases n
  {
    if n > 0 {
      StuckNeverEnds(Round(s), n - 1);
    }
  }

  lemma {:induction false} FirstFileIsFound(root: Ref, b: int)
    requires root.Dir? && b <= 0 && FirstEnds(root)
    ensures Ends(Search(root, b, false))
    decreases root
  {
    var s, c := Search(root, b, false), root.children[0];
    assert Round(s) == Search(c, b, c.File?);
    if c.File? {
      assert Rounds(Round(s), 0).found && Rounds(s, 1).found;
    } else {
      FirstFileIsFound(c, b);
      var n: nat :| Rounds(Search(c, b, false), n).found;
      assert Rounds(s, n + 1).found;
    }
  }

  /** For a block number that is not positive the search ends exactly when first children lead to a file. */
  lemma NotPositiveSearchEndsExactly(root: Ref, b: int)
    requires root.Dir? && b <= 0
    ensures Ends(Search(root, b, false)) <==> FirstEnds(root)
  {
    if FirstEnds(root) {
      FirstFileIsFound(root, b);
    } else {
      forall n: nat ensures !Rounds(Search(root, b, false), n).found {
        StuckNeverEnds(Search(root, b, false), n);
      }
    }
  }
}
