/**
 * What a commit does to the rows its changes name and to the allocation's record, and what a rollback
 * sets back, said of the states before and after.
 */
module CommitOutcome {
  import opened Bytes
  import opened Paths
  import opened CommitProtocol
  import opened CommitRows
  import opened CommitSafety
  import opened CommitOrder

  // ---------- what a batch has done ----------

  /** A live row with these contents, made by a commit of this version. */
  predicate IsRow(live: map<Path, Row>, p: Path, kind: Kind, data: Bytes, size: nat, version: int) {
    p in live && live[p].kind == kind && live[p].data == data && live[p].size == size && live[p].version == version
  }

  /** The path at which a change makes a row. */
  function TargetOf(c: Change): Option<Path> {
    match c
    case Upload(p, _, _) => Some(p)
    case Delete(_, _) => None
    case Transferred(_, _, dst) => Some(dst)
  }

  /** The path whose row a change replaces or takes away. */
  function TakenBy(c: Change): Option<Path> {
    match c
    case Upload(p, _, _) => Some(p)
    case Delete(p, _) => Some(p)
    case Transferred(how, src, _) => if how == ByCopy then None else Some(src)
  }

  ghost predicate ChangeDone(before: map<Path, Row>, after: map<Path, Row>, c: Change, version: int) {
    match c
    case Upload(p, data, _) => IsRow(after, p, File, data, |data|, version)
    case Delete(p, _) => p in before ==> p !in after
    case Transferred(how, src, dst) =>
      && src in before && IsRow(after, dst, before[src].kind, before[src].data, before[src].size, version)
      && if how == ByCopy then src in after && after[src] == before[src] else src !in after
  }

  /** A directory on the way to what a change makes; a rename stays where it is. */
  predicate OnTheWay(c: Change, q: Path) {
    TargetOf(c).Some? && q in Parents(TargetOf(c).value) && !(c.Transferred? && c.how == ByRename)
  }

  /** A row is new for being at the target of a change, or the directory of one that was missing. */
  ghost predicate NewByChange(after: map<Path, Row>, cs: seq<Change>, p: Path, version: int) {
    || (exists c :: c in cs && TargetOf(c) == Some(p))
    || (IsRow(after, p, Dir, [], 0, version) && exists c :: c in cs && OnTheWay(c, p))
  }

  ghost predicate BatchDone(before: map<Path, Row>, after: map<Path, Row>, cs: seq<Change>, version: int) {
    && (forall c :: c in cs ==> ChangeDone(before, after, c, version))
    && (forall c, q :: c in cs && OnTheWay(c, q) && q !in before ==> IsRow(after, q, Dir, [], 0, version))
    && (forall p :: p in before && !(exists c :: c in cs && TakenBy(c) == Some(p)) ==>
          p in after && after[p] == before[p])
    && (forall p :: p in after && p !in before ==> NewByChange(after, cs, p, version))
  }

  /** On a path that one change names, no other change has an effect. */
  lemma {:induction false} OnlyByItself(live: map<Path, Row>, cs: seq<Change>, v: Stamp, c: Change, p: Path)
    requires BatchOk(live, cs) && c in cs && p in Touched(live, c)
    ensures ChangeOk(live, c)
    ensures var e, own := Effects(live, cs, v), EffectOf(live, c, v);
            && (p in e.files || p in e.dirs ==> p in own.files || p in own.dirs)
            && (p in e.deleted ==> p in own.deleted)
    decreases cs
  {
    EffectsWithin(live, cs[1..], v, cs[0]);
    EffectInside(live, cs[0], v);
    if c != cs[0] {
      assert Independent(live, cs[0], c);
      OnlyByItself(live, cs[1..], v, c, p);
    }
  }

  /** Every effect is that of some change. */
  lemma {:induction false} EffectHasChange(live: map<Path, Row>, cs: seq<Change>, v: Stamp, p: Path)
    requires BatchOk(live, cs)
    ensures p in Effects(live, cs, v).deleted ==> exists c :: c in cs && TakenBy(c) == Some(p)
    ensures p in Effects(live, cs, v).files || p in Effects(live, cs, v).dirs ==>
              exists c :: c in cs && (TargetOf(c) == Some(p) || OnTheWay(c, p))
    decreases cs
  {
    if cs != [] {
      EffectHasChange(live, cs[1..], v, p);
      var c := cs[0];
      assert p in EffectOf(live, c, v).deleted ==> TakenBy(c) == Some(p);
      assert p in EffectOf(live, c, v).files || p in EffectOf(live, c, v).dirs ==>
          TargetOf(c) == Some(p) || OnTheWay(c, p);
    }
  }

  lemma ChangeIsDone(live: map<Path, Row>, cs: seq<Change>, v: Stamp, c: Change)
    requires BatchOk(live, cs) && c in cs
    ensures ChangeDone(live, LiveAfter(live, Effects(live, cs, v)), c, v.version)
  {
    var e := Effects(live, cs, v);
    EffectsFit(live, cs, v);
    LiveAfterRows(live, e);
    EffectIsPart(live, cs, v, c);
    match c
    case Upload(p, _, _) => assert p in EffectOf(live, c, v).files;
    case Delete(p, _) => if p in live { OnlyByItself(live, cs, v, c, p); }
    case Transferred(_, src, dst) =>
      assert dst in EffectOf(live, c, v).files || dst in EffectOf(live, c, v).dirs;
      OnlyByItself(live, cs, v, c, src);
  }

  lemma WayIsMade(live: map<Path, Row>, cs: seq<Change>, v: Stamp, c: Change, q: Path)
    requires BatchOk(live, cs) && c in cs && OnTheWay(c, q) && q !in live
    ensures IsRow(LiveAfter(live, Effects(live, cs, v)), q, Dir, [], 0, v.version)
  {
    EffectsFit(live, cs, v);
    LiveAfterRows(live, Effects(live, cs, v));
    EffectIsPart(live, cs, v, c);
    MakesTheWay(live, c, v, q);
  }

  lemma MakesTheWay(live: map<Path, Row>, c: Change, v: Stamp, q: Path)
    requires ChangeOk(live, c) && OnTheWay(c, q) && q !in live
    ensures var e := EffectOf(live, c, v); IsRow(e.dirs, q, Dir, [], 0, v.version)
  {
    ParentsAreNot(TargetOf(c).value, q);
  }

  lemma ParentsAreNot(p: Path, q: Path)
    requires q in Parents(p)
    ensures q != p
  {}

  lemma {:induction false} NewRowIs(live: map<Path, Row>, cs: seq<Change>, v: Stamp, p: Path)
    requires BatchOk(live, cs) && (p in Effects(live, cs, v).files || p in Effects(live, cs, v).dirs)
    ensures || (exists c :: c in cs && TargetOf(c) == Some(p))
            || (p !in Effects(live, cs, v).files && IsRow(Effects(live, cs, v).dirs, p, Dir, [], 0, v.version)
                && exists c :: c in cs && OnTheWay(c, p))
    decreases cs
  {
    var rest, own := Effects(live, cs[1..], v), EffectOf(live, cs[0], v);
    if p in rest.files || p in rest.dirs {
      NewRowIs(live, cs[1..], v, p);
    }
    if TargetOf(cs[0]) != Some(p) && p in own.dirs {
      assert IsRow(own.dirs, p, Dir, [], 0, v.version) && OnTheWay(cs[0], p);
    }
    assert p in own.files ==> TargetOf(cs[0]) == Some(p);
    assert cs[0] in cs;
  }

  lemma BatchIsDone(live: map<Path, Row>, cs: seq<Change>, v: Stamp)
    requires BatchOk(live, cs)
    ensures BatchDone(live, LiveAfter(live, Effects(live, cs, v)), cs, v.version)
  {
    var after := LiveAfter(live, Effects(live, cs, v));
    EffectsFit(live, cs, v);
    LiveAfterRows(live, Effects(live, cs, v));
    forall c | c in cs ensures ChangeDone(live, after, c, v.version) {
      ChangeIsDone(live, cs, v, c);
    }
    forall c, q | c in cs && OnTheWay(c, q) && q !in live ensures IsRow(after, q, Dir, [], 0, v.version) {
      WayIsMade(live, cs, v, c, q);
    }
    forall p | p in live && !(exists c :: c in cs && TakenBy(c) == Some(p))
      ensures p in after && after[p] == live[p]
    {
      EffectHasChange(live, cs, v, p);
    }
    forall p | p in after && p !in live ensures NewByChange(after, cs, p, v.version) {
      NewRowIs(live, cs, v, p);
    }
  }

  /**
   * A commit does what its changes say, each of them, to the rows it finds; it makes the directories
   * missing on the way, and every other row stays.
   */
  lemma CommitDoesItsChanges(st: State, cs: seq<Change>, v: int, size: int)
    requires Inv(st) && Commit(st, cs, v, size).Ok?
    ensures BatchDone(Settled(st).live, Commit(st, cs, v, size).value.live, cs, v)
  {
    var live := Settled(st).live;
    BatchIsDone(live, cs, Stamp(v, Settled(st).serial));
    if cs == [] {
      assert LiveAfter(live, NoEffect) == live;
    } else {
      CommitLeaves(st, cs, v, size);
    }
  }

  // ---------- what is refused ----------

  /** There is a live row directly in this directory. */
  ghost predicate HasChild(live: map<Path, Row>, d: Path) {
    exists q :: q in live && q.names != [] && Parent(q) == d
  }

  /** An ancestor is a file. */
  ghost predicate BelowFile(live: map<Path, Row>, p: Path) {
    exists i :: 0 <= i < |p.names| && IsFile(live, Field(p, i))
  }

  /** Why a change alone is refused. */
  ghost predicate RefusedFor(live: map<Path, Row>, c: Change) {
    match c
    case Upload(p, _, canUpdate) =>
      p.names == [] || BelowFile(live, p) || (p in live && (!canUpdate || live[p].kind == Dir))
    case Delete(p, recorded) => recorded == Dir && (p !in live || HasChild(live, p))
    case Transferred(how, src, dst) =>
      || src !in live || dst in live || BelowFile(live, dst) || (live[src].kind == Dir && HasChild(live, src))
      || (how == ByRename && (src.names == [] || dst.names == [] || Parent(src) != Parent(dst)))
  }

  lemma EmptyIsChildless(live: map<Path, Row>, d: Path)
    requires Tree(live) && d in live
    ensures IsEmptyDir(live, {}, d) <==> !HasChild(live, d)
  {
    forall q | q in live && q.names != [] && Parent(q) == d ensures live[q].parent == live[d].serial {
      assert Rooted(live, q, live[q]);
    }
  }

  lemma ParentsAreDirsExactly(live: map<Path, Row>, p: Path)
    ensures ParentsAreDirs(live, p) <==> !BelowFile(live, p)
  {
    if q :| q in Parents(p) && q in live && live[q].kind != Dir {
      var i :| 0 <= i < |p.names| && q == Field(p, i);
      assert IsFile(live, Field(p, i));
    }
    if i :| 0 <= i < |p.names| && IsFile(live, Field(p, i)) {
      assert Field(p, i) in Parents(p);
    }
  }

  /**
   * A commit is refused for its size exactly beyond what the blobber offers, and otherwise a single
   * change exactly for one of these.
   */
  lemma CommitRefusedExactly(st: State, c: Change, v: int, size: int)
    requires Inv(st)
    ensures var r := Commit(st, [c], v, size);
            && (r == Err(MaxAllocationSize) <==> st.alloc.blobberSizeUsed + size > st.alloc.blobberSize)
            && (st.alloc.blobberSizeUsed + size <= st.alloc.blobberSize ==>
                  (r == Err(ChangeRefused) <==> RefusedFor(Settled(st).live, c)))
  {
    SettledIsSettled(st);
    OneAccepted(Settled(st).live, c);
    RefusedForExactly(Settled(st).live, c);
  }

  lemma RefusedForExactly(live: map<Path, Row>, c: Change)
    requires Tree(live)
    ensures RefusedFor(live, c) <==> !(ChangeOk(live, c) && FindsEmpty(live, {}, c))
  {
    if TargetOf(c).Some? {
      ParentsAreDirsExactly(live, TargetOf(c).value);
    }
    if TakenBy(c).Some? && TakenBy(c).value in live {
      EmptyIsChildless(live, TakenBy(c).value);
    }
    if c.Transferred? && c.src in live {
      EmptyIsChildless(live, c.src);
    }
  }

  lemma OneAccepted(live: map<Path, Row>, c: Change)
    ensures Accepted(live, [c]) <==> ChangeOk(live, c) && FindsEmpty(live, {}, c)
  {
    var none := [c][1..];
    assert none == [] && BatchOk(live, none);
    if ChangeOk(live, c) {
      assert BatchOk(live, [c]) && EmptyInTurn(live, {} + MarkedBy(live, c), none);
    }
  }

  // ---------- the record ----------

  /** Sizes, version and what is kept for a rollback, after a commit. */
  lemma CommitRecordsAll(st: State, cs: seq<Change>, v: int, size: int)
    requires Commit(st, cs, v, size).Ok?
    ensures var a, b := st.alloc, Commit(st, cs, v, size).value.alloc;
            && b.version == v && b.isRedeemRequired == (cs != [])
            && b.blobberSizeUsed - a.blobberSizeUsed == size == b.usedSize - a.usedSize
            && b.prevBlobberSizeUsed == a.blobberSizeUsed && b.prevUsedSize == a.usedSize
            && b.blobberSize == a.blobberSize
  {}

  /** A rollback, once, goes back one version: the marker's. */
  lemma RollbackSetsBack(st: State, marker: int, again: int)
    requires Rollback(st, marker).Ok?
    ensures var r := Rollback(st, marker).value;
            && r.alloc.version == marker == st.alloc.version - 1 && !r.alloc.isRedeemRequired
            && r.preCommit == map[] && r.soft == map[] && r.filestore == st.filestore
            && r.alloc.blobberSizeUsed == st.alloc.prevBlobberSizeUsed && r.alloc.usedSize == st.alloc.prevUsedSize
            && r.alloc.blobberSize == st.alloc.blobberSize
            && Rollback(r, again).Err?
  {}
}
