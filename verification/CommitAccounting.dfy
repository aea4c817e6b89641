/** The size a blobber has recorded for an allocation, over commits, promotions and rollbacks. */
module CommitAccounting {
  import opened Bytes
  import opened Paths
  import opened CommitProtocol
  import opened CommitRows
  import opened CommitSizes
  import opened CommitSafety

  /**
   * The recorded size is that of the live files, before and after the promotion, and what is recorded for
   * a rollback is the size of the files it leaves.
   */
  ghost predicate SizesOk(st: State, blobberSize: int) {
    && DirsHaveNoSize(st.live) && DirsHaveNoSize(st.soft)
    && st.alloc.blobberSize == blobberSize
    && st.alloc.blobberSizeUsed == SizeOf(st.live) == SizeOf(Settled(st).live) <= blobberSize
    && (st.alloc.isRedeemRequired ==> st.alloc.prevBlobberSizeUsed == SizeOf(RolledBack(st)) <= blobberSize)
  }

  lemma CommitLive(st: State, cs: seq<Change>, v: int, size: int)
    requires Inv(st) && BatchOk(Settled(st).live, cs) && Commit(st, cs, v, size).Ok?
    ensures Commit(st, cs, v, size).value.live == LiveAfter(Settled(st).live, Batch(st, cs, v))
  {
    if cs == [] {
      assert LiveAfter(Settled(st).live, NoEffect) == Settled(st).live;
    } else {
      CommitLeaves(st, cs, v, size);
    }
  }

  /**
   * A commit keeps the recorded size that of the files exactly when what the connection has recorded is
   * what its changes weigh, less the files that empty uploads replace.
   */
  lemma CommitSizeExactly(st: State, cs: seq<Change>, v: int, size: int)
    requires Inv(st) && BatchOk(Settled(st).live, cs)
    requires DirsHaveNoSize(Settled(st).live) && st.alloc.blobberSizeUsed == SizeOf(Settled(st).live)
    ensures var live, r := Settled(st).live, Commit(st, cs, v, size);
            r.Ok? ==> (r.value.alloc.blobberSizeUsed == SizeOf(r.value.live) <==>
                       size == ConnectionSize(live, cs) - MissedBy(live, cs))
  {
    if Commit(st, cs, v, size).Ok? {
      SizesAfter(st, cs, v, size);
    }
  }

  /** So with the size of the changes: exactly when none is an empty overwrite. */
  lemma EmptyOverwritesMissExactly(st: State, cs: seq<Change>, v: int)
    requires Inv(st) && BatchOk(Settled(st).live, cs)
    requires DirsHaveNoSize(Settled(st).live) && st.alloc.blobberSizeUsed == SizeOf(Settled(st).live)
    ensures var live := Settled(st).live;
            var r := Commit(st, cs, v, ConnectionSize(live, cs));
            r.Ok? ==> (r.value.alloc.blobberSizeUsed == SizeOf(r.value.live) <==>
                       forall c :: c in cs ==> Missed(live, c) == 0)
  {
    CommitSizeExactly(st, cs, v, ConnectionSize(Settled(st).live, cs));
    NothingMissed(Settled(st).live, cs);
  }

  lemma SizesAfter(st: State, cs: seq<Change>, v: int, size: int)
    requires Inv(st) && BatchOk(Settled(st).live, cs) && Commit(st, cs, v, size).Ok?
    requires DirsHaveNoSize(Settled(st).live)
    ensures var live, c := Settled(st).live, Commit(st, cs, v, size).value;
            && c.alloc.blobberSizeUsed == st.alloc.blobberSizeUsed + size
            && SizeOf(c.live) == SizeOf(live) + ConnectionSize(live, cs) - MissedBy(live, cs)
  {
    CommitLive(st, cs, v, size);
    LiveSizeAfter(Settled(st).live, cs, Stamp(v, Settled(st).serial));
  }

  lemma {:induction false} NothingMissed(live: map<Path, Row>, cs: seq<Change>)
    ensures MissedBy(live, cs) == 0 <==> forall c :: c in cs ==> Missed(live, c) == 0
    decreases cs
  {
    if cs != [] {
      NothingMissed(live, cs[1..]);
      assert forall c :: c in cs <==> c == cs[0] || c in cs[1..];
    }
  }

  lemma {:induction false} WeighsNothing(rows: map<Path, Row>)
    ensures SizeOf(rows) == 0 <==> forall p :: p in rows ==> FileSize(rows[p]) == 0
    decreases |rows|
  {
    if rows != map[] {
      var p :| p in rows;
      RemoveSmaller(rows, p);
      SizeOfRemove(rows, p);
      WeighsNothing(rows - {p});
      assert forall q :: q in rows <==> q == p || q in rows - {p};
    }
  }

  /**
   * The promotion keeps the size of the live files exactly when all files below the directories the
   * batch removed are empty: the recorded size does not change, whatever rows are lost.
   */
  lemma PromotionSizeExactly(st: State, cs: seq<Change>, v: int, size: int)
    requires Inv(st) && BatchOk(Settled(st).live, cs) && cs != [] && Commit(st, cs, v, size).Ok?
    ensures var c, e := Commit(st, cs, v, size).value, Batch(st, cs, v);
            && Promote(c).alloc == c.alloc
            && (SizeOf(Promote(c).live) == SizeOf(c.live) <==>
                forall p :: p in c.live && !(Parents(p) !! e.deleted) ==> FileSize(c.live[p]) == 0)
  {
    PromotionLosesExactly(st, cs, v, size);
    SizeOfPromoted(Commit(st, cs, v, size).value, Batch(st, cs, v).deleted);
  }

  lemma SizeOfPromoted(c: State, removed: set<Path>)
    requires forall p :: p in c.live ==> (p !in Promote(c).live <==> !(Parents(p) !! removed))
    ensures SizeOf(Promote(c).live) == SizeOf(c.live) <==>
              forall p :: p in c.live && !(Parents(p) !! removed) ==> FileSize(c.live[p]) == 0
    ensures Promote(c).alloc == c.alloc
  {
    SizeWithout(c.live, Promote(c).live, set p | p in c.live && !(Parents(p) !! removed));
  }

  lemma SizeWithout(rows: map<Path, Row>, left: map<Path, Row>, lost: set<Path>)
    requires lost <= rows.Keys && left.Keys == rows.Keys - lost
    requires forall p :: p in left ==> left[p] == rows[p]
    ensures SizeOf(left) == SizeOf(rows) <==> forall p :: p in lost ==> FileSize(rows[p]) == 0
  {
    assert left == rows - lost;
    SizeOfSplit(rows, lost);
    WeighsNothing(Restrict(rows, lost));
    assert forall p :: p in lost ==> Restrict(rows, lost)[p] == rows[p];
  }

  /** Deleting an empty directory and uploading into it, in one commit: the next promotion drops the new file's row. */
  lemma FillingRemovedDirectoryLosesFile(st: State, d: Path, f: Path, data: Bytes, v: int, size: int)
    requires Inv(st) && var live := Settled(st).live; d in live && live[d].kind == Dir && IsEmptyDir(live, {}, d)
    requires f.names != [] && Parent(f) == d
    requires st.alloc.blobberSizeUsed + size <= st.alloc.blobberSize
    ensures var cs := [Delete(d, Dir), Upload(f, data, true)];
            && Commit(st, cs, v, size).Ok?
            && f in Commit(st, cs, v, size).value.live && f !in Promote(Commit(st, cs, v, size).value).live
  {
    var cs := [Delete(d, Dir), Upload(f, data, true)];
    SettledIsSettled(st);
    FillsRemoved(Settled(st).live, d, f, data, Stamp(v, st.serial));
    CommitLive(st, cs, v, size);
    PromotionLosesExactly(st, cs, v, size);
  }

  lemma FillsRemoved(live: map<Path, Row>, d: Path, f: Path, data: Bytes, v: Stamp)
    requires Tree(live) && d in live && live[d].kind == Dir && IsEmptyDir(live, {}, d)
    requires f.names != [] && Parent(f) == d
    ensures var cs := [Delete(d, Dir), Upload(f, data, true)];
            && Accepted(live, cs)
            && f in Effects(live, cs, v).files && d in Effects(live, cs, v).deleted && d in Parents(f)
  {
    var del, up := Delete(d, Dir), Upload(f, data, true);
    assert f in live ==> Rooted(live, f, live[f]);
    assert f !in live;
    ParentsStep(f);
    forall q | q in Parents(f) ensures q in live && live[q].kind == Dir {
      var i :| 0 <= i < |f.names| && q == Field(f, i);
      if i < |d.names| {
        FieldOfField(f, |d.names|, i);
        AncestorsLive(live, d, i);
      }
    }
    assert NewDirs(live, f) == {};
    assert [del, up][1..] == [up] && [up][1..] == [];
    assert BatchOk(live, [up]);
    assert BatchOk(live, [del, up]) && EmptyInTurn(live, {} + MarkedBy(live, del), [up]);
    assert Effects(live, [up], v).files == EffectOf(live, up, v).files + Effects(live, [], v).files;
  }

  /**
   * A deletion recorded for a file that is a directory by now: it creates nothing, and the next promotion
   * drops what is below the directory.
   */
  lemma StaleDeleteLosesRows(st: State, d: Path, p: Path, v: int, size: int)
    requires Inv(st) && var live := Settled(st).live; d in live && live[d].kind == Dir && p in live && d in Parents(p)
    requires st.alloc.blobberSizeUsed + size <= st.alloc.blobberSize
    ensures var cs := [Delete(d, File)];
            && Commit(st, cs, v, size).Ok? && Batch(st, cs, v) == Effect(map[], map[], {d}, {d})
            && p in Commit(st, cs, v, size).value.live && p !in Promote(Commit(st, cs, v, size).value).live
  {
    var cs := [Delete(d, File)];
    ParentsAreShorter(p, d);
    StaleDeleteDoes(Settled(st).live, d, Stamp(v, Settled(st).serial));
    CommitLive(st, cs, v, size);
    PromotionLosesExactly(st, cs, v, size);
  }

  lemma StaleDeleteDoes(live: map<Path, Row>, d: Path, v: Stamp)
    requires d in live
    ensures var cs := [Delete(d, File)];
            Accepted(live, cs) && Effects(live, cs, v) == Effect(map[], map[], {d}, {d})
  {
    var cs := [Delete(d, File)];
    assert BatchOk(live, cs[1..]);
    var none: map<Path, Row> := map[];
    assert Effects(live, cs[1..], v) == NoEffect && none + none == none;
  }

  lemma ParentsAreShorter(p: Path, d: Path)
    requires d in Parents(p)
    ensures |d.names| < |p.names|
  {}

  // ---------- runs ----------

  /** Whatever file will be live below a row the batch removes is empty. */
  ghost predicate LosesNoSize(live: map<Path, Row>, e: Effect) {
    forall p :: p in LiveAfter(live, e) && !(Parents(p) !! e.deleted) ==> FileSize(LiveAfter(live, e)[p]) == 0
  }

  /**
   * A commit that succeeds records what its changes weigh, its version, if there are changes, is that of
   * no row that is kept, and its batch loses no size; one that is refused for a change finds nothing
   * soft-deleted.
   */
  ghost predicate CountsSizes(st: State, op: Op) {
    op.CommitOp? ==>
      var live, r := Settled(st).live, Commit(st, op.changes, op.version, op.size);
      && (r.Ok? ==>
            && op.size == ConnectionSize(live, op.changes) - MissedBy(live, op.changes)
            && (op.changes != [] ==> KeepsNoneOf(Settled(st), Batch(st, op.changes, op.version), op.version))
            && LosesNoSize(live, Batch(st, op.changes, op.version)))
      && (r == Err(ChangeRefused) ==> st.soft == map[])
  }

  lemma CommitKeepsSizes(st: State, cs: seq<Change>, v: int, size: int, blobberSize: int)
    requires Inv(st) && SizesOk(st, blobberSize)
    requires BatchOk(Settled(st).live, cs) && Commit(st, cs, v, size).Ok?
    requires CountsSizes(st, CommitOp(cs, v, size))
    ensures SizesOk(Commit(st, cs, v, size).value, blobberSize)
  {
    var c := Commit(st, cs, v, size).value;
    SettledIsSettled(st);
    CommitSizeExactly(st, cs, v, size);
    if cs != [] {
      CommitRecords(st, cs, v, size);
      RollbackRestoresExactly(st, cs, v, size);
      NoSizeAfter(st, cs, v, size);
      CommitLive(st, cs, v, size);
      PromotionSizeExactly(st, cs, v, size);
    }
  }

  lemma RefusalKeepsSizes(st: State, blobberSize: int)
    requires Inv(st) && SizesOk(st, blobberSize) && st.soft == map[]
    ensures SizesOk(Settled(st), blobberSize)
  {
    SettledIsSettled(st);
    RefusalKeepsInv(st);
    SettledIsSettled(Settled(st));
    SameAfterRefusal(st);
  }

  /** Made directories have no size, and moved ones had none. */
  lemma {:induction false} NoDirSizes(live: map<Path, Row>, cs: seq<Change>, v: Stamp)
    requires BatchOk(live, cs) && DirsHaveNoSize(live)
    ensures DirsHaveNoSize(Effects(live, cs, v).dirs)
    decreases cs
  {
    if cs != [] {
      NoDirSizes(live, cs[1..], v);
    }
  }

  lemma NoSizeAfter(st: State, cs: seq<Change>, v: int, size: int)
    requires Inv(st) && BatchOk(Settled(st).live, cs) && cs != [] && Commit(st, cs, v, size).Ok?
    requires DirsHaveNoSize(Settled(st).live)
    ensures var c := Commit(st, cs, v, size).value; DirsHaveNoSize(c.live) && DirsHaveNoSize(c.soft)
  {
    var live, w := Settled(st).live, Stamp(v, Settled(st).serial);
    CommitLeaves(st, cs, v, size);
    EffectsFit(live, cs, w);
    NoDirSizes(live, cs, w);
    NoSizeIn(live, Batch(st, cs, v));
  }

  lemma NoSizeIn(live: map<Path, Row>, e: Effect)
    requires Fits(live, e) && DirsHaveNoSize(live) && DirsHaveNoSize(e.dirs)
    ensures DirsHaveNoSize(LiveAfter(live, e)) && DirsHaveNoSize(Restrict(live, e.deleted))
  {
    LiveAfterRows(live, e);
  }

  lemma RollbackKeepsSizes(st: State, marker: int, blobberSize: int)
    requires SizesOk(st, blobberSize) && Rollback(st, marker).Ok?
    ensures SizesOk(Rollback(st, marker).value, blobberSize)
  {}

  lemma ApplyKeepsSizes(st: State, op: Op, blobberSize: int)
    requires Inv(st) && SizesOk(st, blobberSize) && OpOk(st, op) && CountsSizes(st, op)
    ensures SizesOk(Apply(st, op), blobberSize)
  {
    match op {
      case CommitOp(cs, v, size) =>
        var r := Commit(st, cs, v, size);
        if r.Ok? {
          CommitKeepsSizes(st, cs, v, size, blobberSize);
        } else if r == Err(ChangeRefused) {
          RefusalKeepsSizes(st, blobberSize);
        }
      case RollbackOp(marker) => if Rollback(st, marker).Ok? { RollbackKeepsSizes(st, marker, blobberSize); }
      case Restart => assert Settled(st.(cache := None)).live == Settled(st).live;
    }
  }

  /**
   * Over every run of such operations the recorded size is the sum of the sizes of the live files, and
   * never more than the blobber offered.
   */
  lemma {:induction false} RecordedSizeIsExact(
      run: seq<State>, ops: seq<Op>, blobberSize: nat, usedSize: int, i: nat)
    requires Run(run, ops, blobberSize, usedSize) && i < |run|
    requires forall k :: 0 <= k < i ==> CountsSizes(run[k], ops[k])
    ensures run[i].alloc.blobberSizeUsed == SizeOf(run[i].live) <= blobberSize
    ensures SizesOk(run[i], blobberSize)
  {
    if i > 0 {
      RecordedSizeIsExact(run, ops, blobberSize, usedSize, i - 1);
      RunKeepsInv(run, ops, blobberSize, usedSize, i - 1);
      assert CountsSizes(run[i - 1], ops[i - 1]);
      ApplyKeepsSizes(run[i - 1], ops[i - 1], blobberSize);
    }
  }

  // ---------- increasing versions ----------

  ghost predicate VersionsOk(st: State) {
    && (forall p :: p in st.live ==> st.live[p].version <= st.alloc.version)
    && (st.alloc.isRedeemRequired ==> forall p :: p in st.soft ==> st.soft[p].version < st.alloc.version)
  }

  ghost predicate VersionGrows(st: State, op: Op) { op.CommitOp? ==> op.version > st.alloc.version }

  lemma GrowingKeepsVersions(st: State, op: Op)
    requires Inv(st) && VersionsOk(st) && OpOk(st, op) && VersionGrows(st, op)
    ensures VersionsOk(Apply(st, op))
  {
    match op {
      case CommitOp(cs, v, size) =>
        if Commit(st, cs, v, size).Ok? {
          CommitKeepsVersions(st, cs, v, size);
        } else {
          SettledIsSettled(st);
        }
      case RollbackOp(marker) =>
        if Rollback(st, marker).Ok? {
          forall p | p in RolledBack(st) ensures RolledBack(st)[p].version < st.alloc.version {
            RowBefore(st, p);
          }
        }
      case Restart =>
    }
  }

  lemma CommitKeepsVersions(st: State, cs: seq<Change>, v: int, size: int)
    requires Inv(st) && VersionsOk(st) && BatchOk(Settled(st).live, cs)
    requires v > st.alloc.version && Commit(st, cs, v, size).Ok?
    ensures VersionsOk(Commit(st, cs, v, size).value)
  {
    SettledIsSettled(st);
    CommitLive(st, cs, v, size);
    var live, e, w := Settled(st).live, Batch(st, cs, v), Stamp(v, st.serial);
    EffectsFit(live, cs, w);
    EffectsNewRows(live, cs, w);
    LiveAfterRows(live, e);
    var c := Commit(st, cs, v, size).value;
    forall p | p in c.live ensures c.live[p].version <= v {
      assert p in e.files || p in e.dirs ==> NewRow(live, e, w, p, c.live[p]);
    }
    if cs != [] {
      CommitLeaves(st, cs, v, size);
    }
  }

  /** When the versions of commits increase, no commit's version is that of a row already there. */
  lemma {:induction false} IncreasingVersionsAreNew(
      run: seq<State>, ops: seq<Op>, blobberSize: nat, usedSize: int, i: nat)
    requires Run(run, ops, blobberSize, usedSize) && i < |run|
    requires forall k :: 0 <= k < |ops| ==> VersionGrows(run[k], ops[k])
    ensures VersionsOk(run[i])
    ensures i < |ops| && ops[i].CommitOp? && BatchOk(Settled(run[i]).live, ops[i].changes) ==>
              KeepsNoneOf(Settled(run[i]), Batch(run[i], ops[i].changes, ops[i].version), ops[i].version)
  {
    if i > 0 {
      IncreasingVersionsAreNew(run, ops, blobberSize, usedSize, i - 1);
      RunKeepsInv(run, ops, blobberSize, usedSize, i - 1);
      GrowingKeepsVersions(run[i - 1], ops[i - 1]);
    }
    RunKeepsInv(run, ops, blobberSize, usedSize, i);
    SettledIsSettled(run[i]);
    if i < |ops| {
      assert VersionGrows(run[i], ops[i]);
    }
  }
}
