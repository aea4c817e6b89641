/** What every run of commits, empty commits, rollbacks and restarts keeps, and what a rollback undoes. */
module CommitSafety {
  import opened Bytes
  import opened Paths
  import opened CommitProtocol
  import opened CommitRows

  // ---------- the invariant ----------

  /** If there is a file row at p, this directory has its content. */
  ghost predicate Holds(dir: map<Path, Bytes>, rows: map<Path, Row>, p: Path) {
    IsFile(rows, p) ==> p in dir && dir[p] == rows[p].data
  }

  /**
   * Nothing is pending: no soft-deleted row, and every live file in the final directory and not in
   * precommit, where a file whose row was lost may remain.
   */
  ghost predicate IsSettled(st: State) {
    && st.soft == map[]
    && (forall p :: p in st.live ==> Holds(st.filestore, st.live, p))
    && forall p :: p in st.preCommit ==> !IsFile(st.live, p)
  }

  /** The files the last commit left in precommit. */
  function PendingFiles(st: State): set<Path> {
    set p | p in st.preCommit && IsFile(st.live, p)
  }

  /** A live file in precommit is of the last commit, with that content. */
  ghost predicate InPreCommit(st: State, p: Path)
    requires p in st.preCommit
  {
    IsFile(st.live, p) ==> st.live[p].version == st.alloc.version && st.live[p].data == st.preCommit[p]
  }

  /** The files of the last commit are in precommit; everything older, deleted or not, is in the final directory. */
  ghost predicate IsPending(st: State) {
    && (forall p :: p in st.soft ==> Holds(st.filestore, st.soft, p))
    && (forall p :: p in st.preCommit ==> InPreCommit(st, p))
    && (forall p :: p in st.live && p !in st.preCommit ==>
          Holds(st.filestore, st.live, p) && (IsFile(st.live, p) ==> p !in st.soft))
    && (st.cache.Some? ==> Remembers(st, st.cache.value))
  }

  /**
   * The in-memory record names the files of the last commit, and all deleted files.  It may name other
   * paths as deleted, but no live file's, unless a new file is to replace what is in the final directory.
   */
  ghost predicate Remembers(st: State, cache: RefCache) {
    && cache.version == st.alloc.version && cache.created == PendingFiles(st)
    && DeletedByRows(st) <= cache.deleted
    && forall p :: p in cache.deleted && IsFile(st.live, p) ==> p in st.preCommit
  }

  ghost predicate Inv(st: State) {
    RowsOk(st) && if st.alloc.isRedeemRequired then IsPending(st) else IsSettled(st)
  }

  // ---------- promotion ----------

  /** The files a promotion moves out of precommit. */
  function MovedFiles(st: State): set<Path> { CreatedFiles(st) * st.preCommit.Keys }

  /** With the in-memory record all pending files move; without it, those whose rows the purge left. */
  lemma MovesPending(st: State)
    requires Inv(st) && st.alloc.isRedeemRequired
    ensures DeletedByRows(st) <= DeletedFiles(st) && (st.cache.None? ==> DeletedFiles(st) == DeletedByRows(st))
    ensures forall p :: p in DeletedFiles(st) && IsFile(st.live, p) ==> p in st.preCommit
    ensures MovedFiles(Purged(st)) == set p | p in PendingFiles(st) && (st.cache.Some? || p in Purged(st).live)
  {
    forall p | p in DeletedByRows(st) && IsFile(st.live, p) ensures p in st.preCommit {
      assert p in st.soft;
    }
    forall p | p in PendingFiles(st) && p in Purged(st).live ensures p in CreatedByRows(Purged(st)) {
      assert InPreCommit(st, p);
    }
  }

  /**
   * A restart, which forgets the in-memory record, never changes which rows there are after a promotion,
   * and it is settled either way.  It changes nothing at all exactly when the same files move, as they do
   * for a tree of rows, and what the record alone names as deleted is replaced or not in the final directory.
   */
  lemma PromotionIgnoresRestart(st: State)
    requires Inv(st) && st.alloc.isRedeemRequired
    ensures var restarted := st.(cache := None);
            && Promote(st).live == Promote(restarted).live
            && IsSettled(Promote(st)) && IsSettled(Promote(restarted))
            && (Tree(st.live) ==> MovedFiles(Purged(st)) == MovedFiles(Purged(restarted)))
            && (Promote(st) == Promote(restarted) <==>
                && MovedFiles(Purged(st)) == MovedFiles(Purged(restarted))
                && forall p :: p in DeletedFiles(st) - DeletedFiles(restarted) && p in st.filestore ==>
                     p in MovedFiles(Purged(st)))
  {
    var restarted := st.(cache := None);
    RestartKeepsInv(st);
    MovesPending(st);
    MovesPending(restarted);
    PurgeLeavesTree(st);
    PromotionSettles(st);
    PromotionSettles(restarted);
    PromotesWhatMoves(st);
    PromotesWhatMoves(restarted);
    if MovedFiles(Purged(st)) == MovedFiles(Purged(restarted)) {
      SameStoreExactly(st.filestore, st.preCommit, DeletedFiles(restarted), DeletedFiles(st), MovedFiles(Purged(st)));
    }
  }

  lemma SameStoreExactly(
      store: map<Path, Bytes>, pre: map<Path, Bytes>, fewer: set<Path>, more: set<Path>, moved: set<Path>)
    requires fewer <= more && moved <= pre.Keys
    ensures (store - more) + Restrict(pre, moved) == (store - fewer) + Restrict(pre, moved)
       <==> forall p :: p in more - fewer && p in store ==> p in moved
  {
    var a, b := (store - more) + Restrict(pre, moved), (store - fewer) + Restrict(pre, moved);
    if forall p :: p in more - fewer && p in store ==> p in moved {
      assert a == b;
    } else {
      var p :| p in more - fewer && p in store && p !in moved;
      assert p in b && p !in a;
    }
  }

  /** The promotion in terms of the files moved. */
  lemma PromotesWhatMoves(st: State)
    ensures Promote(st) == Purged(st).(
              filestore := (st.filestore - DeletedFiles(st)) + Restrict(st.preCommit, MovedFiles(Purged(st))),
              preCommit := st.preCommit - MovedFiles(Purged(st)), cache := None)
    ensures MovedFiles(Purged(st)) == st.preCommit.Keys - Promote(st).preCommit.Keys
  {
    var created, moved := CreatedFiles(Purged(st)), MovedFiles(Purged(st));
    assert st.preCommit - created == st.preCommit - moved;
    assert Restrict(st.preCommit, created) == Restrict(st.preCommit, moved);
  }

  lemma RestartKeepsInv(st: State)
    requires Inv(st)
    ensures Inv(st.(cache := None))
  {
    var r := st.(cache := None);
    assert forall p :: p in st.preCommit && InPreCommit(st, p) ==> InPreCommit(r, p);
    assert forall p :: p in st.live ==> Linked(r, p, st.live[p]) == Linked(st, p, st.live[p]);
    assert forall p :: p in st.soft ==> Linked(r, p, st.soft[p]) == Linked(st, p, st.soft[p]);
  }

  /** Rows that are left are as they were, their files are in the final directory; all are left exactly of a tree. */
  lemma PromotionSettles(st: State)
    requires Inv(st) && st.alloc.isRedeemRequired
    ensures var s := Promote(st);
            && IsSettled(s) && RowsOk(s) && Tree(s.live) && s.alloc == st.alloc && s.serial == st.serial
            && s.live.Keys <= st.live.Keys && (forall p :: p in s.live ==> s.live[p] == st.live[p])
            && (s.live == st.live <==> Tree(st.live))
  {
    var s := Promote(st);
    PurgeLeavesTree(st);
    MovesPending(st);
    PromotesWhatMoves(st);
    forall p | p in s.live ensures Holds(s.filestore, s.live, p) && (p in s.preCommit ==> !IsFile(s.live, p)) {
      assert p in st.preCommit ==> InPreCommit(st, p);
    }
    SameRowsOk(Purged(st), s);
  }

  /** Being linked is a matter of the rows. */
  lemma SameRowsOk(st: State, t: State)
    requires RowsOk(st) && t.live == st.live && t.soft == st.soft && t.serial == st.serial && t.alloc == st.alloc
    ensures RowsOk(t)
  {
    assert forall p, r :: Linked(st, p, r) ==> Linked(t, p, r);
  }

  lemma SettledIsSettled(st: State)
    requires Inv(st)
    ensures var s := Settled(st);
            && IsSettled(s) && RowsOk(s) && Tree(s.live) && s.alloc == st.alloc && s.serial == st.serial
            && s.live.Keys <= st.live.Keys && (forall p :: p in s.live ==> s.live[p] == st.live[p])
            && (s.live == st.live <==> Tree(st.live))
  {
    if st.alloc.isRedeemRequired {
      PromotionSettles(st);
    } else {
      NoSoftIsTree(st);
    }
  }

  // ---------- commit ----------

  /** The files put in precommit are those of the rows created, with their contents. */
  ghost predicate Match(dir: map<Path, Bytes>, files: map<Path, Row>) {
    dir.Keys == files.Keys && forall p :: p in files ==> dir[p] == files[p].data
  }

  lemma FileMatchesRow(st: State, c: Change, v: Stamp)
    requires IsSettled(st) && ChangeOk(st.live, c)
    ensures Match(FileFor(st, c), EffectOf(st.live, c, v).files)
  {
    if c.Transferred? {
      assert Holds(st.filestore, st.live, c.src);
    }
  }

  lemma {:induction false} FilesMatchRows(st: State, cs: seq<Change>, v: Stamp)
    requires IsSettled(st) && BatchOk(st.live, cs)
    ensures Match(FilesFor(st, cs), Effects(st.live, cs, v).files)
    decreases cs
  {
    if cs != [] {
      FileMatchesRow(st, cs[0], v);
      FilesMatchRows(st, cs[1..], v);
    }
  }

  /** What a commit leaves: the settled rows with the effect, its files in precommit, the record. */
  ghost predicate CommittedTo(s: State, e: Effect, files: map<Path, Bytes>, v: int, c: State) {
    && RowsAfter(s, e, Stamp(v, s.serial), c)
    && c.filestore == s.filestore && c.preCommit == s.preCommit + files && Match(files, e.files)
    && c.cache == Some(RefCache(v, e.files.Keys, e.freed))
  }

  lemma ToRowsAfter(s: State, e: Effect, v: Stamp, c: State)
    requires s.soft == map[] && s.serial == v.serial
    requires c.live == ApplyEffect(s, e, v.version).live && c.soft == ApplyEffect(s, e, v.version).soft
    requires c.serial == s.serial + 1 && c.alloc.version == v.version
    ensures RowsAfter(s, e, v, c)
  {
    assert s.soft + Restrict(s.live, e.deleted) == Restrict(s.live, e.deleted);
  }

  /** What a batch does to the rows that the promotion of the commit before leaves. */
  function Batch(st: State, cs: seq<Change>, v: int): Effect
    requires BatchOk(Settled(st).live, cs)
  {
    Effects(Settled(st).live, cs, Stamp(v, Settled(st).serial))
  }

  lemma CommitLeaves(st: State, cs: seq<Change>, v: int, size: int)
    requires Inv(st) && BatchOk(Settled(st).live, cs) && cs != [] && Commit(st, cs, v, size).Ok?
    ensures var s, c := Settled(st), Commit(st, cs, v, size).value;
            CommittedTo(s, Batch(st, cs, v), FilesFor(s, cs), v, c) && c.alloc.isRedeemRequired
  {
    var s, c := Settled(st), Commit(st, cs, v, size).value;
    SettledIsSettled(st);
    FilesMatchRows(s, cs, Stamp(v, s.serial));
    CommitSteps(st, cs, v, size);
    FromSteps(s, Batch(st, cs, v), FilesFor(s, cs), v, c);
  }

  lemma CommitSteps(st: State, cs: seq<Change>, v: int, size: int)
    requires BatchOk(Settled(st).live, cs) && cs != [] && Commit(st, cs, v, size).Ok?
    ensures var s, c := Settled(st), Commit(st, cs, v, size).value;
            && c == ApplyEffect(s, Batch(st, cs, v), v).(preCommit := s.preCommit + FilesFor(s, cs), alloc := c.alloc)
            && c.alloc.version == v && c.alloc.isRedeemRequired
  {}

  lemma FromSteps(s: State, e: Effect, files: map<Path, Bytes>, v: int, c: State)
    requires s.soft == map[] && c.alloc.version == v && Match(files, e.files)
    requires c == ApplyEffect(s, e, v).(preCommit := s.preCommit + files, alloc := c.alloc)
    ensures CommittedTo(s, e, files, v, c)
  {
    ToRowsAfter(s, e, Stamp(v, s.serial), c);
  }

  lemma PendingAfter(s: State, e: Effect, files: map<Path, Bytes>, v: int, c: State)
    requires IsSettled(s) && Fits(s.live, e) && NewRows(s.live, e, Stamp(v, s.serial))
    requires CommittedTo(s, e, files, v, c)
    ensures IsPending(c)
  {
    PreCommitAfter(s, e, files, v, c);
    FinalAfter(s, e, files, v, c);
    RemembersAfter(s, e, files, v, c);
  }

  lemma RemembersAfter(s: State, e: Effect, files: map<Path, Bytes>, v: int, c: State)
    requires Fits(s.live, e) && CommittedTo(s, e, files, v, c)
    requires forall p :: p in c.preCommit ==> (IsFile(c.live, p) <==> p in e.files)
    ensures Remembers(c, c.cache.value) && PendingFiles(c) == e.files.Keys
    ensures DeletedByRows(c) == set p | p in e.deleted && IsFile(s.live, p)
  {
    LiveAfterRows(s.live, e);
    assert DeletedByRows(c) == set p | p in e.deleted && IsFile(s.live, p);
    forall p | p in e.freed && IsFile(c.live, p) ensures p in e.files {
      assert p !in e.files ==> IsFile(s.live, p);
    }
  }

  lemma PreCommitAfter(s: State, e: Effect, files: map<Path, Bytes>, v: int, c: State)
    requires IsSettled(s) && Fits(s.live, e) && NewRows(s.live, e, Stamp(v, s.serial))
    requires CommittedTo(s, e, files, v, c)
    ensures forall p :: p in c.preCommit ==> InPreCommit(c, p) && (IsFile(c.live, p) <==> p in e.files)
  {
    LiveAfterRows(s.live, e);
    forall p | p in c.preCommit ensures InPreCommit(c, p) && (IsFile(c.live, p) <==> p in e.files) {
      assert p in e.files ==> NewRow(s.live, e, Stamp(v, s.serial), p, e.files[p]);
    }
  }

  lemma FinalAfter(s: State, e: Effect, files: map<Path, Bytes>, v: int, c: State)
    requires IsSettled(s) && Fits(s.live, e) && CommittedTo(s, e, files, v, c)
    ensures forall p :: p in c.soft ==> Holds(c.filestore, c.soft, p)
    ensures forall p :: p in c.live && p !in c.preCommit ==>
              Holds(c.filestore, c.live, p) && (IsFile(c.live, p) ==> p !in c.soft)
  {
    LiveAfterRows(s.live, e);
    forall p | p in c.soft ensures Holds(c.filestore, c.soft, p) {
      assert Holds(s.filestore, s.live, p);
    }
    forall p | p in c.live && p !in c.preCommit
      ensures Holds(c.filestore, c.live, p) && (IsFile(c.live, p) ==> p !in c.soft)
    {
      assert p !in e.dirs ==> Holds(s.filestore, s.live, p);
    }
  }

  lemma CommitKeepsInv(st: State, cs: seq<Change>, v: int, size: int)
    requires Inv(st) && BatchOk(Settled(st).live, cs)
    ensures var r := Commit(st, cs, v, size); r.Ok? ==> Inv(r.value)
  {
    var s, r, w := Settled(st), Commit(st, cs, v, size), Stamp(v, Settled(st).serial);
    SettledIsSettled(st);
    if r.Ok? && cs == [] {
      EmptyKeepsInv(s, r.value);
    } else if r.Ok? {
      CommitLeaves(st, cs, v, size);
      EffectsFit(s.live, cs, w);
      EffectsNewRows(s.live, cs, w);
      PendingAfter(s, Batch(st, cs, v), FilesFor(s, cs), v, r.value);
      RowsOkAfter(s, cs, w, r.value);
    }
  }

  lemma EmptyKeepsInv(s: State, c: State)
    requires IsSettled(s) && RowsOk(s) && c == s.(alloc := c.alloc) && !c.alloc.isRedeemRequired
    ensures Inv(c)
  {
    assert forall p, r :: Linked(s, p, r) ==> Linked(c, p, r);
  }

  /** After a commit the rows are a tree exactly when none, old or new, is below one its batch removed. */
  lemma CommitIsTreeExactly(st: State, cs: seq<Change>, v: int, size: int)
    requires Inv(st) && BatchOk(Settled(st).live, cs)
    ensures var r := Commit(st, cs, v, size);
            r.Ok? ==> (Tree(r.value.live) <==> Grounded(Settled(st).live, Batch(st, cs, v)))
  {
    SettledIsSettled(st);
    if Commit(st, cs, v, size).Ok? && cs != [] {
      var c, w := Commit(st, cs, v, size).value, Stamp(v, Settled(st).serial);
      CommitKeepsInv(st, cs, v, size);
      CommitLeaves(st, cs, v, size);
      PurgeLeavesTree(c);
      PurgeKeepsLiveExactly(Settled(st), cs, w, c);
    }
  }

  /**
   * The promotion of a commit deletes, with the rows that were removed, exactly the live rows below
   * them, old or new: none exactly when no row was to be live there.
   */
  lemma PromotionLosesExactly(st: State, cs: seq<Change>, v: int, size: int)
    requires Inv(st) && BatchOk(Settled(st).live, cs) && cs != [] && Commit(st, cs, v, size).Ok?
    ensures var c, e := Commit(st, cs, v, size).value, Batch(st, cs, v);
            && (forall p :: p in c.live ==> (p !in Promote(c).live <==> !(Parents(p) !! e.deleted)))
            && (Promote(c).live == c.live <==> Grounded(Settled(st).live, e))
  {
    var s, c := Settled(st), Commit(st, cs, v, size).value;
    SettledIsSettled(st);
    CommitLeaves(st, cs, v, size);
    forall p | p in c.live
      ensures p !in Promote(c).live <==> !(Parents(p) !! Batch(st, cs, v).deleted)
    {
      GoneExactly(s, cs, Stamp(v, s.serial), c, p);
    }
    PurgeKeepsLiveExactly(s, cs, Stamp(v, s.serial), c);
  }

  /**
   * A restart between a commit and its promotion changes which files are moved exactly when the batch
   * put a file below a directory it removed, and which files are deleted exactly when a deletion
   * recorded for a file found none.
   */
  lemma RestartMovesSameExactly(st: State, cs: seq<Change>, v: int, size: int)
    requires Inv(st) && BatchOk(Settled(st).live, cs) && cs != [] && Commit(st, cs, v, size).Ok?
    ensures var c, e := Commit(st, cs, v, size).value, Batch(st, cs, v);
            var restarted := Apply(c, Restart);
            && (MovedFiles(Purged(c)) == MovedFiles(Purged(restarted)) <==>
                forall p :: p in e.files ==> Parents(p) !! e.deleted)
            && (DeletedFiles(c) == DeletedFiles(restarted) <==> FindsFiles(Settled(st).live, cs))
  {
    var c, e := Commit(st, cs, v, size).value, Batch(st, cs, v);
    CommitKeepsInv(st, cs, v, size);
    FilesArePending(st, cs, v, size);
    FilesStayExactly(st, cs, v, size);
    RestartMovesSame(c);
    FreedExactly(Settled(st).live, cs, Stamp(v, Settled(st).serial));
  }

  /**
   * It changes nothing at all exactly when so of the files moved, and what was noted as deleted without a
   * file there is replaced, or not in the final directory.
   */
  lemma RestartChangesNothingExactly(st: State, cs: seq<Change>, v: int, size: int)
    requires Inv(st) && BatchOk(Settled(st).live, cs) && cs != [] && Commit(st, cs, v, size).Ok?
    ensures var s, c, e := Settled(st), Commit(st, cs, v, size).value, Batch(st, cs, v);
            Promote(c) == Promote(Apply(c, Restart)) <==>
              && (forall p :: p in e.files ==> Parents(p) !! e.deleted)
              && (forall p :: p in e.freed && !IsFile(s.live, p) && p in s.filestore ==> p in e.files)
  {
    CommitKeepsInv(st, cs, v, size);
    FilesArePending(st, cs, v, size);
    FilesStayExactly(st, cs, v, size);
    NotedWithoutFile(st, cs, v);
    NothingChangesAfter(Commit(st, cs, v, size).value, Settled(st).live, Batch(st, cs, v));
  }

  lemma NothingChangesAfter(c: State, live: map<Path, Row>, e: Effect)
    requires Inv(c) && c.alloc.isRedeemRequired && c.cache.Some?
    requires PendingFiles(c) == e.files.Keys
    requires forall p :: p in PendingFiles(c) ==> (p in Purged(c).live <==> Parents(p) !! e.deleted)
    requires DeletedFiles(c) - DeletedByRows(c) == set p | p in e.freed && !IsFile(live, p)
    ensures Promote(c) == Promote(Apply(c, Restart)) <==>
              && (forall p :: p in e.files ==> Parents(p) !! e.deleted)
              && (forall p :: p in e.freed && !IsFile(live, p) && p in c.filestore ==> p in e.files)
  {
    NothingChangesExactly(c);
  }

  lemma NothingChangesExactly(c: State)
    requires Inv(c) && c.alloc.isRedeemRequired && c.cache.Some?
    ensures Promote(c) == Promote(c.(cache := None)) <==>
              && (forall p :: p in PendingFiles(c) ==> p in Purged(c).live)
              && (forall p :: p in DeletedFiles(c) - DeletedByRows(c) && p in c.filestore ==> p in PendingFiles(c))
  {
    PromotionIgnoresRestart(c);
    RestartMovesSame(c);
    MovesPending(c);
    assert MovedFiles(Purged(c)) == PendingFiles(c);
  }

  lemma NotedWithoutFile(st: State, cs: seq<Change>, v: int)
    requires Inv(st) && BatchOk(Settled(st).live, cs)
    ensures var live, e := Settled(st).live, Batch(st, cs, v);
            e.freed - (set p | p in e.deleted && IsFile(live, p)) == set p | p in e.freed && !IsFile(live, p)
  {
    EffectsFit(Settled(st).live, cs, Stamp(v, Settled(st).serial));
  }

  lemma FilesStayExactly(st: State, cs: seq<Change>, v: int, size: int)
    requires Inv(st) && BatchOk(Settled(st).live, cs) && cs != [] && Commit(st, cs, v, size).Ok?
    ensures var c, e := Commit(st, cs, v, size).value, Batch(st, cs, v);
            forall p :: p in PendingFiles(c) ==> (p in Purged(c).live <==> Parents(p) !! e.deleted)
  {
    PromotionLosesExactly(st, cs, v, size);
    var c := Commit(st, cs, v, size).value;
    assert forall p :: p in c.live ==> (p in Purged(c).live <==> p in Promote(c).live);
  }

  lemma RestartMovesSame(st: State)
    requires Inv(st) && st.alloc.isRedeemRequired && st.cache.Some?
    ensures MovedFiles(Purged(st)) == MovedFiles(Purged(st.(cache := None)))
       <==> forall p :: p in PendingFiles(st) ==> p in Purged(st).live
  {
    RestartKeepsInv(st);
    MovesPending(st);
    MovesPending(st.(cache := None));
    var all, left := MovedFiles(Purged(st)), MovedFiles(Purged(st.(cache := None)));
    assert forall p :: p in PendingFiles(st) <==> p in all;
    assert forall p :: p in left <==> p in all && p in Purged(st).live;
  }

  lemma FilesArePending(st: State, cs: seq<Change>, v: int, size: int)
    requires Inv(st) && BatchOk(Settled(st).live, cs) && cs != [] && Commit(st, cs, v, size).Ok?
    ensures var c := Commit(st, cs, v, size).value;
            && c.alloc.isRedeemRequired && c.cache.Some? && PendingFiles(c) == Batch(st, cs, v).files.Keys
            && c.filestore == Settled(st).filestore && DeletedFiles(c) == Batch(st, cs, v).freed
            && DeletedByRows(c) == set p | p in Batch(st, cs, v).deleted && IsFile(Settled(st).live, p)
  {
    var s, w := Settled(st), Stamp(v, Settled(st).serial);
    SettledIsSettled(st);
    CommitLeaves(st, cs, v, size);
    EffectsFit(s.live, cs, w);
    EffectsNewRows(s.live, cs, w);
    PreCommitAfter(s, Batch(st, cs, v), FilesFor(s, cs), v, Commit(st, cs, v, size).value);
    RemembersAfter(s, Batch(st, cs, v), FilesFor(s, cs), v, Commit(st, cs, v, size).value);
  }

  /** Every deletion recorded for a file still finds one. */
  predicate FindsFiles(live: map<Path, Row>, cs: seq<Change>) {
    forall c :: c in cs && c.Delete? && c.recorded == File ==> IsFile(live, c.path)
  }

  lemma FreedExactly(live: map<Path, Row>, cs: seq<Change>, v: Stamp)
    requires BatchOk(live, cs)
    ensures var e := Effects(live, cs, v);
            e.freed == (set p | p in e.deleted && IsFile(live, p)) <==> FindsFiles(live, cs)
  {
    var e := Effects(live, cs, v);
    EffectsFit(live, cs, v);
    forall p ensures p in e.freed && !IsFile(live, p) <==> Delete(p, File) in cs && !IsFile(live, p) {
      FreedWithoutFile(live, cs, v, p);
    }
    assert forall c :: c in cs && c.Delete? && c.recorded == File ==> c == Delete(c.path, File);
  }

  lemma {:induction false} FreedWithoutFile(live: map<Path, Row>, cs: seq<Change>, v: Stamp, p: Path)
    requires BatchOk(live, cs)
    ensures p in Effects(live, cs, v).freed && !IsFile(live, p) <==> Delete(p, File) in cs && !IsFile(live, p)
    decreases cs
  {
    if cs != [] {
      FreedWithoutFile(live, cs[1..], v, p);
      assert Delete(p, File) in cs <==> Delete(p, File) == cs[0] || Delete(p, File) in cs[1..];
    }
  }

  // ---------- rollback ----------

  lemma RollbackKeepsInv(st: State, marker: int)
    requires Inv(st) && Rollback(st, marker).Ok?
    ensures Inv(Rollback(st, marker).value) && Tree(Rollback(st, marker).value.live)
  {
    var r := Rollback(st, marker).value;
    RolledBackIsTree(st);
    forall p | p in r.live ensures Holds(r.filestore, r.live, p) {
      RowBefore(st, p);
      assert p in st.preCommit ==> InPreCommit(st, p);
      assert p in st.soft ==> Holds(st.filestore, st.soft, p);
    }
  }

  /** A row after a rollback is a soft-deleted one, or a live one not of the version rolled back. */
  lemma RowBefore(st: State, p: Path)
    requires p in RolledBack(st)
    ensures (p in st.soft && RolledBack(st)[p] == st.soft[p])
         || (p in st.live && RolledBack(st)[p] == st.live[p] && st.live[p].version != st.alloc.version)
  {}

  /** After a refused commit the last one is promoted, and recorded as if it were not. */
  lemma RefusalKeepsInv(st: State)
    requires Inv(st)
    ensures Inv(Settled(st)) && Tree(Settled(st).live)
  {
    SettledIsSettled(st);
  }

  lemma ApplyKeepsInv(st: State, op: Op)
    requires Inv(st) && OpOk(st, op)
    ensures Inv(Apply(st, op))
  {
    match op {
      case CommitOp(cs, v, size) =>
        if Commit(st, cs, v, size).Ok? {
          CommitKeepsInv(st, cs, v, size);
        } else {
          RefusalKeepsInv(st);
        }
      case RollbackOp(marker) => if Rollback(st, marker).Ok? { RollbackKeepsInv(st, marker); }
      case Restart => RestartKeepsInv(st);
    }
  }

  lemma {:induction false} RunKeepsInv(run: seq<State>, ops: seq<Op>, blobberSize: nat, usedSize: int, i: nat)
    requires Run(run, ops, blobberSize, usedSize) && i < |run|
    ensures Inv(run[i])
  {
    if i > 0 {
      RunKeepsInv(run, ops, blobberSize, usedSize, i - 1);
      ApplyKeepsInv(run[i - 1], ops[i - 1]);
    }
  }

  // ---------- main results ----------

  /**
   * In every state of every run, whatever the batches and versions, each live file is found, with the
   * bytes committed for it.
   */
  lemma EveryFileResolves(run: seq<State>, ops: seq<Op>, blobberSize: nat, usedSize: int, i: nat, p: Path)
    requires Run(run, ops, blobberSize, usedSize) && i < |run| && IsFile(run[i].live, p)
    ensures Resolve(run[i], p) == Some(run[i].live[p].data)
  {
    RunKeepsInv(run, ops, blobberSize, usedSize, i);
    InvResolves(run[i], p);
  }

  lemma InvResolves(st: State, p: Path)
    requires Inv(st) && IsFile(st.live, p)
    ensures Resolve(st, p) == Some(st.live[p].data)
  {
    assert p in st.preCommit && st.alloc.isRedeemRequired ==> InPreCommit(st, p);
    assert p !in st.preCommit ==> Holds(st.filestore, st.live, p);
  }

  /** A batch that is accepted leaves no row below one that it removes. */
  ghost predicate GroundedOp(st: State, op: Op) {
    op.CommitOp? && Accepted(Settled(st).live, op.changes) ==>
      Grounded(Settled(st).live, Batch(st, op.changes, op.version))
  }

  lemma {:induction false} RunKeepsTree(run: seq<State>, ops: seq<Op>, blobberSize: nat, usedSize: int, i: nat)
    requires Run(run, ops, blobberSize, usedSize) && i < |run|
    requires forall k :: 0 <= k < i ==> GroundedOp(run[k], ops[k])
    ensures Tree(run[i].live)
  {
    if i > 0 {
      var st, op := run[i - 1], ops[i - 1];
      RunKeepsTree(run, ops, blobberSize, usedSize, i - 1);
      RunKeepsInv(run, ops, blobberSize, usedSize, i - 1);
      assert GroundedOp(st, op);
      match op {
        case CommitOp(cs, v, size) =>
          if Commit(st, cs, v, size).Ok? {
            CommitIsTreeExactly(st, cs, v, size);
          } else {
            RefusalKeepsInv(st);
          }
        case RollbackOp(marker) => if Rollback(st, marker).Ok? { RollbackKeepsInv(st, marker); }
        case Restart =>
      }
    }
  }

  /**
   * While no batch leaves a row below one that it removes, each live row but the root's is in a live
   * directory, by path and by id.
   */
  lemma EveryRowIsInALiveDirectory(
      run: seq<State>, ops: seq<Op>, blobberSize: nat, usedSize: int, i: nat, p: Path)
    requires Run(run, ops, blobberSize, usedSize) && i < |run| && p in run[i].live && p.names != []
    requires forall k :: 0 <= k < i ==> GroundedOp(run[k], ops[k])
    ensures var live := run[i].live;
            && Parent(p) in live && live[Parent(p)].kind == Dir
            && live[p].parent == live[Parent(p)].serial
  {
    RunKeepsTree(run, ops, blobberSize, usedSize, i);
    assert Rooted(run[i].live, p, run[i].live[p]);
  }

  /** Whatever the version: the rows come back exactly when no row that was kept carries it already. */
  lemma RollbackRestoresExactly(st: State, cs: seq<Change>, v: int, size: int)
    requires Inv(st) && BatchOk(Settled(st).live, cs) && cs != [] && Commit(st, cs, v, size).Ok?
    ensures RolledBack(Commit(st, cs, v, size).value) == Settled(st).live
       <==> KeepsNoneOf(Settled(st), Batch(st, cs, v), v)
  {
    var s := Settled(st);
    SettledIsSettled(st);
    CommitLeaves(st, cs, v, size);
    RolledBackExactly(s, cs, Stamp(v, s.serial), Commit(st, cs, v, size).value);
  }

  /**
   * A rollback right after a commit with changes: both sizes are as before, and, if none of the kept
   * rows carried the commit's version, so are the rows and every file's content, as the promotion of
   * the commit before left them; it left all rows exactly of a tree.
   */
  lemma RollbackUndoesCommit(st: State, cs: seq<Change>, v: int, size: int)
    requires Inv(st) && BatchOk(Settled(st).live, cs) && cs != [] && Commit(st, cs, v, size).Ok?
    requires v != 0
    ensures var r := Rollback(Commit(st, cs, v, size).value, v - 1);
            && r.Ok? && r.value.soft == map[] && r.value.preCommit == map[]
            && r.value.alloc.version == v - 1 && !r.value.alloc.isRedeemRequired
            && (v == st.alloc.version + 1 ==> r.value.alloc.version == st.alloc.version)
            && r.value.alloc.blobberSizeUsed == st.alloc.blobberSizeUsed && r.value.alloc.usedSize == st.alloc.usedSize
            && (KeepsNoneOf(Settled(st), Batch(st, cs, v), v) ==> UndoneTo(st, r.value))
  {
    var c := Commit(st, cs, v, size).value;
    CommitRecords(st, cs, v, size);
    RollbackRecords(c, v);
    if KeepsNoneOf(Settled(st), Batch(st, cs, v), v) {
      SettledIsSettled(st);
      CommitKeepsInv(st, cs, v, size);
      RollbackRestoresExactly(st, cs, v, size);
      RollbackKeepsInv(c, v - 1);
      SameRowsResolveAlike(st, Rollback(c, v - 1).value);
    }
  }

  /** The rows are those of st once settled, all of them exactly of a tree, and each file has its content of then. */
  ghost predicate UndoneTo(st: State, r: State) {
    && r.live == Settled(st).live && (r.live == st.live <==> Tree(st.live))
    && forall p :: IsFile(r.live, p) ==>
         p in st.live && p in r.live && Resolve(r, p) == Resolve(st, p) == Some(st.live[p].data)
  }

  /**
   * A commit that is refused for one of its changes has promoted the last commit, which can still be
   * rolled back: that restores the rows exactly when it had removed none, and no kept row carried its
   * version.  The sizes are set back in any case.
   */
  lemma RollbackAfterRefusalExactly(st: State, cs: seq<Change>, v: int, size: int)
    requires Inv(st) && BatchOk(Settled(st).live, cs) && cs != [] && Commit(st, cs, v, size).Ok?
    ensures var refused, e := Settled(Commit(st, cs, v, size).value), Batch(st, cs, v);
            && refused.alloc == Commit(st, cs, v, size).value.alloc
            && (RolledBack(refused) == Settled(st).live <==> e.deleted == {} && KeepsNoneOf(Settled(st), e, v))
  {
    var s, c, e := Settled(st), Commit(st, cs, v, size).value, Batch(st, cs, v);
    CommitKeepsInv(st, cs, v, size);
    CommitLeaves(st, cs, v, size);
    SettledIsSettled(c);
    if e.deleted == {} {
      SameAfterRefusal(c);
      RollbackRestoresExactly(st, cs, v, size);
    } else {
      var d :| d in e.deleted;
      SettledIsSettled(st);
      OverwrittenIsNew(s, cs, Stamp(v, s.serial), c, d);
      NewIsRolledBack(Settled(c), d);
    }
  }

  lemma SameAfterRefusal(c: State)
    requires Inv(c) && c.soft == map[]
    ensures RolledBack(Settled(c)) == RolledBack(c)
  {
    NoSoftIsTree(c);
    SettledIsSettled(c);
  }

  lemma OverwrittenIsNew(s: State, cs: seq<Change>, w: Stamp, c: State, d: Path)
    requires RowsOk(s) && BatchOk(s.live, cs) && RowsAfter(s, Effects(s.live, cs, w), w, c)
    requires d in Effects(s.live, cs, w).deleted
    ensures d in s.live && (d in c.live ==> c.live[d].version == w.version)
  {
    NoSoftIsTree(s);
    EffectsFit(s.live, cs, w);
    EffectsNewRows(s.live, cs, w);
    LiveAfterRows(s.live, Effects(s.live, cs, w));
    if d in c.live {
      assert NewRow(s.live, Effects(s.live, cs, w), w, d, c.live[d]);
    }
  }

  lemma NewIsRolledBack(r: State, d: Path)
    requires r.soft == map[] && (d in r.live ==> r.live[d].version == r.alloc.version)
    ensures d !in RolledBack(r)
  {
    if d in r.live {
      assert Id(d, r.live[d].serial) in OfVersion(r);
    }
  }

  lemma RollbackRecords(c: State, v: int)
    requires c.alloc.version == v != 0 && c.alloc.isRedeemRequired
    ensures var r := Rollback(c, v - 1);
            && r.Ok? && r.value.live == RolledBack(c) && r.value.soft == map[] && r.value.preCommit == map[]
            && r.value.alloc.version == v - 1 && !r.value.alloc.isRedeemRequired
            && r.value.alloc.blobberSizeUsed == c.alloc.prevBlobberSizeUsed
            && r.value.alloc.usedSize == c.alloc.prevUsedSize
  {}

  /** What a commit with changes leaves in the allocation record for a rollback. */
  lemma CommitRecords(st: State, cs: seq<Change>, v: int, size: int)
    requires BatchOk(Settled(st).live, cs) && cs != [] && Commit(st, cs, v, size).Ok?
    ensures var a := Commit(st, cs, v, size).value.alloc;
            && a.version == v && a.isRedeemRequired
            && a.prevBlobberSizeUsed == st.alloc.blobberSizeUsed && a.prevUsedSize == st.alloc.usedSize
  {}

  lemma SameRowsResolveAlike(st: State, r: State)
    requires Inv(st) && Inv(r)
    requires r.live.Keys <= st.live.Keys && forall p :: p in r.live ==> r.live[p] == st.live[p]
    ensures forall p :: IsFile(r.live, p) ==>
              p in st.live && Resolve(r, p) == Resolve(st, p) == Some(st.live[p].data)
  {
    forall p | IsFile(r.live, p)
      ensures p in st.live && Resolve(r, p) == Resolve(st, p) == Some(st.live[p].data)
    {
      InvResolves(st, p);
      InvResolves(r, p);
    }
  }

  /** The promotion with the two steps the other way round. */
  function PromoteMovingFirst(st: State): State {
    var deleted, purged := DeletedFiles(st), Purged(st);
    var created := CreatedFiles(purged);
    purged.(filestore := (st.filestore + Restrict(st.preCommit, created)) - deleted,
            preCommit := st.preCommit - created, cache := None)
  }

  /** It would do exactly as long as no file that stays is among those deleted. */
  lemma MovingFirstSettlesExactly(st: State)
    requires Inv(st) && st.alloc.isRedeemRequired
    ensures IsSettled(PromoteMovingFirst(st)) <==>
              !exists p :: p in DeletedFiles(st) && IsFile(Promote(st).live, p)
  {
    PromotionSettles(st);
    MovesPending(st);
    var s, t := Promote(st), PromoteMovingFirst(st);
    assert t.live == s.live && t.soft == s.soft && t.preCommit == s.preCommit;
    if p :| p in DeletedFiles(st) && IsFile(s.live, p) {
      assert !Holds(t.filestore, t.live, p);
    } else {
      forall p | p in t.live ensures Holds(t.filestore, t.live, p) {
        assert Holds(s.filestore, s.live, p);
        assert IsFile(s.live, p) ==> p !in DeletedFiles(st);
      }
    }
  }
}
