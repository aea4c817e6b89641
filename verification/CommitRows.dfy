/**
 * The rows of an allocation as a tree: every row but the root's is in a directory that has a row.
 * What a batch of changes does to it, and which rows the database deletes along with others.
 */
module CommitRows {
  import opened Bytes
  import opened Paths
  import opened CommitProtocol

  // ---------- the tree ----------

  /** The parent a row names is in these rows, and a directory. */
  predicate Rooted(rows: map<Path, Row>, p: Path, r: Row) {
    p.names == [] || (
      && Parent(p) in rows
      && rows[Parent(p)].kind == Dir && rows[Parent(p)].serial == r.parent)
  }

  ghost predicate Tree(live: map<Path, Row>) {
    forall p :: p in live ==> Rooted(live, p, live[p])
  }

  ghost predicate Older(rows: map<Path, Row>, k: nat) {
    forall p :: p in rows ==> rows[p].serial < k && rows[p].parent < k
  }

  /** The parent of a row at p is among the rows, live or soft-deleted. */
  ghost predicate Linked(st: State, p: Path, r: Row) {
    Rooted(st.live, p, r) || Rooted(st.soft, p, r)
  }

  /** A soft-deleted row differs from a live one at its path, which the last commit made. */
  ghost predicate SoftOk(st: State) {
    forall p :: p in st.soft && p in st.live ==>
      st.soft[p].serial != st.live[p].serial && st.live[p].version == st.alloc.version
  }

  /** Every row has its parent among the rows; that of a live row may be soft-deleted. */
  ghost predicate RowsOk(st: State) {
    && (forall p :: p in st.live ==> Linked(st, p, st.live[p]))
    && (forall p :: p in st.soft ==> Linked(st, p, st.soft[p]))
    && Older(st.live, st.serial) && Older(st.soft, st.serial) && SoftOk(st)
  }

  lemma NoSoftIsTree(st: State)
    requires RowsOk(st) && st.soft == map[]
    ensures Tree(st.live)
  {
    forall p | p in st.live ensures Rooted(st.live, p, st.live[p]) {
      assert Linked(st, p, st.live[p]);
    }
  }

  /** With every live row in a live directory, deleting the soft-deleted rows takes no live one along. */
  lemma {:induction false} NothingLiveGone(st: State, p: Path)
    requires RowsOk(st) && Tree(st.live) && p in st.live
    ensures !Gone(st.live, st.soft, Ids(st.soft), p, st.live[p])
    decreases |p.names|
  {
    if p.names != [] {
      assert Rooted(st.live, p, st.live[p]);
      NothingLiveGone(st, Parent(p));
    }
  }

  /** The purge leaves a tree, and all live rows exactly when they were one. */
  lemma PurgeLeavesTree(st: State)
    requires RowsOk(st)
    ensures RowsOk(Purged(st)) && Tree(Purged(st).live)
    ensures Purged(st).live == st.live <==> Tree(st.live)
  {
    var rows := Purged(st).live;
    forall p | p in rows ensures Rooted(rows, p, rows[p]) {
      assert Linked(st, p, st.live[p]);
      if p.names != [] {
        assert !ParentGone(st.live, st.soft, Ids(st.soft), Parent(p), st.live[p].parent);
        assert Parent(p) in st.soft ==> Id(Parent(p), st.soft[Parent(p)].serial) in Ids(st.soft);
      }
    }
    if Tree(st.live) {
      forall p | p in st.live ensures !Gone(st.live, st.soft, Ids(st.soft), p, st.live[p]) {
        NothingLiveGone(st, p);
      }
    }
  }

  lemma {:induction false} AncestorsLive(live: map<Path, Row>, p: Path, i: nat)
    requires Tree(live) && p in live && i < |p.names|
    ensures Field(p, i) in live && live[Field(p, i)].kind == Dir
    decreases |p.names|
  {
    assert Rooted(live, p, live[p]);
    if i < |p.names| - 1 {
      AncestorsLive(live, Parent(p), i);
      FieldOfField(p, |p.names| - 1, i);
    }
  }

  // ---------- the rows a batch creates ----------

  /** A row made by this commit, in a directory there was or one that is made with it. */
  ghost predicate NewRow(live: map<Path, Row>, e: Effect, v: Stamp, p: Path, r: Row) {
    && r.version == v.version && r.serial == v.serial && r.parent <= v.serial
    && (Rooted(live, p, r) || (Parent(p) !in live && Parent(p) in e.dirs && r.parent == v.serial))
  }

  ghost predicate NewRows(live: map<Path, Row>, e: Effect, v: Stamp) {
    && (forall p :: p in e.files ==> NewRow(live, e, v, p, e.files[p]) && e.files[p].kind == File)
    && (forall p :: p in e.dirs ==> NewRow(live, e, v, p, e.dirs[p]) && e.dirs[p].kind == Dir)
  }

  lemma ParentAmongParents(p: Path, d: Path)
    requires d.names != [] && (d == p || d in Parents(p))
    ensures Parent(d) in Parents(p)
  {
    if d == p {
      ParentsStep(p);
    } else {
      var i :| 0 <= i < |p.names| && d == Field(p, i);
      ParentOfField(p, i);
    }
  }

  /** The parent of a path under which Mkdir was called, or of a directory it made. */
  lemma MadeParent(live: map<Path, Row>, p: Path, d: Path, v: Stamp)
    requires ParentsAreDirs(live, p) && Older(live, v.serial) && (d == p || d in NewDirs(live, p))
    ensures ParentSerial(live, d, v.serial) <= v.serial
    ensures d.names == [] ||
            (if Parent(d) in live then
               live[Parent(d)].kind == Dir && live[Parent(d)].serial == ParentSerial(live, d, v.serial)
             else Parent(d) in NewDirs(live, p) && ParentSerial(live, d, v.serial) == v.serial)
  {
    if d.names != [] {
      ParentAmongParents(p, d);
    }
  }

  lemma MadeDirsAreNew(live: map<Path, Row>, p: Path, v: Stamp, e: Effect)
    requires ParentsAreDirs(live, p) && Older(live, v.serial) && NewDirs(live, p) <= e.dirs.Keys
    ensures forall d :: d in MadeDirs(live, p, v) ==> NewRow(live, e, v, d, MadeDirs(live, p, v)[d])
  {
    forall d | d in MadeDirs(live, p, v) ensures NewRow(live, e, v, d, MadeDirs(live, p, v)[d]) {
      MadeParent(live, p, d, v);
    }
  }

  lemma EffectNewRows(live: map<Path, Row>, c: Change, v: Stamp)
    requires ChangeOk(live, c) && Tree(live) && Older(live, v.serial)
    ensures NewRows(live, EffectOf(live, c, v), v)
  {
    var e := EffectOf(live, c, v);
    match c
    case Upload(p, _, _) =>
      MadeDirsAreNew(live, p, v, e);
      MadeParent(live, p, p, v);
    case Delete(_, _) =>
    case Transferred(how, src, dst) =>
      if how == ByRename {
        assert Rooted(live, src, live[src]);
      } else {
        MadeDirsAreNew(live, dst, v, e);
        MadeParent(live, dst, dst, v);
      }
  }

  lemma JoinedNewRows(live: map<Path, Row>, a: Effect, b: Effect, v: Stamp)
    requires NewRows(live, a, v) && NewRows(live, b, v)
    ensures NewRows(live, Joined(a, b), v)
  {
    var e := Joined(a, b);
    NewRowsStay(live, a, e, v);
    NewRowsStay(live, b, e, v);
  }

  lemma NewRowsStay(live: map<Path, Row>, a: Effect, e: Effect, v: Stamp)
    requires NewRows(live, a, v) && a.dirs.Keys <= e.dirs.Keys
    ensures forall p :: p in a.files ==> NewRow(live, e, v, p, a.files[p])
    ensures forall p :: p in a.dirs ==> NewRow(live, e, v, p, a.dirs[p])
  {}

  lemma {:induction false} EffectsNewRows(live: map<Path, Row>, cs: seq<Change>, v: Stamp)
    requires BatchOk(live, cs) && Tree(live) && Older(live, v.serial)
    ensures NewRows(live, Effects(live, cs, v), v)
    decreases cs
  {
    if cs != [] {
      EffectNewRows(live, cs[0], v);
      EffectsNewRows(live, cs[1..], v);
      JoinedNewRows(live, EffectOf(live, cs[0], v), Effects(live, cs[1..], v), v);
    }
  }

  // ---------- disjointness ----------

  lemma EffectInside(live: map<Path, Row>, c: Change, v: Stamp)
    requires ChangeOk(live, c)
    ensures var e := EffectOf(live, c, v);
            && e.files.Keys + e.deleted <= Touched(live, c) <= Affected(live, c)
            && e.dirs.Keys <= Affected(live, c)
            && e.deleted == Removed(live, c)
  {}

  lemma JoinedKeys(a: Effect, b: Effect, e: Effect)
    requires e == Joined(a, b)
    ensures e.files.Keys == a.files.Keys + b.files.Keys && e.dirs.Keys == a.dirs.Keys + b.dirs.Keys
  {}

  lemma OneWithin(live: map<Path, Row>, d: Change, v: Stamp, c: Change)
    requires ChangeOk(live, d) && Independent(live, c, d)
    ensures var e := EffectOf(live, d, v);
            Touched(live, c) !! e.files.Keys + e.dirs.Keys + e.deleted && e.files.Keys !! Affected(live, c)
  {
    EffectInside(live, d, v);
  }

  /** Paths of a later change's effect are not those an earlier one names. */
  lemma {:induction false} EffectsWithin(live: map<Path, Row>, cs: seq<Change>, v: Stamp, c: Change)
    requires BatchOk(live, cs) && forall d :: d in cs ==> Independent(live, c, d)
    ensures var rest := Effects(live, cs, v);
            && Touched(live, c) !! rest.files.Keys + rest.dirs.Keys + rest.deleted
            && rest.files.Keys !! Affected(live, c)
    decreases cs
  {
    if cs != [] {
      forall d | d in cs[1..] ensures Independent(live, c, d) {
        assert d in cs;
      }
      EffectsWithin(live, cs[1..], v, c);
      assert cs[0] in cs && Independent(live, c, cs[0]);
      OneWithin(live, cs[0], v, c);
      JoinedKeys(EffectOf(live, cs[0], v), Effects(live, cs[1..], v), Effects(live, cs, v));
    }
  }

  /** The collected effect fits the rows it was computed from. */
  ghost predicate Fits(live: map<Path, Row>, e: Effect) {
    && e.deleted <= live.Keys
    && e.dirs.Keys !! live.Keys && e.files.Keys !! e.dirs.Keys
    && (forall p :: p in e.files ==> e.files[p].kind == File)
    && (forall p :: p in e.dirs ==> e.dirs[p].kind == Dir)
    && (forall p :: p in e.files && p in live ==> p in e.deleted && live[p].kind == File)
    && (forall p :: IsFile(live, p) ==> (p in e.freed <==> p in e.deleted))
  }

  lemma EffectFits(live: map<Path, Row>, c: Change, v: Stamp)
    requires ChangeOk(live, c)
    ensures Fits(live, EffectOf(live, c, v))
  {}

  lemma {:induction false} EffectsFit(live: map<Path, Row>, cs: seq<Change>, v: Stamp)
    requires BatchOk(live, cs)
    ensures Fits(live, Effects(live, cs, v))
    decreases cs
  {
    if cs != [] {
      EffectsFit(live, cs[1..], v);
      EffectsWithin(live, cs[1..], v, cs[0]);
      EffectInside(live, cs[0], v);
      EffectFits(live, cs[0], v);
    }
  }

  // ---------- the tree after a batch ----------

  lemma LiveAfterRows(live: map<Path, Row>, e: Effect)
    requires Fits(live, e)
    ensures forall p :: p in LiveAfter(live, e) ==>
              if p in e.files then LiveAfter(live, e)[p] == e.files[p]
              else if p in e.dirs then LiveAfter(live, e)[p] == e.dirs[p]
              else p in live && p !in e.deleted && LiveAfter(live, e)[p] == live[p]
    ensures forall p :: p in LiveAfter(live, e) <==> p in e.files || p in e.dirs || (p in live && p !in e.deleted)
  {}

  /** What a row after the batch has for a parent: a row that was removed, or one that is there. */
  lemma ParentAfter(live: map<Path, Row>, cs: seq<Change>, v: Stamp, p: Path)
    requires BatchOk(live, cs) && Tree(live) && Older(live, v.serial)
    requires p in LiveAfter(live, Effects(live, cs, v)) && p.names != []
    ensures var e := Effects(live, cs, v);
            var m := LiveAfter(live, e);
            if Parent(p) in e.deleted then
              Parent(p) !in m && Rooted(live, p, m[p])
            else Rooted(m, p, m[p])
  {
    var e := Effects(live, cs, v);
    EffectsFit(live, cs, v);
    EffectsNewRows(live, cs, v);
    LiveAfterRows(live, e);
    if p in e.files || p in e.dirs {
      NewParentAfter(live, e, v, p);
    } else {
      assert Rooted(live, p, live[p]);
    }
  }

  lemma NewParentAfter(live: map<Path, Row>, e: Effect, v: Stamp, p: Path)
    requires Fits(live, e) && NewRows(live, e, v) && p.names != [] && (p in e.files || p in e.dirs)
    ensures var m := LiveAfter(live, e);
            if Parent(p) in e.deleted then
              Parent(p) !in m && Rooted(live, p, m[p])
            else
              Rooted(m, p, m[p])
  {
    var m := LiveAfter(live, e);
    LiveAfterRows(live, e);
    assert NewRow(live, e, v, p, m[p]);
    if Parent(p) in e.dirs {
      assert NewRow(live, e, v, Parent(p), e.dirs[Parent(p)]);
    }
  }

  /** The rows of c are those of s with the effect of the batch. */
  ghost predicate RowsAfter(s: State, e: Effect, v: Stamp, c: State) {
    && s.soft == map[] && s.serial == v.serial
    && c.live == LiveAfter(s.live, e) && c.soft == Restrict(s.live, e.deleted)
    && c.serial == s.serial + 1 && c.alloc.version == v.version
  }

  /** A row whose parent was removed with the batch is linked to the soft-deleted one. */
  lemma LinkedAfter(s: State, cs: seq<Change>, v: Stamp, c: State, p: Path)
    requires RowsOk(s) && BatchOk(s.live, cs) && RowsAfter(s, Effects(s.live, cs, v), v, c) && p in c.live
    ensures Linked(c, p, c.live[p])
  {
    NoSoftIsTree(s);
    if p.names != [] {
      ParentAfter(s.live, cs, v, p);
    }
  }

  lemma RowsOkAfter(s: State, cs: seq<Change>, v: Stamp, c: State)
    requires RowsOk(s) && BatchOk(s.live, cs) && RowsAfter(s, Effects(s.live, cs, v), v, c)
    ensures RowsOk(c)
  {
    NoSoftIsTree(s);
    forall p | p in c.live ensures Linked(c, p, c.live[p]) {
      LinkedAfter(s, cs, v, c, p);
    }
    EffectsFit(s.live, cs, v);
    LiveAfterRows(s.live, Effects(s.live, cs, v));
    forall p | p in c.soft ensures Linked(c, p, c.soft[p]) {
      assert Rooted(s.live, p, s.live[p]);
    }
    SoftOkAfter(s, cs, v, c);
  }

  lemma SoftOkAfter(s: State, cs: seq<Change>, v: Stamp, c: State)
    requires RowsOk(s) && BatchOk(s.live, cs) && RowsAfter(s, Effects(s.live, cs, v), v, c)
    ensures SoftOk(c) && Older(c.live, c.serial) && Older(c.soft, c.serial)
  {
    var e := Effects(s.live, cs, v);
    NoSoftIsTree(s);
    EffectsFit(s.live, cs, v);
    EffectsNewRows(s.live, cs, v);
    LiveAfterRows(s.live, e);
    forall p | p in c.live ensures c.live[p].serial < c.serial && c.live[p].parent < c.serial {
      assert p in e.files || p in e.dirs ==> NewRow(s.live, e, v, p, c.live[p]);
    }
    forall p | p in c.soft && p in c.live
      ensures c.soft[p].serial != c.live[p].serial && c.live[p].version == c.alloc.version
    {
      assert NewRow(s.live, e, v, p, c.live[p]);
    }
  }

  /** After a batch, purging the soft-deleted rows takes along exactly the live rows below a directory it removed. */
  lemma {:induction false} GoneExactly(s: State, cs: seq<Change>, v: Stamp, c: State, p: Path)
    requires RowsOk(s) && BatchOk(s.live, cs) && RowsAfter(s, Effects(s.live, cs, v), v, c)
    requires p in c.live
    ensures Gone(c.live, c.soft, Ids(c.soft), p, c.live[p]) <==> !(Parents(p) !! Effects(s.live, cs, v).deleted)
    decreases |p.names|
  {
    SoftOkAfter(s, cs, v, c);
    NoSoftIsTree(s);
    if p.names != [] {
      ParentsStep(p);
      ParentAfter(s.live, cs, v, p);
      EffectsFit(s.live, cs, v);
      if Parent(p) in Effects(s.live, cs, v).deleted {
        assert c.soft[Parent(p)] == s.live[Parent(p)];
        GoneWithSoftParent(c, p);
      } else {
        GoneWithLiveParent(c, p);
        GoneExactly(s, cs, v, c, Parent(p));
      }
    }
  }

  lemma GoneWithSoftParent(c: State, p: Path)
    requires p in c.live && p.names != [] && Parent(p) in c.soft && c.soft[Parent(p)].serial == c.live[p].parent
    ensures Gone(c.live, c.soft, Ids(c.soft), p, c.live[p])
  {
    assert Id(Parent(p), c.live[p].parent) in Ids(c.soft);
  }

  lemma GoneWithLiveParent(c: State, p: Path)
    requires SoftOk(c) && p in c.live && p.names != [] && Rooted(c.live, p, c.live[p]) && Parent(p) !in c.soft
    ensures Gone(c.live, c.soft, Ids(c.soft), p, c.live[p])
       <==> Gone(c.live, c.soft, Ids(c.soft), Parent(p), c.live[Parent(p)])
  {}

  lemma NothingGoneExactly(c: State)
    ensures Purged(c).live == c.live <==>
              forall p :: p in c.live ==> !Gone(c.live, c.soft, Ids(c.soft), p, c.live[p])
  {
    if Purged(c).live == c.live {
      assert forall p :: p in c.live ==> p in Purged(c).live;
    }
  }

  /** Purging keeps all live rows exactly when none is below a row the batch removed. */
  lemma PurgeKeepsLiveExactly(s: State, cs: seq<Change>, v: Stamp, c: State)
    requires RowsOk(s) && BatchOk(s.live, cs) && RowsAfter(s, Effects(s.live, cs, v), v, c)
    ensures Purged(c).live == c.live <==> Grounded(s.live, Effects(s.live, cs, v))
  {
    NothingGoneExactly(c);
    forall p | p in c.live
      ensures Gone(c.live, c.soft, Ids(c.soft), p, c.live[p]) <==> !(Parents(p) !! Effects(s.live, cs, v).deleted)
    {
      GoneExactly(s, cs, v, c, p);
    }
  }

  // ---------- what is below the rows a batch removes ----------

  /** A deletion recorded for a file, with a directory in its place by now. */
  predicate IsStale(live: map<Path, Row>, c: Change) {
    c.Delete? && c.recorded == File && c.path in live && live[c.path].kind == Dir
  }

  /** A removed row is a file's, or that of a directory which a stale deletion removed or which was empty by then. */
  lemma {:induction false} RemovedInTurn(live: map<Path, Row>, gone: set<Path>, cs: seq<Change>, v: Stamp, d: Path)
    requires BatchOk(live, cs) && EmptyInTurn(live, gone, cs) && d in Effects(live, cs, v).deleted
    ensures d in live
    ensures || live[d].kind == File
            || (exists c :: c in cs && IsStale(live, c) && c.path == d)
            || IsEmptyDir(live, gone + Effects(live, cs, v).deleted, d)
    decreases cs
  {
    var e, rest := EffectOf(live, cs[0], v), Effects(live, cs[1..], v);
    EffectsFit(live, cs, v);
    if d in rest.deleted {
      var marked := gone + MarkedBy(live, cs[0]);
      RemovedInTurn(live, marked, cs[1..], v, d);
      assert marked + rest.deleted <= gone + (e.deleted + rest.deleted);
      assert forall c :: c in cs[1..] ==> c in cs;
    } else {
      assert cs[0] in cs && d in Removed(live, cs[0]);
    }
  }

  /** Below a directory that was removed otherwise no row is kept: the lowest such directory was not empty. */
  lemma {:induction false} NothingKeptBelow(live: map<Path, Row>, cs: seq<Change>, v: Stamp, d: Path, p: Path)
    requires Accepted(live, cs) && Tree(live)
    requires p in live && p !in Effects(live, cs, v).deleted && d in Effects(live, cs, v).deleted
    requires forall c :: c in cs && IsStale(live, c) ==> c.path !in Parents(p)
    ensures d !in Parents(p)
    decreases |p.names| - |d.names|
  {
    if d in Parents(p) {
      var i :| 0 <= i < |p.names| && d == Field(p, i);
      AncestorsLive(live, p, i);
      RemovedInTurn(live, {}, cs, v, d);
      ParentOfField(p, i + 1);
      var q := Field(p, i + 1);
      if i + 1 < |p.names| {
        AncestorsLive(live, p, i + 1);
        assert q in Parents(p);
      } else {
        WholeField(p);
      }
      assert Rooted(live, q, live[q]);
      assert q in Effects(live, cs, v).deleted;
      NothingKeptBelow(live, cs, v, q, p);
    }
  }

  /**
   * So a batch is grounded exactly when none of its new rows is below a row it removes, and no row it
   * keeps is below a directory that a stale deletion removes.
   */
  lemma GroundedExactly(live: map<Path, Row>, cs: seq<Change>, v: Stamp)
    requires Accepted(live, cs) && Tree(live)
    ensures var e := Effects(live, cs, v);
            Grounded(live, e) <==>
              && (forall p :: p in e.files.Keys + e.dirs.Keys ==> Parents(p) !! e.deleted)
              && (forall c, p :: c in cs && IsStale(live, c) && p in live && p !in e.deleted ==> c.path !in Parents(p))
  {
    var e := Effects(live, cs, v);
    EffectsFit(live, cs, v);
    LiveAfterRows(live, e);
    forall c | c in cs && IsStale(live, c) ensures c.path in e.deleted {
      RemovedIsDeleted(live, cs, v, c);
    }
    if forall c, p :: c in cs && IsStale(live, c) && p in live && p !in e.deleted ==> c.path !in Parents(p) {
      forall p, d | p in live && p !in e.deleted && d in e.deleted ensures d !in Parents(p) {
        NothingKeptBelow(live, cs, v, d, p);
      }
    }
  }

  lemma {:induction false} RemovedIsDeleted(live: map<Path, Row>, cs: seq<Change>, v: Stamp, c: Change)
    requires BatchOk(live, cs) && c in cs
    ensures Removed(live, c) <= Effects(live, cs, v).deleted
    decreases cs
  {
    if c != cs[0] {
      RemovedIsDeleted(live, cs[1..], v, c);
    }
  }

  // ---------- rolling back ----------

  /** Every remaining row's parent remains: a row goes with its parent. */
  lemma RolledBackIsTree(st: State)
    requires RowsOk(st)
    ensures Tree(RolledBack(st)) && Older(RolledBack(st), st.serial)
  {
    var m, dead := RolledBack(st), OfVersion(st);
    forall p | p in m ensures Rooted(m, p, m[p]) {
      if p in st.soft && !Gone(st.live, st.soft, dead, p, st.soft[p]) {
        ParentRemains(st, p, st.soft[p]);
      } else {
        ParentRemains(st, p, st.live[p]);
      }
    }
  }

  lemma ParentRemains(st: State, p: Path, r: Row)
    requires RowsOk(st) && !Gone(st.live, st.soft, OfVersion(st), p, r) && Linked(st, p, r)
    ensures Rooted(RolledBack(st), p, r)
  {
    if p.names != [] {
      var q := Parent(p);
      if Rooted(st.live, p, r) {
        assert !Gone(st.live, st.soft, OfVersion(st), q, st.live[q]);
        assert q !in st.soft;
      } else {
        assert !Gone(st.live, st.soft, OfVersion(st), q, st.soft[q]);
      }
    }
  }

  /** A row older than the commit stays when only rows of this commit are deleted. */
  lemma {:induction false} OldRowStays(c: State, k: nat, dead: set<Id>, p: Path, r: Row)
    requires forall i :: i in dead ==> i.serial == k
    requires r.serial < k && r.parent < k
    requires forall q :: q in c.live && c.live[q].serial < k ==> c.live[q].parent < k
    requires forall q :: q in c.soft && c.soft[q].serial < k ==> c.soft[q].parent < k
    ensures !Gone(c.live, c.soft, dead, p, r)
    decreases |p.names|
  {
    if p.names != [] {
      var q := Parent(p);
      if q in c.live && c.live[q].serial == r.parent {
        OldRowStays(c, k, dead, q, c.live[q]);
      }
      if q in c.soft && c.soft[q].serial == r.parent {
        OldRowStays(c, k, dead, q, c.soft[q]);
      }
    }
  }

  lemma NewRowsAreDead(s: State, cs: seq<Change>, v: Stamp, c: State)
    requires RowsOk(s) && BatchOk(s.live, cs) && RowsAfter(s, Effects(s.live, cs, v), v, c)
    requires KeepsNoneOf(s, Effects(s.live, cs, v), v.version)
    ensures var e := Effects(s.live, cs, v);
            forall p :: p in c.live && (p in e.files || p in e.dirs) ==> Id(p, c.live[p].serial) in OfVersion(c)
    ensures forall i :: i in OfVersion(c) ==> i.serial == v.serial
  {
    NoSoftIsTree(s);
    var e := Effects(s.live, cs, v);
    EffectsFit(s.live, cs, v);
    EffectsNewRows(s.live, cs, v);
    LiveAfterRows(s.live, e);
    forall p | p in c.live && (p in e.files || p in e.dirs)
      ensures c.live[p].version == v.version && c.live[p].serial == v.serial
    {
      assert NewRow(s.live, e, v, p, c.live[p]);
    }
  }

  lemma OldRowsStay(s: State, cs: seq<Change>, v: Stamp, c: State)
    requires RowsOk(s) && BatchOk(s.live, cs) && RowsAfter(s, Effects(s.live, cs, v), v, c)
    requires forall i :: i in OfVersion(c) ==> i.serial == v.serial
    ensures var e := Effects(s.live, cs, v);
            && (forall p :: p in c.live && p !in e.files && p !in e.dirs ==>
                  !Gone(c.live, c.soft, OfVersion(c), p, c.live[p]))
            && forall p :: p in c.soft ==> !Gone(c.live, c.soft, OfVersion(c), p, c.soft[p])
  {
    NoSoftIsTree(s);
    var e := Effects(s.live, cs, v);
    EffectsFit(s.live, cs, v);
    EffectsNewRows(s.live, cs, v);
    LiveAfterRows(s.live, e);
    forall q | q in c.live && c.live[q].serial < v.serial ensures c.live[q].parent < v.serial {
      assert q in e.files || q in e.dirs ==> NewRow(s.live, e, v, q, c.live[q]);
    }
    forall p | p in c.live && p !in e.files && p !in e.dirs ensures !Gone(c.live, c.soft, OfVersion(c), p, c.live[p]) {
      OldRowStays(c, v.serial, OfVersion(c), p, c.live[p]);
    }
    forall p | p in c.soft ensures !Gone(c.live, c.soft, OfVersion(c), p, c.soft[p]) {
      OldRowStays(c, v.serial, OfVersion(c), p, c.soft[p]);
    }
  }

  ghost predicate KeepsNoneOf(s: State, e: Effect, version: int) {
    forall p :: p in s.live && p !in e.deleted ==> s.live[p].version != version
  }

  lemma LiveLeft(s: State, e: Effect, c: State)
    requires Fits(s.live, e) && c.live == LiveAfter(s.live, e)
    requires forall p :: p in c.live && (p in e.files || p in e.dirs) ==> Id(p, c.live[p].serial) in OfVersion(c)
    requires forall p :: p in c.live && p !in e.files && p !in e.dirs ==>
               !Gone(c.live, c.soft, OfVersion(c), p, c.live[p])
    ensures LiveWithout(c, OfVersion(c)) == s.live - e.deleted
  {
    LiveAfterRows(s.live, e);
    var left := LiveWithout(c, OfVersion(c));
    forall p ensures p in left <==> p in s.live && p !in e.deleted {
      if p in c.live && (p in e.files || p in e.dirs) {
        assert Gone(c.live, c.soft, OfVersion(c), p, c.live[p]);
      }
    }
  }

  lemma SoftLeft(c: State)
    requires forall p :: p in c.soft ==> !Gone(c.live, c.soft, OfVersion(c), p, c.soft[p])
    ensures SoftWithout(c, OfVersion(c)) == c.soft
  {}

  lemma SplitRows(live: map<Path, Row>, keys: set<Path>)
    ensures (live - keys) + Restrict(live, keys) == live
  {}

  lemma KeptRowGoes(s: State, e: Effect, c: State, p: Path)
    requires Fits(s.live, e) && c.live == LiveAfter(s.live, e) && c.soft == Restrict(s.live, e.deleted)
    requires p in s.live && p !in e.deleted && s.live[p].version == c.alloc.version
    ensures RolledBack(c) != s.live
  {
    LiveAfterRows(s.live, e);
    assert Id(p, c.live[p].serial) in OfVersion(c);
    assert p !in LiveWithout(c, OfVersion(c)) && p !in c.soft;
  }

  /** The rows come back exactly when no row the batch kept carries the commit's version. */
  lemma RolledBackExactly(s: State, cs: seq<Change>, v: Stamp, c: State)
    requires RowsOk(s) && BatchOk(s.live, cs) && RowsAfter(s, Effects(s.live, cs, v), v, c)
    ensures RolledBack(c) == s.live <==> KeepsNoneOf(s, Effects(s.live, cs, v), v.version)
  {
    NoSoftIsTree(s);
    var e := Effects(s.live, cs, v);
    EffectsFit(s.live, cs, v);
    if KeepsNoneOf(s, e, v.version) {
      NewRowsAreDead(s, cs, v, c);
      OldRowsStay(s, cs, v, c);
      LiveLeft(s, e, c);
      SoftLeft(c);
      SplitRows(s.live, e.deleted);
    } else {
      var p :| p in s.live && p !in e.deleted && s.live[p].version == v.version;
      KeptRowGoes(s, e, c, p);
    }
  }
}
