/**
 * Commits and rollbacks of one allocation, on values: reference rows (live, or soft-deleted and
 * waiting for the next commit), the precommit and the final directory, the in-memory record of the
 * last commit, and the allocation's versions and sizes.
 */
module CommitProtocol {
  import opened Bytes
  import opened Paths

  /**
   * A reference row; data is the content the row was committed for.  A row's id is its path with its
   * serial, the number of the commit that inserted it; parent is the serial of its parent's row.
   */
  datatype Row = Row(kind: Kind, version: int, size: nat, data: Bytes, serial: nat, parent: nat)

  datatype Id = Id(path: Path, serial: nat)

  /** What the collector keeps of the last commit that had changes. */
  datatype RefCache = RefCache(version: int, created: set<Path>, deleted: set<Path>)

  datatype Allocation = Allocation(
    version: int,
    blobberSize: int, blobberSizeUsed: int, usedSize: int,
    prevBlobberSizeUsed: int, prevUsedSize: int,
    isRedeemRequired: bool)

  /** At most one live and one soft-deleted row per lookup hash, which is the path: a unique index of the table. */
  datatype State = State(
    live: map<Path, Row>,
    soft: map<Path, Row>,
    serial: nat,
    preCommit: map<Path, Bytes>,
    filestore: map<Path, Bytes>,
    cache: Option<RefCache>,
    alloc: Allocation)

  predicate IsFile(rows: map<Path, Row>, p: Path) { p in rows && rows[p].kind == File }

  // ---------- the changes of a connection ----------

  datatype Transfer = ByCopy | ByRename | ByMove

  /** A deletion carries the type its row had when it was asked for; the other changes read their rows anew. */
  datatype Change =
    | Upload(path: Path, data: Bytes, canUpdate: bool)
    | Delete(path: Path, recorded: Kind)
    | Transferred(how: Transfer, src: Path, dst: Path)

  /** The directories Mkdir has to create above a path. */
  function NewDirs(live: map<Path, Row>, p: Path): set<Path> { Parents(p) - live.Keys }

  predicate ParentsAreDirs(live: map<Path, Row>, p: Path) {
    forall q :: q in Parents(p) && q in live ==> live[q].kind == Dir
  }

  /** IsDirectoryEmpty: no row has this one as its parent, but those already marked as deleted. */
  predicate IsEmptyDir(live: map<Path, Row>, gone: set<Path>, p: Path)
    requires p in live
  {
    forall q :: q in live && q !in gone && q.names != [] && Parent(q) == p ==> live[q].parent != live[p].serial
  }

  predicate SameParent(p: Path, q: Path) {
    p.names != [] && q.names != [] && Parent(p) == Parent(q)
  }

  /** The checks of ApplyChange, but for that of emptiness.  A deletion recorded for a file checks nothing. */
  predicate ChangeOk(live: map<Path, Row>, c: Change) {
    match c
    case Upload(p, _, canUpdate) =>
      p.names != [] && ParentsAreDirs(live, p) && (p in live ==> canUpdate && live[p].kind == File)
    case Delete(p, recorded) => recorded == Dir ==> p in live
    case Transferred(how, src, dst) =>
      && src in live && dst !in live && ParentsAreDirs(live, dst)
      && (how == ByRename ==> SameParent(src, dst))
  }

  /**
   * And that of emptiness, when these rows have been marked as deleted by other changes of the batch.
   * A copy reads the committed rows.
   */
  predicate FindsEmpty(live: map<Path, Row>, gone: set<Path>, c: Change)
    requires ChangeOk(live, c)
  {
    match c
    case Upload(_, _, _) => true
    case Delete(p, recorded) => recorded == Dir ==> IsEmptyDir(live, gone, p)
    case Transferred(how, src, _) =>
      live[src].kind == Dir ==> IsEmptyDir(live, if how == ByCopy then {} else gone, src)
  }

  /**
   * What a change does: file rows created, directory rows created, rows soft-deleted, and the paths the
   * collector notes as those of deleted files.
   */
  datatype Effect = Effect(files: map<Path, Row>, dirs: map<Path, Row>, deleted: set<Path>, freed: set<Path>)

  const NoEffect := Effect(map[], map[], {}, {})

  function Joined(a: Effect, b: Effect): Effect {
    Effect(a.files + b.files, a.dirs + b.dirs, a.deleted + b.deleted, a.freed + b.freed)
  }

  /** What a commit marks its rows with. */
  datatype Stamp = Stamp(version: int, serial: nat)

  /** The row Mkdir finds or makes for the parent of p. */
  function ParentSerial(live: map<Path, Row>, p: Path, k: nat): nat {
    if p.names != [] && Parent(p) in live then live[Parent(p)].serial else k
  }

  function MadeDirs(live: map<Path, Row>, p: Path, v: Stamp): map<Path, Row> {
    map d | d in NewDirs(live, p) :: Row(Dir, v.version, 0, [], v.serial, ParentSerial(live, d, v.serial))
  }

  /** The row of a copied, renamed or moved source: a rename keeps the parent. */
  function TransferredRow(live: map<Path, Row>, how: Transfer, src: Path, dst: Path, v: Stamp): Row
    requires src in live
  {
    var r := live[src].(version := v.version, serial := v.serial);
    if how == ByRename then r else r.(parent := ParentSerial(live, dst, v.serial))
  }

  function EffectOf(live: map<Path, Row>, c: Change, v: Stamp): Effect
    requires ChangeOk(live, c)
  {
    match c
    case Upload(p, data, _) =>
      var r := Row(File, v.version, |data|, data, v.serial, ParentSerial(live, p, v.serial));
      Effect(map[p := r], MadeDirs(live, p, v), Removed(live, c), Freed(live, c))
    case Delete(p, _) => Effect(map[], map[], Removed(live, c), Freed(live, c))
    case Transferred(how, src, dst) =>
      var r := TransferredRow(live, how, src, dst, v);
      var dirs := if how == ByRename then map[] else MadeDirs(live, dst, v);
      if r.kind == File then Effect(map[dst := r], dirs, Removed(live, c), Freed(live, c))
      else Effect(map[], dirs[dst := r], Removed(live, c), Freed(live, c))
  }

  function RowAt(live: map<Path, Row>, p: Path): set<Path> { if p in live then {p} else {} }

  /** The paths whose rows a change deletes: of whatever kind, or none if there is no row any more. */
  function Removed(live: map<Path, Row>, c: Change): set<Path> {
    match c
    case Upload(p, _, _) => RowAt(live, p)
    case Delete(p, _) => RowAt(live, p)
    case Transferred(how, src, _) => if how == ByCopy then {} else RowAt(live, src)
  }

  /** The paths a change has the collector note as those of deleted files. */
  function Freed(live: map<Path, Row>, c: Change): set<Path> {
    if c.Delete? && c.recorded == File then {c.path}
    else set p | p in Removed(live, c) && IsFile(live, p)
  }

  /** The paths of the rows a change deletes or creates, but for the directories Mkdir makes. */
  function Touched(live: map<Path, Row>, c: Change): set<Path> {
    match c
    case Upload(p, _, _) => {p}
    case Delete(p, _) => RowAt(live, p)
    case Transferred(_, src, dst) => {src, dst}
  }

  function Made(live: map<Path, Row>, c: Change): set<Path> {
    match c
    case Upload(p, _, _) => NewDirs(live, p)
    case Delete(_, _) => {}
    case Transferred(how, _, dst) => if how == ByRename then {} else NewDirs(live, dst)
  }

  function Affected(live: map<Path, Row>, c: Change): set<Path> { Touched(live, c) + Made(live, c) }

  /** c makes no directory in one that d removes, of which Mkdir might or might not see the removal. */
  predicate MakesNothingIn(live: map<Path, Row>, c: Change, d: Change) {
    forall n :: n in Made(live, c) && n.names != [] ==> Parent(n) !in Removed(live, d)
  }

  /** No path is changed by both: only the directories they create may be the same. */
  predicate Independent(live: map<Path, Row>, c: Change, d: Change) {
    && Touched(live, c) !! Affected(live, d) && Affected(live, c) !! Touched(live, d)
    && MakesNothingIn(live, c, d) && MakesNothingIn(live, d, c)
  }

  predicate AllIndependent(live: map<Path, Row>, cs: seq<Change>) {
    cs == [] || ((forall d :: d in cs[1..] ==> Independent(live, cs[0], d)) && AllIndependent(live, cs[1..]))
  }

  predicate BatchOk(live: map<Path, Row>, cs: seq<Change>) {
    cs == [] || (
      && ChangeOk(live, cs[0])
      && (forall d :: d in cs[1..] ==> Independent(live, cs[0], d))
      && BatchOk(live, cs[1..]))
  }

  /** The rows a change marks as deleted in the transaction at once, before the batch is finalized. */
  function MarkedBy(live: map<Path, Row>, c: Change): set<Path> {
    if c.Delete? then Removed(live, c) else {}
  }

  /** Each change in its turn finds the directory empty that it is to remove or to copy. */
  predicate EmptyInTurn(live: map<Path, Row>, gone: set<Path>, cs: seq<Change>)
    requires BatchOk(live, cs)
    decreases cs
  {
    cs == [] || (
      && FindsEmpty(live, gone, cs[0])
      && EmptyInTurn(live, gone + MarkedBy(live, cs[0]), cs[1..]))
  }

  /** No change of the batch, taken in this order, is refused. */
  predicate Accepted(live: map<Path, Row>, cs: seq<Change>) { BatchOk(live, cs) && EmptyInTurn(live, {}, cs) }

  /** What the collector holds once every change was applied to the same rows. */
  function Effects(live: map<Path, Row>, cs: seq<Change>, v: Stamp): Effect
    requires BatchOk(live, cs)
  {
    if cs == [] then NoEffect else Joined(EffectOf(live, cs[0], v), Effects(live, cs[1..], v))
  }

  /** No row that will be live, old or new, is below one that is removed. */
  predicate Grounded(live: map<Path, Row>, e: Effect) {
    forall p :: p in LiveAfter(live, e) ==> Parents(p) !! e.deleted
  }

  function SizeAt(live: map<Path, Row>, p: Path): nat { if p in live then live[p].size else 0 }

  /** What a change weighs against these rows: the size a connection records for it when they are there. */
  function SizeDelta(live: map<Path, Row>, c: Change): int {
    match c
    case Upload(p, data, _) => if data == [] then 0 else |data| - SizeAt(live, p)
    case Delete(p, _) => 0 - SizeAt(live, p)
    case Transferred(how, src, _) => if how == ByCopy then SizeAt(live, src) else 0
  }

  function ConnectionSize(live: map<Path, Row>, cs: seq<Change>): int {
    if cs == [] then 0 else SizeDelta(live, cs[0]) + ConnectionSize(live, cs[1..])
  }

  /** The file a change leaves in precommit: the uploaded one, or a copy from the final directory. */
  function FileFor(st: State, c: Change): map<Path, Bytes>
    requires ChangeOk(st.live, c)
  {
    match c
    case Upload(p, data, _) => map[p := data]
    case Delete(_, _) => map[]
    case Transferred(_, src, dst) =>
      if st.live[src].kind == File && src in st.filestore then map[dst := st.filestore[src]] else map[]
  }

  function FilesFor(st: State, cs: seq<Change>): map<Path, Bytes>
    requires BatchOk(st.live, cs)
  {
    if cs == [] then map[] else FileFor(st, cs[0]) + FilesFor(st, cs[1..])
  }

  // ---------- the operations ----------

  /** Lookup hashes of the files the last commit created and deleted, from the rows. */
  function CreatedByRows(st: State): set<Path> {
    set p | p in st.live && IsFile(st.live, p) && st.live[p].version == st.alloc.version
  }

  function DeletedByRows(st: State): set<Path> {
    set p | p in st.soft && IsFile(st.soft, p)
  }

  predicate UseCache(st: State) { st.cache.Some? && st.cache.value.version == st.alloc.version }

  function CreatedFiles(st: State): set<Path> {
    if UseCache(st) then st.cache.value.created else CreatedByRows(st)
  }

  function DeletedFiles(st: State): set<Path> {
    if UseCache(st) then st.cache.value.deleted else DeletedByRows(st)
  }

  /**
   * Whether row r at p goes when the rows with these ids are deleted for good: the database deletes
   * every row whose parent it deletes.
   */
  predicate Gone(live: map<Path, Row>, soft: map<Path, Row>, dead: set<Id>, p: Path, r: Row)
    decreases |p.names|, 0
  {
    || Id(p, r.serial) in dead
    || (p.names != [] && ParentGone(live, soft, dead, Parent(p), r.parent))
  }

  predicate ParentGone(
      live: map<Path, Row>, soft: map<Path, Row>, dead: set<Id>, q: Path, serial: nat)
    decreases |q.names|, 1
  {
    || Id(q, serial) in dead
    || (q in live && live[q].serial == serial && Gone(live, soft, dead, q, live[q]))
    || (q in soft && soft[q].serial == serial && Gone(live, soft, dead, q, soft[q]))
  }

  function Ids(rows: map<Path, Row>): set<Id> { set p | p in rows :: Id(p, rows[p].serial) }

  function LiveWithout(st: State, dead: set<Id>): map<Path, Row> {
    map p | p in st.live && !Gone(st.live, st.soft, dead, p, st.live[p]) :: st.live[p]
  }

  function SoftWithout(st: State, dead: set<Id>): map<Path, Row> {
    map p | p in st.soft && !Gone(st.live, st.soft, dead, p, st.soft[p]) :: st.soft[p]
  }

  /** The soft-deleted rows deleted for good. */
  function Purged(st: State): State {
    st.(live := LiveWithout(st, Ids(st.soft)), soft := map[])
  }

  /** MoveToFilestore: delete the old files and their rows, then move the new files in. */
  function Promote(st: State): State {
    var deleted, purged := DeletedFiles(st), Purged(st);
    var created := CreatedFiles(purged);
    purged.(filestore := (st.filestore - deleted) + Restrict(st.preCommit, created),
            preCommit := st.preCommit - created, cache := None)
  }

  function Settled(st: State): State {
    if st.alloc.isRedeemRequired then Promote(st) else st
  }

  function Restrict<V>(rows: map<Path, V>, keys: set<Path>): map<Path, V> {
    map p | p in keys && p in rows :: rows[p]
  }

  function LiveAfter(live: map<Path, Row>, e: Effect): map<Path, Row> {
    (live - e.deleted) + e.dirs + e.files
  }

  /** ApplyChanges and the collector's Finalize. */
  function ApplyEffect(st: State, e: Effect, v: int): State {
    st.(live := LiveAfter(st.live, e),
        soft := st.soft + Restrict(st.live, e.deleted),
        serial := st.serial + 1,
        cache := Some(RefCache(v, e.files.Keys, e.freed)))
  }

  datatype CommitError = MaxAllocationSize | ChangeRefused

  /** The commit of a connection with these independent changes, run in this order, and this recorded size. */
  function Commit(st: State, cs: seq<Change>, v: int, size: int): Result<State, CommitError> {
    if st.alloc.blobberSizeUsed + size > st.alloc.blobberSize then Err(MaxAllocationSize)
    else if !Accepted(Settled(st).live, cs) then Err(ChangeRefused)
    else Ok(Committed(Settled(st), cs, v, size))
  }

  /** Once the previous commit is promoted: the changes applied, the record updated, the files put in precommit. */
  function Committed(s: State, cs: seq<Change>, v: int, size: int): State
    requires BatchOk(s.live, cs)
  {
    var a := if cs == [] then s else ApplyEffect(s, Effects(s.live, cs, Stamp(v, s.serial)), v);
    a.(preCommit := s.preCommit + FilesFor(s, cs), alloc := Recorded(s.alloc, size, v, cs != []))
  }

  function Recorded(a: Allocation, size: int, v: int, changed: bool): Allocation {
    a.(prevBlobberSizeUsed := a.blobberSizeUsed, prevUsedSize := a.usedSize,
       blobberSizeUsed := a.blobberSizeUsed + size, usedSize := a.usedSize + size,
       version := v, isRedeemRequired := changed)
  }

  datatype RollbackError = NoVersion | LastCommitIsRollback | NotPreviousVersion

  function Rollback(st: State, marker: int): Result<State, RollbackError> {
    if st.alloc.version == 0 then Err(NoVersion)
    else if !st.alloc.isRedeemRequired then Err(LastCommitIsRollback)
    else if marker != st.alloc.version - 1 then Err(NotPreviousVersion)
    else
      Ok(st.(live := RolledBack(st), soft := map[], preCommit := map[],
             alloc := st.alloc.(
               blobberSizeUsed := st.alloc.prevBlobberSizeUsed,
               usedSize := st.alloc.prevUsedSize,
               isRedeemRequired := false,
               version := marker)))
  }

  /** The rows of the current version deleted, the soft-deleted ones revived. */
  function RolledBack(st: State): map<Path, Row> {
    LiveWithout(st, OfVersion(st)) + SoftWithout(st, OfVersion(st))
  }

  function OfVersion(st: State): set<Id> {
    set p | p in st.live && st.live[p].version == st.alloc.version :: Id(p, st.live[p].serial)
  }

  /** Where a download finds a file: precommit for rows of the allocation's version, or on a miss final. */
  function Resolve(st: State, p: Path): Option<Bytes>
    requires p in st.live
  {
    if st.live[p].version == st.alloc.version && p in st.preCommit then Some(st.preCommit[p])
    else if p in st.filestore then Some(st.filestore[p])
    else None
  }

  // ---------- runs ----------

  datatype Op =
    | CommitOp(changes: seq<Change>, version: int, size: int)
    | RollbackOp(marker: int)
    | Restart

  /** The changes meet the rows that the promotion of the last commit leaves. */
  predicate OpOk(st: State, op: Op) {
    op.CommitOp? ==> AllIndependent(Settled(st).live, op.changes)
  }

  /** A commit that is refused for one of its changes has promoted the last one, and the promotion stays. */
  function AfterCommit(st: State, r: Result<State, CommitError>): State {
    match r
    case Ok(s) => s
    case Err(MaxAllocationSize) => st
    case Err(ChangeRefused) => Settled(st)
  }

  /** A refused rollback changes nothing; a restart forgets the in-memory record. */
  function Apply(st: State, op: Op): State
    requires OpOk(st, op)
  {
    match op
    case CommitOp(cs, v, size) => AfterCommit(st, Commit(st, cs, v, size))
    case RollbackOp(marker) => (match Rollback(st, marker) case Ok(s) => s case Err(_) => st)
    case Restart => st.(cache := None)
  }

  function Start(blobberSize: nat, usedSize: int): State {
    State(map[], map[], 0, map[], map[], None, Allocation(0, blobberSize, 0, usedSize, 0, usedSize, false))
  }

  ghost predicate Run(run: seq<State>, ops: seq<Op>, blobberSize: nat, usedSize: int) {
    && |run| == |ops| + 1 && run[0] == Start(blobberSize, usedSize)
    && forall i :: 0 <= i < |ops| ==> OpOk(run[i], ops[i]) && run[i + 1] == Apply(run[i], ops[i])
  }
}
