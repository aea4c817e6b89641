/**
 * The commit and rollback handlers as they change one allocation's tables, directories and record
 * step by step, each tied to its function in CommitProtocol and keeping the invariant of CommitSafety.
 * Loops that start a goroutine per file are loops over a set, and the results do not depend on the
 * order.  The loop over the changes takes them in order: those of a batch are independent, and none
 * makes a directory in one that another removes.
 */
module CommitStore {
  import opened Bytes
  import opened Paths
  import opened CommitProtocol
  import opened CommitRows
  import opened CommitSafety
  import opened CommitOutcome

  datatype CommitFailure = Refused(why: CommitError) | FileStoreError

  /** The type of row a change is about, as the change has it once it was applied. */
  function TypeOf(live: map<Path, Row>, c: Change): Kind
    requires ChangeOk(live, c)
  {
    match c
    case Upload(_, _, _) => File
    case Delete(_, recorded) => recorded
    case Transferred(_, src, _) => live[src].kind
  }

  function TypesOf(live: map<Path, Row>, cs: seq<Change>): (types: seq<Kind>)
    requires BatchOk(live, cs)
    ensures |types| == |cs|
  {
    if cs == [] then [] else [TypeOf(live, cs[0])] + TypesOf(live, cs[1..])
  }

  lemma JoinedInOrder(a: Effect, b: Effect, c: Effect)
    ensures Joined(a, Joined(b, c)) == Joined(Joined(a, b), c)
  {
    UnionInOrder(a.files, b.files, c.files);
    UnionInOrder(a.dirs, b.dirs, c.dirs);
  }

  lemma NothingJoined(e: Effect)
    ensures Joined(NoEffect, e) == e
  {
    assert map[] + e.files == e.files && map[] + e.dirs == e.dirs;
  }

  /** Every file a change copies is in the final directory. */
  predicate SourcesPresent(st: State, cs: seq<Change>)
    requires BatchOk(st.live, cs)
  {
    cs == [] || (SourcePresent(st, cs[0]) && SourcesPresent(st, cs[1..]))
  }

  predicate SourcePresent(st: State, c: Change)
    requires ChangeOk(st.live, c)
  {
    c.Transferred? && st.live[c.src].kind == File ==> c.src in st.filestore
  }

  lemma {:induction false} SettledHasSources(st: State, cs: seq<Change>)
    requires IsSettled(st) && BatchOk(st.live, cs)
    ensures SourcesPresent(st, cs)
    decreases cs
  {
    if cs != [] {
      if cs[0].Transferred? {
        assert Holds(st.filestore, st.live, cs[0].src);
      }
      SettledHasSources(st, cs[1..]);
    }
  }

  /** In a state the protocol can reach no commit fails for want of a file to copy. */
  lemma ReachableHasSources(st: State, cs: seq<Change>)
    requires Inv(st) && BatchOk(Settled(st).live, cs)
    ensures SourcesPresent(Settled(st), cs)
  {
    SettledIsSettled(st);
    SettledHasSources(Settled(st), cs);
  }

  /** Collected so far, and what the changes still to come will add. */
  ghost predicate CollectedTo(live: map<Path, Row>, cs: seq<Change>, v: Stamp,
                              collected: Effect, types: seq<Kind>, left: seq<Change>)
    requires BatchOk(live, cs) && BatchOk(live, left)
  {
    && Joined(collected, Effects(live, left, v)) == Effects(live, cs, v)
    && types + TypesOf(live, left) == TypesOf(live, cs)
  }

  lemma CollectNone(live: map<Path, Row>, cs: seq<Change>, v: Stamp)
    requires BatchOk(live, cs)
    ensures CollectedTo(live, cs, v, NoEffect, [], cs)
  {
    NothingJoined(Effects(live, cs, v));
  }

  lemma CollectOne(live: map<Path, Row>, cs: seq<Change>, v: Stamp,
                   collected: Effect, types: seq<Kind>, left: seq<Change>)
    requires BatchOk(live, cs) && BatchOk(live, left) && left != []
    requires CollectedTo(live, cs, v, collected, types, left)
    ensures CollectedTo(live, cs, v, Joined(collected, EffectOf(live, left[0], v)),
                        types + [TypeOf(live, left[0])], left[1..])
  {
    JoinedInOrder(collected, EffectOf(live, left[0], v), Effects(live, left[1..], v));
    var rest := TypesOf(live, left[1..]);
    assert types + ([TypeOf(live, left[0])] + rest) == (types + [TypeOf(live, left[0])]) + rest;
  }

  lemma OneMoreMoved(preCommit: map<Path, Bytes>, filestore: map<Path, Bytes>, done: set<Path>, hash: Path)
    requires hash !in done
    ensures var moved := filestore + Restrict(preCommit, done);
            filestore + Restrict(preCommit, done + {hash})
            == if hash in preCommit then moved[hash := preCommit[hash]] else moved
    ensures (preCommit - done) - {hash} == preCommit - (done + {hash})
  {}

  class AllocationStore {
    var live: map<Path, Row>
    var soft: map<Path, Row>
    var serial: nat
    var preCommit: map<Path, Bytes>
    var filestore: map<Path, Bytes>
    var cache: Option<RefCache>
    var alloc: Allocation

    ghost function Now(): State
      reads this
    {
      State(live, soft, serial, preCommit, filestore, cache, alloc)
    }

    ghost predicate Valid()
      reads this
    {
      Inv(Now())
    }

    constructor (blobberSize: nat, usedSize: int)
      ensures Valid() && Now() == Start(blobberSize, usedSize)
      ensures live == map[] && soft == map[] && preCommit == map[] && filestore == map[] && cache == None
      ensures alloc == Allocation(0, blobberSize, 0, usedSize, 0, usedSize, false)
    {
      live, soft, serial, preCommit, filestore, cache := map[], map[], 0, map[], map[], None;
      alloc := Allocation(0, blobberSize, 0, usedSize, 0, usedSize, false);
    }

    // ---------- the file store ----------

    method DeleteFromFilestore(hash: Path)
      modifies `filestore
      ensures filestore == old(filestore) - {hash}
    {
      filestore := filestore - {hash};
    }

    /** A rename from precommit: a missing source is ignored. */
    method MoveFile(hash: Path)
      modifies `filestore, `preCommit
      ensures hash in old(preCommit) ==> filestore == old(filestore)[hash := old(preCommit)[hash]]
      ensures hash !in old(preCommit) ==> filestore == old(filestore)
      ensures preCommit == old(preCommit) - {hash}
    {
      if hash in preCommit {
        filestore := filestore[hash := preCommit[hash]];
        preCommit := preCommit - {hash};
      }
    }

    /** False when there is no file to copy. */
    method CopyFile(from: Path, to: Path) returns (ok: bool)
      modifies `preCommit
      ensures ok <==> from == to || from in filestore
      ensures from != to && from in filestore ==> preCommit == old(preCommit)[to := filestore[from]]
      ensures from == to || from !in filestore ==> preCommit == old(preCommit)
    {
      if from == to {
        return true;
      }
      ok := from in filestore;
      if ok {
        preCommit := preCommit[to := filestore[from]];
      }
    }

    // ---------- promotion ----------

    method DeleteFiles(hashes: set<Path>)
      modifies `filestore
      ensures filestore == old(filestore) - hashes
    {
      var todo := hashes;
      while todo != {}
        invariant todo <= hashes
        invariant filestore == old(filestore) - (hashes - todo)
        decreases todo
      {
        var hash :| hash in todo;
        DeleteFromFilestore(hash);
        todo := todo - {hash};
      }
    }

    method MoveFiles(hashes: set<Path>)
      modifies `filestore, `preCommit
      ensures filestore == old(filestore) + Restrict(old(preCommit), hashes)
      ensures preCommit == old(preCommit) - hashes
    {
      var todo := hashes;
      while todo != {}
        invariant todo <= hashes
        invariant filestore == old(filestore) + Restrict(old(preCommit), hashes - todo)
        invariant preCommit == old(preCommit) - (hashes - todo)
        decreases todo
      {
        ghost var before := todo;
        var hash :| hash in todo;
        MoveFile(hash);
        OneMoreMoved(old(preCommit), old(filestore), hashes - todo, hash);
        todo := todo - {hash};
        assert hashes - todo == (hashes - before) + {hash};
      }
    }

    /** deleteFromFileStore: the files of the deleted rows, then the rows and what the database deletes with them. */
    method DeleteFromFileStore(deletedRefs: set<Path>, useRefCache: bool)
      modifies `filestore, `soft, `live
      ensures filestore == old(filestore) - (if useRefCache then deletedRefs else DeletedByRows(old(Now())))
      ensures live == Purged(old(Now())).live && soft == map[]
      ensures old(Valid()) ==> Tree(live) && (live == old(live) <==> Tree(old(live)))
    {
      if Inv(Now()) {
        PurgeLeavesTree(Now());
      }
      var results := deletedRefs;
      if !useRefCache {
        results := set p | p in soft && IsFile(soft, p);
      }
      DeleteFiles(results);
      var dead := Ids(soft);
      live := map p | p in live && !Gone(live, soft, dead, p, live[p]) :: live[p];
      soft := map[];
    }

    method MoveToFilestore()
      modifies `filestore, `preCommit, `soft, `live, `cache
      ensures Now() == Promote(old(Now()))
    {
      var refs, deletedRefs, useRefCache := {}, {}, false;
      if cache.Some? && cache.value.version == alloc.version {
        useRefCache := true;
        refs, deletedRefs := cache.value.created, cache.value.deleted;
      }
      DeleteFromFileStore(deletedRefs, useRefCache);
      if !useRefCache {
        refs := set p | p in live && IsFile(live, p) && live[p].version == alloc.version;
      }
      MoveFiles(refs);
      cache := None;
    }

    // ---------- changes ----------

    /**
     * The checks of the changes, as if all came before the first effect: when one fails, the transaction
     * is rolled back.  Emptiness alone is read in the transaction, where deletions are marked at once.
     */
    method CheckChanges(changes: seq<Change>) returns (ok: bool)
      requires AllIndependent(live, changes)
      ensures ok <==> Accepted(live, changes)
    {
      var left, gone := changes, {};
      while left != []
        invariant AllIndependent(live, left)
        invariant Accepted(live, changes) <==> BatchOk(live, left) && EmptyInTurn(live, gone, left)
      {
        if !ChangeOk(live, left[0]) || !FindsEmpty(live, gone, left[0]) {
          return false;
        }
        gone := gone + MarkedBy(live, left[0]);
        left := left[1..];
      }
      ok := true;
    }

    /**
     * The loop of ApplyChanges.  Every change is read against the rows of before the batch, although a
     * deletion marks its row in the transaction at once: independent changes do not see each
     * other's, and directories are looked up among the committed rows.
     */
    method CollectChanges(changes: seq<Change>, v: Stamp) returns (collected: Effect, types: seq<Kind>)
      requires BatchOk(live, changes)
      ensures collected == Effects(live, changes, v)
      ensures types == TypesOf(live, changes)
    {
      collected, types := NoEffect, [];
      var left := changes;
      CollectNone(live, changes, v);
      while left != []
        invariant BatchOk(live, left) && CollectedTo(live, changes, v, collected, types, left)
      {
        CollectOne(live, changes, v, collected, types, left);
        collected, types := Joined(collected, EffectOf(live, left[0], v)), types + [TypeOf(live, left[0])];
        left := left[1..];
      }
      assert Joined(collected, NoEffect) == collected;
    }

    method ApplyChanges(changes: seq<Change>, v: int) returns (types: seq<Kind>)
      requires BatchOk(live, changes)
      modifies `live, `soft, `serial, `cache
      ensures Now() == ApplyEffect(old(Now()), Effects(old(live), changes, Stamp(v, old(serial))), v)
      ensures types == TypesOf(old(live), changes)
    {
      var collected;
      collected, types := CollectChanges(changes, Stamp(v, serial));
      Finalize(collected, v);
    }

    method Finalize(e: Effect, v: int)
      modifies `live, `soft, `serial, `cache
      ensures Now() == ApplyEffect(old(Now()), e, v)
    {
      cache := Some(RefCache(v, e.files.Keys, e.freed));
      soft := soft + Restrict(live, e.deleted);
      live := LiveAfter(live, e);
      serial := serial + 1;
    }

    /** CommitToFileStore of one change: the uploaded file is renamed into precommit, a transferred one copied. */
    method CommitOneToFileStore(c: Change, kind: Kind, ghost st: State) returns (ok: bool)
      requires filestore == st.filestore && ChangeOk(st.live, c) && kind == TypeOf(st.live, c)
      modifies `preCommit
      ensures ok <==> SourcePresent(st, c)
      ensures ok ==> preCommit == old(preCommit) + FileFor(st, c)
    {
      ok := true;
      match c {
        case Upload(p, data, _) => preCommit := preCommit[p := data];
        case Delete(_, _) =>
        case Transferred(_, src, dst) =>
          if kind == File {
            ok := CopyFile(src, dst);
          }
      }
    }

    method CommitToFileStore(changes: seq<Change>, types: seq<Kind>, ghost st: State) returns (ok: bool)
      requires filestore == st.filestore && BatchOk(st.live, changes) && types == TypesOf(st.live, changes)
      modifies `preCommit
      ensures ok <==> SourcesPresent(st, changes)
      ensures ok ==> preCommit == old(preCommit) + FilesFor(st, changes)
    {
      var i := 0;
      assert changes[0..] == changes && types[0..] == types;
      while i < |changes|
        invariant i <= |changes| && BatchOk(st.live, changes[i..]) && types[i..] == TypesOf(st.live, changes[i..])
        invariant SourcesPresent(st, changes) <==> SourcesPresent(st, changes[i..])
        invariant preCommit + FilesFor(st, changes[i..]) == old(preCommit) + FilesFor(st, changes)
      {
        assert changes[i..][0] == changes[i] && changes[i..][1..] == changes[i + 1..];
        assert types[i..][0] == types[i] && types[i..][1..] == types[i + 1..];
        ghost var before, rest := preCommit, FilesFor(st, changes[i + 1..]);
        var done := CommitOneToFileStore(changes[i], types[i], st);
        if !done {
          return false;
        }
        UnionInOrder(before, FileFor(st, changes[i]), rest);
        i := i + 1;
      }
      ok := true;
    }

    // ---------- the two handlers ----------

    /**
     * CommitWrite after its signature checks: refused for the connection's size, and then nothing changes,
     * or for one of its changes, and then only the promotion stays; otherwise every file to copy is found,
     * and the new state is the protocol's.
     */
    method CommitWrite(changes: seq<Change>, version: int, size: int) returns (r: Result<(), CommitFailure>)
      requires Valid() && AllIndependent(Settled(Now()).live, changes)
      modifies this
      ensures Valid()
      ensures match Commit(old(Now()), changes, version, size)
              case Ok(s) => r == Ok(()) && Now() == s
              case Err(e) => r == Err(Refused(e)) && Now() == AfterCommit(old(Now()), Err(e))
      ensures r == Ok(()) ==> BatchDone(old(Settled(Now()).live), live, changes, version)
      ensures r == Ok(()) ==>
                && alloc.version == version && alloc.isRedeemRequired == (changes != [])
                && alloc.blobberSizeUsed == old(alloc.blobberSizeUsed) + size
                && alloc.usedSize == old(alloc.usedSize) + size
    {
      ghost var before := Now();
      if alloc.blobberSizeUsed + size > alloc.blobberSize {
        return Err(Refused(MaxAllocationSize));
      }
      PromotePrevious();
      RefusalKeepsInv(before);
      var accepted := CheckChanges(changes);
      if !accepted {
        return Err(Refused(ChangeRefused));
      }
      ReachableHasSources(before, changes);
      CommitKeepsInv(before, changes, version, size);
      CommitDoesItsChanges(before, changes, version, size);
      var ok := CommitChanges(changes, version, size);
      r := if ok then Ok(()) else Err(FileStoreError);
    }

    method CommitChanges(changes: seq<Change>, version: int, size: int) returns (ok: bool)
      requires BatchOk(live, changes)
      modifies this
      ensures ok <==> SourcesPresent(old(Now()), changes)
      ensures ok ==> Now() == Committed(old(Now()), changes, version, size)
    {
      ghost var settled := Now();
      var types := ApplyAndRecord(changes, version, size);
      ok := CommitToFileStore(changes, types, settled);
    }

    /** The database part of a commit: the changes, if there are any, and the allocation. */
    method ApplyAndRecord(changes: seq<Change>, version: int, size: int) returns (types: seq<Kind>)
      requires BatchOk(live, changes)
      modifies `live, `soft, `serial, `cache, `alloc
      ensures types == TypesOf(old(live), changes)
      ensures changes == [] ==> Now() == old(Now()).(alloc := Recorded(old(alloc), size, version, false))
      ensures changes != [] ==>
                Now() == ApplyEffect(old(Now()), Effects(old(live), changes, Stamp(version, old(serial))), version)
                         .(alloc := Recorded(old(alloc), size, version, true))
    {
      types := [];
      if |changes| > 0 {
        types := ApplyChanges(changes, version);
      }
      RecordCommit(size, version, |changes| > 0);
    }

    method PromotePrevious()
      modifies `filestore, `preCommit, `soft, `live, `cache
      ensures Now() == Settled(old(Now()))
    {
      if alloc.isRedeemRequired {
        MoveToFilestore();
      }
    }

    method RecordCommit(size: int, version: int, changed: bool)
      modifies `alloc
      ensures alloc == Recorded(old(alloc), size, version, changed)
    {
      alloc := alloc.(prevBlobberSizeUsed := alloc.blobberSizeUsed);
      alloc := alloc.(prevUsedSize := alloc.usedSize);
      alloc := alloc.(blobberSizeUsed := alloc.blobberSizeUsed + size);
      alloc := alloc.(usedSize := alloc.usedSize + size);
      alloc := alloc.(version := version);
      alloc := alloc.(isRedeemRequired := changed);
    }

    /**
     * ApplyRollback: delete the rows of the current version, and with them those below; revive the
     * soft-deleted ones.
     */
    method ApplyRollback(version: int)
      requires version == alloc.version
      modifies `live, `soft
      ensures live == RolledBack(old(Now())) && soft == map[]
    {
      var dead := set p | p in live && live[p].version == version :: Id(p, live[p].serial);
      var kept := map p | p in live && !Gone(live, soft, dead, p, live[p]) :: live[p];
      soft := map p | p in soft && !Gone(live, soft, dead, p, soft[p]) :: soft[p];
      live := kept + soft;
      soft := map[];
    }

    /** Rollback after its signature checks. */
    method RollbackCommit(marker: int) returns (r: Result<(), RollbackError>)
      requires Valid()
      modifies this
      ensures Valid()
      ensures match Rollback(old(Now()), marker)
              case Ok(s) => r == Ok(()) && Now() == s
              case Err(e) => r == Err(e) && Now() == old(Now())
      ensures r == Err(NoVersion) <==> old(alloc.version) == 0
      ensures r == Err(LastCommitIsRollback) <==> old(alloc.version) != 0 && !old(alloc.isRedeemRequired)
      ensures r == Err(NotPreviousVersion) <==>
                old(alloc.version) != 0 && old(alloc.isRedeemRequired) && marker != old(alloc.version) - 1
      ensures r == Ok(()) ==>
                && alloc.version == marker == old(alloc.version) - 1 && !alloc.isRedeemRequired && preCommit == map[]
                && alloc.blobberSizeUsed == old(alloc.prevBlobberSizeUsed) && alloc.usedSize == old(alloc.prevUsedSize)
    {
      if alloc.version == 0 {
        return Err(NoVersion);
      }
      if !alloc.isRedeemRequired {
        return Err(LastCommitIsRollback);
      }
      if marker != alloc.version - 1 {
        return Err(NotPreviousVersion);
      }
      RollbackKeepsInv(Now(), marker);
      ApplyRollback(alloc.version);
      alloc := alloc.(blobberSizeUsed := alloc.prevBlobberSizeUsed, usedSize := alloc.prevUsedSize);
      alloc := alloc.(isRedeemRequired := false, version := marker);
      preCommit := map[];
      r := Ok(());
    }

    /** A download of a live file is served the content the file was committed with. */
    method Download(p: Path) returns (content: Option<Bytes>)
      requires Valid() && p in live && live[p].kind == File
      ensures content == Some(live[p].data)
    {
      InvResolves(Now(), p);
      var fromPreCommit := alloc.version == live[p].version;
      if fromPreCommit && p in preCommit {
        return Some(preCommit[p]);
      }
      content := if p in filestore then Some(filestore[p]) else None;
    }
  }

  lemma UnionInOrder<K, V>(a: map<K, V>, b: map<K, V>, c: map<K, V>)
    ensures a + (b + c) == (a + b) + c
  {
  }
}
