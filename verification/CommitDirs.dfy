/** The directories of a batch of changes are those that its concurrent calls of Mkdir make. */
module CommitDirs {
  import opened Bytes
  import opened Paths
  import opened CommitProtocol
  import opened CommitRows
  import opened CommitSafety
  import M = Mkdir

  function KindsOf(live: map<Path, Row>): map<Path, Kind> { map p | p in live :: live[p].kind }

  /** In every state of every run the rows a commit finds are the tree Mkdir needs. */
  lemma CommittedRowsSuitMkdir(run: seq<State>, ops: seq<Op>, blobberSize: nat, usedSize: int, i: nat)
    requires Run(run, ops, blobberSize, usedSize) && i < |run|
    ensures M.Tree(M.Init(KindsOf(Settled(run[i]).live), []))
  {
    RunKeepsInv(run, ops, blobberSize, usedSize, i);
    SettledIsSettled(run[i]);
    TreeSuitsMkdir(Settled(run[i]).live);
  }

  lemma TreeSuitsMkdir(live: map<Path, Row>)
    requires Tree(live)
    ensures M.Tree(M.Init(KindsOf(live), []))
  {
    var s := M.Init(KindsOf(live), []);
    forall p | s.Has(p) && p.names != [] ensures s.IsDir(Parent(p)) {
      assert Rooted(live, p, live[p]);
    }
  }

  /** The directory a change calls Mkdir for. */
  function DestOf(c: Change): Option<Path> {
    match c
    case Upload(p, _, _) => Some(DirOf(p))
    case Delete(_, _) => None
    case Transferred(how, _, dst) => if how == ByRename then None else Some(DirOf(dst))
  }

  /** filepath.Dir */
  function DirOf(p: Path): Path { if p.names == [] then p else Parent(p) }

  function DestsOf(cs: seq<Change>): seq<Path> {
    if cs == [] then []
    else DestsOf(cs[..|cs| - 1]) + match DestOf(cs[|cs| - 1]) case Some(p) => [p] case None => []
  }

  lemma {:induction false} DestsAre(cs: seq<Change>, d: Path)
    ensures d in DestsOf(cs) <==> exists c :: c in cs && DestOf(c) == Some(d)
  {
    if cs != [] {
      DestsAre(cs[..|cs| - 1], d);
      assert cs == cs[..|cs| - 1] + [cs[|cs| - 1]];
      assert cs[|cs| - 1] in cs;
    }
  }

  /** What a call for d asks for is what is missing on the way to anything directly in d. */
  lemma AskedIsMissing(live: map<Path, Row>, q: Path, p: Path)
    requires q.names != [] && ParentsAreDirs(live, q)
    ensures M.Asks(KindsOf(live), Parent(q), p) <==> p in Parents(q)
  {
    var d := Parent(q);
    forall i | 0 <= i <= |d.names| ensures Field(d, i) == Field(q, i) && Field(q, i) in Parents(q) {
      FieldOfField(q, |d.names|, i);
    }
    assert !M.ThroughFile(KindsOf(live), d);
    if p in Parents(q) {
      var i :| 0 <= i < |q.names| && p == Field(q, i);
      assert p == Field(d, i);
    }
  }

  /**
   * However the Mkdir calls of a batch interleave, when they are done they have created exactly the
   * directories the batch is to make.
   */
  lemma MkdirMakesTheBatchesDirectories(live: map<Path, Row>, cs: seq<Change>, schedule: seq<nat>, p: Path)
    requires Tree(live) && BatchOk(live, cs)
    requires M.AllDone(M.Run(M.Init(KindsOf(live), DestsOf(cs)), schedule))
    ensures p in M.Run(M.Init(KindsOf(live), DestsOf(cs)), schedule).created <==>
              exists c :: c in cs && p in Made(live, c)
  {
    var dests := DestsOf(cs);
    TreeSuitsMkdir(live);
    M.CreatesExactlyTheMissing(KindsOf(live), dests, schedule, p);
    if p !in live && M.Requested(KindsOf(live), dests, p) {
      var t :| 0 <= t < |dests| && M.Asks(KindsOf(live), dests[t], p);
      DestsAre(cs, dests[t]);
      var c :| c in cs && DestOf(c) == Some(dests[t]);
      MadeIsAsked(live, cs, c, p);
    }
    if c :| c in cs && p in Made(live, c) {
      MadeIsAsked(live, cs, c, p);
      DestsAre(cs, DestOf(c).value);
      var t :| 0 <= t < |dests| && dests[t] == DestOf(c).value;
    }
  }

  lemma {:induction false} ChangesAreOk(live: map<Path, Row>, cs: seq<Change>, c: Change)
    requires BatchOk(live, cs) && c in cs
    ensures ChangeOk(live, c)
    decreases cs
  {
    if c != cs[0] {
      ChangesAreOk(live, cs[1..], c);
    }
  }

  lemma MadeIsAsked(live: map<Path, Row>, cs: seq<Change>, c: Change, p: Path)
    requires Tree(live) && BatchOk(live, cs) && c in cs
    ensures p in Made(live, c) <==>
              DestOf(c).Some? && p !in live && M.Asks(KindsOf(live), DestOf(c).value, p)
  {
    ChangesAreOk(live, cs, c);
    match c
    case Upload(q, _, _) => AskedIsMissing(live, q, p);
    case Delete(_, _) =>
    case Transferred(how, _, dst) =>
      RootIsLive(live);
      if how != ByRename {
        AskedIsMissing(live, dst, p);
      }
  }

  lemma RootIsLive(live: map<Path, Row>)
    requires Tree(live) && live != map[]
    ensures Path([]) in live
  {
    var p :| p in live;
    if p.names == [] {
      assert p == Path([]);
    } else {
      AncestorsLive(live, p, 0);
      assert Field(p, 0) == Path([]);
    }
  }
}
