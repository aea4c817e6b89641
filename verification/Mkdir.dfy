/**
 * Concurrent Mkdir calls that share one collector: the cache of references they read and fill at
 * any time, the rows of the one database transaction they write under the transaction lock.
 */
module Mkdir {
  import opened Bytes
  import opened Paths

  /** A directory row; None is the null parent id. */
  datatype DirRow = DirRow(parent: Option<Path>, level: nat)

  // ---------- paths ----------

  /** fields in Mkdir: every ancestor from the root down, then the path. */
  function Fields(p: Path): seq<Path> { seq(|p.names| + 1, i requires 0 <= i <= |p.names| => Field(p, i)) }

  /** What GetAllParentPaths returns: the ancestors; for the root, the root. */
  function ParentFields(p: Path): seq<Path> {
    if p.names == [] then [p] else Fields(p)[..|p.names|]
  }

  // ---------- state ----------

  /** Where a call is; i and parent are the loop's variables. */
  datatype Pc =
    | Start
    | Lookup
    | Found(kind: Kind)
    | Missed
    | Locked
    | Rechecked
    | Creating(i: nat, parent: Option<Path>)
    | Created(i: nat, path: Path)
    | Done(ok: bool)

  datatype Call = Call(dest: Path, pc: Pc)

  datatype State = State(committed: map<Path, Kind>, created: map<Path, DirRow>, cache: map<Path, Kind>,
                         lock: Option<nat>, calls: seq<Call>)
  {
    predicate Has(p: Path) { p in committed || p in created }

    predicate IsDir(p: Path) { (p in committed && committed[p] == Dir) || p in created }

    function To(t: nat, pc: Pc): State
      requires t < |calls|
    {
      this.(calls := calls[t := calls[t].(pc := pc)])
    }

    function Leave(t: nat, ok: bool): State
      requires t < |calls|
    {
      To(t, Done(ok)).(lock := None)
    }
  }

  /** The rows among these paths, in path order. */
  function Existing(s: State, paths: seq<Path>): (r: seq<Path>)
    ensures |r| <= |paths|
  {
    if paths == [] then []
    else Existing(s, paths[..|paths| - 1]) + if s.Has(paths[|paths| - 1]) then [paths[|paths| - 1]] else []
  }

  function Last(paths: seq<Path>): Option<Path> {
    if paths == [] then None else Some(paths[|paths| - 1])
  }

  predicate Enabled(s: State, t: nat) {
    t < |s.calls| && !s.calls[t].pc.Done? && (s.calls[t].pc.Missed? ==> s.lock.None?)
  }

  function Step(s: State, t: nat): (r: State)
    requires Enabled(s, t)
    ensures |r.calls| == |s.calls| && r.calls[t].dest == s.calls[t].dest && r.committed == s.committed
  {
    var dest := s.calls[t].dest;
    match s.calls[t].pc
    case Start => if dest in s.cache then s.To(t, Done(s.cache[dest] == Dir)) else s.To(t, Lookup)
    case Lookup => if dest in s.committed then s.To(t, Found(s.committed[dest])) else s.To(t, Missed)
    case Found(kind) => s.To(t, Done(kind == Dir)).(cache := s.cache[dest := kind])
    case Missed => s.To(t, Locked).(lock := Some(t))
    case Locked => if dest in s.cache then s.Leave(t, s.cache[dest] == Dir) else s.To(t, Rechecked)
    case Rechecked =>
      var refs := Existing(s, ParentFields(dest));
      if exists p :: p in refs && !s.IsDir(p) then s.Leave(t, false) else s.To(t, Creating(|refs|, Last(refs)))
    case Creating(i, parent) =>
      if |dest.names| < i then s.Leave(t, true)
      else if s.Has(Field(dest, i)) then s.Leave(t, false)
      else s.To(t, Created(i, Field(dest, i))).(created := s.created[Field(dest, i) := DirRow(parent, i + 1)])
    case Created(i, path) => s.To(t, Creating(i + 1, Some(path))).(cache := s.cache[path := Dir])
  }

  function Run(s: State, schedule: seq<nat>): State
    decreases |schedule|
  {
    if schedule == [] then s
    else
      var before := Run(s, schedule[..|schedule| - 1]);
      var t := schedule[|schedule| - 1];
      if Enabled(before, t) then Step(before, t) else before
  }

  function Init(committed: map<Path, Kind>, dests: seq<Path>): State {
    State(committed, map[], map[], None, seq(|dests|, i requires 0 <= i < |dests| => Call(dests[i], Start)))
  }

  // ---------- invariant ----------

  /** Every row but the root's is in a directory that has a row. */
  ghost predicate Tree(s: State) {
    forall p :: s.Has(p) && p.names != [] ==> s.IsDir(Parent(p))
  }

  /** Some ancestor of p, or p itself, is a file. */
  ghost predicate ThroughFile(committed: map<Path, Kind>, p: Path) {
    exists i :: 0 <= i <= |p.names| && FileAt(committed, Field(p, i))
  }

  predicate FileAt(committed: map<Path, Kind>, p: Path) { p in committed && committed[p] == File }

  ghost predicate RowsOk(s: State) {
    forall p :: p in s.created ==> RowOk(s, p, s.created[p])
  }

  ghost predicate RowOk(s: State, p: Path, row: DirRow) {
    && p !in s.committed
    && row.level == |p.names| + 1
    && row.parent == if p.names == [] then None else Some(Parent(p))
  }

  ghost predicate CacheOk(s: State) {
    && (forall p :: p in s.cache ==> s.Has(p) && (s.cache[p] == Dir <==> s.IsDir(p)))
    && forall p :: p in s.created ==> p in s.cache || Pending(s, p)
  }

  /** The row just created by the call that holds the lock. */
  predicate Pending(s: State, p: Path) {
    && s.lock.Some? && s.lock.value < |s.calls|
    && s.calls[s.lock.value].pc.Created? && s.calls[s.lock.value].pc.path == p
  }

  predicate InSection(pc: Pc) { pc.Locked? || pc.Rechecked? || pc.Creating? || pc.Created? }

  /** The first n fields are directories and the others have no row. */
  ghost predicate MadeUpTo(s: State, dest: Path, n: nat) {
    && n <= |dest.names| + 1
    && (forall i :: 0 <= i < n ==> s.IsDir(Field(dest, i)))
    && forall i :: n <= i <= |dest.names| ==> !s.Has(Field(dest, i))
  }

  ghost predicate CallOk(s: State, c: Call) {
    match c.pc
    case Start | Lookup => true
    case Found(kind) => c.dest in s.committed && s.committed[c.dest] == kind
    case Missed | Locked => c.dest !in s.committed
    case Rechecked => !s.Has(c.dest)
    case Creating(i, parent) => MadeUpTo(s, c.dest, i) && parent == if i == 0 then None else Some(Field(c.dest, i - 1))
    case Created(i, path) => i <= |c.dest.names| && path == Field(c.dest, i) && MadeUpTo(s, c.dest, i + 1)
    case Done(ok) => if ok then s.IsDir(c.dest) else ThroughFile(s.committed, c.dest)
  }

  ghost predicate CallsOk(s: State) {
    && (forall t :: 0 <= t < |s.calls| ==> CallOk(s, s.calls[t]))
    && (forall t :: 0 <= t < |s.calls| ==> (InSection(s.calls[t].pc) <==> s.lock == Some(t)))
    && (s.lock.Some? ==> s.lock.value < |s.calls|)
  }

  ghost predicate Inv(s: State) {
    Tree(s) && RowsOk(s) && CacheOk(s) && CallsOk(s)
  }

  // ---------- ancestors ----------

  lemma {:induction false} AncestorsAreDirs(s: State, p: Path, i: nat)
    requires Tree(s) && s.Has(p) && i < |p.names|
    ensures s.IsDir(Field(p, i))
    decreases |p.names|
  {
    if i < |p.names| - 1 {
      AncestorsAreDirs(s, Parent(p), i);
      FieldOfField(p, |p.names| - 1, i);
    }
  }

  /** These are the first few of the n first fields of p, and the others have no row. */
  ghost predicate FirstFields(s: State, p: Path, n: nat, refs: seq<Path>) {
    && |refs| <= n <= |p.names| + 1
    && (forall i :: 0 <= i < |refs| ==> refs[i] == Field(p, i) && s.Has(Field(p, i)))
    && forall i :: |refs| <= i < n ==> !s.Has(Field(p, i))
  }

  lemma ExistingPush(s: State, paths: seq<Path>, p: Path)
    ensures Existing(s, paths + [p]) == Existing(s, paths) + if s.Has(p) then [p] else []
  {
    assert (paths + [p])[..|paths|] == paths;
  }

  lemma FirstFieldsPush(s: State, p: Path, n: nat, refs: seq<Path>)
    requires Tree(s) && n <= |p.names| && FirstFields(s, p, n, refs)
    ensures FirstFields(s, p, n + 1, refs + if s.Has(Field(p, n)) then [Field(p, n)] else [])
  {
    if s.Has(Field(p, n)) && |refs| < n {
      FieldOfField(p, n, |refs|);
      AncestorsAreDirs(s, Field(p, n), |refs|);
    }
  }

  /** The existing ones among a path's ancestors are the first few of them. */
  lemma {:induction false} ExistingIsPrefix(s: State, p: Path, n: nat)
    requires Tree(s) && n <= |p.names| + 1
    ensures FirstFields(s, p, n, Existing(s, Fields(p)[..n]))
  {
    if n > 0 {
      ExistingIsPrefix(s, p, n - 1);
      FirstFieldsPush(s, p, n - 1, Existing(s, Fields(p)[..n - 1]));
      ExistingPush(s, Fields(p)[..n - 1], Field(p, n - 1));
      assert Fields(p)[..n] == Fields(p)[..n - 1] + [Field(p, n - 1)];
    }
  }

  /** A directory and a file on the way to it exclude each other. */
  lemma DirIsNotThroughFile(s: State, p: Path)
    requires Tree(s) && RowsOk(s) && s.IsDir(p)
    ensures !ThroughFile(s.committed, p)
  {
    forall i | 0 <= i <= |p.names| ensures !FileAt(s.committed, Field(p, i)) {
      if i < |p.names| {
        AncestorsAreDirs(s, p, i);
      } else {
        WholeField(p);
      }
    }
  }

  lemma FileIsThroughFile(s: State, p: Path, i: nat)
    requires i <= |p.names| && s.Has(Field(p, i)) && !s.IsDir(Field(p, i))
    ensures ThroughFile(s.committed, p)
  {
    assert FileAt(s.committed, Field(p, i));
  }

  // ---------- every step keeps the invariant ----------

  /** The parents the query finds are the first few fields, and no later field has a row. */
  lemma QueryFindsPrefix(s: State, dest: Path)
    requires Tree(s) && !s.Has(dest)
    ensures FirstFields(s, dest, |dest.names| + 1, Existing(s, ParentFields(dest)))
    ensures |Existing(s, ParentFields(dest))| <= |dest.names|
  {
    WholeField(dest);
    ExistingIsPrefix(s, dest, |dest.names|);
    if dest.names == [] {
      ExistingPush(s, [], dest);
      assert [] + [dest] == ParentFields(dest);
    }
  }

  /** What the found parents say about the call. */
  lemma QueryOutcome(s: State, dest: Path, refs: seq<Path>)
    requires FirstFields(s, dest, |dest.names| + 1, refs) && |refs| <= |dest.names|
    ensures Last(refs) == if |refs| == 0 then None else Some(Field(dest, |refs| - 1))
    ensures if exists p :: p in refs && !s.IsDir(p) then ThroughFile(s.committed, dest) else MadeUpTo(s, dest, |refs|)
  {
    if p :| p in refs && !s.IsDir(p) {
      var i :| 0 <= i < |refs| && refs[i] == p;
      FileIsThroughFile(s, dest, i);
    } else {
      assert forall i :: 0 <= i < |refs| ==> refs[i] in refs;
    }
  }

  /** So whichever way the call goes on, it goes on rightly. */
  lemma QueryCallOk(s: State, dest: Path, refs: seq<Path>, r: State)
    requires FirstFields(s, dest, |dest.names| + 1, refs) && |refs| <= |dest.names|
    requires r.committed == s.committed && r.created == s.created
    ensures if exists p :: p in refs && !s.IsDir(p) then CallOk(r, Call(dest, Done(false)))
            else CallOk(r, Call(dest, Creating(|refs|, Last(refs))))
  {
    QueryOutcome(s, dest, refs);
    if !exists p :: p in refs && !s.IsDir(p) {
      MadeUpToFrame(s, r, dest, |refs|);
    }
  }

  lemma RecheckedOutcome(s: State, t: nat)
    requires Inv(s) && t < |s.calls| && s.calls[t].pc.Rechecked?
    ensures CallOk(Step(s, t), Step(s, t).calls[t])
  {
    var dest := s.calls[t].dest;
    assert CallOk(s, s.calls[t]);
    QueryFindsPrefix(s, dest);
    QueryCallOk(s, dest, Existing(s, ParentFields(dest)), Step(s, t));
  }

  lemma MadeUpToFrame(s: State, r: State, dest: Path, n: nat)
    requires MadeUpTo(s, dest, n) && r.committed == s.committed && r.created == s.created
    ensures MadeUpTo(r, dest, n)
  {}

  /** What the other calls know does not depend on where this one is. */
  ghost predicate Grows(s: State, r: State) {
    && r.committed == s.committed
    && forall p :: s.IsDir(p) ==> r.IsDir(p)
  }

  lemma OtherCallOk(s: State, r: State, c: Call)
    requires CallOk(s, c) && Grows(s, r) && (InSection(c.pc) ==> r.created == s.created)
    ensures CallOk(r, c)
  {}


  /** The row a call creates: absent before, in its parent directory, at its level. */
  lemma CreatesMissingRow(s: State, t: nat)
    requires Inv(s) && t < |s.calls| && s.calls[t].pc.Creating? && s.calls[t].pc.i <= |s.calls[t].dest.names|
    ensures var p := Field(s.calls[t].dest, s.calls[t].pc.i);
            && !s.Has(p)
            && (p.names != [] ==> s.IsDir(Parent(p)))
            && RowOk(s, p, DirRow(s.calls[t].pc.parent, s.calls[t].pc.i + 1))
  {
    assert CallOk(s, s.calls[t]);
    if s.calls[t].pc.i > 0 {
      ParentOfField(s.calls[t].dest, s.calls[t].pc.i);
    }
  }

  /** A step changes one call, and the rows only by creating one. */
  ghost predicate Moves(s: State, t: nat, r: State) {
    && t < |s.calls| && |r.calls| == |s.calls|
    && r.committed == s.committed
    && (forall u :: 0 <= u < |s.calls| && u != t ==> r.calls[u] == s.calls[u])
    && (r.created == s.created || (InSection(s.calls[t].pc) && InSection(r.calls[t].pc)))
    && r.lock == (if InSection(r.calls[t].pc) then Some(t) else if InSection(s.calls[t].pc) then None else s.lock)
    && (InSection(r.calls[t].pc) && !InSection(s.calls[t].pc) ==> s.lock.None?)
  }

  lemma StepMoves(s: State, t: nat)
    requires Enabled(s, t) && (InSection(s.calls[t].pc) ==> s.lock == Some(t))
    ensures Moves(s, t, Step(s, t))
  {
    match s.calls[t].pc
    case Start =>
    case Lookup =>
    case Found(_) =>
    case Missed =>
    case Locked =>
    case Rechecked =>
    case Creating(_, _) =>
    case Created(_, _) =>
  }

  lemma StepKeepsRows(s: State, t: nat)
    requires Inv(s) && Enabled(s, t)
    ensures Tree(Step(s, t)) && RowsOk(Step(s, t)) && Grows(s, Step(s, t))
  {
    var pc, r := s.calls[t].pc, Step(s, t);
    if pc.Creating? && pc.i <= |s.calls[t].dest.names| {
      CreatesMissingRow(s, t);
      RowAddedKeepsRows(s, Field(s.calls[t].dest, pc.i), DirRow(pc.parent, pc.i + 1), r);
    } else {
      CreatesNothing(s, t);
      SameRows(s, r);
    }
  }

  lemma CreatesNothing(s: State, t: nat)
    requires Enabled(s, t) && !(s.calls[t].pc.Creating? && s.calls[t].pc.i <= |s.calls[t].dest.names|)
    ensures Step(s, t).created == s.created && Step(s, t).committed == s.committed
  {}

  lemma RowAddedKeepsRows(s: State, p: Path, row: DirRow, r: State)
    requires Tree(s) && RowsOk(s) && RowOk(s, p, row) && (p.names != [] ==> s.IsDir(Parent(p)))
    requires r.committed == s.committed && r.created == s.created[p := row]
    ensures Tree(r) && RowsOk(r) && Grows(s, r)
  {
    forall q | r.Has(q) && q.names != [] ensures r.IsDir(Parent(q)) {
      assert q == p || s.Has(q);
    }
    forall q | q in r.created ensures RowOk(r, q, r.created[q]) {
      assert q == p || RowOk(s, q, s.created[q]);
    }
  }

  lemma SameRows(s: State, r: State)
    requires Tree(s) && RowsOk(s) && r.committed == s.committed && r.created == s.created
    ensures Tree(r) && RowsOk(r) && Grows(s, r)
  {
    forall q | q in r.created ensures RowOk(r, q, r.created[q]) {
      assert RowOk(s, q, s.created[q]);
    }
    forall q | r.Has(q) && q.names != [] ensures r.IsDir(Parent(q)) {
      assert s.Has(q);
    }
  }

  lemma StepKeepsCache(s: State, t: nat)
    requires Inv(s) && Enabled(s, t)
    ensures CacheOk(Step(s, t))
  {
    var c := s.calls[t];
    assert CallOk(s, c) && (InSection(c.pc) <==> s.lock == Some(t));
    if c.pc.Found? {
      Caches(s, Step(s, t), c.dest, c.pc.kind);
    } else if c.pc.Created? {
      Caches(s, Step(s, t), c.pc.path, Dir);
    } else if c.pc.Creating? && c.pc.i <= |c.dest.names| {
      CreatesMissingRow(s, t);
      CacheOfNewRow(s, t, Step(s, t));
    } else {
      CachesNothing(s, t);
      CacheStays(s, Step(s, t));
    }
  }

  lemma CachesNothing(s: State, t: nat)
    requires Enabled(s, t) && (InSection(s.calls[t].pc) <==> s.lock == Some(t))
    requires var pc := s.calls[t].pc;
             !pc.Found? && !pc.Created? && !(pc.Creating? && pc.i <= |s.calls[t].dest.names|)
    ensures var r := Step(s, t);
            && r.cache == s.cache && r.committed == s.committed && r.created == s.created
            && forall p :: Pending(s, p) ==> Pending(r, p)
  {}

  lemma CacheStays(s: State, r: State)
    requires CacheOk(s) && r.cache == s.cache && r.committed == s.committed && r.created == s.created
    requires forall p :: p in s.created && Pending(s, p) ==> Pending(r, p)
    ensures CacheOk(r)
  {}

  lemma Caches(s: State, r: State, p: Path, kind: Kind)
    requires CacheOk(s) && r.cache == s.cache[p := kind] && r.committed == s.committed && r.created == s.created
    requires s.Has(p) && (kind == Dir <==> s.IsDir(p))
    requires forall q :: Pending(s, q) ==> q == p || Pending(r, q)
    ensures CacheOk(r)
  {}

  lemma CacheOfNewRow(s: State, t: nat, r: State)
    requires CacheOk(s) && s.lock == Some(t) && t < |s.calls| && !s.calls[t].pc.Created?
    requires r.lock == Some(t) && t < |r.calls| && r.calls[t].pc.Created? && !s.Has(r.calls[t].pc.path)
    requires r.cache == s.cache && r.committed == s.committed
    requires r.created.Keys == s.created.Keys + {r.calls[t].pc.path}
    ensures CacheOk(r)
  {}

  lemma EarlyCallOk(s: State, t: nat)
    requires Inv(s) && Enabled(s, t) && (InSection(s.calls[t].pc) ==> s.calls[t].pc.Locked?)
    ensures CallOk(Step(s, t), Step(s, t).calls[t])
  {
    var c := s.calls[t];
    assert CallOk(s, c);
    WholeField(c.dest);
    if c.dest in s.cache && s.cache[c.dest] == File && c.pc.Start? {
      FileIsThroughFile(s, c.dest, |c.dest.names|);
    }
    if c.pc.Found? && c.pc.kind == File {
      assert FileAt(s.committed, Field(c.dest, |c.dest.names|));
    }
  }

  lemma CreatingCallOk(s: State, t: nat)
    requires Inv(s) && Enabled(s, t) && s.calls[t].pc.Creating?
    ensures CallOk(Step(s, t), Step(s, t).calls[t])
  {
    var c := s.calls[t];
    assert CallOk(s, c);
    if c.pc.i <= |c.dest.names| {
      CreatesMissingRow(s, t);
      CreatingOutcome(s, c.dest, c.pc.i, Step(s, t));
    } else {
      WholeField(c.dest);
      assert s.IsDir(Field(c.dest, |c.dest.names|));
    }
  }

  lemma CreatedStep(s: State, t: nat)
    requires Enabled(s, t) && s.calls[t].pc.Created?
    ensures var c, r := s.calls[t], Step(s, t);
            && r.created == s.created
            && r.calls[t] == Call(c.dest, Creating(c.pc.i + 1, Some(c.pc.path)))
  {}

  lemma CreatedCallOk(s: State, t: nat)
    requires Inv(s) && Enabled(s, t) && s.calls[t].pc.Created?
    ensures CallOk(Step(s, t), Step(s, t).calls[t])
  {
    var c := s.calls[t];
    assert CallOk(s, c);
    CreatedStep(s, t);
    MadeUpToFrame(s, Step(s, t), c.dest, c.pc.i + 1);
  }

  lemma OwnCallOk(s: State, t: nat)
    requires Inv(s) && Enabled(s, t)
    ensures CallOk(Step(s, t), Step(s, t).calls[t])
  {
    if s.calls[t].pc.Rechecked? {
      RecheckedOutcome(s, t);
    } else if s.calls[t].pc.Creating? {
      CreatingCallOk(s, t);
    } else if s.calls[t].pc.Created? {
      CreatedCallOk(s, t);
    } else {
      EarlyCallOk(s, t);
    }
  }

  lemma CreatingOutcome(s: State, dest: Path, i: nat, r: State)
    requires MadeUpTo(s, dest, i) && i <= |dest.names|
    requires r.committed == s.committed && r.created.Keys == s.created.Keys + {Field(dest, i)}
    ensures MadeUpTo(r, dest, i + 1)
  {
    forall k | 0 <= k < i + 1 ensures r.IsDir(Field(dest, k)) {
      assert k == i || s.IsDir(Field(dest, k));
    }
  }

  lemma MovesKeepsCalls(s: State, t: nat, r: State)
    requires CallsOk(s) && Moves(s, t, r) && Grows(s, r) && CallOk(r, r.calls[t])
    ensures CallsOk(r)
  {
    forall u | 0 <= u < |r.calls| ensures CallOk(r, r.calls[u]) {
      if u != t {
        assert CallOk(s, s.calls[u]);
        OtherCallOk(s, r, s.calls[u]);
      }
    }
  }

  lemma StepKeepsInv(s: State, t: nat)
    requires Inv(s) && Enabled(s, t)
    ensures Inv(Step(s, t))
  {
    StepKeepsRows(s, t);
    StepKeepsCache(s, t);
    StepMoves(s, t);
    OwnCallOk(s, t);
    MovesKeepsCalls(s, t, Step(s, t));
  }

  // ---------- every run ----------

  lemma InitInv(committed: map<Path, Kind>, dests: seq<Path>)
    requires Tree(Init(committed, []))
    ensures Inv(Init(committed, dests))
  {
    var s, none := Init(committed, dests), Init(committed, []);
    forall p | s.Has(p) && p.names != [] ensures s.IsDir(Parent(p)) {
      assert none.Has(p) && none.IsDir(Parent(p));
    }
  }

  lemma {:induction false} RunKeepsInv(s: State, schedule: seq<nat>)
    requires Inv(s)
    ensures Inv(Run(s, schedule)) && Run(s, schedule).committed == s.committed
    ensures |Run(s, schedule).calls| == |s.calls|
    ensures forall t :: 0 <= t < |s.calls| ==> Run(s, schedule).calls[t].dest == s.calls[t].dest
    decreases |schedule|
  {
    if schedule != [] {
      var t := schedule[|schedule| - 1];
      RunKeepsInv(s, schedule[..|schedule| - 1]);
      var before := Run(s, schedule[..|schedule| - 1]);
      if Enabled(before, t) {
        StepKeepsInv(before, t);
        StepMoves(before, t);
      }
    }
  }

  /** A call that asked for p, or something below it, and is creating what it lacks or has finished. */
  predicate Wants(c: Call, p: Path) {
    && |p.names| <= |c.dest.names| && p == Field(c.dest, |p.names|)
    && (c.pc.Creating? || c.pc.Created? || c.pc == Done(true))
  }

  ghost predicate Wanted(s: State, p: Path) { exists c :: c in s.calls && Wants(c, p) }

  ghost predicate OnlyWanted(s: State) { forall p :: p in s.created ==> Wanted(s, p) }

  lemma WantedStays(s: State, t: nat, p: Path)
    requires Inv(s) && Enabled(s, t) && Wanted(s, p)
    ensures Wanted(Step(s, t), p)
  {
    StepMoves(s, t);
    var r := Step(s, t);
    var c :| c in s.calls && Wants(c, p);
    var u :| 0 <= u < |s.calls| && s.calls[u] == c;
    if u == t && c.pc.Creating? && c.pc.i <= |c.dest.names| {
      CreatesMissingRow(s, t);
    }
    assert r.calls[u] in r.calls && Wants(r.calls[u], p);
  }

  lemma StepKeepsOnlyWanted(s: State, t: nat)
    requires Inv(s) && Enabled(s, t) && OnlyWanted(s)
    ensures OnlyWanted(Step(s, t))
  {
    var r, c := Step(s, t), s.calls[t];
    StepMoves(s, t);
    forall p | p in r.created ensures Wanted(r, p) {
      if p in s.created {
        WantedStays(s, t, p);
      } else {
        assert r.calls[t] in r.calls && Wants(r.calls[t], p);
      }
    }
  }

  lemma {:induction false} RunCreatesOnlyWanted(s: State, schedule: seq<nat>)
    requires Inv(s) && OnlyWanted(s)
    ensures OnlyWanted(Run(s, schedule))
    decreases |schedule|
  {
    if schedule != [] {
      var t := schedule[|schedule| - 1];
      RunKeepsInv(s, schedule[..|schedule| - 1]);
      RunCreatesOnlyWanted(s, schedule[..|schedule| - 1]);
      var before := Run(s, schedule[..|schedule| - 1]);
      if Enabled(before, t) {
        StepKeepsOnlyWanted(before, t);
      }
    }
  }

  /**
   * Whatever the interleaving, every row is in a directory that has a row; what was created was
   * missing and has the right parent and level; and a finished call failed exactly when there is a
   * file on the way to its path.
   */
  lemma MkdirsShareOneTree(committed: map<Path, Kind>, dests: seq<Path>, schedule: seq<nat>)
    requires Tree(Init(committed, []))
    ensures var s := Run(Init(committed, dests), schedule);
            && Tree(s) && RowsOk(s) && s.committed == committed && |s.calls| == |dests|
            && forall t :: 0 <= t < |dests| && s.calls[t].pc.Done? ==>
                 s.calls[t].dest == dests[t] && (s.calls[t].pc.ok <==> !ThroughFile(committed, dests[t]))
  {
    var init := Init(committed, dests);
    var s := Run(init, schedule);
    InitInv(committed, dests);
    RunKeepsInv(init, schedule);
    forall t | 0 <= t < |dests| && s.calls[t].pc.Done?
      ensures s.calls[t].dest == dests[t] && (s.calls[t].pc.ok <==> !ThroughFile(committed, dests[t]))
    {
      assert CallOk(s, s.calls[t]) && init.calls[t].dest == dests[t];
      if s.calls[t].pc.ok {
        DirIsNotThroughFile(s, dests[t]);
      }
    }
  }

  ghost predicate AllDone(s: State) { forall c :: c in s.calls ==> c.pc.Done? }

  /** p or something below it is to be made, and no file is on the way to that. */
  ghost predicate Requested(committed: map<Path, Kind>, dests: seq<Path>, p: Path) {
    exists t :: 0 <= t < |dests| && Asks(committed, dests[t], p)
  }

  ghost predicate Asks(committed: map<Path, Kind>, dest: Path, p: Path) {
    |p.names| <= |dest.names| && p == Field(dest, |p.names|) && !ThroughFile(committed, dest)
  }

  ghost predicate Finished(s: State, committed: map<Path, Kind>, dests: seq<Path>) {
    && Inv(s) && OnlyWanted(s) && s.committed == committed && |s.calls| == |dests|
    && forall t :: 0 <= t < |dests| ==> s.calls[t] == Call(dests[t], Done(!ThroughFile(committed, dests[t])))
  }

  lemma CreatedWasRequested(s: State, committed: map<Path, Kind>, dests: seq<Path>, p: Path)
    requires Finished(s, committed, dests) && p in s.created
    ensures p !in committed && Requested(committed, dests, p)
  {
    assert RowOk(s, p, s.created[p]) && Wanted(s, p);
    var c :| c in s.calls && Wants(c, p);
    var t :| 0 <= t < |s.calls| && s.calls[t] == c;
    assert Asks(committed, dests[t], p);
  }

  lemma RequestedWasCreated(s: State, committed: map<Path, Kind>, dests: seq<Path>, p: Path)
    requires Finished(s, committed, dests) && p !in committed && Requested(committed, dests, p)
    ensures p in s.created
  {
    var t :| 0 <= t < |dests| && Asks(committed, dests[t], p);
    assert CallOk(s, s.calls[t]);
    if |p.names| < |dests[t].names| {
      AncestorsAreDirs(s, dests[t], |p.names|);
    } else {
      WholeField(dests[t]);
    }
  }

  lemma RunFinishes(committed: map<Path, Kind>, dests: seq<Path>, schedule: seq<nat>)
    requires Tree(Init(committed, [])) && AllDone(Run(Init(committed, dests), schedule))
    ensures Finished(Run(Init(committed, dests), schedule), committed, dests)
  {
    var init := Init(committed, dests);
    var s := Run(init, schedule);
    InitInv(committed, dests);
    RunKeepsInv(init, schedule);
    RunCreatesOnlyWanted(init, schedule);
    MkdirsShareOneTree(committed, dests, schedule);
    assert forall t :: 0 <= t < |dests| ==> s.calls[t] in s.calls;
  }

  /** When all calls are done, exactly the missing directories on the way to what could be made are new. */
  lemma CreatesExactlyTheMissing(committed: map<Path, Kind>, dests: seq<Path>, schedule: seq<nat>, p: Path)
    requires Tree(Init(committed, [])) && AllDone(Run(Init(committed, dests), schedule))
    ensures p in Run(Init(committed, dests), schedule).created <==> p !in committed && Requested(committed, dests, p)
  {
    var s := Run(Init(committed, dests), schedule);
    RunFinishes(committed, dests, schedule);
    if p in s.created {
      CreatedWasRequested(s, committed, dests, p);
    } else if p !in committed && Requested(committed, dests, p) {
      RequestedWasCreated(s, committed, dests, p);
    }
  }

  /** A call still to finish means some call can move: the lock is held by one that can. */
  lemma SomeCallCanMove(s: State, t: nat) returns (u: nat)
    requires Inv(s) && t < |s.calls| && !s.calls[t].pc.Done?
    ensures Enabled(s, u)
  {
    u := if s.lock.Some? then s.lock.value else t;
    assert InSection(s.calls[u].pc) <==> s.lock == Some(u);
  }

  /** Steps a call has left. */
  function StepsLeft(c: Call): nat {
    var n := |c.dest.names|;
    match c.pc
    case Start => 2 * n + 9
    case Lookup => 2 * n + 8
    case Found(_) => 1
    case Missed => 2 * n + 7
    case Locked => 2 * n + 6
    case Rechecked => 2 * n + 5
    case Creating(i, _) => if n < i then 1 else 2 * (n - i) + 3
    case Created(i, _) => if n < i then 2 else 2 * (n - i) + 2
    case Done(_) => 0
  }

  /** Every step brings its call nearer its end, and no other call further from it. */
  lemma EveryStepIsProgress(s: State, t: nat)
    requires Inv(s) && Enabled(s, t)
    ensures StepsLeft(Step(s, t).calls[t]) < StepsLeft(s.calls[t])
    ensures forall u :: 0 <= u < |s.calls| && u != t ==> Step(s, t).calls[u] == s.calls[u]
  {
    assert CallOk(s, s.calls[t]);
    StepMoves(s, t);
    if s.calls[t].pc.Rechecked? {
      RecheckedOutcome(s, t);
    }
  }

  // ---------- the parents as strings ----------

  /** strings.Join with "/". */
  function Join(fields: seq<string>): string {
    if |fields| == 0 then ""
    else if |fields| == 1 then fields[0]
    else Join(fields[..|fields| - 1]) + "/" + fields[|fields| - 1]
  }

  /** The absolute path as it is written; splitting it at "/" gives the empty string, then its names. */
  function Text(p: Path): string { if p.names == [] then "/" else Join([""] + p.names) }

  lemma SplitPrefix<T>(first: T, names: seq<T>, i: nat)
    requires i < |names| + 1
    ensures ([first] + names)[..i + 1] == [first] + names[..i]
  {}

  lemma JoinIsText(p: Path, i: nat)
    requires 0 < i <= |p.names|
    ensures Join(([""] + p.names)[..i + 1]) == Text(Field(p, i))
  {
    SplitPrefix("", p.names, i);
  }

  /** A path is written as that of its directory, a slash and its name. */
  lemma TextOfEntry(p: Path)
    requires p.names != []
    ensures Text(p) == (if |p.names| == 1 then "" else Text(Parent(p))) + "/" + p.names[|p.names| - 1]
  {
    var fields := [""] + p.names;
    assert fields[..|fields| - 1] == [""] + Parent(p).names;
    assert |p.names| == 1 ==> Join(fields[..1]) == "";
  }

  method GetAllParentPaths(path: Path) returns (paths: seq<string>)
    ensures |paths| == |ParentFields(path)|
    ensures forall i :: 0 <= i < |paths| ==> paths[i] == Text(ParentFields(path)[i])
  {
    if path.names == [] {
      return ["/"];
    }
    var splitted := [""] + path.names;
    var subPaths: seq<string> := [];
    for i := 0 to |splitted|
      invariant |subPaths| == i
      invariant forall k :: 2 <= k < i ==> subPaths[k] == Text(Field(path, k - 1))
    {
      if i > 1 {
        JoinIsText(path, i - 1);
      }
      subPaths := subPaths + [Join(splitted[0..i])];
    }
    paths := ["/"] + subPaths[2..];
    forall k | 0 <= k < |paths| ensures paths[k] == Text(ParentFields(path)[k]) {
      if k > 0 {
        assert paths[k] == subPaths[k + 1];
      }
    }
  }

  // ---------- one call, uninterrupted ----------

  /** The transaction's rows and the collector's cache. */
  class Collector {
    const committed: map<Path, Kind>
    var created: map<Path, DirRow>
    var cache: map<Path, Kind>

    constructor (committed: map<Path, Kind>)
      requires Tree(Init(committed, []))
      ensures Valid() && this.committed == committed && created == map[]
    {
      this.committed, created, cache := committed, map[], map[];
    }

    ghost function Now(): State
      reads this
    {
      State(committed, created, cache, None, [])
    }

    ghost predicate Valid()
      reads this
    {
      Tree(Now()) && RowsOk(Now()) && CacheOk(Now())
    }

    method ParentRefs(dest: Path) returns (refs: seq<Path>)
      ensures refs == Existing(Now(), ParentFields(dest))
    {
      refs := [];
      var fields := ParentFields(dest);
      for i := 0 to |fields|
        invariant refs == Existing(Now(), fields[..i])
      {
        assert fields[..i + 1][..i] == fields[..i];
        if fields[i] in committed || fields[i] in created {
          refs := refs + [fields[i]];
        }
      }
      assert fields[..|fields|] == fields;
    }

    /** One new directory row, in the cache at once. */
    method CreateDir(dest: Path, i: nat, parent: Option<Path>)
      requires Valid() && i <= |dest.names| && MadeUpTo(Now(), dest, i)
      requires parent == if i == 0 then None else Some(Field(dest, i - 1))
      modifies this
      ensures Valid() && MadeUpTo(Now(), dest, i + 1)
      ensures created == old(created)[Field(dest, i) := DirRow(parent, i + 1)]
    {
      var path := Field(dest, i);
      ghost var before := Now();
      if i > 0 {
        ParentOfField(dest, i);
      }
      created := created[path := DirRow(parent, i + 1)];
      cache := cache[path := Dir];
      RowAddedKeepsRows(before, path, DirRow(parent, i + 1), Now());
      CreatingOutcome(before, dest, i, Now());
    }

    /** The check of the parents found: all must be directories. */
    method AllDirs(refs: seq<Path>) returns (ok: bool)
      ensures ok <==> !exists p :: p in refs && !Now().IsDir(p)
    {
      for k := 0 to |refs|
        invariant forall j :: 0 <= j < k ==> Now().IsDir(refs[j])
      {
        if !((refs[k] in committed && committed[refs[k]] == Dir) || refs[k] in created) {
          assert refs[k] in refs;
          return false;
        }
      }
      return true;
    }

    /** The loop that creates what is missing. */
    method CreateFrom(dest: Path, first: nat, last: Option<Path>)
      requires Valid() && first <= |dest.names| + 1 && MadeUpTo(Now(), dest, first)
      requires last == if first == 0 then None else Some(Field(dest, first - 1))
      modifies this
      ensures Valid() && MadeUpTo(Now(), dest, |dest.names| + 1) && OnlyFieldsAdded(old(created), created, dest)
    {
      var parent := last;
      for i := first to |dest.names| + 1
        invariant Valid() && MadeUpTo(Now(), dest, i)
        invariant parent == if i == 0 then None else Some(Field(dest, i - 1))
        invariant OnlyFieldsAdded(old(created), created, dest)
      {
        CreateDir(dest, i, parent);
        parent := Some(Field(dest, i));
      }
    }

    /** The call under the transaction lock. */
    method MakeMissing(dest: Path) returns (ok: bool)
      requires Valid() && !Now().Has(dest)
      modifies this
      ensures Valid() && (ok <==> !ThroughFile(committed, dest))
      ensures !ok ==> created == old(created)
      ensures ok ==> Now().IsDir(dest) && OnlyFieldsAdded(old(created), created, dest)
    {
      var parentRefs := ParentRefs(dest);
      QueryFindsPrefix(Now(), dest);
      QueryOutcome(Now(), dest, parentRefs);
      ok := AllDirs(parentRefs);
      if ok {
        CreateFrom(dest, |parentRefs|, Last(parentRefs));
        WholeField(dest);
        assert Now().IsDir(Field(dest, |dest.names|));
        DirIsNotThroughFile(Now(), dest);
      }
    }

    /**
     * Mkdir fails, and creates nothing, exactly when there is a file on the way to dest; otherwise
     * every directory down to dest is there, and nothing else was added.
     */
    method Mkdir(dest: Path) returns (ok: bool)
      requires Valid()
      modifies this
      ensures Valid() && (ok <==> !ThroughFile(committed, dest))
      ensures !ok ==> created == old(created)
      ensures ok ==> Now().IsDir(dest) && OnlyFieldsAdded(old(created), created, dest)
      ensures ok || dest in committed ==> dest in cache && (cache[dest] == Dir <==> ok)
    {
      WholeField(dest);
      if dest in cache {
        Outcome(dest);
        return cache[dest] == Dir;
      }
      if dest in committed {
        cache := cache[dest := committed[dest]];
        Outcome(dest);
        return committed[dest] == Dir;
      }
      ok := MakeMissing(dest);
    }

    lemma Outcome(dest: Path)
      requires Valid() && Now().Has(dest)
      ensures Now().IsDir(dest) <==> !ThroughFile(committed, dest)
    {
      if Now().IsDir(dest) {
        DirIsNotThroughFile(Now(), dest);
      } else {
        WholeField(dest);
        FileIsThroughFile(Now(), dest, |dest.names|);
      }
    }
  }

  /** Rows were kept, and the new ones are on the way to dest. */
  ghost predicate OnlyFieldsAdded(before: map<Path, DirRow>, after: map<Path, DirRow>, dest: Path) {
    && (forall p :: p in before ==> p in after && after[p] == before[p])
    && forall p :: p in after && p !in before ==> |p.names| <= |dest.names| && p == Field(dest, |p.names|)
  }
}
