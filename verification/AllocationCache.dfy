/**
 * Allocation rows behind two caches: one per transaction, which also keeps the updates made in it,
 * and a global one to which a successful commit replays them.  Transactions run one after another.
 */
module AllocationCache {
  import opened Bytes

  /** The columns of an allocation. */
  type Fields = map<string, int>

  /** An Allocation object in memory. */
  datatype Object = Object(id: string, value: Fields)

  /**
   * A pending AllocationUpdate: assign these fields; or, with the values an object has when the update
   * is replayed, assign some of its fields or copy it whole.
   */
  datatype Update = Assign(fields: Fields) | Refresh(obj: nat, keys: set<string>) | Copy(obj: nat)

  /** A session cache entry. */
  datatype Entry = Entry(obj: nat, updates: seq<Update>)

  /** Committed rows, global cache, the open transaction's rows and session cache, and all objects. */
  datatype State = State(rows: map<string, Fields>, global: map<string, Fields>,
                         work: map<string, Fields>, session: map<string, Entry>, objects: seq<Object>)

  /** What a transaction does to the repository, and what can happen beside it. */
  datatype Event =
    | GetById(id: string)
    | GetByIdAndLock(id: string)
    | UpdateAllocation(obj: nat, fields: Fields, late: bool)
    | Save(obj: nat)
    | Create(obj: nat)
    | NewObject(object: Object)
    | Write(obj: nat, fields: Fields)
    | Evict(id: string)
    | Commit
    | Abort

  // ---------- steps ----------

  /** The update looks at an object when it is replayed. */
  predicate Reads(u: Update) { u.Refresh? || u.Copy? }

  predicate UpdatesOk(us: seq<Update>, n: nat) {
    forall u :: u in us && Reads(u) ==> u.obj < n
  }

  function Restrict(a: Fields, keys: set<string>): Fields { map k | k in a && k in keys :: a[k] }

  function Apply(u: Update, a: Fields, objects: seq<Object>): Fields
    requires Reads(u) ==> u.obj < |objects|
  {
    match u
    case Assign(fields) => a + fields
    case Refresh(o, keys) => a + Restrict(objects[o].value, keys)
    case Copy(o) => objects[o].value
  }

  /** The updates run in order on a. */
  function Replay(us: seq<Update>, a: Fields, objects: seq<Object>): Fields
    requires UpdatesOk(us, |objects|)
  {
    if us == [] then a else Apply(us[|us| - 1], Replay(us[..|us| - 1], a, objects), objects)
  }

  /** Entries are for objects that exist and have the entry's id. */
  ghost predicate SessionOk(s: State) {
    forall id :: id in s.session ==> EntryOk(s, id)
  }

  ghost predicate EntryOk(s: State, id: string)
    requires id in s.session
  {
    var e := s.session[id];
    && e.obj < |s.objects| && s.objects[e.obj].id == id && UpdatesOk(e.updates, |s.objects|)
    && forall u :: u in e.updates && Reads(u) ==> s.objects[u.obj].id == id
  }

  /** txnCache := cache[id] in the code: the zero entry when there is none. */
  function Pending(s: State, id: string): seq<Update> {
    if id in s.session then s.session[id].updates else []
  }

  function Loaded(s: State, id: string, value: Fields, updates: seq<Update>): State {
    s.(objects := s.objects + [Object(id, value)], session := s.session[id := Entry(|s.objects|, updates)])
  }

  function Recorded(s: State, obj: nat, u: Update): State
    requires obj < |s.objects|
  {
    var id := s.objects[obj].id;
    s.(session := s.session[id := Entry(obj, Pending(s, id) + [u])])
  }

  /** The updateOption passed with these fields: late when it reads them from the object. */
  function UpdateOption(obj: nat, fields: Fields, late: bool): Update {
    if late then Refresh(obj, fields.Keys) else Assign(fields)
  }

  function Assigned(objects: seq<Object>, obj: nat, fields: Fields): seq<Object>
    requires obj < |objects|
  {
    objects[obj := objects[obj].(value := objects[obj].value + fields)]
  }

  predicate Enabled(s: State, e: Event) {
    match e
    case UpdateAllocation(obj, _, _) => obj < |s.objects|
    case Save(obj) => obj < |s.objects|
    case Create(obj) => obj < |s.objects|
    case Write(obj, _) => obj < |s.objects|
    case GetById(_) => true
    case GetByIdAndLock(_) => true
    case NewObject(_) => true
    case Evict(_) => true
    case Commit => true
    case Abort => true
  }

  /** Replayed global cache: every present entry the transaction has updates for. */
  ghost function Replayed(s: State): map<string, Fields>
    requires SessionOk(s)
  {
    map id | id in s.global ::
      if id in s.session then Replay(s.session[id].updates, s.global[id], s.objects) else s.global[id]
  }

  ghost function Step(s: State, e: Event): State
    requires SessionOk(s) && Enabled(s, e)
  {
    match e
    case GetById(id) =>
      if id in s.session then s
      else if id in s.global then Loaded(s, id, s.global[id], [])
      else if id in s.work then Loaded(s, id, s.work[id], []).(global := s.global[id := s.work[id]])
      else s
    case GetByIdAndLock(id) => if id in s.work then Loaded(s, id, s.work[id], []) else s
    case UpdateAllocation(obj, fields, late) =>
      var id := s.objects[obj].id;
      var work := if id in s.work then s.work[id := s.work[id] + fields] else s.work;
      Recorded(s, obj, UpdateOption(obj, fields, late)).(work := work, objects := Assigned(s.objects, obj, fields))
    case Save(obj) =>
      Recorded(s, obj, Copy(obj)).(work := s.work[s.objects[obj].id := s.objects[obj].value])
    case Create(obj) =>
      var id := s.objects[obj].id;
      if id in s.work then s
      else s.(work := s.work[id := s.objects[obj].value], session := s.session[id := Entry(obj, Pending(s, id))])
    case NewObject(o) => s.(objects := s.objects + [o])
    case Write(obj, fields) => s.(objects := Assigned(s.objects, obj, fields))
    case Evict(id) => s.(global := s.global - {id})
    case Commit => s.(rows := s.work, global := Replayed(s), session := map[])
    case Abort => s.(work := s.rows, session := map[])
  }

  // ---------- invariant ----------

  /** Every present global entry is the committed row. */
  ghost predicate Coherent(s: State) {
    forall id :: id in s.global ==> id in s.rows && s.global[id] == s.rows[id]
  }

  /** The transaction's row is the committed row with the pending updates replayed. */
  ghost predicate Tracked(s: State, id: string)
    requires SessionOk(s)
  {
    && (id in s.rows ==> id in s.work && s.work[id] == Replay(Pending(s, id), s.rows[id], s.objects))
    && (id in s.work && id !in s.rows ==> id in s.session)
  }

  ghost predicate Inv(s: State) {
    SessionOk(s) && Coherent(s) && forall id :: Tracked(s, id)
  }

  /** Some pending update will read this object. */
  predicate Awaited(s: State, obj: nat) {
    exists id :: id in s.session && WillRead(s.session[id].updates, obj)
  }

  predicate WillRead(us: seq<Update>, obj: nat) {
    exists u :: u in us && Reads(u) && u.obj == obj
  }

  /** A lock-read finds no pending update, and an object still to be read is written only through the repository. */
  predicate Careful(s: State, e: Event) {
    match e
    case GetByIdAndLock(id) => Pending(s, id) == []
    case Write(obj, _) => !Awaited(s, obj)
    case GetById(_) => true
    case UpdateAllocation(_, _, _) => true
    case Save(_) => true
    case Create(_) => true
    case NewObject(_) => true
    case Evict(_) => true
    case Commit => true
    case Abort => true
  }

  // ---------- replaying ----------

  /** Objects the updates read have the same value in both. */
  ghost predicate SameReads(us: seq<Update>, objects: seq<Object>, after: seq<Object>) {
    forall u :: u in us && Reads(u) ==>
      u.obj < |objects| && u.obj < |after| && after[u.obj].value == objects[u.obj].value
  }

  lemma {:induction false} ReplaySame(us: seq<Update>, a: Fields, objects: seq<Object>, after: seq<Object>)
    requires SameReads(us, objects, after) && UpdatesOk(us, |objects|) && UpdatesOk(us, |after|)
    ensures Replay(us, a, after) == Replay(us, a, objects)
  {
    if us != [] {
      assert us[|us| - 1] in us;
      ReplaySame(us[..|us| - 1], a, objects, after);
    }
  }

  lemma ReplayPush(us: seq<Update>, u: Update, a: Fields, objects: seq<Object>)
    requires UpdatesOk(us, |objects|) && (Reads(u) ==> u.obj < |objects|)
    ensures UpdatesOk(us + [u], |objects|)
    ensures Replay(us + [u], a, objects) == Apply(u, Replay(us, a, objects), objects)
  {
    assert (us + [u])[..|us|] == us;
  }

  /** The maps differ at most in the fields of f. */
  ghost predicate SameBut(x: Fields, y: Fields, f: Fields) {
    forall k :: k !in f ==> (k in x <==> k in y) && (k in x ==> x[k] == y[k])
  }

  lemma SameButFields(x: Fields, y: Fields, f: Fields)
    ensures SameBut(x, y, f) <==> x + f == y + f
  {
    if x + f == y + f {
      forall k | k !in f ensures (k in x <==> k in y) && (k in x ==> x[k] == y[k]) {
        assert k in x <==> k in x + f;
        assert k in y <==> k in y + f;
        assert k in x ==> (x + f)[k] == x[k] && (y + f)[k] == y[k];
      }
    }
  }

  /** Assigning to both keeps them so. */
  lemma AssignAfterAssign(x: Fields, y: Fields, g: Fields, h: Fields, f: Fields)
    requires SameBut(x, y, f) && SameBut(g, h, f)
    ensures SameBut(x + g, y + h, f)
  {}

  /** An object still to be read may be updated through the repository: that update is replayed later. */
  lemma {:induction false} ReplayThenAssign(us: seq<Update>, a: Fields, objects: seq<Object>, obj: nat, f: Fields)
    requires obj < |objects| && UpdatesOk(us, |objects|)
    ensures SameBut(Replay(us, a, Assigned(objects, obj, f)), Replay(us, a, objects), f)
  {
    if us != [] {
      var u, before, after := us[|us| - 1], us[..|us| - 1], Assigned(objects, obj, f);
      assert u in us;
      ReplayThenAssign(before, a, objects, obj, f);
      match u
      case Assign(g) => AssignAfterAssign(Replay(before, a, after), Replay(before, a, objects), g, g, f);
      case Refresh(o, keys) =>
        AssignAfterAssign(Replay(before, a, after), Replay(before, a, objects),
                          Restrict(after[o].value, keys), Restrict(objects[o].value, keys), f);
      case Copy(_) =>
    }
  }

  /** The new update replays to the fields it was made with. */
  lemma UpdateOptionAssigns(a: Fields, objects: seq<Object>, obj: nat, f: Fields, late: bool)
    requires obj < |objects|
    ensures Apply(UpdateOption(obj, f, late), a, Assigned(objects, obj, f)) == a + f
  {
    assert Restrict(objects[obj].value + f, f.Keys) == f;
  }

  // ---------- every careful step keeps the invariant ----------

  /** A step that leaves the rows and the pending updates of id alone. */
  lemma StaysTracked(s: State, r: State, id: string)
    requires SessionOk(s) && SessionOk(r) && Tracked(s, id)
    requires Pending(r, id) == Pending(s, id) && (id in s.session ==> id in r.session)
    requires SameReads(Pending(s, id), s.objects, r.objects)
    requires id in s.rows <==> id in r.rows
    requires id in s.rows ==> r.rows[id] == s.rows[id]
    requires id in s.work <==> id in r.work
    requires id in s.work ==> r.work[id] == s.work[id]
    ensures Tracked(r, id)
  {
    if id in s.rows {
      ReplaySame(Pending(s, id), s.rows[id], s.objects, r.objects);
    }
  }

  lemma LoadKeepsInv(s: State, id: string)
    requires Inv(s) && id in s.work && Pending(s, id) == []
    ensures Inv(Loaded(s, id, s.work[id], []))
  {
    var r := Loaded(s, id, s.work[id], []);
    forall j | j in r.session ensures EntryOk(r, j) {
      assert j == id || EntryOk(s, j);
    }
    forall j ensures Tracked(r, j) {
      assert Tracked(s, j);
      StaysTracked(s, r, j);
    }
  }

  lemma GetKeepsInv(s: State, id: string)
    requires Inv(s)
    ensures Inv(Step(s, GetById(id)))
  {
    assert Tracked(s, id);
    if id !in s.session && id in s.work {
      LoadKeepsInv(s, id);
      assert s.work[id] == s.rows[id];
      if id !in s.global {
        var r, l := Step(s, GetById(id)), Loaded(s, id, s.work[id], []);
        forall j ensures Tracked(r, j) {
          assert Tracked(l, j);
          StaysTracked(l, r, j);
        }
      }
    }
  }

  lemma SaveKeepsSession(s: State, obj: nat)
    requires SessionOk(s) && obj < |s.objects|
    ensures SessionOk(Step(s, Save(obj)))
  {
    var r, id := Step(s, Save(obj)), s.objects[obj].id;
    forall j | j in r.session ensures EntryOk(r, j) {
      assert id in s.session ==> EntryOk(s, id);
      assert j == id || EntryOk(s, j);
    }
  }

  lemma SaveKeepsInv(s: State, obj: nat)
    requires Inv(s) && obj < |s.objects|
    ensures Inv(Step(s, Save(obj)))
  {
    var r, id := Step(s, Save(obj)), s.objects[obj].id;
    SaveKeepsSession(s, obj);
    forall j ensures Tracked(r, j) {
      assert Tracked(s, j);
      if j != id {
        StaysTracked(s, r, j);
      } else if id in s.rows {
        ReplayPush(Pending(s, id), Copy(obj), s.rows[id], s.objects);
      }
    }
  }

  /** Replaying the updates and then the new one gives what they gave before, with the new fields. */
  lemma UpdateReplays(us: seq<Update>, a: Fields, objects: seq<Object>, obj: nat, f: Fields, late: bool)
    requires obj < |objects| && UpdatesOk(us, |objects|)
    ensures UpdatesOk(us + [UpdateOption(obj, f, late)], |objects|)
    ensures Replay(us + [UpdateOption(obj, f, late)], a, Assigned(objects, obj, f)) == Replay(us, a, objects) + f
  {
    var after := Assigned(objects, obj, f);
    ReplayThenAssign(us, a, objects, obj, f);
    SameButFields(Replay(us, a, after), Replay(us, a, objects), f);
    ReplayPush(us, UpdateOption(obj, f, late), a, after);
    UpdateOptionAssigns(Replay(us, a, after), objects, obj, f, late);
  }

  lemma UpdateKeepsSession(s: State, obj: nat, f: Fields, late: bool)
    requires SessionOk(s) && obj < |s.objects|
    ensures SessionOk(Step(s, UpdateAllocation(obj, f, late)))
  {
    var r, id := Step(s, UpdateAllocation(obj, f, late)), s.objects[obj].id;
    forall j | j in r.session ensures EntryOk(r, j) {
      assert id in s.session ==> EntryOk(s, id);
      assert j == id || EntryOk(s, j);
    }
  }

  lemma UpdateTracksOther(s: State, obj: nat, f: Fields, late: bool, j: string)
    requires SessionOk(s) && obj < |s.objects| && j != s.objects[obj].id && Tracked(s, j)
    requires SessionOk(Step(s, UpdateAllocation(obj, f, late)))
    ensures Tracked(Step(s, UpdateAllocation(obj, f, late)), j)
  {
    assert j in s.session ==> EntryOk(s, j);
    StaysTracked(s, Step(s, UpdateAllocation(obj, f, late)), j);
  }

  lemma UpdateTracksOwn(s: State, obj: nat, f: Fields, late: bool)
    requires SessionOk(s) && obj < |s.objects| && Tracked(s, s.objects[obj].id)
    requires SessionOk(Step(s, UpdateAllocation(obj, f, late)))
    ensures Tracked(Step(s, UpdateAllocation(obj, f, late)), s.objects[obj].id)
  {
    var id := s.objects[obj].id;
    assert id in s.session ==> EntryOk(s, id);
    if id in s.rows {
      UpdateReplays(Pending(s, id), s.rows[id], s.objects, obj, f, late);
    }
  }

  lemma UpdateKeepsInv(s: State, obj: nat, f: Fields, late: bool)
    requires Inv(s) && obj < |s.objects|
    ensures Inv(Step(s, UpdateAllocation(obj, f, late)))
  {
    UpdateKeepsSession(s, obj, f, late);
    UpdateTracksOwn(s, obj, f, late);
    forall j | j != s.objects[obj].id ensures Tracked(Step(s, UpdateAllocation(obj, f, late)), j) {
      assert Tracked(s, j);
      UpdateTracksOther(s, obj, f, late, j);
    }
  }

  lemma CreateKeepsInv(s: State, obj: nat)
    requires Inv(s) && obj < |s.objects|
    ensures Inv(Step(s, Create(obj)))
  {
    var r, id := Step(s, Create(obj)), s.objects[obj].id;
    forall j | j in r.session ensures EntryOk(r, j) {
      assert id in s.session ==> EntryOk(s, id);
      assert j == id || EntryOk(s, j);
    }
    forall j ensures Tracked(r, j) {
      assert Tracked(s, j);
      if j != id {
        StaysTracked(s, r, j);
      }
    }
  }

  /** New objects, and writes to objects no update will read. */
  lemma ObjectsKeepInv(s: State, r: State)
    requires Inv(s) && r == s.(objects := r.objects) && |r.objects| >= |s.objects|
    requires forall o :: 0 <= o < |s.objects| ==> r.objects[o].id == s.objects[o].id
    requires forall o :: 0 <= o < |s.objects| && Awaited(s, o) ==> r.objects[o].value == s.objects[o].value
    ensures Inv(r)
  {
    forall j | j in r.session ensures EntryOk(r, j) {
      assert EntryOk(s, j);
    }
    forall j ensures Tracked(r, j) {
      assert Tracked(s, j);
      forall u | u in Pending(s, j) && Reads(u) ensures u.obj < |s.objects| && Awaited(s, u.obj) {
        assert EntryOk(s, j) && WillRead(s.session[j].updates, u.obj);
      }
      StaysTracked(s, r, j);
    }
  }

  lemma CommitKeepsInv(s: State)
    requires Inv(s)
    ensures Inv(Step(s, Commit))
  {
    var r := Step(s, Commit);
    forall id | id in r.global ensures id in r.rows && r.global[id] == r.rows[id] {
      assert Tracked(s, id);
    }
    forall id ensures Tracked(r, id) {
      assert Tracked(s, id);
    }
  }

  lemma StepKeepsInv(s: State, e: Event)
    requires Inv(s) && Enabled(s, e) && Careful(s, e)
    ensures Inv(Step(s, e))
  {
    match e
    case GetById(id) => GetKeepsInv(s, id);
    case GetByIdAndLock(id) =>
      if id in s.work {
        LoadKeepsInv(s, id);
      }
    case UpdateAllocation(obj, f, late) => UpdateKeepsInv(s, obj, f, late);
    case Save(obj) => SaveKeepsInv(s, obj);
    case Create(obj) => CreateKeepsInv(s, obj);
    case NewObject(_) => ObjectsKeepInv(s, Step(s, e));
    case Write(_, _) => ObjectsKeepInv(s, Step(s, e));
    case Evict(id) =>
      forall j ensures Tracked(Step(s, e), j) {
        assert Tracked(s, j);
      }
    case Commit => CommitKeepsInv(s);
    case Abort =>
  }

  // ---------- what transactions read ----------

  /** Every session entry's object holds the transaction's row. */
  ghost predicate Held(s: State)
    requires SessionOk(s)
  {
    forall id :: id in s.session ==> id in s.work && s.objects[s.session[id].obj] == Object(id, s.work[id])
  }

  /** An object handed to an update holds the row, and the session's objects are written only through the repository. */
  predicate Tidy(s: State, e: Event) {
    match e
    case UpdateAllocation(obj, _, _) =>
      obj < |s.objects| && s.objects[obj].id in s.work && s.objects[obj].value == s.work[s.objects[obj].id]
    case Write(obj, _) => forall id :: id in s.session ==> s.session[id].obj != obj
    case GetById(_) => true
    case GetByIdAndLock(_) => true
    case Save(_) => true
    case Create(_) => true
    case NewObject(_) => true
    case Evict(_) => true
    case Commit => true
    case Abort => true
  }

  lemma StepKeepsHeld(s: State, e: Event)
    requires Inv(s) && Held(s) && Enabled(s, e) && Careful(s, e) && Tidy(s, e)
    ensures Inv(Step(s, e)) && Held(Step(s, e))
  {
    StepKeepsInv(s, e);
    var r := Step(s, e);
    if e.GetById? {
      assert Tracked(s, e.id);
    }
    forall id | id in r.session ensures id in r.work && r.objects[r.session[id].obj] == Object(id, r.work[id]) {
      assert EntryOk(r, id);
      assert id in s.session ==> EntryOk(s, id);
    }
  }

  /**
   * A created allocation is there: the transaction reads the object it was created from, and a commit
   * makes its value the row, and no other row than before.
   */
  lemma CreatedIsThere(s: State, obj: nat)
    requires Inv(s) && obj < |s.objects| && s.objects[obj].id !in s.work
    ensures var c, o := Step(s, Create(obj)), s.objects[obj];
            && Inv(c) && c.work == s.work[o.id := o.value]
            && (var g := Step(c, GetById(o.id));
                o.id in g.session && g.session[o.id].obj == obj && obj < |g.objects| && g.objects[obj] == o)
            && Step(c, Event.Commit).rows == s.work[o.id := o.value]
  {
    StepKeepsInv(s, Create(obj));
  }

  /** An evicted entry is not served; the next transaction to ask for it brings in the row. */
  lemma EvictedIsReadAgain(s: State, id: string)
    requires Inv(s) && id in s.work && id !in s.session
    ensures var e := Step(s, Evict(id));
            && SessionOk(e) && id !in e.global && (forall j :: j in s.global && j != id ==> j in e.global)
            && var g := Step(e, GetById(id));
               id in g.global && g.global[id] == s.work[id] && id in g.session
  {
    StepKeepsInv(s, Evict(id));
  }

  // ---------- every history ----------

  function Start(rows: map<string, Fields>): State { State(rows, map[], rows, map[], []) }

  lemma StartInv(rows: map<string, Fields>)
    ensures Inv(Start(rows))
  {}

  /** The state after these events, when each was possible where it happened and careful. */
  ghost function After(rows: map<string, Fields>, events: seq<Event>): (r: Option<State>)
    ensures r.Some? ==> Inv(r.value)
  {
    if events == [] then
      StartInv(rows);
      Some(Start(rows))
    else
      var before, e := After(rows, events[..|events| - 1]), events[|events| - 1];
      if before.Some? && Enabled(before.value, e) && Careful(before.value, e) then
        StepKeepsInv(before.value, e);
        Some(Step(before.value, e))
      else None
  }

  /**
   * In every careful history, across evictions, misses, commits and aborts, a present global entry is
   * the committed row, and what GetById hands a transaction that has not met the allocation before is
   * the committed row too.
   */
  lemma GlobalCacheIsCommitted(rows: map<string, Fields>, events: seq<Event>, id: string)
    requires After(rows, events).Some?
    ensures var s := After(rows, events).value;
            id in s.global ==> id in s.rows && s.global[id] == s.rows[id]
    ensures var s := After(rows, events).value;
            id in s.rows && id !in s.session ==>
              var r := Step(s, GetById(id));
              && id in r.session && r.session[id].obj < |r.objects|
              && r.objects[r.session[id].obj] == Object(id, s.rows[id])
  {
    var s := After(rows, events).value;
    assert Tracked(s, id);
  }

  // ---------- what goes wrong otherwise ----------

  lemma LockReadLoads(s: State, id: string)
    requires Inv(s) && id in s.global
    ensures var l := Step(s, GetByIdAndLock(id));
            && SessionOk(l) && l.rows == s.rows && l.work == s.work && l.global == s.global && id in s.work
            && id in l.session && l.session[id].updates == []
  {
    assert Tracked(s, id);
    var l := Step(s, GetByIdAndLock(id));
    forall j | j in l.session ensures EntryOk(l, j) {
      assert j == id || EntryOk(s, j);
    }
  }

  /**
   * A lock-read forgets pending updates: after a commit the global entry is right exactly when they
   * changed nothing.
   */
  lemma LockReadStaleExactly(s: State, id: string)
    requires Inv(s) && id in s.global
    ensures var l := Step(s, GetByIdAndLock(id));
            SessionOk(l) && id in s.work && id in s.rows &&
            var r := Step(l, Commit);
            id in r.global && id in r.rows && (r.global[id] == r.rows[id] <==> s.work[id] == s.rows[id])
  {
    LockReadLoads(s, id);
  }

  /**
   * A commit copies a saved object as it then is: the global entry is right exactly when later writes
   * changed nothing.
   */
  lemma WriteAfterSaveStaleExactly(s: State, obj: nat, f: Fields)
    requires Inv(s) && obj < |s.objects| && s.objects[obj].id in s.global
    ensures var w := Step(Step(s, Save(obj)), Write(obj, f));
            SessionOk(w) &&
            var r, id, v := Step(w, Commit), s.objects[obj].id, s.objects[obj].value;
            id in r.global && id in r.rows && (r.global[id] == r.rows[id] <==> v + f == v)
  {
    SaveThenWrite(s, obj, f);
    var w, id := Step(Step(s, Save(obj)), Write(obj, f)), s.objects[obj].id;
    ReplayPush(Pending(s, id), Copy(obj), s.global[id], w.objects);
  }

  lemma SaveThenWrite(s: State, obj: nat, f: Fields)
    requires Inv(s) && obj < |s.objects|
    ensures var saved, id, v := Step(s, Save(obj)), s.objects[obj].id, s.objects[obj].value;
            && SessionOk(saved) && SessionOk(Step(saved, Write(obj, f)))
            && var w := Step(saved, Write(obj, f));
               && w.global == s.global && w.work == s.work[id := v] && w.objects[obj] == Object(id, v + f)
               && id in w.session && w.session[id].updates == Pending(s, id) + [Copy(obj)]
               && UpdatesOk(Pending(s, id), |w.objects|)
  {
    SaveKeepsInv(s, obj);
    var saved := Step(s, Save(obj));
    var w := Step(saved, Write(obj, f));
    forall j | j in w.session ensures EntryOk(w, j) {
      assert EntryOk(saved, j);
    }
    assert EntryOk(w, s.objects[obj].id);
  }

  /** One allocation: read, updated, then read under lock in the same transaction, and committed. */
  lemma LockReadAfterUpdateLeavesStaleEntry()
    ensures var rows := map["a" := map["size" := 1]];
            var s := Step(Step(Start(rows), GetById("a")), UpdateAllocation(0, map["size" := 2], true));
            Inv(s) && !Careful(s, GetByIdAndLock("a")) &&
            var l := Step(s, GetByIdAndLock("a"));
            SessionOk(l) && !Coherent(Step(l, Commit))
  {
    var rows := map["a" := map["size" := 1]];
    StartInv(rows);
    var g := Step(Start(rows), GetById("a"));
    GetKeepsInv(Start(rows), "a");
    UpdateKeepsInv(g, 0, map["size" := 2], true);
    var s := Step(g, UpdateAllocation(0, map["size" := 2], true));
    assert s.work["a"]["size"] == 2 && s.rows["a"]["size"] == 1;
    LockReadStaleExactly(s, "a");
  }

  // ---------- the repository as an object ----------

  /** The columns UpdateAllocationRedeem sets. */
  function RedeemFields(root: int, redeemSeq: int): Fields {
    map["latest_redeemed_write_marker" := root, "is_redeem_required" := 0, "last_redeemed_sequence" := redeemSeq]
  }

  lemma RedeemsThree(a: Fields, root: int, redeemSeq: int)
    ensures a + RedeemFields(root, redeemSeq) ==
            a["latest_redeemed_write_marker" := root]["is_redeem_required" := 0]["last_redeemed_sequence" := redeemSeq]
  {}

  class Repository {
    var rows: map<string, Fields>
    var allocCache: map<string, Fields>
    var work: map<string, Fields>
    var session: map<string, Entry>
    var objects: seq<Object>

    ghost function Now(): State
      reads this
    {
      State(rows, allocCache, work, session, objects)
    }

    /** The global cache holds committed rows, and the session's objects the transaction's rows. */
    ghost predicate Valid()
      reads this
    {
      Inv(Now()) && Held(Now())
    }

    constructor (rows: map<string, Fields>)
      ensures Valid() && Now() == Start(rows)
    {
      this.rows, allocCache, work, session, objects := rows, map[], rows, map[], [];
    }

    ghost method Kept(was: State, e: Event)
      requires SessionOk(was) && Enabled(was, e) && Now() == Step(was, e)
      ensures Inv(was) && Held(was) && Careful(was, e) && Tidy(was, e) ==> Valid()
    {
      if Inv(was) && Held(was) && Careful(was, e) && Tidy(was, e) {
        StepKeepsHeld(was, e);
      }
    }

    /** A new object with this value, as the session's entry. */
    method Load(id: string, value: Fields) returns (obj: nat)
      modifies this`objects, this`session
      ensures Now() == Loaded(old(Now()), id, value, []) && obj == old(|objects|)
    {
      obj := |objects|;
      objects := objects + [Object(id, value)];
      session := session[id := Entry(obj, [])];
    }

    /** The object for this id, or none when there is no such row. */
    method GetById(id: string) returns (obj: Option<nat>)
      requires SessionOk(Now())
      modifies this
      ensures Now() == Step(old(Now()), Event.GetById(id))
      ensures obj == if id in session then Some(session[id].obj) else None
      ensures rows == old(rows) && work == old(work)
      ensures old(id in session) ==>
                && obj == Some(old(session[id].obj))
                && session == old(session) && objects == old(objects) && allocCache == old(allocCache)
      ensures old(Valid()) ==> Valid() && (obj.Some? <==> id in work)
      ensures old(Valid()) && obj.Some? ==> obj.value < |objects| && objects[obj.value] == Object(id, work[id])
    {
      ghost var was := Now();
      assert Inv(was) ==> Tracked(was, id);
      if id in session {
        Kept(was, Event.GetById(id));
        return Some(session[id].obj);
      }
      if id in allocCache {
        var cached := Load(id, allocCache[id]);
        Kept(was, Event.GetById(id));
        return Some(cached);
      }
      if id !in work {
        return None;
      }
      var read := Load(id, work[id]);
      allocCache := allocCache[id := work[id]];
      Kept(was, Event.GetById(id));
      return Some(read);
    }

    method GetByIdAndLock(id: string) returns (obj: Option<nat>)
      requires SessionOk(Now())
      modifies this`objects, this`session
      ensures Now() == Step(old(Now()), Event.GetByIdAndLock(id))
      ensures obj == if id in work then Some(old(|objects|)) else None
      ensures obj.Some? ==> obj.value < |objects| && objects[obj.value] == Object(id, work[id])
      ensures old(Valid() && Pending(Now(), id) == []) ==> Valid()
    {
      ghost var was := Now();
      if id !in work {
        return None;
      }
      var read := Load(id, work[id]);
      Kept(was, Event.GetByIdAndLock(id));
      return Some(read);
    }

    /** The object becomes the session's, with one update more to replay. */
    method Record(obj: nat, u: Update)
      requires obj < |objects|
      modifies this`session
      ensures Now() == Recorded(old(Now()), obj, u)
      ensures var id := objects[obj].id;
              id in session && session == old(session)[id := session[id]] && session[id].obj == obj
    {
      var id := objects[obj].id;
      var updates := if id in session then session[id].updates else [];
      session := session[id := Entry(obj, updates + [u])];
    }

    /** tx.Model(alloc).Updates: the columns of the row, if there is one, and the fields of the object. */
    method WriteFields(obj: nat, fields: Fields)
      requires obj < |objects|
      modifies this`work, this`objects
      ensures var id := old(objects[obj].id);
              && work == (if id in old(work) then old(work)[id := old(work[id]) + fields] else old(work))
              && objects == old(objects)[obj := Object(id, old(objects[obj].value) + fields)]
    {
      var id := objects[obj].id;
      if id in work {
        work := work[id := work[id] + fields];
      }
      objects := objects[obj := objects[obj].(value := objects[obj].value + fields)];
    }

    method UpdateAllocation(obj: nat, fields: Fields, late: bool)
      requires SessionOk(Now()) && obj < |objects|
      modifies this`work, this`objects, this`session
      ensures Now() == Step(old(Now()), Event.UpdateAllocation(obj, fields, late))
      ensures var id := old(objects[obj].id);
              && work == (if id in old(work) then old(work)[id := old(work[id]) + fields] else old(work))
              && objects == old(objects)[obj := Object(id, old(objects[obj].value) + fields)]
              && id in session && session == old(session)[id := session[id]] && session[id].obj == obj
      ensures old(Valid() && Tidy(Now(), Event.UpdateAllocation(obj, fields, late))) ==> Valid()
    {
      ghost var was := Now();
      WriteFields(obj, fields);
      Record(obj, UpdateOption(obj, fields, late));
      Kept(was, Event.UpdateAllocation(obj, fields, late));
    }

    method UpdateAllocationRedeem(root: int, obj: nat, redeemSeq: int)
      requires SessionOk(Now()) && obj < |objects|
      modifies this`work, this`objects, this`session
      ensures Now() == Step(old(Now()), Event.UpdateAllocation(obj, RedeemFields(root, redeemSeq), false))
      ensures var id := old(objects[obj].id);
              id in old(work) ==>
                work == old(work)[id := old(work[id])["latest_redeemed_write_marker" := root]
                                                     ["is_redeem_required" := 0]
                                                     ["last_redeemed_sequence" := redeemSeq]]
      ensures old(Valid() && Tidy(Now(), Event.UpdateAllocation(obj, map[], false))) ==> Valid()
    {
      var id := objects[obj].id;
      if id in work {
        RedeemsThree(work[id], root, redeemSeq);
      }
      UpdateAllocation(obj, RedeemFields(root, redeemSeq), false);
    }

    method Save(obj: nat)
      requires SessionOk(Now()) && obj < |objects|
      modifies this`work, this`session
      ensures Now() == Step(old(Now()), Event.Save(obj))
      ensures var id := objects[obj].id;
              && work == old(work)[id := objects[obj].value]
              && id in session && session == old(session)[id := session[id]] && session[id].obj == obj
      ensures old(Valid()) ==> Valid()
    {
      ghost var was := Now();
      var id := objects[obj].id;
      work := work[id := objects[obj].value];
      Record(obj, Copy(obj));
      Kept(was, Event.Save(obj));
    }

    method Create(obj: nat) returns (ok: bool)
      requires SessionOk(Now()) && obj < |objects|
      modifies this`work, this`session
      ensures Now() == Step(old(Now()), Event.Create(obj)) && ok == (objects[obj].id !in old(work))
      ensures var id := objects[obj].id;
              ok ==>
                && work == old(work)[id := objects[obj].value]
                && id in session && session == old(session)[id := session[id]] && session[id].obj == obj
      ensures !ok ==> work == old(work) && session == old(session)
      ensures old(Valid()) ==> Valid()
    {
      ghost var was := Now();
      var id := objects[obj].id;
      if id in work {
        return false;
      }
      var updates := if id in session then session[id].updates else [];
      work := work[id := objects[obj].value];
      session := session[id := Entry(obj, updates)];
      Kept(was, Event.Create(obj));
      return true;
    }

    /** The updates of one entry, run in order on the cached value. */
    method RunUpdates(updates: seq<Update>, cached: Fields) returns (value: Fields)
      requires UpdatesOk(updates, |objects|)
      ensures value == Replay(updates, cached, objects)
    {
      value := cached;
      for i := 0 to |updates|
        invariant value == Replay(updates[..i], cached, objects)
      {
        assert updates[i] in updates && updates[..i + 1] == updates[..i] + [updates[i]];
        ReplayPush(updates[..i], updates[i], cached, objects);
        match updates[i]
        case Assign(fields) => value := value + fields;
        case Refresh(o, keys) => value := value + Restrict(objects[o].value, keys);
        case Copy(o) => value := objects[o].value;
      }
      assert updates[..|updates|] == updates;
    }

    /** The turn of one session entry at a commit. */
    method ReplayEntry(id: string)
      requires SessionOk(Now()) && id in session
      modifies this`allocCache
      ensures SessionOk(Now())
      ensures id !in old(allocCache) ==> allocCache == old(allocCache)
      ensures id in old(allocCache) ==>
        allocCache == old(allocCache)[id := Replay(session[id].updates, old(allocCache)[id], objects)]
    {
      ghost var before := Now();
      assert EntryOk(before, id);
      var updates := session[id].updates;
      if objects[session[id].obj].id in allocCache {
        var value := RunUpdates(updates, allocCache[id]);
        if |updates| > 0 {
          allocCache := allocCache[id := value];
        }
      }
      forall j | j in session ensures EntryOk(Now(), j) {
        assert EntryOk(before, j);
      }
    }

    /** Repository.Commit: every entry's updates onto the global cache. */
    method ReplayAll()
      requires SessionOk(Now())
      modifies this`allocCache
      ensures allocCache == Replayed(old(Now()))
    {
      ghost var before := Now();
      var ids := session.Keys;
      while ids != {}
        invariant SessionOk(Now()) && ids <= session.Keys
        invariant allocCache == ReplayedBut(before, ids)
        decreases |ids|
      {
        var id :| id in ids;
        ReplayedStep(before, ids, id);
        ReplayEntry(id);
        ids := ids - {id};
      }
    }

    /** EnhancedDB.Commit: the rows, then the hook. */
    method Commit()
      requires SessionOk(Now())
      modifies this
      ensures Now() == Step(old(Now()), Event.Commit)
      ensures rows == work == old(work) && session == map[] && objects == old(objects)
      ensures old(Valid()) ==> Valid()
    {
      ghost var before := Now();
      rows := work;
      SessionStaysOk(before, Now());
      ReplayAll();
      session := map[];
      Kept(before, Event.Commit);
    }
  }

  lemma SessionStaysOk(s: State, r: State)
    requires SessionOk(s) && r.session == s.session && r.objects == s.objects && r.global == s.global
    ensures SessionOk(r) && Replayed(r) == Replayed(s)
  {
    forall j | j in r.session ensures EntryOk(r, j) {
      assert EntryOk(s, j);
    }
  }

  /** The global cache in the middle of a commit, with these entries to come. */
  ghost function ReplayedBut(s: State, ids: set<string>): map<string, Fields>
    requires SessionOk(s)
  {
    map id | id in s.global :: if id in ids then s.global[id] else Replayed(s)[id]
  }

  lemma ReplayedStep(s: State, ids: set<string>, id: string)
    requires SessionOk(s) && id in ids && ids <= s.session.Keys
    ensures id in s.global ==>
              var value := Replay(s.session[id].updates, s.global[id], s.objects);
              ReplayedBut(s, ids - {id}) == ReplayedBut(s, ids)[id := value]
    ensures id !in s.global ==> ReplayedBut(s, ids - {id}) == ReplayedBut(s, ids)
  {}
}
