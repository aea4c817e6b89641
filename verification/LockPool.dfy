/**
 * The pool of reader/writer mutexes by key: entries are made on demand, count their users, and are
 * dropped by a cleaner once nobody uses them.  Clients each get a mutex, lock it one way or the
 * other, and unlock it the same way, as often as they like.
 */
module LockPool {
  import opened Bytes

  /** A mutex object: its user count and who holds its RWMutex. */
  datatype Mutex = Mutex(usedby: int, writer: Option<nat>, readers: set<nat>)

  /** Where a client is with the mutex object it got for a key. */
  datatype Client =
    | Idle
    | Got(key: string, mutex: nat)
    | Holding(key: string, mutex: nat, writing: bool)
    | Releasing(key: string, mutex: nat, writing: bool)

  /** All mutex objects ever made, the pool's entries, and who is inside the pool's own lock. */
  datatype State = State(mutexes: seq<Mutex>, pool: map<string, nat>, lockMutex: Option<nat>, clients: seq<Client>)

  datatype Event =
    | Get(client: nat, key: string)
    | Lock(client: nat)
    | RLock(client: nat)
    | BeginUnlock(client: nat)
    | EndUnlock(client: nat)
    | Clean

  function LockKey(table: string, key: string): string { table + ":" + key }

  /** Locks of different tables, or of different keys of a table, have different keys in the pool. */
  lemma LockKeysDiffer(table: string, key: string, table': string, key': string)
    requires ':' !in table && ':' !in table' && LockKey(table, key) == LockKey(table', key')
    ensures table == table' && key == key'
  {
    var k := LockKey(table, key);
    assert k[|table|] == ':' && k[|table'|] == ':';
    assert |table| == |table'|;
    assert k[..|table|] == table && k[..|table|] == table';
    assert k[|table| + 1..] == key && k[|table| + 1..] == key';
  }

  // ---------- steps ----------

  /** GetMutex on the pool: an existing entry gains a user, a missing one is made with one. */
  function Taken(mutexes: seq<Mutex>, pool: map<string, nat>, key: string): (seq<Mutex>, map<string, nat>, nat)
    requires key in pool ==> pool[key] < |mutexes|
  {
    if key in pool then
      var m := pool[key];
      (mutexes[m := mutexes[m].(usedby := mutexes[m].usedby + 1)], pool, m)
    else
      (mutexes + [Mutex(1, None, {})], pool[key := |mutexes|], |mutexes|)
  }

  /** cleanUnusedMutexs on the pool. */
  function Cleaned(mutexes: seq<Mutex>, pool: map<string, nat>): map<string, nat>
    requires forall k :: k in pool ==> pool[k] < |mutexes|
  {
    map k | k in pool && mutexes[pool[k]].usedby >= 1 :: pool[k]
  }

  function Unlocked(m: Mutex, client: nat, writing: bool): Mutex {
    if writing then m.(writer := None) else m.(readers := m.readers - {client})
  }

  ghost predicate PoolInRange(s: State) {
    && (forall k :: k in s.pool ==> s.pool[k] < |s.mutexes|)
    && forall c :: 0 <= c < |s.clients| && !s.clients[c].Idle? ==> s.clients[c].mutex < |s.mutexes|
  }

  /** When an event can happen: the pool's lock guards entries and counts, each RWMutex its holders. */
  ghost predicate Enabled(s: State, e: Event)
    requires PoolInRange(s)
  {
    match e
    case Get(c, _) => c < |s.clients| && s.clients[c].Idle? && s.lockMutex.None?
    case Lock(c) =>
      && c < |s.clients| && s.clients[c].Got?
      && s.mutexes[s.clients[c].mutex].writer.None? && s.mutexes[s.clients[c].mutex].readers == {}
    case RLock(c) => c < |s.clients| && s.clients[c].Got? && s.mutexes[s.clients[c].mutex].writer.None?
    case BeginUnlock(c) => c < |s.clients| && s.clients[c].Holding? && s.lockMutex.None?
    case EndUnlock(c) => c < |s.clients| && s.clients[c].Releasing?
    case Clean => s.lockMutex.None?
  }

  ghost function Step(s: State, e: Event): State
    requires PoolInRange(s) && Enabled(s, e)
  {
    match e
    case Get(c, key) =>
      var (mutexes, pool, m) := Taken(s.mutexes, s.pool, key);
      s.(mutexes := mutexes, pool := pool, clients := s.clients[c := Got(key, m)])
    case Lock(c) => Acquired(s, c, s.mutexes[s.clients[c].mutex].(writer := Some(c)), true)
    case RLock(c) =>
      var m := s.mutexes[s.clients[c].mutex];
      Acquired(s, c, m.(readers := m.readers + {c}), false)
    case BeginUnlock(c) =>
      var at := s.clients[c];
      var m := s.mutexes[at.mutex];
      s.(mutexes := s.mutexes[at.mutex := m.(usedby := m.usedby - 1)], lockMutex := Some(c),
         clients := s.clients[c := Releasing(at.key, at.mutex, at.writing)])
    case EndUnlock(c) =>
      var at := s.clients[c];
      s.(mutexes := s.mutexes[at.mutex := Unlocked(s.mutexes[at.mutex], c, at.writing)], lockMutex := None,
         clients := s.clients[c := Idle])
    case Clean => s.(pool := Cleaned(s.mutexes, s.pool))
  }

  ghost function Acquired(s: State, c: nat, m: Mutex, writing: bool): State
    requires c < |s.clients| && s.clients[c].Got? && s.clients[c].mutex < |s.mutexes|
  {
    var at := s.clients[c];
    s.(mutexes := s.mutexes[at.mutex := m], clients := s.clients[c := Holding(at.key, at.mutex, writing)])
  }

  // ---------- counting users ----------

  /** A client that has the mutex and has not given up its use of it. */
  predicate Uses(c: Client, m: nat) { (c.Got? || c.Holding?) && c.mutex == m }

  function Users(clients: seq<Client>, m: nat): nat {
    if clients == [] then 0
    else Users(clients[..|clients| - 1], m) + if Uses(clients[|clients| - 1], m) then 1 else 0
  }

  lemma {:induction false} UsersUpdate(clients: seq<Client>, i: nat, c: Client, m: nat)
    requires i < |clients|
    ensures Users(clients[i := c], m) + (if Uses(clients[i], m) then 1 else 0)
         == Users(clients, m) + (if Uses(c, m) then 1 else 0)
  {
    var last := |clients| - 1;
    if i < last {
      assert clients[i := c][..last] == clients[..last][i := c];
      UsersUpdate(clients[..last], i, c, m);
    } else {
      assert clients[i := c][..last] == clients[..last];
    }
  }

  lemma {:induction false} NoUsers(clients: seq<Client>, m: nat)
    ensures Users(clients, m) == 0 <==> forall c :: c in clients ==> !Uses(c, m)
  {
    if clients != [] {
      var last := |clients| - 1;
      NoUsers(clients[..last], m);
      assert clients == clients[..last] + [clients[last]];
    }
  }

  // ---------- invariant ----------

  ghost predicate Attached(s: State, c: nat)
    requires c < |s.clients|
  {
    var at := s.clients[c];
    !at.Idle? ==> at.mutex < |s.mutexes| && at.key in s.pool && s.pool[at.key] == at.mutex
  }

  predicate Holds(c: Client, m: nat, writing: bool) {
    (c.Holding? || c.Releasing?) && c.mutex == m && c.writing == writing
  }

  /** The mutex's fields say exactly who uses and holds it, and a writer holds it alone. */
  ghost predicate MutexOk(s: State, m: nat)
    requires m < |s.mutexes|
  {
    var mu := s.mutexes[m];
    && mu.usedby == Users(s.clients, m)
    && (forall c: nat :: mu.writer == Some(c) <==> c < |s.clients| && Holds(s.clients[c], m, true))
    && (forall c: nat :: c in mu.readers <==> c < |s.clients| && Holds(s.clients[c], m, false))
    && (mu.writer.Some? ==> mu.readers == {})
  }

  ghost predicate Inv(s: State) {
    && PoolInRange(s)
    && (forall j, k :: j in s.pool && k in s.pool && s.pool[j] == s.pool[k] ==> j == k)
    && (forall c :: 0 <= c < |s.clients| ==> Attached(s, c))
    && (forall m :: 0 <= m < |s.mutexes| ==> MutexOk(s, m))
    && forall c: nat :: s.lockMutex == Some(c) <==> c < |s.clients| && s.clients[c].Releasing?
  }

  // ---------- every step keeps the invariant ----------

  /** Only client c changes, and what it uses or holds of other mutexes than m does not. */
  ghost predicate OnlyAbout(s: State, c: nat, m: nat, r: State) {
    && c < |s.clients| && |r.clients| == |s.clients|
    && r.clients == s.clients[c := r.clients[c]]
    && (!s.clients[c].Idle? ==> s.clients[c].mutex == m)
    && (!r.clients[c].Idle? ==> r.clients[c].mutex == m)
  }

  lemma OtherMutexOk(s: State, c: nat, m: nat, r: State, other: nat)
    requires OnlyAbout(s, c, m, r) && other != m && other < |s.mutexes| && other < |r.mutexes|
    requires MutexOk(s, other) && r.mutexes[other] == s.mutexes[other]
    ensures MutexOk(r, other)
  {
    UsersUpdate(s.clients, c, r.clients[c], other);
  }

  /** The mutex a step is about: its new fields match its users and holders. */
  ghost predicate Fits(s: State, c: nat, m: nat, before: Mutex, after: Mutex, client: Client)
    requires c < |s.clients|
  {
    && after.usedby - before.usedby == (if Uses(client, m) then 1 else 0) - (if Uses(s.clients[c], m) then 1 else 0)
    && (after.writer == if Holds(client, m, true) then Some(c)
                        else if Holds(s.clients[c], m, true) then None
                        else before.writer)
    && (after.readers == if Holds(client, m, false) then before.readers + {c} else before.readers - {c})
    && (after.writer.Some? ==> after.readers == {})
    && (Holds(client, m, true) && !Holds(s.clients[c], m, true) ==> before.writer.None?)
  }

  lemma OwnMutexOk(s: State, c: nat, m: nat, r: State)
    requires OnlyAbout(s, c, m, r) && m < |s.mutexes| && m < |r.mutexes| && MutexOk(s, m)
    requires Fits(s, c, m, s.mutexes[m], r.mutexes[m], r.clients[c])
    ensures MutexOk(r, m)
  {
    UsersUpdate(s.clients, c, r.clients[c], m);
  }

  lemma MutexesStayOk(s: State, c: nat, m: nat, r: State)
    requires OnlyAbout(s, c, m, r) && m < |s.mutexes| && |r.mutexes| == |s.mutexes|
    requires forall k :: 0 <= k < |s.mutexes| ==> MutexOk(s, k)
    requires forall k :: 0 <= k < |s.mutexes| && k != m ==> r.mutexes[k] == s.mutexes[k]
    requires Fits(s, c, m, s.mutexes[m], r.mutexes[m], r.clients[c])
    ensures forall k :: 0 <= k < |r.mutexes| ==> MutexOk(r, k)
  {
    forall k | 0 <= k < |r.mutexes| ensures MutexOk(r, k) {
      if k == m {
        OwnMutexOk(s, c, m, r);
      } else {
        OtherMutexOk(s, c, m, r, k);
      }
    }
  }

  lemma GetKeepsInv(s: State, c: nat, key: string)
    requires Inv(s) && Enabled(s, Get(c, key))
    ensures Inv(Step(s, Get(c, key)))
  {
    var r := Step(s, Get(c, key));
    if key in s.pool {
      assert MutexOk(s, s.pool[key]) && c !in s.mutexes[s.pool[key]].readers;
      MutexesStayOk(s, c, s.pool[key], r);
    } else {
      NewMutexOk(s, c, r);
    }
    AttachedAfterGet(s, c, key);
  }

  lemma NewMutexOk(s: State, c: nat, r: State)
    requires Inv(s) && c < |s.clients| && s.clients[c].Idle?
    requires r.mutexes == s.mutexes + [Mutex(1, None, {})]
    requires OnlyAbout(s, c, |s.mutexes|, r) && r.clients[c].Got?
    ensures forall k :: 0 <= k < |r.mutexes| ==> MutexOk(r, k)
  {
    var m := |s.mutexes|;
    forall d | d in s.clients ensures !Uses(d, m) {
      var i :| 0 <= i < |s.clients| && s.clients[i] == d;
    }
    NoUsers(s.clients, m);
    UsersUpdate(s.clients, c, r.clients[c], m);
    forall k | 0 <= k < |s.mutexes| ensures MutexOk(r, k) {
      OtherMutexOk(s, c, m, r, k);
    }
  }

  lemma AttachedAfterGet(s: State, c: nat, key: string)
    requires Inv(s) && Enabled(s, Get(c, key))
    ensures var r := Step(s, Get(c, key));
            && PoolInRange(r)
            && (forall j, k :: j in r.pool && k in r.pool && r.pool[j] == r.pool[k] ==> j == k)
            && forall d :: 0 <= d < |r.clients| ==> Attached(r, d)
  {
    var r := Step(s, Get(c, key));
    forall d | 0 <= d < |r.clients| ensures Attached(r, d) {
      assert Attached(s, d);
    }
    assert forall d :: 0 <= d < |r.clients| && !r.clients[d].Idle? ==> Attached(r, d);
  }

  /** Locking and unlocking leave the pool's entries alone. */
  lemma StaysAttached(s: State, c: nat, m: nat, r: State)
    requires Inv(s) && OnlyAbout(s, c, m, r) && r.pool == s.pool && |r.mutexes| == |s.mutexes|
    requires !s.clients[c].Idle? && (!r.clients[c].Idle? ==> r.clients[c].key == s.clients[c].key)
    ensures PoolInRange(r) && forall d :: 0 <= d < |r.clients| ==> Attached(r, d)
  {
    forall d | 0 <= d < |r.clients| ensures Attached(r, d) {
      assert Attached(s, d) && Attached(s, c);
    }
    assert forall d :: 0 <= d < |r.clients| && !r.clients[d].Idle? ==> Attached(r, d);
  }

  lemma ClientStepKeepsInv(s: State, e: Event)
    requires Inv(s) && Enabled(s, e) && (e.Lock? || e.RLock? || e.BeginUnlock? || e.EndUnlock?)
    ensures Inv(Step(s, e))
  {
    var r, c := Step(s, e), e.client;
    var m := s.clients[c].mutex;
    assert Attached(s, c) && MutexOk(s, m);
    MutexesStayOk(s, c, m, r);
    StaysAttached(s, c, m, r);
  }

  lemma CleanKeepsInv(s: State)
    requires Inv(s) && Enabled(s, Clean)
    ensures Inv(Step(s, Clean))
  {
    var r := Step(s, Clean);
    forall c | 0 <= c < |s.clients| ensures Attached(r, c) {
      assert Attached(s, c);
      if !s.clients[c].Idle? {
        assert MutexOk(s, s.clients[c].mutex) && s.clients[c] in s.clients;
        NoUsers(s.clients, s.clients[c].mutex);
      }
    }
    forall m | 0 <= m < |r.mutexes| ensures MutexOk(r, m) {
      assert MutexOk(s, m);
    }
  }

  lemma StepKeepsInv(s: State, e: Event)
    requires Inv(s) && Enabled(s, e)
    ensures Inv(Step(s, e))
  {
    match e
    case Get(c, key) => GetKeepsInv(s, c, key);
    case Clean => CleanKeepsInv(s);
    case Lock(_) => ClientStepKeepsInv(s, e);
    case RLock(_) => ClientStepKeepsInv(s, e);
    case BeginUnlock(_) => ClientStepKeepsInv(s, e);
    case EndUnlock(_) => ClientStepKeepsInv(s, e);
  }

  // ---------- every run ----------

  function Init(clients: nat): State { State([], map[], None, seq(clients, i => Idle)) }

  lemma InitInv(clients: nat)
    ensures Inv(Init(clients))
  {}

  /** The state after these events; an event that is not enabled does nothing. */
  ghost function Run(clients: nat, events: seq<Event>): (s: State)
    ensures Inv(s)
    decreases |events|
  {
    if events == [] then
      InitInv(clients);
      Init(clients)
    else
      var before := Run(clients, events[..|events| - 1]);
      var e := events[|events| - 1];
      if Enabled(before, e) then
        StepKeepsInv(before, e);
        Step(before, e)
      else before
  }

  predicate InUse(c: Client) { c.Got? || c.Holding? }

  /**
   * At every moment of every run, all clients at one key have one mutex object, the pool's; while a
   * client holds it for writing no other client holds the key; and its count is the number of the
   * key's outstanding users.
   */
  lemma ReadersAndWritersExclude(clients: nat, events: seq<Event>, c: nat, d: nat)
    requires var s := Run(clients, events);
             && c < |s.clients| && d < |s.clients| && c != d
             && !s.clients[c].Idle? && !s.clients[d].Idle?
             && s.clients[c].key == s.clients[d].key
    ensures var s := Run(clients, events);
            var m := s.clients[c].mutex;
            && s.clients[d].mutex == m && m < |s.mutexes| && s.clients[c].key in s.pool && s.pool[s.clients[c].key] == m
            && s.mutexes[m].usedby == Users(s.clients, m)
            && (Holds(s.clients[c], m, true) ==> !Holds(s.clients[d], m, true) && !Holds(s.clients[d], m, false))
  {
    var s := Run(clients, events);
    var m := s.clients[c].mutex;
    assert Attached(s, c) && Attached(s, d);
    assert MutexOk(s, m);
    if Holds(s.clients[c], m, true) {
      assert s.mutexes[m].writer == Some(c);
    }
  }

  /** At every moment of every run, used or not, an entry counts its outstanding users: the clients using its key. */
  lemma EntryCountsUsers(clients: nat, events: seq<Event>, key: string)
    requires key in Run(clients, events).pool
    ensures var s := Run(clients, events);
            && s.pool[key] < |s.mutexes| && s.mutexes[s.pool[key]].usedby == Users(s.clients, s.pool[key])
            && forall c :: c in s.clients ==> (Uses(c, s.pool[key]) <==> InUse(c) && c.key == key)
  {
    var s := Run(clients, events);
    assert MutexOk(s, s.pool[key]);
    forall c | c in s.clients ensures Uses(c, s.pool[key]) <==> InUse(c) && c.key == key {
      var i :| 0 <= i < |s.clients| && s.clients[i] == c;
      assert Attached(s, i);
    }
  }

  /** Different keys never share a mutex object. */
  lemma KeysDoNotInterfere(clients: nat, events: seq<Event>, c: nat, d: nat)
    requires var s := Run(clients, events);
             && c < |s.clients| && d < |s.clients| && !s.clients[c].Idle? && !s.clients[d].Idle?
             && s.clients[c].key != s.clients[d].key
    ensures var s := Run(clients, events);
            s.clients[c].mutex != s.clients[d].mutex
  {
    var s := Run(clients, events);
    assert Attached(s, c) && Attached(s, d);
  }

  /** The cleaner drops exactly the entries whose key no client is using. */
  lemma CleanDropsExactlyTheUnused(clients: nat, events: seq<Event>, key: string)
    requires var s := Run(clients, events); Enabled(s, Clean) && key in s.pool
    ensures var s := Run(clients, events);
            key in Step(s, Clean).pool <==> exists c :: c in s.clients && InUse(c) && c.key == key
  {
    var s := Run(clients, events);
    var m := s.pool[key];
    assert MutexOk(s, m);
    NoUsers(s.clients, m);
    if key in Step(s, Clean).pool {
      var c :| c in s.clients && Uses(c, m);
      var i :| 0 <= i < |s.clients| && s.clients[i] == c;
      assert Attached(s, i);
    }
    if c :| c in s.clients && InUse(c) && c.key == key {
      var i :| 0 <= i < |s.clients| && s.clients[i] == c;
      assert Attached(s, i) && Uses(c, m);
    }
  }

  /** The client inside the pool's lock can always leave it, so no one waits for it for ever. */
  lemma PoolLockIsReleased(clients: nat, events: seq<Event>)
    requires Run(clients, events).lockMutex.Some?
    ensures var s := Run(clients, events);
            Enabled(s, EndUnlock(s.lockMutex.value)) && Step(s, EndUnlock(s.lockMutex.value)).lockMutex.None?
  {
    var s := Run(clients, events);
    assert s.lockMutex == Some(s.lockMutex.value);
  }

  /** A client waiting for its mutex is kept waiting only by a client that holds the same key. */
  lemma WaitsOnlyForHolders(clients: nat, events: seq<Event>, c: nat) returns (d: nat)
    requires var s := Run(clients, events);
             c < |s.clients| && s.clients[c].Got? && !Enabled(s, Lock(c))
    ensures var s := Run(clients, events);
            && d < |s.clients| && (s.clients[d].Holding? || s.clients[d].Releasing?)
            && s.clients[d].key == s.clients[c].key
  {
    var s := Run(clients, events);
    var m := s.clients[c].mutex;
    assert Attached(s, c) && MutexOk(s, m);
    var mu := s.mutexes[m];
    if mu.writer.Some? {
      d := mu.writer.value;
      assert mu.writer == Some(d);
    } else {
      d :| d in mu.readers;
    }
    assert Attached(s, d);
  }

  // ---------- the pool as objects ----------

  class SharedMutex {
    ghost const id: nat
    var usedby: int
    var writer: Option<nat>
    var readers: set<nat>

    constructor (ghost id: nat)
      ensures this.id == id && Value() == Mutex(1, None, {})
    {
      this.id, usedby, writer, readers := id, 1, None, {};
    }

    ghost function Value(): Mutex
      reads this
    {
      Mutex(usedby, writer, readers)
    }
  }

  class Pool {
    var lockPool: map<string, SharedMutex>
    ghost var made: seq<SharedMutex>

    constructor ()
      ensures Valid() && Mutexes() == [] && Entries() == map[]
    {
      lockPool, made := map[], [];
    }

    ghost predicate Valid()
      reads this
    {
      && (forall i :: 0 <= i < |made| ==> made[i].id == i)
      && forall k :: k in lockPool ==> lockPool[k].id < |made| && made[lockPool[k].id] == lockPool[k]
    }

    ghost function Mutexes(): (ms: seq<Mutex>)
      requires Valid()
      reads this, made
      ensures |ms| == |made|
    {
      seq(|made|, i requires 0 <= i < |made| reads this, made => made[i].Value())
    }

    ghost function Entries(): (pool: map<string, nat>)
      requires Valid()
      ensures forall k :: k in pool ==> pool[k] < |made|
      reads this
    {
      map k | k in lockPool :: lockPool[k].id
    }

    method GetMutex(table: string, key: string) returns (m: SharedMutex)
      requires Valid()
      modifies this, made
      ensures Valid() && m in made
      ensures (Mutexes(), Entries(), m.id) == Taken(old(Mutexes()), old(Entries()), LockKey(table, key))
    {
      var lockKey := LockKey(table, key);
      if lockKey in lockPool {
        m := UseEntry(lockKey);
      } else {
        m := MakeEntry(lockKey);
      }
    }

    method UseEntry(lockKey: string) returns (m: SharedMutex)
      requires Valid() && lockKey in lockPool
      modifies made
      ensures Valid() && m in made && m.id == old(Entries())[lockKey] && Entries() == old(Entries())
      ensures var was := old(Mutexes())[m.id]; Mutexes() == old(Mutexes())[m.id := was.(usedby := was.usedby + 1)]
    {
      ghost var before := Mutexes();
      m := lockPool[lockKey];
      m.usedby := m.usedby + 1;
      assert Mutexes() == before[m.id := m.Value()];
    }

    method MakeEntry(lockKey: string) returns (m: SharedMutex)
      requires Valid() && lockKey !in lockPool
      modifies this
      ensures Valid() && m in made && m.id == |old(Mutexes())|
      ensures Mutexes() == old(Mutexes()) + [Mutex(1, None, {})] && Entries() == old(Entries())[lockKey := m.id]
    {
      ghost var before := Mutexes();
      m := new SharedMutex(|made|);
      lockPool := lockPool[lockKey := m];
      made := made + [m];
      assert Mutexes() == before + [m.Value()];
    }

    /** Unlock and RUnlock: the use and the hold both end. */
    method Unlock(m: SharedMutex, client: nat, writing: bool)
      requires Valid() && m in made
      modifies m
      ensures Valid() && Entries() == old(Entries())
      ensures var was := old(m.Value());
              Mutexes() == old(Mutexes())[m.id := Unlocked(was.(usedby := was.usedby - 1), client, writing)]
    {
      ghost var before := Mutexes();
      m.usedby := m.usedby - 1;
      if writing {
        m.writer := None;
      } else {
        m.readers := m.readers - {client};
      }
      assert Mutexes() == before[m.id := m.Value()];
    }

    /** The cleaner's loop over the entries. */
    method DropUnused()
      requires Valid()
      modifies this`lockPool
      ensures lockPool == map k | k in old(lockPool) && old(lockPool[k].usedby) >= 1 :: old(lockPool)[k]
    {
      var keys := lockPool.Keys;
      ghost var before := lockPool;
      while keys != {}
        invariant keys <= before.Keys
        invariant lockPool == map k | k in before && (k in keys || before[k].usedby >= 1) :: before[k]
        decreases |keys|
      {
        var k :| k in keys;
        if lockPool[k].usedby < 1 {
          lockPool := lockPool - {k};
        }
        keys := keys - {k};
      }
    }

    method CleanUnusedMutexs()
      requires Valid()
      modifies this`lockPool
      ensures Valid() && Mutexes() == old(Mutexes())
      ensures Entries() == Cleaned(old(Mutexes()), old(Entries()))
    {
      DropUnused();
    }
  }
}
