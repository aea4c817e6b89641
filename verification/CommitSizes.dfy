/** The size a connection records, and what it says of the sizes of the live files. */
module CommitSizes {
  import opened Bytes
  import opened Paths
  import opened CommitProtocol
  import opened CommitRows

  // ---------- sums of file sizes ----------

  function FileSize(r: Row): nat { if r.kind == File then r.size else 0 }

  /** The sum of the sizes of the file rows. */
  ghost function SizeOf(rows: map<Path, Row>): nat
    decreases |rows|
  {
    if rows == map[] then 0
    else
      var p :| p in rows;
      RemoveSmaller(rows, p);
      FileSize(rows[p]) + SizeOf(rows - {p})
  }

  lemma RemoveSmaller(rows: map<Path, Row>, p: Path)
    requires p in rows
    ensures |rows - {p}| < |rows|
  {
    assert (rows - {p}).Keys == rows.Keys - {p};
  }

  lemma {:induction false} SizeOfRemove(rows: map<Path, Row>, p: Path)
    requires p in rows
    ensures SizeOf(rows) == FileSize(rows[p]) + SizeOf(rows - {p})
    decreases |rows|
  {
    var q :| q in rows && SizeOf(rows) == FileSize(rows[q]) + SizeOf(rows - {q});
    if q != p {
      RemoveSmaller(rows, q);
      RemoveSmaller(rows, p);
      SizeOfRemove(rows - {q}, p);
      SizeOfRemove(rows - {p}, q);
      assert rows - {q} - {p} == rows - {p} - {q};
    }
  }

  lemma SizeOfInsert(rows: map<Path, Row>, p: Path, r: Row)
    requires p !in rows
    ensures SizeOf(rows[p := r]) == FileSize(r) + SizeOf(rows)
  {
    assert rows[p := r] - {p} == rows;
    SizeOfRemove(rows[p := r], p);
  }

  lemma UnionRemove<K, V>(a: map<K, V>, b: map<K, V>, p: K)
    requires p !in a
    ensures (a + b) - {p} == a + (b - {p})
  {
  }

  lemma {:induction false} SizeOfUnion(a: map<Path, Row>, b: map<Path, Row>)
    requires a.Keys !! b.Keys
    ensures SizeOf(a + b) == SizeOf(a) + SizeOf(b)
    decreases |b|
  {
    if b == map[] {
      assert a + b == a;
    } else {
      var p :| p in b;
      RemoveSmaller(b, p);
      SizeOfUnion(a, b - {p});
      UnionRemove(a, b, p);
      SizeOfRemove(a + b, p);
      SizeOfRemove(b, p);
    }
  }

  lemma SizeOfSplit(rows: map<Path, Row>, keys: set<Path>)
    ensures SizeOf(rows) == SizeOf(rows - keys) + SizeOf(Restrict(rows, keys))
  {
    SizeOfUnion(rows - keys, Restrict(rows, keys));
    assert (rows - keys) + Restrict(rows, keys) == rows;
  }

  lemma {:induction false} DirsWeighNothing(dirs: map<Path, Row>)
    requires forall p :: p in dirs ==> dirs[p].kind == Dir
    ensures SizeOf(dirs) == 0
    decreases |dirs|
  {
    if dirs != map[] {
      var p :| p in dirs;
      RemoveSmaller(dirs, p);
      DirsWeighNothing(dirs - {p});
      SizeOfRemove(dirs, p);
    }
  }

  // ---------- what the changes of one connection add up to ----------

  ghost predicate DirsHaveNoSize(live: map<Path, Row>) {
    forall p :: p in live && live[p].kind == Dir ==> live[p].size == 0
  }

  // ---------- sizes ----------

  /** What the recorded size of a change misses: an empty upload does not count the file it replaces. */
  function Missed(live: map<Path, Row>, c: Change): nat {
    if c.Upload? && c.data == [] && c.path in live then live[c.path].size else 0
  }

  function MissedBy(live: map<Path, Row>, cs: seq<Change>): nat {
    if cs == [] then 0 else Missed(live, cs[0]) + MissedBy(live, cs[1..])
  }

  lemma SizeOfOne(p: Path, r: Row)
    ensures SizeOf(map[p := r]) == FileSize(r)
  {
    var none: map<Path, Row> := map[];
    assert none[p := r] == map[p := r];
    SizeOfInsert(none, p, r);
  }

  /** The rows at these paths, of which there is at most one. */
  lemma SizeOfAtMostOne(live: map<Path, Row>, keys: set<Path>, p: Path)
    requires p in live && (keys == {} || keys == {p})
    ensures SizeOf(Restrict(live, keys)) == if keys == {} then 0 else FileSize(live[p])
  {
    if keys == {} {
      assert Restrict(live, keys) == map[];
    } else {
      assert Restrict(live, keys) == map[p := live[p]];
      SizeOfOne(p, live[p]);
    }
  }

  lemma UploadDelta(live: map<Path, Row>, c: Change, v: Stamp)
    requires c.Upload? && ChangeOk(live, c) && DirsHaveNoSize(live)
    ensures var e := EffectOf(live, c, v);
            SizeDelta(live, c) == SizeOf(e.files) - SizeOf(Restrict(live, e.deleted)) + Missed(live, c)
  {
    var p := c.path;
    var e := EffectOf(live, c, v);
    assert e.files == map[p := e.files[p]];
    SizeOfOne(p, e.files[p]);
    if p in live {
      SizeOfAtMostOne(live, {p}, p);
    } else {
      assert Restrict(live, {}) == map[];
    }
  }

  lemma TransferDelta(live: map<Path, Row>, c: Change, v: Stamp)
    requires c.Transferred? && ChangeOk(live, c) && DirsHaveNoSize(live)
    ensures var e := EffectOf(live, c, v);
            SizeDelta(live, c) == SizeOf(e.files) - SizeOf(Restrict(live, e.deleted))
  {
    SizeOfAtMostOne(live, EffectOf(live, c, v).deleted, c.src);
    SizeOfOne(c.dst, TransferredRow(live, c.how, c.src, c.dst, v));
  }

  lemma DeltaOfOne(live: map<Path, Row>, c: Change, v: Stamp)
    requires ChangeOk(live, c) && DirsHaveNoSize(live)
    ensures var e := EffectOf(live, c, v);
            SizeDelta(live, c) == SizeOf(e.files) - SizeOf(Restrict(live, e.deleted)) + Missed(live, c)
  {
    match c
    case Upload(_, _, _) => UploadDelta(live, c, v);
    case Delete(p, _) =>
      if p in live {
        SizeOfAtMostOne(live, {p}, p);
      } else {
        assert Restrict(live, {}) == map[];
      }
    case Transferred(_, _, _) => TransferDelta(live, c, v);
  }

  lemma RestrictUnion(live: map<Path, Row>, a: set<Path>, b: set<Path>)
    requires a !! b
    ensures SizeOf(Restrict(live, a + b)) == SizeOf(Restrict(live, a)) + SizeOf(Restrict(live, b))
  {
    assert Restrict(live, a + b) == Restrict(live, a) + Restrict(live, b);
    SizeOfUnion(Restrict(live, a), Restrict(live, b));
  }

  lemma {:induction false} DeltaOfAll(live: map<Path, Row>, cs: seq<Change>, v: Stamp)
    requires BatchOk(live, cs) && DirsHaveNoSize(live)
    ensures var e := Effects(live, cs, v);
            ConnectionSize(live, cs) == SizeOf(e.files) - SizeOf(Restrict(live, e.deleted)) + MissedBy(live, cs)
    decreases cs
  {
    if cs == [] {
      assert Restrict(live, {}) == map[];
    } else {
      var e, rest := EffectOf(live, cs[0], v), Effects(live, cs[1..], v);
      DeltaOfOne(live, cs[0], v);
      DeltaOfAll(live, cs[1..], v);
      EffectInside(live, cs[0], v);
      EffectsWithin(live, cs[1..], v, cs[0]);
      SizeOfUnion(e.files, rest.files);
      RestrictUnion(live, e.deleted, rest.deleted);
    }
  }

  /** After a commit the live files weigh what they did before, plus the recorded size, less what it missed. */
  lemma LiveSizeAfter(live: map<Path, Row>, cs: seq<Change>, v: Stamp)
    requires BatchOk(live, cs) && DirsHaveNoSize(live)
    ensures SizeOf(LiveAfter(live, Effects(live, cs, v)))
         == SizeOf(live) + ConnectionSize(live, cs) - MissedBy(live, cs)
  {
    var e := Effects(live, cs, v);
    EffectsFit(live, cs, v);
    DeltaOfAll(live, cs, v);
    SizeOfSplit(live, e.deleted);
    DirsWeighNothing(e.dirs);
    SizeOfUnion(live - e.deleted, e.dirs);
    SizeOfUnion((live - e.deleted) + e.dirs, e.files);
  }

  // ---------- the size a connection has recorded ----------

  /** The path whose row's size a connection looks up when it records the change. */
  function Weighed(c: Change): Path {
    match c
    case Upload(p, _, _) => p
    case Delete(p, _) => p
    case Transferred(_, src, _) => src
  }

  /** The recorded size of changes, each weighed against the rows of its own time. */
  function RecordedSize(rows: seq<map<Path, Row>>, cs: seq<Change>): int
    requires |rows| == |cs|
  {
    if cs == [] then 0 else SizeDelta(rows[0], cs[0]) + RecordedSize(rows[1..], cs[1..])
  }

  /** It is still what the changes weigh when none of these rows has changed its size, come or gone since. */
  lemma {:induction false} RecordedIsWeight(rows: seq<map<Path, Row>>, live: map<Path, Row>, cs: seq<Change>)
    requires |rows| == |cs|
    requires forall i :: 0 <= i < |cs| ==> SizeAt(rows[i], Weighed(cs[i])) == SizeAt(live, Weighed(cs[i]))
    ensures RecordedSize(rows, cs) == ConnectionSize(live, cs)
    decreases cs
  {
    if cs != [] {
      assert SizeAt(rows[0], Weighed(cs[0])) == SizeAt(live, Weighed(cs[0]));
      RecordedIsWeight(rows[1..], live, cs[1..]);
    }
  }
}
