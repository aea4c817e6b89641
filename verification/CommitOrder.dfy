/** The changes of a batch may be applied in any order: they are independent, and collect the same effect. */
module CommitOrder {
  import opened Bytes
  import opened Paths
  import opened CommitProtocol
  import opened CommitRows

  // ---------- independence does not depend on the order ----------

  ghost predicate Pairwise(live: map<Path, Row>, cs: seq<Change>) {
    && (forall i :: 0 <= i < |cs| ==> ChangeOk(live, cs[i]))
    && forall i, j :: 0 <= i < j < |cs| ==> Independent(live, cs[i], cs[j])
  }

  lemma {:induction false} BatchIsPairwise(live: map<Path, Row>, cs: seq<Change>)
    ensures BatchOk(live, cs) <==> Pairwise(live, cs)
  {
    if cs != [] {
      BatchIsPairwise(live, cs[1..]);
      assert forall j :: 0 < j < |cs| ==> cs[1..][j - 1] == cs[j];
      if BatchOk(live, cs) {
        forall i, j | 0 <= i < j < |cs| ensures Independent(live, cs[i], cs[j]) {
          assert i > 0 ==> Independent(live, cs[1..][i - 1], cs[1..][j - 1]);
          assert cs[j] in cs[1..];
        }
      }
      if Pairwise(live, cs) {
        forall d | d in cs[1..] ensures Independent(live, cs[0], d) {
          var j :| 0 <= j < |cs| - 1 && cs[1..][j] == d;
          assert cs[j + 1] == d;
        }
      }
    }
  }

  lemma TwoPlaces<T>(s: seq<T>, x: T) returns (i: nat, j: nat)
    requires multiset(s)[x] >= 2
    ensures i < j < |s| && s[i] == x && s[j] == x
  {
    i := Once(s, x);
    var rest := s[..i] + s[i + 1..];
    assert s == s[..i] + [x] + s[i + 1..];
    j := Once(rest, x);
    i, j := if j < i then j else i, if j < i then i else j + 1;
  }

  lemma Once<T>(s: seq<T>, x: T) returns (i: nat)
    requires multiset(s)[x] >= 1
    ensures i < |s| && s[i] == x
  {
    assert x in s;
    i :| 0 <= i < |s| && s[i] == x;
  }

  lemma Twice<T>(s: seq<T>, i: nat, j: nat)
    requires i < j < |s| && s[i] == s[j]
    ensures multiset(s)[s[i]] >= 2
  {
    assert s == s[..i] + [s[i]] + s[i + 1..];
    assert s[i + 1..][j - i - 1] == s[j];
  }

  lemma PermutedIsPairwise(live: map<Path, Row>, cs: seq<Change>, ds: seq<Change>)
    requires Pairwise(live, cs) && multiset(cs) == multiset(ds)
    ensures Pairwise(live, ds)
  {
    forall i | 0 <= i < |ds| ensures ChangeOk(live, ds[i]) {
      assert ds[i] in multiset(ds);
      var a := Once(cs, ds[i]);
    }
    forall i, j | 0 <= i < j < |ds| ensures Independent(live, ds[i], ds[j]) {
      assert ds[i] in multiset(ds) && ds[j] in multiset(ds);
      if ds[i] == ds[j] {
        Twice(ds, i, j);
        var a, b := TwoPlaces(cs, ds[i]);
      } else {
        var a := Once(cs, ds[i]);
        var b := Once(cs, ds[j]);
        assert a < b ==> Independent(live, cs[a], cs[b]);
        assert b < a ==> Independent(live, cs[b], cs[a]);
      }
    }
  }

  // ---------- and neither does the effect ----------

  /** The row of a directory made on the way to something. */
  function MadeRow(live: map<Path, Row>, d: Path, v: Stamp): Row {
    Row(Dir, v.version, 0, [], v.serial, ParentSerial(live, d, v.serial))
  }

  /** A directory row of the effect is such a row, or that of a transferred directory. */
  lemma {:induction false} DirRow(live: map<Path, Row>, cs: seq<Change>, v: Stamp, p: Path)
    requires BatchOk(live, cs) && p in Effects(live, cs, v).dirs
    ensures Effects(live, cs, v).dirs[p] == MadeRow(live, p, v) || exists c :: c in cs && p in Touched(live, c)
    decreases cs
  {
    if p in Effects(live, cs[1..], v).dirs {
      DirRow(live, cs[1..], v, p);
    } else {
      assert cs[0] in cs && p in EffectOf(live, cs[0], v).dirs;
    }
  }

  lemma SameDirRow(live: map<Path, Row>, cs: seq<Change>, v: Stamp, p: Path)
    requires BatchOk(live, cs) && cs != []
    requires p in EffectOf(live, cs[0], v).dirs && p in Effects(live, cs[1..], v).dirs
    ensures EffectOf(live, cs[0], v).dirs[p] == Effects(live, cs[1..], v).dirs[p]
  {
    EffectsWithin(live, cs[1..], v, cs[0]);
    EffectInside(live, cs[0], v);
    DirRow(live, cs[1..], v, p);
    if c :| c in cs[1..] && p in Touched(live, c) {
      assert Independent(live, cs[0], c);
    }
  }

  ghost predicate Part(a: Effect, b: Effect) {
    && (forall p :: p in a.files ==> p in b.files && b.files[p] == a.files[p])
    && (forall p :: p in a.dirs ==> p in b.dirs && b.dirs[p] == a.dirs[p])
    && a.deleted <= b.deleted && a.freed <= b.freed
  }

  lemma {:induction false} EffectIsPart(live: map<Path, Row>, cs: seq<Change>, v: Stamp, c: Change)
    requires BatchOk(live, cs) && c in cs
    ensures ChangeOk(live, c) && Part(EffectOf(live, c, v), Effects(live, cs, v))
    decreases cs
  {
    EffectsWithin(live, cs[1..], v, cs[0]);
    EffectInside(live, cs[0], v);
    if c == cs[0] {
      forall p | p in EffectOf(live, c, v).dirs
        ensures Effects(live, cs, v).dirs[p] == EffectOf(live, c, v).dirs[p]
      {
        if p in Effects(live, cs[1..], v).dirs {
          SameDirRow(live, cs, v, p);
        }
      }
    } else {
      EffectIsPart(live, cs[1..], v, c);
    }
  }

  lemma {:induction false} EffectsAreParts(live: map<Path, Row>, cs: seq<Change>, v: Stamp, whole: Effect)
    requires BatchOk(live, cs)
    requires forall c :: c in cs ==> ChangeOk(live, c) && Part(EffectOf(live, c, v), whole)
    ensures Part(Effects(live, cs, v), whole)
    decreases cs
  {
    if cs != [] {
      EffectsAreParts(live, cs[1..], v, whole);
      assert cs[0] in cs;
    }
  }

  lemma PermutedIsPart(live: map<Path, Row>, cs: seq<Change>, ds: seq<Change>, v: Stamp)
    requires BatchOk(live, cs) && BatchOk(live, ds) && multiset(cs) == multiset(ds)
    ensures Part(Effects(live, ds, v), Effects(live, cs, v))
  {
    forall c | c in ds ensures ChangeOk(live, c) && Part(EffectOf(live, c, v), Effects(live, cs, v)) {
      assert c in multiset(ds);
      assert c in cs;
      EffectIsPart(live, cs, v, c);
    }
    EffectsAreParts(live, ds, v, Effects(live, cs, v));
  }

  /** A batch in another order is a batch with the same effect. */
  lemma OrderDoesNotMatter(live: map<Path, Row>, cs: seq<Change>, ds: seq<Change>, v: Stamp)
    requires BatchOk(live, cs) && multiset(cs) == multiset(ds)
    ensures BatchOk(live, ds) && Effects(live, ds, v) == Effects(live, cs, v)
  {
    BatchIsPairwise(live, cs);
    PermutedIsPairwise(live, cs, ds);
    BatchIsPairwise(live, ds);
    PermutedIsPart(live, cs, ds, v);
    PermutedIsPart(live, ds, cs, v);
    PartOfEachOther(Effects(live, ds, v), Effects(live, cs, v));
  }

  lemma PartOfEachOther(a: Effect, b: Effect)
    requires Part(a, b) && Part(b, a)
    ensures a == b
  {
    assert a.files == b.files && a.dirs == b.dirs;
  }

  // ---------- whether it is accepted ----------

  lemma EmptyStays(live: map<Path, Row>, gone: set<Path>, c: Change)
    requires ChangeOk(live, c) && FindsEmpty(live, {}, c)
    ensures FindsEmpty(live, gone, c)
  {}

  lemma {:induction false} EmptyInAnyTurn(live: map<Path, Row>, gone: set<Path>, ds: seq<Change>)
    requires BatchOk(live, ds) && forall c :: c in ds ==> ChangeOk(live, c) && FindsEmpty(live, {}, c)
    ensures EmptyInTurn(live, gone, ds)
    decreases ds
  {
    if ds != [] {
      assert ds[0] in ds;
      EmptyStays(live, gone, ds[0]);
      EmptyInAnyTurn(live, gone + MarkedBy(live, ds[0]), ds[1..]);
    }
  }

  /**
   * A directory with one row in it: a deletion of that row marks it at once, so its directory may be
   * removed after it, and not before.  Moving the row away, or copying the directory, is not seen.
   */
  lemma OrderCanMatter(live: map<Path, Row>, d: Path, p: Path, to: Path)
    requires Tree(live) && d in live && live[d].kind == Dir && p in live && p.names != [] && Parent(p) == d
    requires forall q :: q in live && q.names != [] && Parent(q) == d ==> q == p
    ensures var first, second := Delete(p, File), Delete(d, Dir);
            && Accepted(live, [first, second]) && !Accepted(live, [second, first])
            && !Accepted(live, [Transferred(ByMove, p, to), second])
            && !Accepted(live, [first, Transferred(ByCopy, d, to)])
  {
    var first, second := Delete(p, File), Delete(d, Dir);
    assert Rooted(live, p, live[p]);
    ParentsStep(p);
    NotInItself(p);
    Pair(live, first, second);
    Pair(live, second, first);
    Pair(live, Transferred(ByMove, p, to), second);
    Pair(live, first, Transferred(ByCopy, d, to));
    assert !IsEmptyDir(live, {}, d) && IsEmptyDir(live, {p}, d);
  }

  lemma NotInItself(p: Path)
    requires p.names != []
    ensures Parent(p) != p
  {}

  lemma Pair(live: map<Path, Row>, c: Change, d: Change)
    ensures Accepted(live, [c, d]) <==>
              && ChangeOk(live, c) && ChangeOk(live, d) && Independent(live, c, d)
              && FindsEmpty(live, {}, c) && FindsEmpty(live, MarkedBy(live, c), d)
  {
    var rest := [c, d][1..];
    assert rest == [d] && rest[1..] == [] && BatchOk(live, rest[1..]);
    assert {} + MarkedBy(live, c) == MarkedBy(live, c);
    assert BatchOk(live, rest) <==> ChangeOk(live, d);
    assert BatchOk(live, [c, d]) <==> ChangeOk(live, c) && ChangeOk(live, d) && Independent(live, c, d);
    if BatchOk(live, [c, d]) {
      assert EmptyInTurn(live, MarkedBy(live, c), rest) <==> FindsEmpty(live, MarkedBy(live, c), d);
    }
  }

  lemma ToFront(cs: seq<Change>, i: nat) returns (ds: seq<Change>)
    requires i < |cs|
    ensures ds != [] && ds[0] == cs[i] && multiset(ds) == multiset(cs)
  {
    ds := [cs[i]] + (cs[..i] + cs[i + 1..]);
    assert cs == cs[..i] + ([cs[i]] + cs[i + 1..]);
  }

  /**
   * Whether a batch is accepted can depend on the order, as a directory may be emptied by another of its
   * deletions: it is accepted in every order exactly when each directory was empty before the batch.
   */
  lemma AcceptedInEveryOrderExactly(live: map<Path, Row>, cs: seq<Change>)
    requires BatchOk(live, cs)
    ensures (forall ds :: multiset(ds) == multiset(cs) ==> Accepted(live, ds)) <==>
            (forall c :: c in cs ==> ChangeOk(live, c) && FindsEmpty(live, {}, c))
  {
    BatchIsPairwise(live, cs);
    if forall ds :: multiset(ds) == multiset(cs) ==> Accepted(live, ds) {
      forall c | c in cs ensures ChangeOk(live, c) && FindsEmpty(live, {}, c) {
        var i :| 0 <= i < |cs| && cs[i] == c;
        var ds := ToFront(cs, i);
        assert Accepted(live, ds);
      }
    }
    if forall c :: c in cs ==> ChangeOk(live, c) && FindsEmpty(live, {}, c) {
      forall ds | multiset(ds) == multiset(cs) ensures Accepted(live, ds) {
        PermutedIsPairwise(live, cs, ds);
        BatchIsPairwise(live, ds);
        forall c | c in ds ensures c in cs {
          assert c in multiset(ds);
        }
        EmptyInAnyTurn(live, {}, ds);
      }
    }
  }
}
