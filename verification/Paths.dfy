/** Paths as the names on them, their ancestors, and the two kinds of reference. */
module Paths {
  datatype Path = Path(names: seq<string>)

  datatype Kind = File | Dir

  /** The ancestor of p with i names; p itself when i is all of them. */
  function Field(p: Path, i: nat): (f: Path)
    requires i <= |p.names|
    ensures |f.names| == i
  {
    Path(p.names[..i])
  }

  function Parent(p: Path): Path
    requires p.names != []
  {
    Field(p, |p.names| - 1)
  }

  /** The proper ancestors, the root among them. */
  function Parents(p: Path): set<Path> { set i | 0 <= i < |p.names| :: Field(p, i) }

  lemma FieldOfField(p: Path, i: nat, j: nat)
    requires j <= i <= |p.names|
    ensures Field(Field(p, i), j) == Field(p, j)
  {
    TakeTake(p.names, i, j);
  }

  lemma TakeTake<T>(s: seq<T>, i: nat, j: nat)
    requires j <= i <= |s|
    ensures s[..i][..j] == s[..j]
  {}

  lemma WholeField(p: Path)
    ensures Field(p, |p.names|) == p
  {
    assert p.names[..|p.names|] == p.names;
  }

  lemma ParentOfField(p: Path, i: nat)
    requires 0 < i <= |p.names|
    ensures Field(p, i).names != [] && Parent(Field(p, i)) == Field(p, i - 1)
  {
    FieldOfField(p, i, i - 1);
  }

  lemma ParentsStep(p: Path)
    requires p.names != []
    ensures Parents(p) == Parents(Parent(p)) + {Parent(p)} && p !in Parents(p)
  {
    var q := Parent(p);
    forall i | 0 <= i < |q.names| ensures Field(q, i) == Field(p, i) {
      FieldOfField(p, |q.names|, i);
    }
    forall a ensures a in Parents(p) <==> a in Parents(q) + {q} {
      if a in Parents(p) {
        var i :| 0 <= i < |p.names| && a == Field(p, i);
        assert i < |q.names| ==> Field(q, i) == a;
      }
      if a in Parents(q) {
        var i :| 0 <= i < |q.names| && a == Field(q, i);
        assert Field(p, i) == a;
      }
    }
  }
}
