/** Building the tree below a path from the rows the database returns for it. */
module ObjectTree {
  import opened Bytes
  import opened RefNodes

  datatype Error = NotFound | InvalidObjectTree

  /** The path of the entry called name in the directory parent. */
  function PathOf(parent: string, name: string): string {
    if parent == "/" then "/" + name else parent + "/" + name
  }

  predicate HasPath(rows: seq<Ref>, path: string) {
    exists i :: 0 <= i < |rows| && rows[i].path == path
  }

  /** Rows as the query returns them: one per path, and a path before every extension of it. */
  ghost predicate Rows(rows: seq<Ref>) {
    && (forall i, j :: 0 <= i < j < |rows| ==> rows[i].path != rows[j].path)
    && (forall i, j :: 0 <= i < |rows| && 0 <= j < |rows| && rows[i].path < rows[j].path ==> i < j)
    && forall i :: 1 <= i < |rows| ==> rows[i].name != "" && rows[i].path == PathOf(rows[i].parentPath, rows[i].name)
  }

  /** Byte order by path is such an order. */
  lemma {:induction false} ExtensionIsGreater(a: string, b: string)
    requires a < b
    ensures Less(a, b)
  {
    if a != [] {
      assert a == b[..|a|];
      ExtensionIsGreater(a[1..], b[1..]);
    }
  }

  lemma SortedRowsPutPrefixesFirst(rows: seq<Ref>, i: nat, j: nat)
    requires Sorted(rows) && i < |rows| && j < |rows| && rows[i].path < rows[j].path
    ensures i < j
  {
    ExtensionIsGreater(rows[i].path, rows[j].path);
    LessIsStrict(rows[i].path);
    if j < i {
      LessIsTransitive(rows[i].path, rows[j].path, rows[i].path);
    }
  }

  lemma SiblingsDifferByName(a: Ref, b: Ref)
    requires a.path == PathOf(a.parentPath, a.name) && b.path == PathOf(b.parentPath, b.name)
    requires a.parentPath == b.parentPath
    ensures SameNameSamePath(a, b)
  {
    var n := if a.parentPath == "/" then 1 else |a.parentPath| + 1;
    assert a.path[n..] == a.name && b.path[n..] == b.name;
  }

  ghost function Elements(children: seq<Ref>): set<Ref> {
    set c | c in children
  }

  /** The rows before the n-th, but the first, that name path as their parent. */
  ghost function RowsUnder(rows: seq<Ref>, path: string, n: nat): set<Ref>
    requires n <= |rows|
  {
    set i | 1 <= i < n && rows[i].parentPath == path :: rows[i]
  }

  /** These are exactly those rows, sorted by path. */
  ghost predicate RowsBelow(children: seq<Ref>, path: string, rows: seq<Ref>, n: nat)
    requires n <= |rows|
  {
    Sorted(children) && Elements(children) == RowsUnder(rows, path, n)
  }

  lemma RowAdded(children: seq<Ref>, rows: seq<Ref>, i: nat)
    requires Rows(rows) && 1 <= i < |rows|
    requires RowsBelow(children, rows[i].parentPath, rows, i)
    ensures RowsBelow(Inserted(children, rows[i]), rows[i].parentPath, rows, i + 1)
  {
    var path, after := rows[i].parentPath, Inserted(children, rows[i]);
    forall c | c in children ensures SameNameSamePath(c, rows[i]) && c.path != rows[i].path {
      assert c in Elements(children);
      SiblingsDifferByName(c, rows[i]);
    }
    InsertedIsSorted(children, rows[i]);
    assert RowsUnder(rows, path, i + 1) == RowsUnder(rows, path, i) + {rows[i]};
    forall c | c in after ensures c in Elements(children) + {rows[i]} {
      var k :| 0 <= k < |after| && after[k] == c;
    }
    forall c | c in Elements(children) + {rows[i]} ensures c in after {
    }
    assert Elements(after) == Elements(children) + {rows[i]};
  }

  lemma RowSkipped(children: seq<Ref>, path: string, rows: seq<Ref>, i: nat)
    requires 1 <= i < |rows| && RowsBelow(children, path, rows, i) && rows[i].parentPath != path
    ensures RowsBelow(children, path, rows, i + 1)
  {
    assert RowsUnder(rows, path, i + 1) == RowsUnder(rows, path, i);
  }

  /** The first i rows by path. */
  ghost predicate Mapped(childMap: map<string, Ref>, rows: seq<Ref>, i: nat)
    requires i <= |rows|
  {
    && (forall j :: 0 <= j < i ==> rows[j].path in childMap && childMap[rows[j].path] == rows[j])
    && forall p :: p in childMap ==> HasPath(rows[..i], p)
  }

  lemma HasPathLater(rows: seq<Ref>, i: nat, p: string)
    requires i < |rows| && HasPath(rows[..i], p)
    ensures HasPath(rows[..i + 1], p)
  {
    var j :| 0 <= j < i && rows[..i][j].path == p;
    assert rows[..i + 1][j] == rows[..i][j];
  }

  lemma MappedStep(childMap: map<string, Ref>, rows: seq<Ref>, i: nat, after: map<string, Ref>)
    requires Rows(rows) && i < |rows| && Mapped(childMap, rows, i) && after == childMap[rows[i].path := rows[i]]
    ensures Mapped(after, rows, i + 1)
  {
    forall p | p in after ensures HasPath(rows[..i + 1], p) {
      if p == rows[i].path {
        assert rows[..i + 1][i] == rows[i];
      } else {
        HasPathLater(rows, i, p);
      }
    }
    forall j | 0 <= j < i + 1 ensures rows[j].path in after && after[rows[j].path] == rows[j] {
      assert j < i ==> rows[j].path != rows[i].path;
    }
  }

  lemma FindParent(childMap: map<string, Ref>, rows: seq<Ref>, i: nat) returns (p: nat)
    requires Rows(rows) && 1 <= i < |rows| && Mapped(childMap, rows, i) && rows[i].parentPath in childMap
    ensures p < i && rows[p].path == rows[i].parentPath && childMap[rows[i].parentPath] == rows[p]
    ensures HasPath(rows, rows[i].parentPath)
  {
    p :| 0 <= p < i && rows[..i][p].path == rows[i].parentPath;
    assert rows[p].path == rows[i].parentPath;
  }

  ghost predicate Linked(rows: seq<Ref>, i: nat)
    requires i <= |rows|
    reads rows
  {
    forall k :: 0 <= k < |rows| ==> RowsBelow(rows[k].children, rows[k].path, rows, i)
  }

  /** A row's parent, when there is one, comes before it. */
  lemma ParentComesFirst(rows: seq<Ref>, i: nat)
    requires Rows(rows) && 1 <= i < |rows| && HasPath(rows, rows[i].parentPath)
    ensures HasPath(rows[..i], rows[i].parentPath)
  {
    var p :| 0 <= p < |rows| && rows[p].path == rows[i].parentPath;
    assert rows[p].path < rows[i].path;
    assert rows[..i][p] == rows[p];
  }

  method AddRow(parent: Ref, rows: seq<Ref>, i: nat, ghost p: nat)
    requires Rows(rows) && 1 <= i < |rows| && p < i && parent == rows[p] && rows[p].path == rows[i].parentPath
    requires Linked(rows, i)
    modifies parent`children
    ensures Linked(rows, i + 1)
  {
    assert RowsBelow(parent.children, parent.path, rows, i);
    RowAdded(parent.children, rows, i);
    forall k | 0 <= k < |rows| && k != p
      ensures RowsBelow(rows[k].children, rows[k].path, rows, i + 1) && rows[k] != parent
    {
      assert rows[k].path != rows[p].path;
      RowSkipped(rows[k].children, rows[k].path, rows, i);
    }
    parent.AddChild(rows[i]);
  }

  /** Row i, which is not the first, has its parent missing. */
  ghost predicate Orphan(rows: seq<Ref>, i: int) {
    1 <= i < |rows| && !HasPath(rows, rows[i].parentPath)
  }

  /** Every row before the n-th, but the first, has its parent among the rows. */
  ghost predicate Placed(rows: seq<Ref>, n: nat) {
    n == 0 || (Placed(rows, n - 1) && !Orphan(rows, n - 1))
  }

  lemma {:induction false} PlacedMeansNoOrphan(rows: seq<Ref>, n: nat)
    ensures Placed(rows, n) <==> forall i: nat :: i < n ==> !Orphan(rows, i)
  {
    if n > 0 {
      PlacedMeansNoOrphan(rows, n - 1);
    }
  }

  lemma UnmappedIsOrphan(childMap: map<string, Ref>, rows: seq<Ref>, i: nat)
    requires Rows(rows) && 1 <= i < |rows| && Mapped(childMap, rows, i) && rows[i].parentPath !in childMap
    ensures Orphan(rows, i)
  {
    if HasPath(rows, rows[i].parentPath) {
      ParentComesFirst(rows, i);
      assert false;
    }
  }

  /** The state of the loop before the i-th row. */
  ghost predicate Built(childMap: map<string, Ref>, rows: seq<Ref>, i: nat)
    requires i <= |rows|
    reads rows
  {
    Mapped(childMap, rows, i) && Linked(rows, i)
  }

  lemma StartsBuilt(rows: seq<Ref>)
    requires rows != [] && forall i :: 0 <= i < |rows| ==> rows[i].children == []
    ensures Built(map[rows[0].path := rows[0]], rows, 1)
  {
    assert rows[..1][0].path == rows[0].path;
  }

  /** The turn of one row. */
  method LinkRow(childMap: map<string, Ref>, rows: seq<Ref>, i: nat) returns (r: Option<map<string, Ref>>)
    requires Rows(rows) && 1 <= i < |rows| && Built(childMap, rows, i)
    modifies rows`children
    ensures r.None? <==> Orphan(rows, i)
    ensures r.Some? ==> Built(r.value, rows, i + 1)
  {
    if rows[i].parentPath !in childMap {
      UnmappedIsOrphan(childMap, rows, i);
      return None;
    }
    ghost var p := FindParent(childMap, rows, i);
    AddRow(childMap[rows[i].parentPath], rows, i, p);
    var after := childMap[rows[i].path := rows[i]];
    MappedStep(childMap, rows, i, after);
    return Some(after);
  }

  /** The loop of GetObjectTree; on failure, the row whose parent is missing. */
  method LinkRows(start: map<string, Ref>, rows: seq<Ref>) returns (ok: bool, ghost bad: nat)
    requires rows != [] && Rows(rows) && Built(start, rows, 1)
    modifies rows`children
    ensures ok ==> Placed(rows, |rows|) && Linked(rows, |rows|)
    ensures !ok ==> Orphan(rows, bad)
  {
    var childMap := start;
    for i := 1 to |rows|
      invariant Built(childMap, rows, i)
      invariant Placed(rows, i)
    {
      var next := LinkRow(childMap, rows, i);
      if next.None? {
        return false, i;
      }
      childMap := next.value;
    }
    return true, 0;
  }

  /**
   * The tree is refused exactly when some row other than the first has its parent missing.  Otherwise
   * every row but the first is, once, among the children of the row its ParentPath names, and every
   * list of children is strictly sorted by path.
   */
  method GetObjectTree(path: string, rows: seq<Ref>) returns (r: Result<Ref, Error>)
    requires Rows(rows) && forall i :: 0 <= i < |rows| ==> rows[i].children == []
    modifies rows`children
    ensures rows == [] && path != "/" ==> r == Err(NotFound)
    ensures rows == [] && path == "/" ==> r.Ok? && fresh(r.value) && r.value.path == "/" && r.value.children == []
    ensures rows != [] ==>
              r == if forall i: nat :: i < |rows| ==> !Orphan(rows, i) then Ok(rows[0]) else Err(InvalidObjectTree)
    ensures rows != [] && r.Ok? ==> Linked(rows, |rows|)
  {
    if rows == [] {
      if path == "/" {
        var root := new Ref(true, "/", "/", "", "", 1, false, RefTree.Sums("", 0, 0, 0));
        return Ok(root);
      }
      return Err(NotFound);
    }
    StartsBuilt(rows);
    var ok, bad := LinkRows(map[rows[0].path := rows[0]], rows);
    PlacedMeansNoOrphan(rows, |rows|);
    return if ok then Ok(rows[0]) else Err(InvalidObjectTree);
  }
}
