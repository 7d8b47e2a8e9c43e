/**
 * The two tables of scoutlib/handler/dir_repo.py as values: the dir table
 * (an AUTOINCREMENT id and a UNIQUE path) and the dir_ancestor closure table
 * (dir_id, ancestor_id, depth) keyed by (dir_id, ancestor_id). The functions
 * here say what one insert, one add and one depth query do to or read from them.
 */
module DirTables {
  import opened Wrappers
  import opened Paths

  /** 2**31 - 1, the default depth limit of the closure queries. */
  const MaxDepth: int := 0x7fff_ffff

  /** A dir_ancestor row. */
  datatype Edge = Edge(dirId: int, ancestorId: int, depth: int)

  /** A dir row as a query returns it: its id and its (root-relative) path. */
  datatype DirRow = DirRow(id: int, path: Path)

  // The dir table is a seq<Path>: with AUTOINCREMENT and no deletes, dirs[i] is
  // the path of the row whose id is i + 1.

  /** UNIQUE (path): no two rows hold the same path. */
  predicate PathsUnique(dirs: seq<Path>)
  {
    forall i, j :: 0 <= i < j < |dirs| ==> Apart(dirs, i, j)
  }

  predicate Apart(dirs: seq<Path>, i: int, j: int)
    requires 0 <= i < j < |dirs|
  {
    dirs[i] != dirs[j]
  }

  /** Under unique paths a path is held by one row only. */
  lemma UniqueAt(dirs: seq<Path>, i: int, j: int)
    requires PathsUnique(dirs) && 0 <= i < |dirs| && 0 <= j < |dirs|
    ensures dirs[i] == dirs[j] ==> i == j
  {
    if i < j {
      assert Apart(dirs, i, j);
    } else if j < i {
      assert Apart(dirs, j, i);
    }
  }

  /** SELECT id FROM dir WHERE path = ?: the id of the row holding p, if any. */
  function FindPath(dirs: seq<Path>, p: Path): (r: Option<int>)
    ensures r.Some? <==> p in dirs
    ensures r.Some? ==> 1 <= r.value <= |dirs| && dirs[r.value - 1] == p
    decreases |dirs|
  {
    if |dirs| == 0 then None
    else
      assert dirs == dirs[..|dirs| - 1] + [dirs[|dirs| - 1]];
      if dirs[|dirs| - 1] == p then Some(|dirs|) else FindPath(dirs[..|dirs| - 1], p)
  }

  /** With unique paths the lookup finds the one row that holds the path. */
  lemma FindPathUnique(dirs: seq<Path>, k: int)
    requires PathsUnique(dirs) && 0 <= k < |dirs|
    ensures FindPath(dirs, dirs[k]) == Some(k + 1)
  {
    var r := FindPath(dirs, dirs[k]);
    assert dirs[k] in dirs;
    UniqueAt(dirs, r.value - 1, k);
  }

  /** A path not yet stored can be appended without breaking uniqueness. */
  lemma UniqueSnoc(dirs: seq<Path>, p: Path)
    requires PathsUnique(dirs) && p !in dirs
    ensures PathsUnique(dirs + [p])
  {
    var r := dirs + [p];
    forall i, j | 0 <= i < j < |r| ensures Apart(r, i, j) {
      assert r[i] == dirs[i];
      if j < |dirs| {
        assert Apart(dirs, i, j);
      } else {
        assert dirs[i] in dirs;
      }
    }
  }

  /** insert_dir on the table: the existing row's id, or a new last row. */
  function WithDir(dirs: seq<Path>, p: Path): (r: (seq<Path>, int))
    ensures dirs <= r.0 && |r.0| <= |dirs| + 1
    ensures 1 <= r.1 <= |r.0| && r.0[r.1 - 1] == p
    ensures p in dirs <==> r.0 == dirs
    ensures p !in dirs ==> r.0 == dirs + [p]
    ensures PathsUnique(dirs) ==> PathsUnique(r.0) && FindPath(r.0, p) == Some(r.1)
  {
    match FindPath(dirs, p)
    case Some(id) => (dirs, id)
    case None =>
      var r := dirs + [p];
      assert PathsUnique(dirs) ==> PathsUnique(r) by {
        if PathsUnique(dirs) { UniqueSnoc(dirs, p); }
      }
      assert PathsUnique(r) ==> FindPath(r, p) == Some(|dirs| + 1) by {
        if PathsUnique(r) { FindPathUnique(r, |dirs|); }
      }
      (r, |dirs| + 1)
  }

  /** Inserting the same path again changes nothing and returns the same id. */
  lemma WithDirTwice(dirs: seq<Path>, p: Path)
    requires PathsUnique(dirs)
    ensures WithDir(WithDir(dirs, p).0, p) == WithDir(dirs, p)
  {
  }

  /** insert_dir for each path in turn. */
  function WithDirs(dirs: seq<Path>, ps: seq<Path>): (r: seq<Path>)
    ensures dirs <= r
    ensures PathsUnique(dirs) ==> PathsUnique(r)
    decreases |ps|
  {
    if |ps| == 0 then dirs
    else WithDirs(WithDir(dirs, ps[0]).0, ps[1..])
  }

  /** The rows after insert_dir on each path hold the rows before and those paths, and nothing else. */
  lemma {:induction false} WithDirsHas(dirs: seq<Path>, ps: seq<Path>, x: Path)
    ensures x in WithDirs(dirs, ps) <==> x in dirs || x in ps
    decreases |ps|
  {
    if |ps| > 0 {
      assert ps == [ps[0]] + ps[1..];
      WithDirsHas(WithDir(dirs, ps[0]).0, ps[1..], x);
    }
  }

  /** Paths that are all stored already change nothing. */
  lemma {:induction false} WithDirsPresent(dirs: seq<Path>, ps: seq<Path>)
    requires forall p :: p in ps ==> p in dirs
    ensures WithDirs(dirs, ps) == dirs
    decreases |ps|
  {
    if |ps| > 0 {
      assert ps[0] in ps;
      assert forall p :: p in ps[1..] ==> p in ps;
      WithDirsPresent(dirs, ps[1..]);
    }
  }

  // ---- dir_ancestor ----

  predicate SameKey(a: Edge, b: Edge)
  {
    a.dirId == b.dirId && a.ancestorId == b.ancestorId
  }

  /** PRIMARY KEY (dir_id, ancestor_id). */
  predicate KeysUnique(es: seq<Edge>)
  {
    forall i, j :: 0 <= i < j < |es| ==> !SameKey(es[i], es[j])
  }

  predicate HasKey(es: seq<Edge>, e: Edge)
  {
    exists k :: 0 <= k < |es| && SameKey(es[k], e)
  }

  lemma HasKeyGrows(a: seq<Edge>, b: seq<Edge>, e: Edge)
    requires a <= b && HasKey(a, e)
    ensures HasKey(b, e)
  {
    var k :| 0 <= k < |a| && SameKey(a[k], e);
    assert b[k] == a[k];
  }

  /** INSERT ... ON CONFLICT DO NOTHING: a row whose key is taken is dropped. */
  function WithEdge(es: seq<Edge>, e: Edge): (r: seq<Edge>)
    ensures es <= r && HasKey(r, e)
    ensures forall x :: x in r <==> x in es || (x == e && !HasKey(es, e))
    ensures HasKey(es, e) <==> r == es
    ensures KeysUnique(es) ==> KeysUnique(r)
  {
    if HasKey(es, e) then es
    else
      var r := es + [e];
      assert SameKey(r[|es|], e);
      r
  }

  /** An edge inserted twice is stored once. */
  lemma WithEdgeTwice(es: seq<Edge>, e: Edge)
    ensures WithEdge(WithEdge(es, e), e) == WithEdge(es, e)
  {
  }

  /** insert_into_dir_ancestor: each row in turn, with conflicts ignored. */
  function WithEdges(es: seq<Edge>, rows: seq<Edge>): (r: seq<Edge>)
    ensures es <= r
    ensures forall row :: row in rows ==> HasKey(r, row)
    ensures forall x :: x in r ==> x in es || x in rows
    ensures KeysUnique(es) ==> KeysUnique(r)
    decreases |rows|
  {
    if |rows| == 0 then es
    else
      var init := rows[..|rows| - 1];
      var last := rows[|rows| - 1];
      assert rows == init + [last];
      var mid := WithEdges(es, init);
      var r := WithEdge(mid, last);
      assert forall row :: row in init ==> HasKey(r, row) by {
        forall row | row in init ensures HasKey(r, row) { HasKeyGrows(mid, r, row); }
      }
      r
  }

  /** Rows whose keys are all present already change nothing. */
  lemma {:induction false} WithEdgesPresent(es: seq<Edge>, rows: seq<Edge>)
    requires forall row :: row in rows ==> HasKey(es, row)
    ensures WithEdges(es, rows) == es
    decreases |rows|
  {
    if |rows| > 0 {
      var init := rows[..|rows| - 1];
      assert forall row :: row in init ==> row in rows;
      WithEdgesPresent(es, init);
      assert rows[|rows| - 1] in rows;
    }
  }

  /** Inserting the same batch of edges twice leaves the table as after the first time. */
  lemma WithEdgesTwice(es: seq<Edge>, rows: seq<Edge>)
    ensures WithEdges(WithEdges(es, rows), rows) == WithEdges(es, rows)
  {
    WithEdgesPresent(WithEdges(es, rows), rows);
  }

  /** The rows add() emits for the i-th path: (ids[i], ids[j], i - j) for j from i down to 0. */
  function RowsFor(ids: seq<int>, i: int): seq<Edge>
    requires 0 <= i < |ids|
  {
    seq(i + 1, k requires 0 <= k <= i => Edge(ids[i], ids[i - k], k))
  }

  /** All the rows add() emits for the id list of a path's prefixes, in the order it emits them. */
  function ClosureRows(ids: seq<int>): seq<Edge>
    decreases |ids|
  {
    if |ids| == 0 then [] else ClosureRows(ids[..|ids| - 1]) + RowsFor(ids, |ids| - 1)
  }

  /** add() emits (ids[i], ids[j], i - j) for every j <= i. */
  lemma {:induction false} ClosureRowsHas(ids: seq<int>, i: int, j: int)
    requires 0 <= j <= i < |ids|
    ensures Edge(ids[i], ids[j], i - j) in ClosureRows(ids)
    decreases |ids|
  {
    var n := |ids| - 1;
    if i < n {
      var init := ids[..n];
      ClosureRowsHas(init, i, j);
      assert init[i] == ids[i] && init[j] == ids[j];
    } else {
      assert RowsFor(ids, n)[n - j] == Edge(ids[n], ids[j], n - j);
    }
  }

  /** ... and nothing else: every emitted row is such a pair. */
  lemma {:induction false} ClosureRowsOnly(ids: seq<int>, e: Edge) returns (i: int, j: int)
    requires e in ClosureRows(ids)
    ensures 0 <= j <= i < |ids| && e == Edge(ids[i], ids[j], i - j)
    decreases |ids|
  {
    var n := |ids| - 1;
    var init := ids[..n];
    if e in ClosureRows(init) {
      i, j := ClosureRowsOnly(init, e);
      assert init[i] == ids[i] && init[j] == ids[j];
    } else {
      var tail := RowsFor(ids, n);
      var k :| 0 <= k < |tail| && tail[k] == e;
      i, j := n, n - k;
    }
  }

  // ---- The closure invariant ----

  /** Every stored path is root-relative and names a directory below the root. */
  predicate WellFormed(dirs: seq<Path>)
  {
    forall i :: 0 <= i < |dirs| ==> !dirs[i].absolute && |dirs[i].parts| > 0
  }

  /** Every directory's ancestors have rows of their own. */
  predicate PrefixClosed(dirs: seq<Path>)
  {
    forall i, q :: 0 <= i < |dirs| && q in Prefixes(dirs[i]) ==> q in dirs
  }

  /** An edge from every directory to each stored prefix of it (itself included) at the component distance. */
  predicate Complete(dirs: seq<Path>, edges: seq<Edge>)
  {
    forall d, a :: 0 <= d < |dirs| && 0 <= a < |dirs| ==> PairListed(dirs, edges, d, a)
  }

  /** If row a holds a prefix of row d's path, the edge from d to a is stored. */
  predicate PairListed(dirs: seq<Path>, edges: seq<Edge>, d: int, a: int)
    requires 0 <= d < |dirs| && 0 <= a < |dirs|
  {
    dirs[a].parts <= dirs[d].parts ==> Edge(d + 1, a + 1, |dirs[d].parts| - |dirs[a].parts|) in edges
  }

  /** Every edge joins two stored directories, the ancestor a prefix of the other, at the component distance. */
  predicate Sound(dirs: seq<Path>, edges: seq<Edge>)
  {
    forall e :: e in edges ==> EdgeFits(dirs, e)
  }

  predicate EdgeFits(dirs: seq<Path>, e: Edge)
  {
    1 <= e.dirId <= |dirs| && 1 <= e.ancestorId <= |dirs| &&
    dirs[e.ancestorId - 1].parts <= dirs[e.dirId - 1].parts &&
    e.depth == |dirs[e.dirId - 1].parts| - |dirs[e.ancestorId - 1].parts|
  }

  /** The state add() is meant to keep: both tables describe the same tree. */
  predicate Closed(dirs: seq<Path>, edges: seq<Edge>)
  {
    PathsUnique(dirs) && KeysUnique(edges) && WellFormed(dirs) &&
    PrefixClosed(dirs) && Complete(dirs, edges) && Sound(dirs, edges)
  }

  /** The ids of some stored paths, in order. */
  function IdsOf(dirs: seq<Path>, ps: seq<Path>): (ids: seq<int>)
    requires forall i :: 0 <= i < |ps| ==> ps[i] in dirs
    ensures |ids| == |ps|
    ensures forall i :: 0 <= i < |ps| ==> 1 <= ids[i] <= |dirs| && dirs[ids[i] - 1] == ps[i]
  {
    seq(|ps|, i requires 0 <= i < |ps| => FindPath(dirs, ps[i]).value)
  }

  /** The dir table after add() stored every prefix of the leaf path. */
  function AddDirs(dirs: seq<Path>, leaf: Path): (r: seq<Path>)
    ensures dirs <= r
  {
    WithDirs(dirs, Prefixes(leaf))
  }

  /** After add() a row holds x exactly when one did before or x is a prefix of the leaf. */
  lemma AddDirsHas(dirs: seq<Path>, leaf: Path, x: Path)
    ensures x in AddDirs(dirs, leaf) <==> x in dirs || x in Prefixes(leaf)
  {
    WithDirsHas(dirs, Prefixes(leaf), x);
  }

  /** The id add() collected for each prefix of the leaf path. */
  function AddIds(dirs: seq<Path>, leaf: Path): (ids: seq<int>)
    ensures |ids| == |leaf.parts|
    ensures forall i :: 0 <= i < |ids| ==>
      1 <= ids[i] <= |AddDirs(dirs, leaf)| && AddDirs(dirs, leaf)[ids[i] - 1] == Prefixes(leaf)[i]
  {
    PrefixesStored(dirs, leaf);
    IdsOf(AddDirs(dirs, leaf), Prefixes(leaf))
  }

  /** After add() every prefix of the leaf has a row. */
  lemma PrefixesStored(dirs: seq<Path>, leaf: Path)
    ensures forall i :: 0 <= i < |leaf.parts| ==> Prefixes(leaf)[i] in AddDirs(dirs, leaf)
  {
    forall i | 0 <= i < |leaf.parts| ensures Prefixes(leaf)[i] in AddDirs(dirs, leaf) {
      AddDirsHas(dirs, leaf, Prefixes(leaf)[i]);
    }
  }

  /** The dir_ancestor table after add(). */
  function AddEdges(dirs: seq<Path>, edges: seq<Edge>, leaf: Path): seq<Edge>
  {
    WithEdges(edges, ClosureRows(AddIds(dirs, leaf)))
  }

  /** A relative non-empty prefix of p is one of the paths ancestor_paths lists for it. */
  lemma InPrefixes(p: Path, q: Path)
    requires !p.absolute && !q.absolute && |q.parts| > 0 && q.parts <= p.parts
    ensures Prefixes(p)[|q.parts| - 1] == q
    ensures q in Prefixes(p)
  {
    assert q.parts == p.parts[..|q.parts|];
  }

  lemma PrefixTrans(a: seq<Part>, b: seq<Part>, c: seq<Part>)
    requires a <= b && b <= c
    ensures a <= c
  {
    assert a == c[..|a|];
  }

  lemma AddKeepsWellFormed(dirs: seq<Path>, leaf: Path)
    requires PathsUnique(dirs) && WellFormed(dirs) && PrefixClosed(dirs) && !leaf.absolute
    ensures PathsUnique(AddDirs(dirs, leaf)) && WellFormed(AddDirs(dirs, leaf)) && PrefixClosed(AddDirs(dirs, leaf))
  {
    var aps := Prefixes(leaf);
    var D := AddDirs(dirs, leaf);
    forall i | 0 <= i < |D| ensures !D[i].absolute && |D[i].parts| > 0 {
      assert D[i] in D;
      AddDirsHas(dirs, leaf, D[i]);
      if D[i] !in dirs {
        assert D[i] in aps;
      }
    }
    forall i, q | 0 <= i < |D| && q in Prefixes(D[i]) ensures q in D {
      assert D[i] in D;
      AddDirsHas(dirs, leaf, D[i]);
      AddDirsHas(dirs, leaf, q);
      if D[i] in dirs {
        var m :| 0 <= m < |dirs| && dirs[m] == D[i];
      } else {
        assert D[i] in aps;
        PrefixTrans(q.parts, D[i].parts, leaf.parts);
        InPrefixes(leaf, q);
      }
    }
  }

  /** ids[k] is the row of the (k+1)-component prefix of leaf in D. */
  predicate Labels(D: seq<Path>, ids: seq<int>, leaf: Path)
  {
    |ids| == |leaf.parts| &&
    forall k :: 0 <= k < |ids| ==> 1 <= ids[k] <= |D| && D[ids[k] - 1] == Path(false, leaf.parts[..k + 1])
  }

  lemma AddLabels(dirs: seq<Path>, leaf: Path)
    ensures Labels(AddDirs(dirs, leaf), AddIds(dirs, leaf), leaf)
  {
    var D := AddDirs(dirs, leaf);
    var ids := AddIds(dirs, leaf);
    forall k | 0 <= k < |ids| ensures 1 <= ids[k] <= |D| && D[ids[k] - 1] == Path(false, leaf.parts[..k + 1]) {
      AddLabel(dirs, leaf, k);
    }
  }

  lemma AddLabel(dirs: seq<Path>, leaf: Path, k: int)
    requires 0 <= k < |leaf.parts|
    ensures 1 <= AddIds(dirs, leaf)[k] <= |AddDirs(dirs, leaf)|
    ensures AddDirs(dirs, leaf)[AddIds(dirs, leaf)[k] - 1] == Path(false, leaf.parts[..k + 1])
  {
    var P := Prefixes(leaf);
    assert AddDirs(dirs, leaf)[AddIds(dirs, leaf)[k] - 1] == P[k];
  }

  /** A row add() emits joins a prefix of the leaf to a longer prefix, at their distance. */
  lemma RowFits(D: seq<Path>, ids: seq<int>, leaf: Path, e: Edge)
    requires Labels(D, ids, leaf) && e in ClosureRows(ids)
    ensures EdgeFits(D, e)
  {
    var i, j := ClosureRowsOnly(ids, e);
    assert D[ids[i] - 1].parts == leaf.parts[..i + 1];
    assert D[ids[j] - 1].parts == leaf.parts[..j + 1];
  }

  lemma FitsGrows(dirs: seq<Path>, D: seq<Path>, e: Edge)
    requires dirs <= D && EdgeFits(dirs, e)
    ensures EdgeFits(D, e)
  {
    assert D[e.dirId - 1] == dirs[e.dirId - 1] && D[e.ancestorId - 1] == dirs[e.ancestorId - 1];
  }

  lemma AddKeepsSound(dirs: seq<Path>, edges: seq<Edge>, leaf: Path)
    requires Sound(dirs, edges)
    ensures Sound(AddDirs(dirs, leaf), AddEdges(dirs, edges, leaf))
  {
    var D := AddDirs(dirs, leaf);
    var ids := AddIds(dirs, leaf);
    AddLabels(dirs, leaf);
    forall e | e in AddEdges(dirs, edges, leaf) ensures EdgeFits(D, e) {
      if e in edges {
        FitsGrows(dirs, D, e);
      } else {
        RowFits(D, ids, leaf, e);
      }
    }
  }

  /** In a sound table, an edge with the key of a prefix pair is that pair's edge. */
  lemma KeyedEdge(dirs: seq<Path>, edges: seq<Edge>, d: int, a: int, depth: int)
    requires Sound(dirs, edges) && 0 <= d < |dirs| && 0 <= a < |dirs|
    requires HasKey(edges, Edge(d + 1, a + 1, depth))
    ensures Edge(d + 1, a + 1, |dirs[d].parts| - |dirs[a].parts|) in edges
  {
    var k :| 0 <= k < |edges| && SameKey(edges[k], Edge(d + 1, a + 1, depth));
    assert edges[k] in edges;
    assert EdgeFits(dirs, edges[k]);
  }

  /** A pair whose longer path was stored before keeps the edge it had. */
  lemma PairOld(dirs: seq<Path>, D: seq<Path>, edges: seq<Edge>, E: seq<Edge>, d: int, a: int)
    requires dirs <= D && PathsUnique(D) && WellFormed(D) && PrefixClosed(dirs) && Complete(dirs, edges) && edges <= E
    requires 0 <= d < |dirs| && 0 <= a < |D| && D[a].parts <= D[d].parts
    ensures Edge(d + 1, a + 1, |D[d].parts| - |D[a].parts|) in E
  {
    assert D[d] == dirs[d];
    InPrefixes(dirs[d], D[a]);
    assert D[a] in dirs;
    var m :| 0 <= m < |dirs| && dirs[m] == D[a];
    assert D[m] == D[a];
    UniqueAt(D, m, a);
    assert PairListed(dirs, edges, d, a);
    assert Edge(d + 1, a + 1, |dirs[d].parts| - |dirs[a].parts|) in edges;
    assert edges[..|edges|] == edges;
  }

  /** A pair whose longer path is a prefix of the leaf gets the edge add() emitted for it. */
  lemma PairNew(D: seq<Path>, E: seq<Edge>, ids: seq<int>, leaf: Path, d: int, a: int)
    requires PathsUnique(D) && WellFormed(D) && Labels(D, ids, leaf) && Sound(D, E)
    requires forall row :: row in ClosureRows(ids) ==> HasKey(E, row)
    requires 0 <= d < |D| && 0 <= a < |D| && D[a].parts <= D[d].parts && D[d].parts <= leaf.parts
    ensures Edge(d + 1, a + 1, |D[d].parts| - |D[a].parts|) in E
  {
    var i, j := |D[d].parts| - 1, |D[a].parts| - 1;
    PrefixTrans(D[a].parts, D[d].parts, leaf.parts);
    assert D[d].parts == leaf.parts[..i + 1] && D[a].parts == leaf.parts[..j + 1];
    assert D[ids[i] - 1] == D[d];
    assert D[ids[j] - 1] == D[a];
    UniqueAt(D, ids[i] - 1, d);
    UniqueAt(D, ids[j] - 1, a);
    ClosureRowsHas(ids, i, j);
    KeyedEdge(D, E, d, a, i - j);
  }

  lemma AddKeepsComplete(dirs: seq<Path>, edges: seq<Edge>, leaf: Path)
    requires Closed(dirs, edges) && !leaf.absolute
    ensures Complete(AddDirs(dirs, leaf), AddEdges(dirs, edges, leaf))
  {
    var D := AddDirs(dirs, leaf);
    var E := AddEdges(dirs, edges, leaf);
    forall d, a | 0 <= d < |D| && 0 <= a < |D| ensures PairListed(D, E, d, a) {
      if !(D[a].parts <= D[d].parts) {
      } else if d < |dirs| {
        AddPairOld(dirs, edges, leaf, D, E, d, a);
      } else {
        AddPairNew(dirs, edges, leaf, D, E, d, a);
      }
    }
  }

  lemma AddPairOld(dirs: seq<Path>, edges: seq<Edge>, leaf: Path, D: seq<Path>, E: seq<Edge>, d: int, a: int)
    requires Closed(dirs, edges) && !leaf.absolute && D == AddDirs(dirs, leaf) && E == AddEdges(dirs, edges, leaf)
    requires 0 <= d < |dirs| && 0 <= a < |D| && D[a].parts <= D[d].parts
    ensures Edge(d + 1, a + 1, |D[d].parts| - |D[a].parts|) in E
  {
    AddKeepsWellFormed(dirs, leaf);
    PairOld(dirs, D, edges, E, d, a);
  }

  lemma AddPairNew(dirs: seq<Path>, edges: seq<Edge>, leaf: Path, D: seq<Path>, E: seq<Edge>, d: int, a: int)
    requires Closed(dirs, edges) && !leaf.absolute && D == AddDirs(dirs, leaf) && E == AddEdges(dirs, edges, leaf)
    requires |dirs| <= d < |D| && 0 <= a < |D| && D[a].parts <= D[d].parts
    ensures Edge(d + 1, a + 1, |D[d].parts| - |D[a].parts|) in E
  {
    var ids := AddIds(dirs, leaf);
    AddKeepsWellFormed(dirs, leaf);
    AddKeepsSound(dirs, edges, leaf);
    AddLabels(dirs, leaf);
    AddNewRow(dirs, leaf, d);
    PairNew(D, E, ids, leaf, d, a);
  }

  /** A row add() appended holds a prefix of the leaf. */
  lemma AddNewRow(dirs: seq<Path>, leaf: Path, d: int)
    requires PathsUnique(AddDirs(dirs, leaf)) && |dirs| <= d < |AddDirs(dirs, leaf)|
    ensures AddDirs(dirs, leaf)[d].parts <= leaf.parts
  {
    var D := AddDirs(dirs, leaf);
    assert D[d] in D;
    if D[d] in dirs {
      var m :| 0 <= m < |dirs| && dirs[m] == D[d];
      assert D[m] == dirs[m];
      UniqueAt(D, m, d);
      assert false;
    }
    AddDirsHas(dirs, leaf, D[d]);
    var k :| 0 <= k < |leaf.parts| && Prefixes(leaf)[k] == D[d];
  }

  /** add() keeps both tables describing the same tree. */
  lemma AddKeepsClosed(dirs: seq<Path>, edges: seq<Edge>, leaf: Path)
    requires Closed(dirs, edges) && !leaf.absolute
    ensures Closed(AddDirs(dirs, leaf), AddEdges(dirs, edges, leaf))
  {
    AddKeepsWellFormed(dirs, leaf);
    AddKeepsSound(dirs, edges, leaf);
    AddKeepsComplete(dirs, edges, leaf);
  }

  /** After add() every prefix of the leaf has an edge to each of its own prefixes, at their distance. */
  lemma AddStoresChain(dirs: seq<Path>, edges: seq<Edge>, leaf: Path, i: int, j: int)
    requires Sound(dirs, edges)
    requires 0 <= j <= i < |leaf.parts|
    ensures Edge(AddIds(dirs, leaf)[i], AddIds(dirs, leaf)[j], i - j) in AddEdges(dirs, edges, leaf)
  {
    AddKeepsSound(dirs, edges, leaf);
    AddLabels(dirs, leaf);
    ChainEdge(AddDirs(dirs, leaf), AddEdges(dirs, edges, leaf), AddIds(dirs, leaf), leaf, i, j);
  }

  lemma ChainEdge(D: seq<Path>, E: seq<Edge>, ids: seq<int>, leaf: Path, i: int, j: int)
    requires Labels(D, ids, leaf) && Sound(D, E)
    requires forall row :: row in ClosureRows(ids) ==> HasKey(E, row)
    requires 0 <= j <= i < |ids|
    ensures Edge(ids[i], ids[j], i - j) in E
  {
    var d, a := ids[i] - 1, ids[j] - 1;
    assert |D[d].parts| == i + 1 && |D[a].parts| == j + 1;
    ClosureRowsHas(ids, i, j);
    assert HasKey(E, Edge(d + 1, a + 1, i - j));
    KeyedEdge(D, E, d, a, i - j);
  }

  /** Adding the same directory a second time leaves both tables as they are. */
  lemma AddTwice(dirs: seq<Path>, edges: seq<Edge>, leaf: Path)
    ensures AddDirs(AddDirs(dirs, leaf), leaf) == AddDirs(dirs, leaf)
    ensures AddIds(AddDirs(dirs, leaf), leaf) == AddIds(dirs, leaf)
    ensures AddEdges(AddDirs(dirs, leaf), AddEdges(dirs, edges, leaf), leaf) == AddEdges(dirs, edges, leaf)
  {
    var D := AddDirs(dirs, leaf);
    forall p | p in Prefixes(leaf) ensures p in D {
      AddDirsHas(dirs, leaf, p);
    }
    WithDirsPresent(D, Prefixes(leaf));
    var rows := ClosureRows(AddIds(dirs, leaf));
    WithEdgesPresent(AddEdges(dirs, edges, leaf), rows);
  }

  // ---- Depth queries ----

  /** Which side of an edge the query starts from: ancestors join on dir_id, descendants on ancestor_id. */
  datatype Side = Ancestors | Descendants

  function From(side: Side, e: Edge): int
  {
    if side == Ancestors then e.dirId else e.ancestorId
  }

  function To(side: Side, e: Edge): int
  {
    if side == Ancestors then e.ancestorId else e.dirId
  }

  /** The WHERE and JOIN of the query: an edge from id, within the depth limit, reaching a stored row. */
  predicate Selected(side: Side, id: int, limit: int, n: int, e: Edge)
  {
    From(side, e) == id && 0 < e.depth <= limit && 1 <= To(side, e) <= n
  }

  /** The selected edges in table order. */
  function Matching(edges: seq<Edge>, side: Side, id: int, limit: int, n: int): seq<Edge>
    decreases |edges|
  {
    if |edges| == 0 then []
    else if Selected(side, id, limit, n, edges[0]) then [edges[0]] + Matching(edges[1..], side, id, limit, n)
    else Matching(edges[1..], side, id, limit, n)
  }

  /** The filter keeps exactly the selected edges. */
  lemma {:induction false} MatchingHas(edges: seq<Edge>, side: Side, id: int, limit: int, n: int, e: Edge)
    ensures e in Matching(edges, side, id, limit, n) <==> e in edges && Selected(side, id, limit, n, e)
    decreases |edges|
  {
    if |edges| > 0 {
      assert edges == [edges[0]] + edges[1..];
      MatchingHas(edges[1..], side, id, limit, n, e);
    }
  }

  predicate SortedByDepth(es: seq<Edge>)
  {
    forall i, j :: 0 <= i < j < |es| ==> es[i].depth <= es[j].depth
  }

  predicate Below(x: Edge, es: seq<Edge>)
  {
    forall k :: 0 <= k < |es| ==> x.depth <= es[k].depth
  }

  lemma ConsSorted(x: Edge, es: seq<Edge>)
    requires SortedByDepth(es) && Below(x, es)
    ensures SortedByDepth([x] + es)
  {
    var r := [x] + es;
    forall i, j | 0 <= i < j < |r| ensures r[i].depth <= r[j].depth {
      assert r[j] == es[j - 1];
      if i > 0 { assert r[i] == es[i - 1]; }
    }
  }

  /** The head of a sorted list is no deeper than a deeper row and the rest of the list. */
  lemma BelowHead(es: seq<Edge>, e: Edge)
    requires SortedByDepth(es) && |es| > 0 && es[0].depth < e.depth
    ensures Below(es[0], [e] + es[1..])
  {
    var r := [e] + es[1..];
    forall k | 0 <= k < |r| ensures es[0].depth <= r[k].depth {
      if k > 0 { assert r[k] == es[k]; }
    }
  }

  /** Being no deeper than every row does not depend on their order. */
  lemma BelowPerm(x: Edge, a: seq<Edge>, b: seq<Edge>)
    requires multiset(a) == multiset(b) && Below(x, a)
    ensures Below(x, b)
  {
    forall k | 0 <= k < |b| ensures x.depth <= b[k].depth {
      assert b[k] in multiset(a);
      var m :| 0 <= m < |a| && a[m] == b[k];
    }
  }

  /** Insert e before the first row that is not shallower than it. */
  function InsertByDepth(e: Edge, es: seq<Edge>): seq<Edge>
    decreases |es|
  {
    if |es| == 0 then [e]
    else if e.depth <= es[0].depth then [e] + es
    else [es[0]] + InsertByDepth(e, es[1..])
  }

  /** Inserting adds e and loses nothing. */
  lemma {:induction false} InsertPerm(e: Edge, es: seq<Edge>)
    ensures multiset(InsertByDepth(e, es)) == multiset(es) + multiset{e}
    decreases |es|
  {
    if |es| > 0 && e.depth > es[0].depth {
      assert es == [es[0]] + es[1..];
      InsertPerm(e, es[1..]);
    }
  }

  /** Inserting into a sorted list keeps it sorted. */
  lemma {:induction false} InsertSorted(e: Edge, es: seq<Edge>)
    requires SortedByDepth(es)
    ensures SortedByDepth(InsertByDepth(e, es))
    decreases |es|
  {
    if |es| == 0 {
    } else if e.depth <= es[0].depth {
      assert Below(e, es);
      ConsSorted(e, es);
    } else {
      var tail := es[1..];
      var rest := InsertByDepth(e, tail);
      assert SortedByDepth(tail);
      InsertSorted(e, tail);
      InsertPerm(e, tail);
      assert es == [es[0]] + tail;
      BelowHead(es, e);
      assert multiset([e] + tail) == multiset(rest);
      BelowPerm(es[0], [e] + tail, rest);
      ConsSorted(es[0], rest);
    }
  }

  /** ORDER BY da.depth: a stable insertion sort, rows of equal depth staying in table order. */
  function SortByDepth(es: seq<Edge>): seq<Edge>
    decreases |es|
  {
    if |es| == 0 then [] else InsertByDepth(es[0], SortByDepth(es[1..]))
  }

  /** Sorting keeps the rows. */
  lemma {:induction false} SortPerm(es: seq<Edge>)
    ensures multiset(SortByDepth(es)) == multiset(es)
    decreases |es|
  {
    if |es| > 0 {
      assert es == [es[0]] + es[1..];
      SortPerm(es[1..]);
      InsertPerm(es[0], SortByDepth(es[1..]));
    }
  }

  /** Sorting orders the rows by depth. */
  lemma {:induction false} SortSorted(es: seq<Edge>)
    ensures SortedByDepth(SortByDepth(es))
    decreases |es|
  {
    if |es| > 0 {
      SortSorted(es[1..]);
      InsertSorted(es[0], SortByDepth(es[1..]));
    }
  }

  /** The depth limit of a query: None stands for 2**31 - 1. */
  function Limit(depth: Option<int>): int
  {
    if depth.None? then MaxDepth else depth.value
  }

  /** The edges a depth query selects, in the order it returns them. */
  function Hits(dirs: seq<Path>, edges: seq<Edge>, side: Side, id: int, depth: Option<int>): seq<Edge>
  {
    SortByDepth(Matching(edges, side, id, Limit(depth), |dirs|))
  }

  /** The selected edges come shallowest first. */
  lemma HitsSorted(dirs: seq<Path>, edges: seq<Edge>, side: Side, id: int, depth: Option<int>, i: int, j: int)
    requires 0 <= i < j < |Hits(dirs, edges, side, id, depth)|
    ensures Hits(dirs, edges, side, id, depth)[i].depth <= Hits(dirs, edges, side, id, depth)[j].depth
  {
    SortSorted(Matching(edges, side, id, Limit(depth), |dirs|));
  }

  /** The query keeps exactly the edges from id, below the limit, that reach a stored row. */
  lemma HitsMembers(dirs: seq<Path>, edges: seq<Edge>, side: Side, id: int, depth: Option<int>, e: Edge)
    ensures e in Hits(dirs, edges, side, id, depth) <==>
      e in edges && From(side, e) == id && 0 < e.depth <= Limit(depth) && 1 <= To(side, e) <= |dirs|
  {
    var m := Matching(edges, side, id, Limit(depth), |dirs|);
    var es := Hits(dirs, edges, side, id, depth);
    MatchingHas(edges, side, id, Limit(depth), |dirs|, e);
    SortPerm(m);
    assert e in es <==> e in multiset(es);
    assert e in m <==> e in multiset(m);
  }

  /** The rows of an ancestor or descendant query by id: one per selected edge, its far end. */
  function Related(dirs: seq<Path>, edges: seq<Edge>, side: Side, id: int, depth: Option<int>): (r: seq<DirRow>)
    ensures !(1 <= id <= |dirs|) ==> r == []
    ensures 1 <= id <= |dirs| ==> |r| == |Hits(dirs, edges, side, id, depth)|
    ensures forall k :: 0 <= k < |r| ==> 1 <= r[k].id <= |dirs| && r[k].path == dirs[r[k].id - 1]
  {
    if !(1 <= id <= |dirs|) then []
    else
      HitsInRange(dirs, edges, side, id, depth);
      FarEnds(dirs, side, Hits(dirs, edges, side, id, depth))
  }

  /** The row at the far end of each edge. */
  function FarEnds(dirs: seq<Path>, side: Side, es: seq<Edge>): (r: seq<DirRow>)
    requires forall k :: 0 <= k < |es| ==> 1 <= To(side, es[k]) <= |dirs|
    ensures |r| == |es|
    ensures forall k :: 0 <= k < |r| ==> r[k].id == To(side, es[k]) && r[k].path == dirs[r[k].id - 1]
  {
    seq(|es|, k requires 0 <= k < |es| => DirRow(To(side, es[k]), dirs[To(side, es[k]) - 1]))
  }


  /** Every selected edge reaches a stored row. */
  lemma HitsInRange(dirs: seq<Path>, edges: seq<Edge>, side: Side, id: int, depth: Option<int>)
    ensures forall k :: 0 <= k < |Hits(dirs, edges, side, id, depth)| ==>
      1 <= To(side, Hits(dirs, edges, side, id, depth)[k]) <= |dirs|
  {
    var es := Hits(dirs, edges, side, id, depth);
    forall k | 0 <= k < |es| ensures 1 <= To(side, es[k]) <= |dirs| {
      HitsMembers(dirs, edges, side, id, depth, es[k]);
    }
  }

  /** Row k of a query is the far end of the k-th selected edge. */
  lemma RelatedAt(dirs: seq<Path>, edges: seq<Edge>, side: Side, id: int, depth: Option<int>, k: int)
    requires 1 <= id <= |dirs| && 0 <= k < |Related(dirs, edges, side, id, depth)|
    ensures Related(dirs, edges, side, id, depth)[k].id == To(side, Hits(dirs, edges, side, id, depth)[k])
  {
  }

  /** In a sound store each ancestor row is a proper prefix of the directory, as many components short as its depth. */
  lemma AncestorRow(dirs: seq<Path>, edges: seq<Edge>, id: int, depth: Option<int>, k: int)
    requires Sound(dirs, edges) && 1 <= id <= |dirs| && 0 <= k < |Related(dirs, edges, Ancestors, id, depth)|
    ensures Related(dirs, edges, Ancestors, id, depth)[k].path.parts < dirs[id - 1].parts
    ensures |dirs[id - 1].parts| - |Related(dirs, edges, Ancestors, id, depth)[k].path.parts|
      == Hits(dirs, edges, Ancestors, id, depth)[k].depth <= Limit(depth)
  {
    var e := Hits(dirs, edges, Ancestors, id, depth)[k];
    HitsMembers(dirs, edges, Ancestors, id, depth, e);
    RelatedAt(dirs, edges, Ancestors, id, depth, k);
    var row := Related(dirs, edges, Ancestors, id, depth)[k];
    assert row.id == e.ancestorId && row.path == dirs[e.ancestorId - 1];
    assert EdgeFits(dirs, e);
  }

  /** A stored edge the query selects shows up as the row of its far end. */
  lemma EdgeListed(dirs: seq<Path>, edges: seq<Edge>, side: Side, id: int, depth: Option<int>, e: Edge)
    requires 1 <= id <= |dirs| && e in edges && From(side, e) == id && 0 < e.depth <= Limit(depth)
    requires 1 <= To(side, e) <= |dirs|
    ensures DirRow(To(side, e), dirs[To(side, e) - 1]) in Related(dirs, edges, side, id, depth)
  {
    HitsMembers(dirs, edges, side, id, depth, e);
    var es := Hits(dirs, edges, side, id, depth);
    var k :| 0 <= k < |es| && es[k] == e;
    var r := Related(dirs, edges, side, id, depth);
    assert |r| == |es|;
    RelatedAt(dirs, edges, side, id, depth, k);
    assert r[k].id == To(side, e);
    assert r[k] == DirRow(To(side, e), dirs[To(side, e) - 1]);
    assert r[k] in r;
  }

  /** In a complete store every stored proper prefix within the limit is listed. */
  lemma AncestorListed(dirs: seq<Path>, edges: seq<Edge>, id: int, depth: Option<int>, a: int)
    requires Complete(dirs, edges) && 1 <= id <= |dirs| && 0 <= a < |dirs|
    requires dirs[a].parts < dirs[id - 1].parts && |dirs[id - 1].parts| - |dirs[a].parts| <= Limit(depth)
    ensures DirRow(a + 1, dirs[a]) in Related(dirs, edges, Ancestors, id, depth)
  {
    assert dirs[a].parts <= dirs[id - 1].parts;
    var e := Edge(id, a + 1, |dirs[id - 1].parts| - |dirs[a].parts|);
    assert PairListed(dirs, edges, id - 1, a);
    EdgeListed(dirs, edges, Ancestors, id, depth, e);
  }

  /** Ancestors come nearest first: the longer path before the shorter. */
  lemma AncestorsNearestFirst(dirs: seq<Path>, edges: seq<Edge>, id: int, depth: Option<int>, i: int, j: int)
    requires Sound(dirs, edges) && 1 <= id <= |dirs| && 0 <= i < j < |Related(dirs, edges, Ancestors, id, depth)|
    ensures |Related(dirs, edges, Ancestors, id, depth)[i].path.parts| >= |Related(dirs, edges, Ancestors, id, depth)[j].path.parts|
  {
    AncestorRow(dirs, edges, id, depth, i);
    AncestorRow(dirs, edges, id, depth, j);
    HitsSorted(dirs, edges, Ancestors, id, depth, i, j);
  }

  /** In a sound store each descendant row extends the directory by as many components as its depth. */
  lemma DescendantRow(dirs: seq<Path>, edges: seq<Edge>, id: int, depth: Option<int>, k: int)
    requires Sound(dirs, edges) && 1 <= id <= |dirs| && 0 <= k < |Related(dirs, edges, Descendants, id, depth)|
    ensures dirs[id - 1].parts < Related(dirs, edges, Descendants, id, depth)[k].path.parts
    ensures |Related(dirs, edges, Descendants, id, depth)[k].path.parts| - |dirs[id - 1].parts|
      == Hits(dirs, edges, Descendants, id, depth)[k].depth <= Limit(depth)
  {
    var e := Hits(dirs, edges, Descendants, id, depth)[k];
    HitsMembers(dirs, edges, Descendants, id, depth, e);
    RelatedAt(dirs, edges, Descendants, id, depth, k);
    var row := Related(dirs, edges, Descendants, id, depth)[k];
    assert row.id == e.dirId && row.path == dirs[e.dirId - 1];
    assert EdgeFits(dirs, e);
  }

  /** In a complete store every stored directory below this one within the limit is listed. */
  lemma DescendantListed(dirs: seq<Path>, edges: seq<Edge>, id: int, depth: Option<int>, d: int)
    requires Complete(dirs, edges) && 1 <= id <= |dirs| && 0 <= d < |dirs|
    requires dirs[id - 1].parts < dirs[d].parts && |dirs[d].parts| - |dirs[id - 1].parts| <= Limit(depth)
    ensures DirRow(d + 1, dirs[d]) in Related(dirs, edges, Descendants, id, depth)
  {
    assert dirs[id - 1].parts <= dirs[d].parts;
    var e := Edge(d + 1, id, |dirs[d].parts| - |dirs[id - 1].parts|);
    assert PairListed(dirs, edges, d, id - 1);
    EdgeListed(dirs, edges, Descendants, id, depth, e);
  }

  /** Descendants come nearest first: the shorter path before the longer. */
  lemma DescendantsNearestFirst(dirs: seq<Path>, edges: seq<Edge>, id: int, depth: Option<int>, i: int, j: int)
    requires Sound(dirs, edges) && 1 <= id <= |dirs| && 0 <= i < j < |Related(dirs, edges, Descendants, id, depth)|
    ensures |Related(dirs, edges, Descendants, id, depth)[i].path.parts| <= |Related(dirs, edges, Descendants, id, depth)[j].path.parts|
  {
    DescendantRow(dirs, edges, id, depth, i);
    DescendantRow(dirs, edges, id, depth, j);
    HitsSorted(dirs, edges, Descendants, id, depth, i, j);
  }
}
