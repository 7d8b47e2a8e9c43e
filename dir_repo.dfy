/**
 * DirRepo of scoutlib/handler/dir_repo.py: the dir table and the dir_ancestor
 * closure table held by one object, with insert_dir, edge insertion, add, the
 * depth queries by path and getone.  Paths are stored relative to the root of
 * the DBConnector the repository was built with.
 */
module DirRepository {
  import opened Wrappers
  import opened Paths
  import opened DirModel
  import opened Connector
  import opened DirTables

  /** self.normalize_path(dir.path), the first step of add(). */
  function LeafPath(root: Path, d: Dir): Result<Path>
  {
    NormalizeScout(root, PureArg(d.path))
  }

  /** A relative path without ".." normalises to itself, and so does each of its prefixes. */
  lemma PrefixNormalizes(root: Path, p: Path, q: Path)
    requires !p.absolute && !PartHasDotDot(p.parts) && !q.absolute && q.parts <= p.parts
    ensures NormalizeScout(root, PureArg(q)) == Success(q)
  {
    PrefixNoDotDot(p.parts, q.parts);
    NormalizeCopiesAgree(root, PureArg(q));
    NormalizeRelativeUnchanged(root, q);
  }

  /** What normalize_path gives back for a Dir's path is relative and free of "..". */
  lemma LeafPathClean(root: Path, d: Dir)
    requires LeafPath(root, d).Success?
    ensures !LeafPath(root, d).value.absolute && !PartHasDotDot(LeafPath(root, d).value.parts)
  {
    NormalizeCopiesAgree(root, PureArg(d.path));
  }

  /** ids[k] is the id of the row holding ps[k]. */
  predicate Labelled(D: seq<Path>, ps: seq<Path>, ids: seq<int>)
  {
    |ids| == |ps| && forall k :: 0 <= k < |ps| ==> 1 <= ids[k] <= |D| && D[ids[k] - 1] == ps[k]
  }

  /** Appending the id of a row holding the next path keeps the labelling, also in a grown table. */
  lemma LabelledStep(D: seq<Path>, D': seq<Path>, ps: seq<Path>, ids: seq<int>, p: Path, id: int)
    requires Labelled(D, ps, ids) && D <= D' && 1 <= id <= |D'| && D'[id - 1] == p
    ensures Labelled(D', ps + [p], ids + [id])
  {
    forall k | 0 <= k < |ps| + 1 ensures 1 <= (ids + [id])[k] <= |D'| && D'[(ids + [id])[k] - 1] == (ps + [p])[k] {
      if k < |ps| {
        assert D[ids[k] - 1] == ps[k];
      }
    }
  }

  /** Under unique paths the ids labelling a list of stored paths are determined by the table. */
  lemma IdsDetermined(D: seq<Path>, ps: seq<Path>, ids: seq<int>)
    requires PathsUnique(D) && Labelled(D, ps, ids)
    ensures forall k :: 0 <= k < |ps| ==> ps[k] in D
    ensures ids == IdsOf(D, ps)
  {
    assert forall k :: 0 <= k < |ps| ==> ps[k] in D by {
      forall k | 0 <= k < |ps| ensures ps[k] in D {
        assert D[ids[k] - 1] == ps[k];
      }
    }
    var other := IdsOf(D, ps);
    forall k | 0 <= k < |ps| ensures ids[k] == other[k] {
      UniqueAt(D, ids[k] - 1, other[k] - 1);
    }
  }

  /** One insert_dir of the chain: the work left shrinks by one path and the labelling grows by its id. */
  lemma ChainStep(D0: seq<Path>, D: seq<Path>, aps: seq<Path>, i: int, ids: seq<int>, D': seq<Path>, id: int)
    requires 0 <= i < |aps| && WithDirs(D, aps[i..]) == WithDirs(D0, aps) && Labelled(D, aps[..i], ids)
    requires (D', id) == WithDir(D, aps[i])
    ensures WithDirs(D', aps[i + 1..]) == WithDirs(D0, aps) && Labelled(D', aps[..i + 1], ids + [id])
  {
    assert aps[i..][1..] == aps[i + 1..];
    assert aps[..i + 1] == aps[..i] + [aps[i]];
    LabelledStep(D, D', aps[..i], ids, aps[i], id);
  }

  /** The chain done: the table is the fold over all paths and the ids are those of the paths. */
  lemma ChainDone(D0: seq<Path>, D: seq<Path>, aps: seq<Path>, ids: seq<int>)
    requires PathsUnique(D) && WithDirs(D, aps[|aps|..]) == WithDirs(D0, aps) && Labelled(D, aps[..|aps|], ids)
    ensures D == WithDirs(D0, aps)
    ensures forall k :: 0 <= k < |aps| ==> aps[k] in D
    ensures ids == IdsOf(D, aps)
  {
    assert aps[|aps|..] == [];
    assert aps[..|aps|] == aps;
    IdsDetermined(D, aps, ids);
  }

  /** The rows add() builds with its nested loop: for each i, (ids[i], ids[j], i - j) with j from i down to 0. */
  method ClosureRowsOf(ids: seq<int>) returns (rows: seq<Edge>)
    ensures rows == ClosureRows(ids)
  {
    rows := [];
    for i := 0 to |ids|
      invariant rows == ClosureRows(ids[..i])
    {
      var j := i;
      while j >= 0
        invariant -1 <= j <= i
        invariant rows == ClosureRows(ids[..i]) + RowsFor(ids, i)[..i - j]
      {
        assert RowsFor(ids, i)[..i - j + 1] == RowsFor(ids, i)[..i - j] + [Edge(ids[i], ids[j], i - j)];
        rows := rows + [Edge(ids[i], ids[j], i - j)];
        j := j - 1;
      }
      assert ids[..i + 1][..i] == ids[..i];
      assert RowsFor(ids[..i + 1], i) == RowsFor(ids, i);
      assert RowsFor(ids, i)[..i + 1] == RowsFor(ids, i);
    }
    assert ids[..|ids|] == ids;
  }

  /** A prefix of a clean relative path denormalises to root / prefix. */
  lemma DenormalizePrefix(root: Path, p: Path, q: Path)
    requires !p.absolute && !PartHasDotDot(p.parts) && !q.absolute && q.parts <= p.parts
    ensures Denormalize(root, PureArg(q)) == Success(Div(root, q))
  {
    PrefixNoDotDot(p.parts, q.parts);
    RenderDotDot(q);
  }

  /** out[i] is the Dir of the i-th prefix of leaf: its path under root and the id ids[i]. */
  predicate ListsPrefixes(root: Path, out: seq<Dir>, leaf: Path, ids: seq<int>)
  {
    |out| == |leaf.parts| == |ids| &&
    forall i :: 0 <= i < |out| ==> out[i] == Dir(Div(root, Prefixes(leaf)[i]), Some(ids[i]))
  }

  /** The last step of add(): a Dir per prefix with its denormalised path and its id. */
  method DirsOf(root: Path, aps: seq<Path>, ids: seq<int>, ghost lp: Path) returns (out: seq<Dir>)
    requires |ids| == |aps| && !lp.absolute && !PartHasDotDot(lp.parts)
    requires forall i :: 0 <= i < |aps| ==> !aps[i].absolute && aps[i].parts <= lp.parts
    ensures |out| == |aps|
    ensures forall i :: 0 <= i < |aps| ==> out[i] == Dir(Div(root, aps[i]), Some(ids[i]))
  {
    out := [];
    for i := 0 to |aps|
      invariant |out| == i
      invariant forall k :: 0 <= k < i ==> out[k] == Dir(Div(root, aps[k]), Some(ids[k]))
    {
      DenormalizePrefix(root, lp, aps[i]);
      var dp := Denormalize(root, PureArg(aps[i]));
      out := out + [NewDir(Pure(dp.value), Some(ids[i]))];
    }
  }

  // ---- getone ----

  /** SELECT * FROM dir WHERE id = ?. */
  function SelectById(dirs: seq<Path>, id: int): (r: Option<DirRow>)
    ensures r.Some? <==> 1 <= id <= |dirs|
    ensures r.Some? ==> r.value == DirRow(id, dirs[id - 1])
  {
    if 1 <= id <= |dirs| then Some(DirRow(id, dirs[id - 1])) else None
  }

  /** SELECT * FROM dir WHERE path = ?. */
  function SelectByPath(dirs: seq<Path>, p: Path): (r: Option<DirRow>)
    ensures r.Some? <==> p in dirs
    ensures r.Some? ==> 1 <= r.value.id <= |dirs| && r.value.path == p && dirs[r.value.id - 1] == p
  {
    match FindPath(dirs, p)
    case None => None
    case Some(id) => Some(DirRow(id, p))
  }

  /** Dir(id=row id, path=denormalize_path(row path)), or None for no row. */
  function RowToDir(root: Path, row: Option<DirRow>): (r: Result<Option<Dir>>)
    ensures row.None? ==> r == Success(None)
    ensures row.Some? ==> r.Success? == Denormalize(root, TextArg(Render(row.value.path))).Success?
    ensures r.Success? && row.Some? ==>
      r.value == Some(Dir(Denormalize(root, TextArg(Render(row.value.path))).value, Some(row.value.id)))
  {
    match row
    case None => Success(None)
    case Some(row) =>
      var p :- Denormalize(root, TextArg(Render(row.path)));
      Success(Some(NewDir(Pure(p), Some(row.id))))
  }

  /** Python truthiness of the path argument: only the empty str is false. */
  predicate Truthy(arg: PathArg)
  {
    !(arg.TextArg? && arg.s == "")
  }

  /**
   * getone(id, path, dir): an explicit id wins, then an explicit path, then dir.id;
   * a falsy id or path (0, None, "") finds nothing.
   */
  function GetOne(root: Path, dirs: seq<Path>, id: Option<int>, path: Option<PathArg>, dir: Option<Dir>): (r: Result<Option<Dir>>)
    ensures id.None? && path.None? && dir.None? ==> r == Failure(NoTarget)
    ensures id.Some? && id.value != 0 ==> r == RowToDir(root, SelectById(dirs, id.value))
    ensures id == Some(0) ==> r == Success(None)
    ensures id.None? && path.Some? && !Truthy(path.value) ==> r == Success(None)
    ensures id.None? && path.Some? && NormalizeScout(root, path.value).Failure? && Truthy(path.value) ==>
      r == Failure(NormalizeScout(root, path.value).error)
    ensures id.None? && path.Some? && Truthy(path.value) && NormalizeScout(root, path.value).Success? ==>
      r == RowToDir(root, SelectByPath(dirs, NormalizeScout(root, path.value).value))
    ensures id.None? && path.None? && dir.Some? && dir.value.id.Some? && dir.value.id.value != 0 ==>
      r == RowToDir(root, SelectById(dirs, dir.value.id.value))
    ensures id.None? && path.None? && dir.Some? && (dir.value.id.None? || dir.value.id == Some(0)) ==> r == Success(None)
  {
    if id.None? && path.None? && dir.None? then Failure(NoTarget)
    else
      var idUsed := if id.Some? then id else if path.Some? then None else dir.value.id;
      var pathUsed := if id.Some? then None else path;
      if idUsed.Some? && idUsed.value != 0 then
        RowToDir(root, SelectById(dirs, idUsed.value))
      else if pathUsed.Some? && Truthy(pathUsed.value) then
        var np :- NormalizeScout(root, pathUsed.value);
        // the second pass of normalize_path hands back the same relative path
        NormalizeCopiesAgree(root, pathUsed.value);
        NormalizeCopiesAgree(root, PureArg(np));
        NormalizeIdempotent(root, pathUsed.value);
        RowToDir(root, SelectByPath(dirs, NormalizeScout(root, PureArg(np)).value))
      else Success(None)
  }

  /** The argument getone would look at first decides the answer: the others are ignored. */
  lemma GetOnePrecedence(root: Path, dirs: seq<Path>, id: Option<int>, path: Option<PathArg>, dir: Option<Dir>)
    ensures id.Some? ==> GetOne(root, dirs, id, path, dir) == GetOne(root, dirs, id, None, None)
    ensures id.None? && path.Some? ==> GetOne(root, dirs, id, path, dir) == GetOne(root, dirs, None, path, None)
  {
  }

  /**
   * A stored row is found by its id, by its root-relative path, by its absolute
   * path and through a Dir carrying its id, and comes back with the absolute path.
   */
  lemma GetOneFindsRow(root: Path, dirs: seq<Path>, k: int, p: Path)
    requires root.absolute && !PartHasDotDot(root.parts) && PathsUnique(dirs) && 0 <= k < |dirs|
    requires !dirs[k].absolute && !PartHasDotDot(dirs[k].parts)
    ensures GetOne(root, dirs, Some(k + 1), None, None) == Success(Some(Dir(Div(root, dirs[k]), Some(k + 1))))
    ensures GetOne(root, dirs, None, Some(PureArg(dirs[k])), None) == Success(Some(Dir(Div(root, dirs[k]), Some(k + 1))))
    ensures GetOne(root, dirs, None, Some(PureArg(Div(root, dirs[k]))), None)
      == Success(Some(Dir(Div(root, dirs[k]), Some(k + 1))))
    ensures GetOne(root, dirs, None, None, Some(Dir(p, Some(k + 1)))) == Success(Some(Dir(Div(root, dirs[k]), Some(k + 1))))
  {
    var q := dirs[k];
    RenderDotDot(q);
    ParseRender(q);
    assert Denormalize(root, TextArg(Render(q))) == Success(Div(root, q));
    FindPathUnique(dirs, k);
    PrefixNormalizes(root, q, q);
    NormalizeDenormalize(root, q);
    assert Denormalize(root, PureArg(q)) == Success(Div(root, q));
  }

  /** A path that normalises to something not stored finds nothing. */
  lemma GetOneMissing(root: Path, dirs: seq<Path>, p: Path)
    requires !p.absolute && !PartHasDotDot(p.parts) && p !in dirs
    ensures GetOne(root, dirs, None, Some(PureArg(p)), None) == Success(None)
  {
    PrefixNormalizes(root, p, p);
  }

  // ---- Depth queries by path ----

  /**
   * ancestor_dirs_where_path and descendant_dirs_where_path: the id of the row
   * holding the normalised path, then the query by id; no row means no result rows.
   */
  function RelatedByPath(root: Path, dirs: seq<Path>, edges: seq<Edge>, side: Side, arg: PathArg, depth: Option<int>)
    : (r: Result<seq<DirRow>>)
    ensures NormalizeScout(root, arg).Failure? ==> r == Failure(NormalizeScout(root, arg).error)
    ensures NormalizeScout(root, arg).Success? && NormalizeScout(root, arg).value !in dirs ==> r == Success([])
    ensures r.Failure? ==> r.error == PathNotSupported || r.error == WrongType || r.error == PathOutsideRoot
  {
    var np :- NormalizeScout(root, arg);
    match FindPath(dirs, np)
    case None => Success([])
    case Some(id) => Success(Related(dirs, edges, side, id, depth))
  }

  /** The rows found by a path, turned into Dirs; the path query's error when it has one. */
  function RelatedDirsByPath(root: Path, dirs: seq<Path>, edges: seq<Edge>, side: Side, arg: PathArg, depth: Option<int>)
    : (r: Result<seq<Dir>>)
    ensures RelatedByPath(root, dirs, edges, side, arg, depth).Failure? ==>
      r == Failure(RelatedByPath(root, dirs, edges, side, arg, depth).error)
    ensures RelatedByPath(root, dirs, edges, side, arg, depth).Success? ==>
      r == RowsToDirs(root, RelatedByPath(root, dirs, edges, side, arg, depth).value)
  {
    var rows :- RelatedByPath(root, dirs, edges, side, arg, depth);
    RowsToDirs(root, rows)
  }

  /** The query by path and the query by id agree, whether the path is given root-relative or absolute. */
  lemma RelatedByPathIsById(root: Path, dirs: seq<Path>, edges: seq<Edge>, side: Side, k: int, depth: Option<int>)
    requires root.absolute && !PartHasDotDot(root.parts) && PathsUnique(dirs) && 0 <= k < |dirs|
    requires !dirs[k].absolute && !PartHasDotDot(dirs[k].parts)
    ensures RelatedByPath(root, dirs, edges, side, PureArg(dirs[k]), depth) == Success(Related(dirs, edges, side, k + 1, depth))
    ensures RelatedByPath(root, dirs, edges, side, PureArg(Div(root, dirs[k])), depth)
      == Success(Related(dirs, edges, side, k + 1, depth))
  {
    var q := dirs[k];
    FindPathUnique(dirs, k);
    PrefixNormalizes(root, q, q);
    NormalizeDenormalize(root, q);
    NormalizeCopiesAgree(root, PureArg(Div(root, q)));
    assert Denormalize(root, PureArg(q)) == Success(Div(root, q));
  }

  // ---- get_ancestors and get_descendants ----

  /** Dir(id=r[0], path=denormalize_path(r[2])) for each row in turn; the first path that will not denormalise raises. */
  function RowsToDirs(root: Path, rows: seq<DirRow>): (r: Result<seq<Dir>>)
    ensures r.Success? ==> |r.value| == |rows|
    ensures r.Success? ==> forall k :: 0 <= k < |rows| ==>
      (Denormalize(root, TextArg(Render(rows[k].path))).Success? &&
       r.value[k] == Dir(Denormalize(root, TextArg(Render(rows[k].path))).value, Some(rows[k].id)))
    ensures r.Failure? ==> exists k :: 0 <= k < |rows| && Denormalize(root, TextArg(Render(rows[k].path))).Failure?
    ensures r.Failure? ==> r.error == PathNotSupported || r.error == PathOutsideRoot
    decreases |rows|
  {
    if |rows| == 0 then Success([])
    else
      var p :- Denormalize(root, TextArg(Render(rows[0].path)));
      var rest :- RowsToDirs(root, rows[1..]);
      Success([Dir(p, Some(rows[0].id))] + rest)
  }

  /** Rows holding clean relative paths all denormalise, each to root / its path. */
  lemma RowsToDirsClean(root: Path, rows: seq<DirRow>)
    requires forall k :: 0 <= k < |rows| ==> !rows[k].path.absolute && !PartHasDotDot(rows[k].path.parts)
    ensures RowsToDirs(root, rows).Success?
    ensures forall k :: 0 <= k < |rows| ==> RowsToDirs(root, rows).value[k] == Dir(Div(root, rows[k].path), Some(rows[k].id))
  {
    forall k | 0 <= k < |rows| ensures Denormalize(root, TextArg(Render(rows[k].path))) == Success(Div(root, rows[k].path)) {
      RenderDotDot(rows[k].path);
      ParseRender(rows[k].path);
    }
  }

  /**
   * get_ancestors and get_descendants(id, path, dir, depth): an id, the argument's
   * or else the dir's, wins over a path, the argument's or else str(dir.path); a
   * falsy id or path (0, None, "") counts as absent, and with neither it is a ValueError.
   */
  function GetRelated(root: Path, dirs: seq<Path>, edges: seq<Edge>, side: Side,
                      id: Option<int>, path: Option<PathArg>, dir: Option<Dir>, depth: Option<int>): (r: Result<seq<Dir>>)
    ensures id.Some? && id.value != 0 ==> r == RowsToDirs(root, Related(dirs, edges, side, id.value, depth))
    ensures !(id.Some? && id.value != 0) && dir.Some? && dir.value.id.Some? && dir.value.id.value != 0 ==>
      r == RowsToDirs(root, Related(dirs, edges, side, dir.value.id.value, depth))
    ensures (!(id.Some? && id.value != 0) && !(dir.Some? && dir.value.id.Some? && dir.value.id.value != 0)
             && path.Some? && Truthy(path.value))
      ==> r == RelatedDirsByPath(root, dirs, edges, side, path.value, depth)
    ensures (!(id.Some? && id.value != 0) && !(dir.Some? && dir.value.id.Some? && dir.value.id.value != 0)
             && !(path.Some? && Truthy(path.value)) && dir.Some?)
      ==> r == RelatedDirsByPath(root, dirs, edges, side, TextArg(Render(dir.value.path)), depth)
  {
    var givenId := if id.Some? && id.value != 0 then id else if dir.Some? then dir.value.id else None;
    var givenPath := if path.Some? && Truthy(path.value) then path else if dir.Some? then Some(TextArg(Render(dir.value.path))) else None;
    if givenId.Some? && givenId.value != 0 then RowsToDirs(root, Related(dirs, edges, side, givenId.value, depth))
    else if givenPath.Some? && Truthy(givenPath.value) then RelatedDirsByPath(root, dirs, edges, side, givenPath.value, depth)
    else Failure(NoTarget)
  }

  /**
   * A Dir without an id, such as Dir(path="a"), is looked up by its path: it gives
   * what asking by the id of the row storing that path gives.
   */
  lemma GetRelatedDirWithoutId(root: Path, dirs: seq<Path>, edges: seq<Edge>, side: Side, k: int, depth: Option<int>)
    requires root.absolute && !PartHasDotDot(root.parts) && PathsUnique(dirs) && 0 <= k < |dirs|
    requires !dirs[k].absolute && !PartHasDotDot(dirs[k].parts)
    ensures GetRelated(root, dirs, edges, side, None, None, Some(Dir(dirs[k], None)), depth)
      == GetRelated(root, dirs, edges, side, Some(k + 1), None, None, depth)
  {
    var q := dirs[k];
    NormalizeRelativeUnchanged(root, q);
    NormalizeCopiesAgree(root, TextArg(Render(q)));
    FindPathUnique(dirs, k);
    ParseRender(q);
  }

  /** The ValueError comes exactly when neither a truthy id or path nor a dir is given: a dir always has a path to fall back on. */
  lemma GetRelatedNoTarget(root: Path, dirs: seq<Path>, edges: seq<Edge>, side: Side,
                           id: Option<int>, path: Option<PathArg>, dir: Option<Dir>, depth: Option<int>)
    ensures GetRelated(root, dirs, edges, side, id, path, dir, depth) == Failure(NoTarget) <==>
      !(id.Some? && id.value != 0) && dir.None? && !(path.Some? && Truthy(path.value))
  {
    var r := GetRelated(root, dirs, edges, side, id, path, dir, depth);
    if dir.Some? {
      ParseRender(dir.value.path);
      assert Truthy(TextArg(Render(dir.value.path)));
    }
    if r.Failure? && !(!(id.Some? && id.value != 0) && dir.None? && !(path.Some? && Truthy(path.value))) {
      assert r.error != NoTarget;
    }
  }

  /** Asking by a stored path, root-relative or absolute, gives what asking by its id gives. */
  lemma GetRelatedByPath(root: Path, dirs: seq<Path>, edges: seq<Edge>, side: Side, k: int, depth: Option<int>)
    requires root.absolute && !PartHasDotDot(root.parts) && PathsUnique(dirs) && 0 <= k < |dirs|
    requires !dirs[k].absolute && !PartHasDotDot(dirs[k].parts)
    ensures GetRelated(root, dirs, edges, side, None, Some(PureArg(dirs[k])), None, depth)
      == GetRelated(root, dirs, edges, side, Some(k + 1), None, None, depth)
    ensures GetRelated(root, dirs, edges, side, None, Some(PureArg(Div(root, dirs[k]))), None, depth)
      == GetRelated(root, dirs, edges, side, Some(k + 1), None, None, depth)
  {
    RelatedByPathIsById(root, dirs, edges, side, k, depth);
  }

  /** Over clean rows every row comes back as a Dir, and a Dir with a given id comes back only from a row with that id. */
  lemma CleanRowsListed(root: Path, rows: seq<DirRow>, id: int, p: Path)
    requires forall k :: 0 <= k < |rows| ==> !rows[k].path.absolute && !PartHasDotDot(rows[k].path.parts)
    ensures RowsToDirs(root, rows).Success?
    ensures DirRow(id, p) in rows ==> Dir(Div(root, p), Some(id)) in RowsToDirs(root, rows).value
    ensures Dir(Div(root, p), Some(id)) in RowsToDirs(root, rows).value ==> exists m :: 0 <= m < |rows| && rows[m].id == id
  {
    RowsToDirsClean(root, rows);
    var out := RowsToDirs(root, rows).value;
    if DirRow(id, p) in rows {
      var m :| 0 <= m < |rows| && rows[m] == DirRow(id, p);
      assert out[m] == Dir(Div(root, p), Some(id));
    }
    if Dir(Div(root, p), Some(id)) in out {
      var m :| 0 <= m < |out| && out[m] == Dir(Div(root, p), Some(id));
      assert rows[m].id == id;
    }
  }

  /** The rows a query returns are stored rows, so they are clean when the store is. */
  lemma RelatedClean(dirs: seq<Path>, edges: seq<Edge>, side: Side, id: int, depth: Option<int>)
    requires forall i :: 0 <= i < |dirs| ==> !dirs[i].absolute && !PartHasDotDot(dirs[i].parts)
    ensures forall k :: 0 <= k < |Related(dirs, edges, side, id, depth)| ==>
      !Related(dirs, edges, side, id, depth)[k].path.absolute && !PartHasDotDot(Related(dirs, edges, side, id, depth)[k].path.parts)
  {
  }

  /**
   * When every stored edge fits its rows and every prefix pair has its edge (as in
   * a closed store) and the rows are clean, get_ancestors of a stored directory lists,
   * with its id and absolute path, exactly each stored proper prefix within the depth limit.
   */
  lemma GetAncestorsListed(root: Path, dirs: seq<Path>, edges: seq<Edge>, k: int, depth: Option<int>, a: int)
    requires Sound(dirs, edges) && Complete(dirs, edges) && 0 <= k < |dirs| && 0 <= a < |dirs|
    requires forall i :: 0 <= i < |dirs| ==> !dirs[i].absolute && !PartHasDotDot(dirs[i].parts)
    ensures GetRelated(root, dirs, edges, Ancestors, Some(k + 1), None, None, depth).Success?
    ensures Dir(Div(root, dirs[a]), Some(a + 1)) in GetRelated(root, dirs, edges, Ancestors, Some(k + 1), None, None, depth).value
      <==> dirs[a].parts < dirs[k].parts && |dirs[k].parts| - |dirs[a].parts| <= Limit(depth)
  {
    var rows := Related(dirs, edges, Ancestors, k + 1, depth);
    RelatedClean(dirs, edges, Ancestors, k + 1, depth);
    CleanRowsListed(root, rows, a + 1, dirs[a]);
    AncestorsRowListed(dirs, edges, k, depth, a);
    if Dir(Div(root, dirs[a]), Some(a + 1)) in RowsToDirs(root, rows).value {
      var m :| 0 <= m < |rows| && rows[m].id == a + 1;
      assert rows[m] == DirRow(a + 1, dirs[a]);
    }
  }

  /** The row-level half: the row of a is among those returned exactly when a is a proper prefix within the limit. */
  lemma AncestorsRowListed(dirs: seq<Path>, edges: seq<Edge>, k: int, depth: Option<int>, a: int)
    requires Sound(dirs, edges) && Complete(dirs, edges) && 0 <= k < |dirs| && 0 <= a < |dirs|
    ensures DirRow(a + 1, dirs[a]) in Related(dirs, edges, Ancestors, k + 1, depth) <==> dirs[a].parts < dirs[k].parts && |dirs[k].parts| - |dirs[a].parts| <= Limit(depth)
  {
    var rows := Related(dirs, edges, Ancestors, k + 1, depth);
    if dirs[a].parts < dirs[k].parts && |dirs[k].parts| - |dirs[a].parts| <= Limit(depth) {
      AncestorListed(dirs, edges, k + 1, depth, a);
    }
    if DirRow(a + 1, dirs[a]) in rows {
      var m :| 0 <= m < |rows| && rows[m] == DirRow(a + 1, dirs[a]);
      AncestorRow(dirs, edges, k + 1, depth, m);
    }
  }

  /**
   * When every stored edge fits its rows and every prefix pair has its edge (as in
   * a closed store) and the rows are clean, get_descendants of a stored directory lists,
   * with its id and absolute path, exactly each stored directory below it within the depth limit.
   */
  lemma GetDescendantsListed(root: Path, dirs: seq<Path>, edges: seq<Edge>, k: int, depth: Option<int>, d: int)
    requires Sound(dirs, edges) && Complete(dirs, edges) && 0 <= k < |dirs| && 0 <= d < |dirs|
    requires forall i :: 0 <= i < |dirs| ==> !dirs[i].absolute && !PartHasDotDot(dirs[i].parts)
    ensures GetRelated(root, dirs, edges, Descendants, Some(k + 1), None, None, depth).Success?
    ensures Dir(Div(root, dirs[d]), Some(d + 1)) in GetRelated(root, dirs, edges, Descendants, Some(k + 1), None, None, depth).value
      <==> dirs[k].parts < dirs[d].parts && |dirs[d].parts| - |dirs[k].parts| <= Limit(depth)
  {
    var rows := Related(dirs, edges, Descendants, k + 1, depth);
    RelatedClean(dirs, edges, Descendants, k + 1, depth);
    CleanRowsListed(root, rows, d + 1, dirs[d]);
    DescendantsRowListed(dirs, edges, k, depth, d);
    if Dir(Div(root, dirs[d]), Some(d + 1)) in RowsToDirs(root, rows).value {
      var m :| 0 <= m < |rows| && rows[m].id == d + 1;
      assert rows[m] == DirRow(d + 1, dirs[d]);
    }
  }

  /** The row-level half: the row of d is among those returned exactly when d is a directory below it within the limit. */
  lemma DescendantsRowListed(dirs: seq<Path>, edges: seq<Edge>, k: int, depth: Option<int>, d: int)
    requires Sound(dirs, edges) && Complete(dirs, edges) && 0 <= k < |dirs| && 0 <= d < |dirs|
    ensures DirRow(d + 1, dirs[d]) in Related(dirs, edges, Descendants, k + 1, depth) <==> dirs[k].parts < dirs[d].parts && |dirs[d].parts| - |dirs[k].parts| <= Limit(depth)
  {
    var rows := Related(dirs, edges, Descendants, k + 1, depth);
    if dirs[k].parts < dirs[d].parts && |dirs[d].parts| - |dirs[k].parts| <= Limit(depth) {
      DescendantListed(dirs, edges, k + 1, depth, d);
    }
    if DirRow(d + 1, dirs[d]) in rows {
      var m :| 0 <= m < |rows| && rows[m] == DirRow(d + 1, dirs[d]);
      DescendantRow(dirs, edges, k + 1, depth, m);
    }
  }

  // ---- The repository object ----

  class DirRepo {
    const db: DbConnector
    /** The dir table: the row with id i + 1 holds dirs[i]. */
    var dirs: seq<Path>
    /** The dir_ancestor table, in insertion order. */
    var edges: seq<Edge>

    /** The UNIQUE (path) and PRIMARY KEY (dir_id, ancestor_id) constraints. */
    predicate Valid()
      reads this
    {
      PathsUnique(dirs) && KeysUnique(edges)
    }

    /** DirRepo(db): the tables as the database holds them, empty when they were just created. */
    constructor (db: DbConnector, dirs: seq<Path>, edges: seq<Edge>)
      requires PathsUnique(dirs) && KeysUnique(edges)
      ensures Valid() && this.db == db && this.dirs == dirs && this.edges == edges
    {
      this.db := db;
      this.dirs := dirs;
      this.edges := edges;
    }

    /** insert_dir: normalise, return the id of the row holding the path, or insert one and return its new id. */
    method InsertDir(arg: PathArg) returns (r: Result<int>)
      requires Valid()
      modifies this
      ensures Valid() && edges == old(edges)
      ensures NormalizeScout(db.root, arg).Failure? ==>
        r == Failure(NormalizeScout(db.root, arg).error) && dirs == old(dirs)
      ensures NormalizeScout(db.root, arg).Success? ==>
        r.Success? && (dirs, r.value) == WithDir(old(dirs), NormalizeScout(db.root, arg).value)
    {
      var n := NormalizeScout(db.root, arg);
      if n.Failure? {
        return Failure(n.error);
      }
      var np := n.value;
      var found := FindPath(dirs, np);
      if found.Some? {
        return Success(found.value);
      }
      UniqueSnoc(dirs, np);
      dirs := dirs + [np];
      return Success(|dirs|);
    }

    /** insert_into_dir_ancestor: each row in turn, a row whose key is taken being skipped. */
    method InsertEdges(rows: seq<Edge>)
      requires Valid()
      modifies this
      ensures Valid() && dirs == old(dirs)
      ensures edges == WithEdges(old(edges), rows)
    {
      for i := 0 to |rows|
        invariant Valid() && dirs == old(dirs)
        invariant edges == WithEdges(old(edges), rows[..i])
      {
        assert rows[..i + 1][..i] == rows[..i];
        if !HasKey(edges, rows[i]) {
          edges := edges + [rows[i]];
        }
      }
      assert rows[..|rows|] == rows;
    }

    /** add's first loop: insert_dir on each prefix, collecting the ids. */
    method InsertChain(aps: seq<Path>, ghost lp: Path) returns (ids: seq<int>)
      requires Valid()
      requires !lp.absolute && !PartHasDotDot(lp.parts)
      requires forall i :: 0 <= i < |aps| ==> !aps[i].absolute && aps[i].parts <= lp.parts
      modifies this
      ensures Valid() && edges == old(edges)
      ensures dirs == WithDirs(old(dirs), aps)
      ensures forall k :: 0 <= k < |aps| ==> aps[k] in dirs
      ensures ids == IdsOf(dirs, aps)
    {
      ids := [];
      for i := 0 to |aps|
        invariant Valid() && edges == old(edges)
        invariant WithDirs(dirs, aps[i..]) == WithDirs(old(dirs), aps)
        invariant Labelled(dirs, aps[..i], ids)
      {
        ghost var before := dirs;
        PrefixNormalizes(db.root, lp, aps[i]);
        var id := InsertDir(PureArg(aps[i]));
        ChainStep(old(dirs), before, aps, i, ids, dirs, id.value);
        ids := ids + [id.value];
      }
      ChainDone(old(dirs), dirs, aps, ids);
    }

    /**
     * add(dir): store every prefix of the normalised path, then one edge from each
     * prefix to each of its own prefixes; the leaf's id is the last id collected
     * and the result lists a Dir per prefix, root first, with its absolute path.
     */
    method Add(d: Dir) returns (r: Result<seq<Dir>>, leaf: Dir)
      requires Valid()
      modifies this
      ensures Valid()
      ensures LeafPath(db.root, d).Failure? ==>
        r == Failure(LeafPath(db.root, d).error) && leaf == d && dirs == old(dirs) && edges == old(edges)
      ensures LeafPath(db.root, d) == Success(Here) ==>
        r == Failure(NoAncestors) && leaf == d && dirs == old(dirs) && edges == old(edges)
      ensures LeafPath(db.root, d).Success? && LeafPath(db.root, d).value != Here ==> r.Success?
      ensures r.Success? ==> LeafPath(db.root, d).Success?
      ensures r.Success? ==> dirs == AddDirs(old(dirs), LeafPath(db.root, d).value)
      ensures r.Success? ==> edges == AddEdges(old(dirs), old(edges), LeafPath(db.root, d).value)
      ensures r.Success? ==> |r.value| == |LeafPath(db.root, d).value.parts| > 0
      ensures r.Success? ==> ListsPrefixes(db.root, r.value, LeafPath(db.root, d).value, AddIds(old(dirs), LeafPath(db.root, d).value))
      ensures r.Success? ==> leaf == Dir(d.path, Some(AddIds(old(dirs), LeafPath(db.root, d).value)[|r.value| - 1]))
      ensures r.Success? && Closed(old(dirs), old(edges)) ==> Closed(dirs, edges)
    {
      leaf := d;
      var n := LeafPath(db.root, d);
      if n.Failure? {
        return Failure(n.error), leaf;
      }
      var lp := n.value;
      LeafPathClean(db.root, d);
      var out, ids := AddPath(lp);
      assert LeafPath(db.root, d) == Success(lp);
      if |ids| == 0 {
        assert lp == Here;
        return Failure(NoAncestors), leaf;
      }
      leaf := Dir(d.path, Some(ids[|ids| - 1]));
      assert |out| == |lp.parts| > 0;
      return Success(out), leaf;
    }

    /**
     * The body of add() for the normalised leaf path lp: the rows of its prefixes,
     * the closure edges among them and the Dirs to hand back. With no prefix there
     * is nothing to insert, so the IndexError add() raises on ids[-1] before the
     * edges leaves both tables as they were.
     */
    method AddPath(lp: Path) returns (out: seq<Dir>, ids: seq<int>)
      requires Valid() && !lp.absolute && !PartHasDotDot(lp.parts)
      modifies this
      ensures Valid()
      ensures dirs == AddDirs(old(dirs), lp) && edges == AddEdges(old(dirs), old(edges), lp)
      ensures ids == AddIds(old(dirs), lp)
      ensures ListsPrefixes(db.root, out, lp, ids)
      ensures lp == Here ==> dirs == old(dirs) && edges == old(edges)
      ensures Closed(old(dirs), old(edges)) ==> Closed(dirs, edges)
    {
      var aps := AncestorChain(lp);
      ghost var dirs0, edges0 := dirs, edges;
      ids := InsertChain(aps, lp);
      assert ids == AddIds(dirs0, lp);
      var rows := ClosureRowsOf(ids);
      InsertEdges(rows);
      out := DirsOf(db.root, aps, ids, lp);
      assert ListsPrefixes(db.root, out, lp, ids);
      if Closed(dirs0, edges0) {
        AddKeepsClosed(dirs0, edges0, lp);
      }
    }
  }
}
