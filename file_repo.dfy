/**
 * FileRepo of scoutlib/handler/file_repo.py: the file table beside the dir table of
 * the same database, with add() and get().  A file row holds the id of the dir row
 * of the file's parent (0 for a file in the root) and the file's name; the File
 * values handed back carry absolute paths.
 */
module FileRepository {
  import opened Wrappers
  import opened Text
  import opened Paths
  import opened Connector
  import opened FileQuery
  import DirTables
  import DirRepository

  /** File of scoutlib/model/file.py; md5 is the hash's hex text, mtime and updated are timestamps. */
  datatype FileRecord = FileRecord(path: Path, dirId: Option<int>, id: Option<int>, size: Option<int>,
                                   mtime: Option<int>, md5: Option<string>, updated: Option<int>)

  /** add() takes one File or a list of them. */
  datatype FilesArg = OneFile(f: FileRecord) | FileList(fs: seq<FileRecord>)

  /** A single File is treated as a list of one. */
  function FilesOf(arg: FilesArg): seq<FileRecord>
  {
    match arg
    case OneFile(f) => [f]
    case FileList(fs) => fs
  }

  /** A root-relative path without "..", as normalize_path hands them out. */
  predicate Clean(p: Path)
  {
    !p.absolute && !PartHasDotDot(p.parts)
  }

  /** Every dir row holds a clean path, as insert_dir stores them. */
  predicate DirsClean(dirs: seq<Path>)
  {
    forall k :: 0 <= k < |dirs| ==> Clean(dirs[k])
  }

  /** The directory a dir_id stands for: 0 is the root, any other id the path of its dir row. */
  predicate InDir(dirs: seq<Path>, dirId: int, q: Path)
  {
    if dirId == 0 then q == Here else 1 <= dirId <= |dirs| && dirs[dirId - 1] == q
  }

  /** What normalize_path hands out is clean. */
  lemma NormalizedClean(root: Path, p: Path)
    requires NormalizeScout(root, PureArg(p)).Success?
    ensures Clean(NormalizeScout(root, PureArg(p)).value)
  {
    NormalizeCopiesAgree(root, PureArg(p));
  }

  /** The text of a clean stored dir path normalises back to that path. */
  lemma StoredDirNormalizes(root: Path, q: Path)
    requires Clean(q)
    ensures NormalizeScout(root, TextArg(Render(q))) == Success(q)
  {
    NormalizeCopiesAgree(root, TextArg(Render(q)));
    NormalizeRelativeUnchanged(root, q);
  }

  /** A component parsed on its own is the one-part relative path. */
  lemma ParseBare(x: Part)
    ensures Parse(x) == Path(false, [x])
  {
    SegmentsWord(x, "");
    assert "" + x == x;
    assert x[0] in x;
  }

  /** PurePath(name) for the name of a path: the one-part path, or the empty path for "". */
  lemma ParseName(p: Path)
    ensures |p.parts| > 0 ==> Parse(Name(p)) == Path(false, [p.parts[|p.parts| - 1]])
    ensures |p.parts| == 0 ==> Parse(Name(p)) == Here
  {
    if |p.parts| > 0 {
      ParseBare(p.parts[|p.parts| - 1]);
    } else {
      assert Segments("", "") == [];
    }
  }

  /** The last component of a clean path has no ".." either. */
  lemma LastClean(p: Path)
    requires !PartHasDotDot(p.parts) && |p.parts| > 0
    ensures !HasDotDot(p.parts[|p.parts| - 1]) && !PartHasDotDot([p.parts[|p.parts| - 1]])
  {
    var x := p.parts[|p.parts| - 1];
    assert [x][0] == x;
  }

  // ---- add ----

  /**
   * The dir_id a file is stored under and its root-relative path: the path is
   * normalised first, whatever else the File says.
   */
  function Place(root: Path, dirs: seq<Path>, f: FileRecord): Result<(int, Path)>
  {
    var path :- NormalizeScout(root, PureArg(f.path));
    PlaceNormalized(root, dirs, path, f.dirId)
  }

  /**
   * Placing a normalised path: without a dir_id the parent decides, the root
   * giving 0 and a parent with no dir row a ValueError; an explicit dir_id other
   * than 0 names the dir row the file is put in, keeping only the file's name, and
   * 0 puts it in the root.
   */
  function PlaceNormalized(root: Path, dirs: seq<Path>, path: Path, dirId: Option<int>): Result<(int, Path)>
  {
    var parent := Parent(path);
    match dirId
    case None =>
      if parent == Here then Success((0, path))
      else
        (match DirTables.FindPath(dirs, parent)
         case None => Failure(MissingParentDirectory)
         case Some(id) => Success((id, path)))
    case Some(d) =>
      if d != 0 then
        (match DirRepository.SelectById(dirs, d)
         case None => Failure(MissingParentDirectory)
         case Some(row) =>
           var dirPath :- NormalizeScout(root, TextArg(Render(row.path)));
           Success((d, Div(dirPath, Parse(Name(path))))))
      else Success((0, Div(Here, Parse(Name(path)))))
  }

  /** The row add() inserts: dir_id, path.name, the hash text, mtime and the clock reading. */
  function RowOf(dirId: int, path: Path, f: FileRecord, now: int): FileRow
  {
    FileRow(dirId, Name(path), f.md5, f.mtime, now)
  }

  /**
   * One file of add(): placed, inserted as the row whose id is n + 1, and handed
   * back with its denormalised path.  A failure raises inside the connection's
   * context, so the insert does not persist.
   */
  function Store(root: Path, dirs: seq<Path>, n: int, f: FileRecord, now: int): Result<(FileRow, FileRecord)>
  {
    var placed :- Place(root, dirs, f);
    var full :- Denormalize(root, PureArg(placed.1));
    Success((RowOf(placed.0, placed.1, f, now), FileRecord(full, Some(placed.0), Some(n + 1), f.size, f.mtime, f.md5, Some(now))))
  }

  /** One file's step of add(), given the number of rows before it. */
  type Step = (int, FileRecord) -> Result<(FileRow, FileRecord)>

  /** Store as the step of one add() call. */
  function StoreStep(root: Path, dirs: seq<Path>, now: int): Step
  {
    (i, f) => Store(root, dirs, i, f, now)
  }

  /**
   * A step applied to each file in turn, the k-th after n + k rows: the rows of the
   * files stored before the first failure, and either every File or that failure.
   */
  function StoreEach(step: Step, n: int, files: seq<FileRecord>): (seq<FileRow>, Result<seq<FileRecord>>)
    decreases |files|
  {
    if |files| == 0 then ([], Success([]))
    else
      var last := |files| - 1;
      var prev := StoreEach(step, n, files[..last]);
      if prev.1.Failure? then prev
      else
        match step(n + last, files[last])
        case Failure(e) => (prev.0, Failure(e))
        case Success(stored) => (prev.0 + [stored.0], Success(prev.1.value + [stored.1]))
  }

  /** The step of an add() call stores one file as Store does. */
  lemma StepStores(root: Path, dirs: seq<Path>, now: int, i: int, f: FileRecord)
    ensures StoreStep(root, dirs, now)(i, f) == Store(root, dirs, i, f, now)
  {
  }

  /** add() over a list, after n rows. */
  function AddAll(root: Path, dirs: seq<Path>, n: int, files: seq<FileRecord>, now: int): (seq<FileRow>, Result<seq<FileRecord>>)
  {
    StoreEach(StoreStep(root, dirs, now), n, files)
  }

  /**
   * The files are stored in order until one fails: each row is the one its file's
   * step gives, and either all are stored and handed back, or the first failing
   * file's error is raised with the files before it stored.
   */
  lemma {:induction false} StoreEachStores(step: Step, n: int, files: seq<FileRecord>)
    ensures var res := StoreEach(step, n, files);
      |res.0| <= |files| &&
      forall k :: 0 <= k < |res.0| ==> step(n + k, files[k]).Success? && step(n + k, files[k]).value.0 == res.0[k]
    ensures var res := StoreEach(step, n, files);
      res.1.Success? ==> (|res.0| == |files| == |res.1.value| &&
        forall k :: 0 <= k < |files| ==> step(n + k, files[k]) == Success((res.0[k], res.1.value[k])))
    ensures var res := StoreEach(step, n, files);
      res.1.Failure? ==> (|res.0| < |files| && step(n + |res.0|, files[|res.0|]) == Failure(res.1.error))
    decreases |files|
  {
    if |files| > 0 {
      var last := |files| - 1;
      var init := files[..last];
      StoreEachStores(step, n, init);
      var prev := StoreEach(step, n, init);
      assert forall k :: 0 <= k < last ==> init[k] == files[k];
      if prev.1.Success? {
        var s := step(n + last, files[last]);
        if s.Success? {
          var res := StoreEach(step, n, files);
          assert res == (prev.0 + [s.value.0], Success(prev.1.value + [s.value.1]));
          forall k | 0 <= k < |files|
            ensures step(n + k, files[k]) == Success((res.0[k], res.1.value[k]))
          {
            if k < last {
              assert res.0[k] == prev.0[k] && res.1.value[k] == prev.1.value[k];
            }
          }
        }
      }
    }
  }

  /** Once a prefix of the list has failed, the rest of the list is never looked at. */
  lemma {:induction false} StoreEachStopped(step: Step, n: int, files: seq<FileRecord>, j: int)
    requires 0 <= j <= |files| && StoreEach(step, n, files[..j]).1.Failure?
    ensures StoreEach(step, n, files) == StoreEach(step, n, files[..j])
    decreases |files| - j
  {
    if j < |files| {
      var last := |files| - 1;
      assert files[..last][..j] == files[..j];
      StoreEachStopped(step, n, files[..last], j);
    } else {
      assert files[..j] == files;
    }
  }

  /** One more file: a failing step stops the fold with its error, a succeeding one appends what it stored. */
  lemma StoreEachNext(step: Step, n: int, files: seq<FileRecord>, i: int)
    requires 0 <= i < |files| && StoreEach(step, n, files[..i]).1.Success?
    ensures var prev := StoreEach(step, n, files[..i]);
      step(n + i, files[i]).Failure? ==> StoreEach(step, n, files[..i + 1]) == (prev.0, Failure(step(n + i, files[i]).error))
    ensures var prev := StoreEach(step, n, files[..i]);
      step(n + i, files[i]).Success? ==> (StoreEach(step, n, files[..i + 1]) ==
        (prev.0 + [step(n + i, files[i]).value.0], Success(prev.1.value + [step(n + i, files[i]).value.1])))
  {
    assert files[..i + 1][..i] == files[..i] && files[..i + 1][i] == files[i];
  }

  /** The File handed back for a stored file: id n + 1, the given size, mtime and hash, stamped now. */
  lemma StoreKeeps(root: Path, dirs: seq<Path>, n: int, f: FileRecord, now: int)
    requires Store(root, dirs, n, f, now).Success?
    ensures var (row, rec) := Store(root, dirs, n, f, now).value;
      rec.id == Some(n + 1) && rec.dirId == Some(row.dirId) && rec.size == f.size && rec.mtime == f.mtime == row.mtime &&
      rec.md5 == f.md5 == row.md5 && rec.updated == Some(now) && row.updated == now
  {
  }

  /** add()'s failures once the path is normalised: a parent with no dir row, or a dir_id with none. */
  lemma PlaceErrors(root: Path, dirs: seq<Path>, path: Path, dirId: Option<int>)
    requires DirsClean(dirs)
    ensures PlaceNormalized(root, dirs, path, dirId).Failure? <==>
      (dirId.None? && Parent(path) != Here && Parent(path) !in dirs) ||
      (dirId.Some? && dirId.value != 0 && !(1 <= dirId.value <= |dirs|))
    ensures PlaceNormalized(root, dirs, path, dirId).Failure? ==>
      PlaceNormalized(root, dirs, path, dirId).error == MissingParentDirectory
  {
    if dirId.Some? && dirId.value != 0 && 1 <= dirId.value <= |dirs| {
      StoredDirNormalizes(root, dirs[dirId.value - 1]);
    }
  }

  /** A path normalize_path refuses fails add() with normalize_path's error, before any dir_id is looked at. */
  lemma PlaceRefusedPath(root: Path, dirs: seq<Path>, f: FileRecord)
    requires NormalizeScout(root, PureArg(f.path)).Failure?
    ensures Place(root, dirs, f) == Failure(NormalizeScout(root, PureArg(f.path)).error)
  {
  }

  /**
   * What add() stores denotes the file: the dir_id names the directory of the stored
   * path (0 for the root), the name is the file's own name, and the stored path is
   * clean; without a dir_id the stored path is the normalised path itself.
   */
  lemma PlaceDenotes(root: Path, dirs: seq<Path>, path: Path, dirId: Option<int>)
    requires DirsClean(dirs) && Clean(path) && path != Here
    requires PlaceNormalized(root, dirs, path, dirId).Success?
    ensures var (d, p) := PlaceNormalized(root, dirs, path, dirId).value;
      InDir(dirs, d, Parent(p)) && Name(p) == Name(path) && Clean(p) && |p.parts| > 0
    ensures dirId.None? ==> PlaceNormalized(root, dirs, path, dirId).value.1 == path
  {
    var x := path.parts[|path.parts| - 1];
    ParseName(path);
    LastClean(path);
    var (d, p) := PlaceNormalized(root, dirs, path, dirId).value;
    if dirId.Some? && dirId.value != 0 {
      var q := dirs[dirId.value - 1];
      StoredDirNormalizes(root, q);
      assert p == Path(false, q.parts + [x]);
      PartHasDotDotAppend(q.parts, [x]);
    } else if dirId.Some? {
      assert p == Path(false, [x]);
    }
  }

  /** An explicit dir_id overrides the parent in the path: only the file's name is looked at. */
  lemma PlaceKeepsOnlyName(root: Path, dirs: seq<Path>, p1: Path, p2: Path, dirId: int)
    requires Name(p1) == Name(p2)
    ensures PlaceNormalized(root, dirs, p1, Some(dirId)) == PlaceNormalized(root, dirs, p2, Some(dirId))
  {
  }

  /** A file given by its absolute path under the root is placed as the same file given root-relative. */
  lemma PlaceAbsoluteRelative(root: Path, dirs: seq<Path>, f: FileRecord, p: Path)
    requires root.absolute && !PartHasDotDot(root.parts) && Clean(p) && f.path == p
    ensures Place(root, dirs, f.(path := Div(root, p))) == Place(root, dirs, f)
  {
    NormalizeDenormalize(root, p);
    RenderDotDot(p);
    assert Denormalize(root, PureArg(p)) == Success(Div(root, p));
    NormalizeCopiesAgree(root, PureArg(Div(root, p)));
    NormalizeCopiesAgree(root, PureArg(p));
    NormalizeRelativeUnchanged(root, p);
  }

  // ---- get ----

  /** filters.get(key): the value of the first entry with that key. */
  function Lookup(fs: seq<(string, PyValue)>, key: string): Option<PyValue>
  {
    if |fs| == 0 then None else if fs[0].0 == key then Some(fs[0].1) else Lookup(fs[1..], key)
  }

  /** The keyword filters without key, as filters.pop(key) leaves them. */
  function Without(fs: seq<(string, PyValue)>, key: string): seq<(string, PyValue)>
  {
    if |fs| == 0 then [] else (if fs[0].0 == key then [] else [fs[0]]) + Without(fs[1..], key)
  }

  /** filters[key] = v: the value replaced where the key stands, or a new entry at the end. */
  function SetKey(fs: seq<(string, PyValue)>, key: string, v: PyValue): seq<(string, PyValue)>
  {
    if |fs| == 0 then [(key, v)]
    else if fs[0].0 == key then [(key, v)] + fs[1..]
    else [fs[0]] + SetKey(fs[1..], key, v)
  }

  predicate HasKeyNamed(fs: seq<(string, PyValue)>, key: string)
  {
    exists i :: 0 <= i < |fs| && fs[i].0 == key
  }

  /** The path filter must be a str or a PurePath. */
  function PathFilterArg(v: PyValue): Result<PathArg>
  {
    match v
    case PyStr(s) => Success(TextArg(s))
    case PyPath(p) => Success(PureArg(p))
    case _ => Failure(BadPathFilter)
  }

  /**
   * The filter the parent of a path filter becomes: its text compared with d.path;
   * with fixRoot a parent that is the root becomes dir_id = 0 instead, since files
   * in the root join no dir row.
   */
  function ParentFilter(parent: Path, fixRoot: bool): (string, PyValue)
  {
    if fixRoot && parent == Here then ("dir_id", PyInt(0)) else ("path", PyStr(Render(parent)))
  }

  /**
   * The path filter of get(): taken out of the filters and, unless dir_id is among
   * them, replaced by a filter on the parent and one on the name.
   */
  function PathFiltersWith(root: Path, filters: seq<(string, PyValue)>, fixRoot: bool): Result<seq<(string, PyValue)>>
  {
    var path := Lookup(filters, "path");
    var rest := Without(filters, "path");
    if path.None? || path.value.PyNone? || HasKeyNamed(rest, "dir_id") then Success(rest)
    else
      var arg :- PathFilterArg(path.value);
      var np :- NormalizeScout(root, arg);
      var pf := ParentFilter(Parent(np), fixRoot);
      Success(SetKey(SetKey(rest, pf.0, pf.1), "name", PyStr(Name(np))))
  }

  /** The path filter as written. */
  function PathFiltersAsWritten(root: Path, filters: seq<(string, PyValue)>): Result<seq<(string, PyValue)>>
  {
    PathFiltersWith(root, filters, false)
  }

  /** The path filter as it is evidently meant, finding files in the root too. */
  function PathFilters(root: Path, filters: seq<(string, PyValue)>): Result<seq<(string, PyValue)>>
  {
    PathFiltersWith(root, filters, true)
  }

  /** The conditions of the filters in order, or the error of the first filter that has none. */
  function Conditions(fs: seq<(string, PyValue)>): Result<seq<Condition>>
    decreases |fs|
  {
    if |fs| == 0 then Success([])
    else
      var last := |fs| - 1;
      var cs :- Conditions(fs[..last]);
      var c :- KeyCondition(fs[last].0, fs[last].1);
      Success(cs + [c])
  }

  /** Once a prefix of the filters fails, the failure is the answer for the whole. */
  lemma {:induction false} ConditionsStopped(fs: seq<(string, PyValue)>, j: int)
    requires 0 <= j <= |fs| && Conditions(fs[..j]).Failure?
    ensures Conditions(fs) == Conditions(fs[..j])
    decreases |fs| - j
  {
    if j < |fs| {
      var last := |fs| - 1;
      assert fs[..last][..j] == fs[..j];
      ConditionsStopped(fs[..last], j);
    } else {
      assert fs[..j] == fs;
    }
  }

  /**
   * Every filter has a condition exactly when the filters together have; then there
   * is one per filter, each the filter's own, and otherwise the first filter without
   * one decides the error.
   */
  lemma {:induction false} ConditionsEach(fs: seq<(string, PyValue)>)
    ensures Conditions(fs).Success? <==> forall i :: 0 <= i < |fs| ==> KeyCondition(fs[i].0, fs[i].1).Success?
    ensures Conditions(fs).Success? ==> (|Conditions(fs).value| == |fs| &&
      forall i :: 0 <= i < |fs| ==> KeyCondition(fs[i].0, fs[i].1) == Success(Conditions(fs).value[i]))
    ensures Conditions(fs).Failure? ==> exists j :: (0 <= j < |fs| && KeyCondition(fs[j].0, fs[j].1) == Failure(Conditions(fs).error) &&
      forall i :: 0 <= i < j ==> KeyCondition(fs[i].0, fs[i].1).Success?)
    decreases |fs|
  {
    if |fs| > 0 {
      var last := |fs| - 1;
      ConditionsEach(fs[..last]);
      assert forall i :: 0 <= i < last ==> fs[..last][i] == fs[i];
      if Conditions(fs[..last]).Failure? {
        var j :| 0 <= j < last && KeyCondition(fs[..last][j].0, fs[..last][j].1) == Failure(Conditions(fs[..last]).error) &&
          forall i :: 0 <= i < j ==> KeyCondition(fs[..last][i].0, fs[..last][i].1).Success?;
        assert fs[..last][j] == fs[j];
      }
    }
  }

  /** The text paths[i] get() rebuilds: the name alone when the join found no dir row, else d.path + "/" + name. */
  function JoinedText(dirs: seq<Path>, row: FileRow): string
  {
    match JoinedPath(dirs, row.dirId)
    case SqlText(t) => t + "/" + row.name
    case _ => row.name
  }

  /** A File as get() hands it back: the table keeps no size. */
  function Unsized(f: FileRecord): FileRecord
  {
    f.(size := None)
  }

  /** The File get() builds from the k-th row: the denormalised rebuilt path, no size. */
  function Fetched(root: Path, dirs: seq<Path>, rows: seq<FileRow>, k: int): Result<FileRecord>
    requires 0 <= k < |rows|
  {
    var row := rows[k];
    var p :- Denormalize(root, TextArg(JoinedText(dirs, row)));
    Success(FileRecord(p, Some(row.dirId), Some(k + 1), None, row.mtime, row.md5, Some(row.updated)))
  }

  predicate InRange(idx: seq<int>, n: int)
  {
    forall i :: 0 <= i < |idx| ==> 0 <= idx[i] < n
  }

  /** The list comprehension over the fetched rows; the first path that cannot be denormalised raises. */
  function Records(root: Path, dirs: seq<Path>, rows: seq<FileRow>, idx: seq<int>): Result<seq<FileRecord>>
    requires InRange(idx, |rows|)
  {
    Gather(seq(|idx|, i requires 0 <= i < |idx| => Fetched(root, dirs, rows, idx[i])))
  }

  /** The values of a list built in order, or the first error raised while building it. */
  function Gather<T>(rs: seq<Result<T>>): Result<seq<T>>
    decreases |rs|
  {
    if |rs| == 0 then Success([])
    else
      var front :- Gather(rs[..|rs| - 1]);
      var r :- rs[|rs| - 1];
      Success(front + [r])
  }

  /** A list whose every element is built is built whole, element by element. */
  lemma {:induction false} GatherEach<T>(rs: seq<Result<T>>)
    requires forall i :: 0 <= i < |rs| ==> rs[i].Success?
    ensures Gather(rs).Success? && |Gather(rs).value| == |rs|
    ensures forall i :: 0 <= i < |rs| ==> rs[i] == Success(Gather(rs).value[i])
    decreases |rs|
  {
    if |rs| > 0 {
      var last := |rs| - 1;
      var front := rs[..last];
      assert forall i :: 0 <= i < last ==> front[i] == rs[i];
      GatherEach(front);
      var all := Gather(front).value + [rs[last].value];
      assert Gather(rs) == Success(all);
      forall i | 0 <= i < |rs| ensures rs[i] == Success(all[i]) {
        if i < last {
          assert front[i] == rs[i] && all[i] == Gather(front).value[i];
        }
      }
    }
  }

  /** A name as add() stores it: the last component of a clean path, or "" for the root. */
  predicate NameClean(x: string)
  {
    '/' !in x && !HasDotDot(x)
  }

  predicate NamesClean(rows: seq<FileRow>)
  {
    forall k :: 0 <= k < |rows| ==> NameClean(rows[k].name)
  }

  /** The text of a relative path neither is empty nor starts with "/". */
  lemma RenderRelative(q: Path)
    requires !q.absolute
    ensures |Render(q)| > 0 && Render(q)[0] != '/'
  {
    ParseRender(q);
    if q.parts != [] {
      JoinStartsWithPart(q.parts);
    }
  }

  /** The text of a row in a directory, "<dir path>/<name>", is relative and has no ".." when neither part has. */
  lemma ChildText(q: Path, x: string)
    requires Clean(q) && !HasDotDot(x)
    ensures !HasDotDot(Render(q) + "/" + x) && (Render(q) + "/" + x)[0] != '/'
  {
    RenderDotDot(q);
    RenderRelative(q);
    DotDotAppend("/", x);
    DotDotAppend(Render(q), "/" + x);
    NoDotNoDotDot("/");
    assert Render(q) + "/" + x == Render(q) + ("/" + x);
  }

  /** A row of a clean table always comes back: its rebuilt path is relative and has no "..". */
  lemma FetchedClean(root: Path, dirs: seq<Path>, rows: seq<FileRow>, k: int)
    requires DirsClean(dirs) && 0 <= k < |rows| && NameClean(rows[k].name)
    ensures Fetched(root, dirs, rows, k).Success?
  {
    var row := rows[k];
    if 1 <= row.dirId <= |dirs| {
      ChildText(dirs[row.dirId - 1], row.name);
    } else if |row.name| > 0 {
      assert row.name[0] in row.name;
    }
  }

  /** Every listed row comes back, in the listed order. */
  lemma RecordsClean(root: Path, dirs: seq<Path>, rows: seq<FileRow>, idx: seq<int>)
    requires DirsClean(dirs) && NamesClean(rows) && InRange(idx, |rows|)
    ensures Records(root, dirs, rows, idx).Success?
    ensures |Records(root, dirs, rows, idx).value| == |idx|
    ensures forall i :: 0 <= i < |idx| ==> Fetched(root, dirs, rows, idx[i]) == Success(Records(root, dirs, rows, idx).value[i])
  {
    forall i | 0 <= i < |idx| ensures Fetched(root, dirs, rows, idx[i]).Success? {
      FetchedClean(root, dirs, rows, idx[i]);
    }
    RecordsEach(root, dirs, rows, idx);
  }

  /** When every listed row comes back, the records are those rows, in the listed order. */
  lemma RecordsEach(root: Path, dirs: seq<Path>, rows: seq<FileRow>, idx: seq<int>)
    requires InRange(idx, |rows|)
    requires forall i :: 0 <= i < |idx| ==> Fetched(root, dirs, rows, idx[i]).Success?
    ensures Records(root, dirs, rows, idx).Success?
    ensures |Records(root, dirs, rows, idx).value| == |idx|
    ensures forall i :: 0 <= i < |idx| ==> Fetched(root, dirs, rows, idx[i]) == Success(Records(root, dirs, rows, idx).value[i])
  {
    var rs := seq(|idx|, i requires 0 <= i < |idx| => Fetched(root, dirs, rows, idx[i]));
    GatherEach(rs);
  }

  /** Every row index, in table order. */
  function AllRows(n: nat): (r: seq<int>)
    ensures |r| == n && InRange(r, n)
    ensures forall i :: 0 <= i < n ==> r[i] == i
  {
    seq(n, i => i)
  }

  /**
   * The query get() runs on the rewritten filters: without any, every row through
   * the plain LEFT JOIN; otherwise the rows passing every condition, once SQLite
   * has accepted them all.
   */
  function Select(root: Path, dirs: seq<Path>, rows: seq<FileRow>, fs: seq<(string, PyValue)>): Result<seq<FileRecord>>
  {
    var conds :- Conditions(fs);
    if |fs| == 0 then Records(root, dirs, rows, AllRows(|rows|))
    else if !AllAccepted(conds) then Failure(SqlError)
    else
      RowsWhereIncreasing(dirs, rows, conds, |rows|);
      Records(root, dirs, rows, RowsWhere(dirs, rows, conds, |rows|))
  }

  /** get(**filters). */
  function Fetch(root: Path, dirs: seq<Path>, rows: seq<FileRow>, filters: seq<(string, PyValue)>): Result<seq<FileRecord>>
  {
    var fs :- PathFilters(root, filters);
    Select(root, dirs, rows, fs)
  }

  /** get(**filters) with the path filter as written. */
  function FetchAsWritten(root: Path, dirs: seq<Path>, rows: seq<FileRow>, filters: seq<(string, PyValue)>): Result<seq<FileRecord>>
  {
    var fs :- PathFiltersAsWritten(root, filters);
    Select(root, dirs, rows, fs)
  }

  /** Without a path filter, get() as written and as meant are the same query. */
  lemma FetchAgreesWithoutPath(root: Path, dirs: seq<Path>, rows: seq<FileRow>, filters: seq<(string, PyValue)>)
    requires Lookup(filters, "path").None?
    ensures FetchAsWritten(root, dirs, rows, filters) == Fetch(root, dirs, rows, filters)
  {
  }

  /** With no filter at all get() returns every row, in table order. */
  lemma FetchAll(root: Path, dirs: seq<Path>, rows: seq<FileRow>)
    requires DirsClean(dirs) && NamesClean(rows)
    ensures Fetch(root, dirs, rows, []).Success?
    ensures |Fetch(root, dirs, rows, []).value| == |rows|
    ensures forall k :: 0 <= k < |rows| ==> Fetched(root, dirs, rows, k) == Success(Fetch(root, dirs, rows, []).value[k])
  {
    assert Lookup([], "path") == None;
    assert Without([], "path") == [];
    RecordsClean(root, dirs, rows, AllRows(|rows|));
  }

  /** x is the File of some row passing conds. */
  predicate MatchingFile(root: Path, dirs: seq<Path>, rows: seq<FileRow>, conds: seq<Condition>, x: FileRecord)
    requires AllAccepted(conds)
  {
    exists k :: 0 <= k < |rows| && AllHold(dirs, rows, k, conds) && Fetched(root, dirs, rows, k) == Success(x)
  }

  /** Every File in r is that of a row passing conds. */
  predicate OnlyMatching(root: Path, dirs: seq<Path>, rows: seq<FileRow>, conds: seq<Condition>, r: seq<FileRecord>)
    requires AllAccepted(conds)
  {
    forall i :: 0 <= i < |r| ==> MatchingFile(root, dirs, rows, conds, r[i])
  }

  /** The File of every row passing conds is in r. */
  predicate AllMatching(root: Path, dirs: seq<Path>, rows: seq<FileRow>, conds: seq<Condition>, r: seq<FileRecord>)
    requires AllAccepted(conds)
  {
    forall k :: 0 <= k < |rows| && AllHold(dirs, rows, k, conds) ==>
      exists i :: 0 <= i < |r| && Fetched(root, dirs, rows, k) == Success(r[i])
  }

  /** The Files come in table order, so none twice. */
  predicate IdsIncreasing(r: seq<FileRecord>)
  {
    forall i, j :: 0 <= i < j < |r| ==> r[i].id.Some? && r[j].id.Some? && r[i].id.value < r[j].id.value
  }

  /** r holds the Files of exactly the rows passing conds, each once and in table order. */
  predicate ListsMatching(root: Path, dirs: seq<Path>, rows: seq<FileRow>, conds: seq<Condition>, r: seq<FileRecord>)
    requires AllAccepted(conds)
  {
    OnlyMatching(root, dirs, rows, conds, r) && AllMatching(root, dirs, rows, conds, r) && IdsIncreasing(r)
  }

  /** Files fetched for row indices that all pass conds are only matching ones. */
  lemma FetchedOnlyMatching(root: Path, dirs: seq<Path>, rows: seq<FileRow>, conds: seq<Condition>, idx: seq<int>, r: seq<FileRecord>)
    requires AllAccepted(conds) && InRange(idx, |rows|) && |r| == |idx|
    requires forall i :: 0 <= i < |idx| ==> AllHold(dirs, rows, idx[i], conds)
    requires forall i :: 0 <= i < |idx| ==> Fetched(root, dirs, rows, idx[i]) == Success(r[i])
    ensures OnlyMatching(root, dirs, rows, conds, r)
  {
    forall i | 0 <= i < |r| ensures MatchingFile(root, dirs, rows, conds, r[i]) {
      var k := idx[i];
      assert 0 <= k < |rows| && AllHold(dirs, rows, k, conds) && Fetched(root, dirs, rows, k) == Success(r[i]);
    }
  }

  /** Files fetched for the indices of every row passing conds include every matching one. */
  lemma FetchedAllMatching(root: Path, dirs: seq<Path>, rows: seq<FileRow>, conds: seq<Condition>, idx: seq<int>, r: seq<FileRecord>)
    requires AllAccepted(conds) && InRange(idx, |rows|) && |r| == |idx|
    requires forall k :: 0 <= k < |rows| && AllHold(dirs, rows, k, conds) ==> k in idx
    requires forall i :: 0 <= i < |idx| ==> Fetched(root, dirs, rows, idx[i]) == Success(r[i])
    ensures AllMatching(root, dirs, rows, conds, r)
  {
    forall k | 0 <= k < |rows| && AllHold(dirs, rows, k, conds)
      ensures exists i :: 0 <= i < |r| && Fetched(root, dirs, rows, k) == Success(r[i])
    {
      var i :| 0 <= i < |idx| && idx[i] == k;
      assert Fetched(root, dirs, rows, idx[i]) == Success(r[i]);
    }
  }

  /** Files fetched for strictly increasing row indices have strictly increasing ids. */
  lemma FetchedIncreasing(root: Path, dirs: seq<Path>, rows: seq<FileRow>, idx: seq<int>, r: seq<FileRecord>)
    requires InRange(idx, |rows|) && |r| == |idx|
    requires forall i, j :: 0 <= i < j < |idx| ==> idx[i] < idx[j]
    requires forall i :: 0 <= i < |idx| ==> Fetched(root, dirs, rows, idx[i]) == Success(r[i])
    ensures IdsIncreasing(r)
  {
    forall i, j | 0 <= i < j < |r| ensures r[i].id.Some? && r[j].id.Some? && r[i].id.value < r[j].id.value {
      assert Fetched(root, dirs, rows, idx[i]) == Success(r[i]);
      assert Fetched(root, dirs, rows, idx[j]) == Success(r[j]);
    }
  }

  /** Records of strictly increasing row indices, each row passing conds exactly when listed. */
  lemma RecordsMatching(root: Path, dirs: seq<Path>, rows: seq<FileRow>, conds: seq<Condition>, idx: seq<int>)
    requires DirsClean(dirs) && NamesClean(rows) && AllAccepted(conds) && InRange(idx, |rows|)
    requires forall i, j :: 0 <= i < j < |idx| ==> idx[i] < idx[j]
    requires forall k :: 0 <= k < |rows| ==> (k in idx <==> AllHold(dirs, rows, k, conds))
    ensures Records(root, dirs, rows, idx).Success?
    ensures ListsMatching(root, dirs, rows, conds, Records(root, dirs, rows, idx).value)
  {
    RecordsClean(root, dirs, rows, idx);
    forall i | 0 <= i < |idx| ensures AllHold(dirs, rows, idx[i], conds) {
      assert idx[i] in idx;
    }
    var r := Records(root, dirs, rows, idx).value;
    FetchedOnlyMatching(root, dirs, rows, conds, idx, r);
    FetchedAllMatching(root, dirs, rows, conds, idx, r);
    FetchedIncreasing(root, dirs, rows, idx, r);
  }

  /** With filters, get() returns exactly the rows passing every condition, each once and in table order. */
  lemma SelectMatches(root: Path, dirs: seq<Path>, rows: seq<FileRow>, fs: seq<(string, PyValue)>)
    requires DirsClean(dirs) && NamesClean(rows) && |fs| > 0
    requires Conditions(fs).Success? && AllAccepted(Conditions(fs).value)
    ensures Select(root, dirs, rows, fs).Success?
    ensures ListsMatching(root, dirs, rows, Conditions(fs).value, Select(root, dirs, rows, fs).value)
  {
    var conds := Conditions(fs).value;
    RowsWhereIncreasing(dirs, rows, conds, |rows|);
    forall k | 0 <= k < |rows|
      ensures k in RowsWhere(dirs, rows, conds, |rows|) <==> AllHold(dirs, rows, k, conds)
    {
      RowsWhereHas(dirs, rows, conds, |rows|, k);
    }
    RecordsMatching(root, dirs, rows, conds, RowsWhere(dirs, rows, conds, |rows|));
  }

  /** A filter without a condition fails get() with the error of the first such filter. */
  lemma SelectRefused(root: Path, dirs: seq<Path>, rows: seq<FileRow>, fs: seq<(string, PyValue)>, j: int)
    requires 0 <= j < |fs| && KeyCondition(fs[j].0, fs[j].1).Failure?
    requires forall i :: 0 <= i < j ==> KeyCondition(fs[i].0, fs[i].1).Success?
    ensures Select(root, dirs, rows, fs) == Failure(KeyCondition(fs[j].0, fs[j].1).error)
  {
    ConditionsEach(fs);
    var j' :| 0 <= j' < |fs| && KeyCondition(fs[j'].0, fs[j'].1) == Failure(Conditions(fs).error) &&
      forall i :: 0 <= i < j' ==> KeyCondition(fs[i].0, fs[i].1).Success?;
    if j' < j {
      assert false;
    } else if j' > j {
      assert false;
    }
  }

  /** A condition on a column the file table does not have (size among them) is an SQLite error. */
  lemma SelectUnknownColumn(root: Path, dirs: seq<Path>, rows: seq<FileRow>, fs: seq<(string, PyValue)>, j: int)
    requires Conditions(fs).Success? && 0 <= j < |fs|
    requires KeyCondition(fs[j].0, fs[j].1).Success? && ColumnNamed(KeyCondition(fs[j].0, fs[j].1).value.column).None?
    ensures Select(root, dirs, rows, fs) == Failure(SqlError)
  {
    ConditionsEach(fs);
    assert !Accepted(Conditions(fs).value[j]);
  }

  /** A single row passing the conditions is the only index listed, once the first n rows include it. */
  lemma {:induction false} OnlyRow(dirs: seq<Path>, rows: seq<FileRow>, conds: seq<Condition>, k: int, n: int)
    requires AllAccepted(conds) && 0 <= k < |rows| && 0 <= n <= |rows|
    requires forall m :: 0 <= m < |rows| ==> (AllHold(dirs, rows, m, conds) <==> m == k)
    ensures RowsWhere(dirs, rows, conds, n) == if k < n then [k] else []
    decreases n
  {
    if n > 0 {
      OnlyRow(dirs, rows, conds, k, n - 1);
    }
  }

  /** The filter id=k + 1 passes the path rewrite untouched and is the one condition on id. */
  lemma IdFilter(root: Path, k: int)
    ensures PathFilters(root, [("id", PyInt(k + 1))]) == Success([("id", PyInt(k + 1))])
    ensures Conditions([("id", PyInt(k + 1))]) == Success([Compare("id", Eq, PyInt(k + 1))])
    ensures AllAccepted([Compare("id", Eq, PyInt(k + 1))])
  {
    var fs: seq<(string, PyValue)> := [("id", PyInt(k + 1))];
    assert Lookup(fs, "path") == None;
    assert Without(fs, "path") == fs by {
      assert Without(fs[1..], "path") == [];
    }
    PlainColumns();
    PlainKey("id", PyInt(k + 1));
    assert fs[..0] == [];
    assert Conditions(fs[..0]) == Success([]);
    assert [] + [Compare("id", Eq, PyInt(k + 1))] == [Compare("id", Eq, PyInt(k + 1))];
  }

  /** get(id=k + 1) returns the k-th row alone. */
  lemma FetchById(root: Path, dirs: seq<Path>, rows: seq<FileRow>, k: int)
    requires 0 <= k < |rows| && Fetched(root, dirs, rows, k).Success?
    ensures Fetch(root, dirs, rows, [("id", PyInt(k + 1))]) == Success([Fetched(root, dirs, rows, k).value])
  {
    IdFilter(root, k);
    var conds := [Compare("id", Eq, PyInt(k + 1))];
    forall m | 0 <= m < |rows| ensures AllHold(dirs, rows, m, conds) <==> m == k {
      IdPicksRow(dirs, rows, m, k + 1);
      assert AllHold(dirs, rows, m, conds) <==> Holds(dirs, rows, m, conds[0]);
    }
    OnlyRow(dirs, rows, conds, k, |rows|);
    var v := Fetched(root, dirs, rows, k).value;
    assert [k][..0] == [];
    assert Records(root, dirs, rows, [k][..0]) == Success([]);
    assert [] + [v] == [v];
  }

  // ---- Fetching the rows add() stored ----

  /** Rebuilding "<dir path>/<name>" gives back the child path. */
  lemma ParseChild(q: Path, x: Part)
    requires !q.absolute
    ensures Parse(Render(q) + "/" + x) == Path(false, q.parts + [x])
  {
    var t := Render(q);
    ParseRender(q);
    RenderRelative(q);
    SegmentsSplit(t, x, "");
    SegmentsWord(x, "");
    assert "" + x == x;
    assert x[0] in x;
    assert (t + "/" + x)[0] == t[0];
  }

  /**
   * A row stored for a clean path p, in p's directory and under p's name, comes back
   * with the path root / p.
   */
  lemma RowComesBack(root: Path, dirs: seq<Path>, rows: seq<FileRow>, k: int, p: Path)
    requires DirsClean(dirs) && 0 <= k < |rows| && Clean(p) && |p.parts| > 0
    requires InDir(dirs, rows[k].dirId, Parent(p)) && rows[k].name == Name(p)
    ensures Fetched(root, dirs, rows, k) ==
      Success(FileRecord(Div(root, p), Some(rows[k].dirId), Some(k + 1), None, rows[k].mtime, rows[k].md5, Some(rows[k].updated)))
  {
    var x := p.parts[|p.parts| - 1];
    LastClean(p);
    var row := rows[k];
    var t := JoinedText(dirs, row);
    if row.dirId == 0 {
      ParseBare(x);
      assert Parse(t) == p;
      assert x[0] in x;
    } else {
      var q := dirs[row.dirId - 1];
      ParseChild(q, x);
      ChildText(q, x);
      assert Parse(t) == p;
    }
  }

  /**
   * get() hands back a stored file as add() did, but for the size, which the table
   * does not keep.  The file must not be the root itself, whose name is "".
   */
  lemma StoredComesBack(root: Path, dirs: seq<Path>, rows: seq<FileRow>, n: int, f: FileRecord, now: int)
    requires DirsClean(dirs) && 0 <= n < |rows|
    requires Store(root, dirs, n, f, now).Success? && rows[n] == Store(root, dirs, n, f, now).value.0
    requires NormalizeScout(root, PureArg(f.path)) != Success(Here)
    ensures Fetched(root, dirs, rows, n) == Success(Unsized(Store(root, dirs, n, f, now).value.1))
  {
    var np := NormalizeScout(root, PureArg(f.path)).value;
    NormalizedClean(root, f.path);
    PlaceDenotes(root, dirs, np, f.dirId);
    var p := Place(root, dirs, f).value.1;
    RowComesBack(root, dirs, rows, n, p);
    RenderDotDot(p);
  }

  /**
   * After add() over rows has appended added and handed back out, get() by the id
   * of any File it handed back finds that File again, but for the size.
   */
  lemma AddThenGet(root: Path, dirs: seq<Path>, rows: seq<FileRow>, files: seq<FileRecord>, now: int,
                   added: seq<FileRow>, out: seq<FileRecord>, k: int)
    requires DirsClean(dirs) && 0 <= k < |files|
    requires AddAll(root, dirs, |rows|, files, now) == (added, Success(out))
    requires NormalizeScout(root, PureArg(files[k].path)) != Success(Here)
    ensures |added| == |out| == |files| && out[k].id.Some?
    ensures Fetch(root, dirs, rows + added, [("id", PyInt(out[k].id.value))]) == Success([Unsized(out[k])])
  {
    var n := AddedRow(root, dirs, rows, files, now, added, out, k);
    StoredById(root, dirs, rows + added, n, files[k], now, added[k], out[k]);
  }

  /** The k-th element of b sits at |a| + k in a + b. */
  lemma AppendAt<T>(a: seq<T>, b: seq<T>, k: int)
    requires 0 <= k < |b|
    ensures |a| + k < |a + b| && (a + b)[|a| + k] == b[k]
  {
  }

  /**
   * The n-th row, stored by one step of add(), is found by the id of the File
   * that step handed back, n + 1, as that File but for the size.
   */
  lemma StoredById(root: Path, dirs: seq<Path>, rows: seq<FileRow>, n: int, f: FileRecord, now: int,
                   row: FileRow, rec: FileRecord)
    requires DirsClean(dirs) && 0 <= n < |rows| && rows[n] == row
    requires StoreStep(root, dirs, now)(n, f) == Success((row, rec))
    requires NormalizeScout(root, PureArg(f.path)) != Success(Here)
    ensures rec.id == Some(n + 1)
    ensures Fetch(root, dirs, rows, [("id", PyInt(rec.id.value))]) == Success([Unsized(rec)])
  {
    StepStores(root, dirs, now, n, f);
    StoredComesBack(root, dirs, rows, n, f, now);
    FetchById(root, dirs, rows, n);
  }

  /**
   * The k-th file of a successful add() after the rows front is stored as its step
   * says, and its row sits at n == |front| + k once the rows are appended.
   */
  lemma AddedRow(root: Path, dirs: seq<Path>, front: seq<FileRow>, files: seq<FileRecord>, now: int,
                 added: seq<FileRow>, out: seq<FileRecord>, k: int) returns (n: int)
    requires 0 <= k < |files| && AddAll(root, dirs, |front|, files, now) == (added, Success(out))
    ensures n == |front| + k && |added| == |out| == |files|
    ensures 0 <= n < |front + added| && (front + added)[n] == added[k]
    ensures StoreStep(root, dirs, now)(n, files[k]) == Success((added[k], out[k]))
  {
    StoreEachStores(StoreStep(root, dirs, now), |front|, files);
    AppendAt(front, added, k);
    n := |front| + k;
  }

  /** What add() stores keeps every name clean, so a clean table stays clean. */
  lemma StoredNameClean(root: Path, dirs: seq<Path>, n: int, f: FileRecord, now: int)
    requires DirsClean(dirs) && Store(root, dirs, n, f, now).Success?
    ensures NameClean(Store(root, dirs, n, f, now).value.0.name)
  {
    var np := NormalizeScout(root, PureArg(f.path)).value;
    NormalizedClean(root, f.path);
    PlaceClean(root, dirs, np, f.dirId);
    var p := Place(root, dirs, f).value.1;
    if |p.parts| > 0 {
      LastClean(p);
    }
  }

  /** The stored path is clean, whatever the dir_id. */
  lemma PlaceClean(root: Path, dirs: seq<Path>, path: Path, dirId: Option<int>)
    requires DirsClean(dirs) && Clean(path) && PlaceNormalized(root, dirs, path, dirId).Success?
    ensures Clean(PlaceNormalized(root, dirs, path, dirId).value.1)
  {
    ParseName(path);
    var p := PlaceNormalized(root, dirs, path, dirId).value.1;
    if |path.parts| > 0 {
      LastClean(path);
    }
    if dirId.Some? && dirId.value != 0 {
      var q := dirs[dirId.value - 1];
      StoredDirNormalizes(root, q);
      assert p.parts == q.parts + Parse(Name(path)).parts;
      PartHasDotDotAppend(q.parts, Parse(Name(path)).parts);
    }
  }

  // ---- The path filter ----

  /** The conditions a path filter on the clean path p becomes. */
  function PathConditions(p: Path, fixRoot: bool): seq<Condition>
  {
    var pf := ParentFilter(Parent(p), fixRoot);
    [Compare(pf.0, Eq, pf.1), Compare("name", Eq, PyStr(Name(p)))]
  }

  /** The column names the path filter is rewritten to, and id, have no "__". */
  lemma PlainColumns()
    ensures !HasSep("dir_id") && !HasSep("path") && !HasSep("name") && !HasSep("id")
  {
    assert "dir_id"[1..] == "ir_id" && "ir_id"[1..] == "r_id" && "r_id"[1..] == "_id" && "_id"[1..] == "id" && "id"[1..] == "d";
    assert "path"[1..] == "ath" && "ath"[1..] == "th" && "th"[1..] == "h";
    assert "name"[1..] == "ame" && "ame"[1..] == "me" && "me"[1..] == "e";
  }

  /** get(path=p) for a clean p: the filter on p's parent, then the one on p's name. */
  lemma PathFiltersOf(root: Path, p: Path, fixRoot: bool)
    requires Clean(p)
    ensures PathFiltersWith(root, [("path", PyPath(p))], fixRoot) ==
      Success([ParentFilter(Parent(p), fixRoot), ("name", PyStr(Name(p)))])
  {
    var filters: seq<(string, PyValue)> := [("path", PyPath(p))];
    assert Lookup(filters, "path") == Some(PyPath(p));
    assert Without(filters, "path") == [] by {
      assert Without(filters[1..], "path") == [];
    }
    assert !HasKeyNamed([], "dir_id");
    NormalizeCopiesAgree(root, PureArg(p));
    NormalizeRelativeUnchanged(root, p);
    var pf := ParentFilter(Parent(p), fixRoot);
    assert SetKey([pf], "name", PyStr(Name(p))) == [pf, ("name", PyStr(Name(p)))];
  }

  /** Two filters on plain column names are two equality conditions. */
  lemma TwoPlainConditions(a: (string, PyValue), b: (string, PyValue))
    requires !HasSep(a.0) && !HasSep(b.0)
    ensures Conditions([a, b]) == Success([Compare(a.0, Eq, a.1), Compare(b.0, Eq, b.1)])
  {
    PlainKey(a.0, a.1);
    PlainKey(b.0, b.1);
    var ca := Compare(a.0, Eq, a.1);
    assert [a, b][..1] == [a] && [a][..0] == [];
    assert Conditions([a][..0]) == Success([]);
    assert [] + [ca] == [ca];
    assert Conditions([a]) == Success([ca]);
    var cb := Compare(b.0, Eq, b.1);
    assert [a, b][1] == b;
    assert [ca] + [cb] == [ca, cb];
  }

  /** get(path=p) for a clean p filters on p's parent and on p's name, and SQLite accepts both. */
  lemma PathFilterConditions(root: Path, p: Path, fixRoot: bool)
    requires Clean(p)
    ensures PathFiltersWith(root, [("path", PyPath(p))], fixRoot).Success?
    ensures Conditions(PathFiltersWith(root, [("path", PyPath(p))], fixRoot).value) == Success(PathConditions(p, fixRoot))
    ensures AllAccepted(PathConditions(p, fixRoot))
  {
    PathFiltersOf(root, p, fixRoot);
    PlainColumns();
    TwoPlainConditions(ParentFilter(Parent(p), fixRoot), ("name", PyStr(Name(p))));
    PathConditionsAccepted(p, fixRoot);
  }

  /** The path condition compares the joined dir row's stored text, so it holds exactly for files in that directory. */
  lemma PathConditionHolds(dirs: seq<Path>, rows: seq<FileRow>, k: int, q: Path)
    requires 0 <= k < |rows|
    ensures Holds(dirs, rows, k, Compare("path", Eq, PyStr(Render(q)))) <==>
      1 <= rows[k].dirId <= |dirs| && dirs[rows[k].dirId - 1] == q
  {
    if 1 <= rows[k].dirId <= |dirs| {
      RenderInjective(dirs[rows[k].dirId - 1], q);
    }
  }

  /**
   * As written, get(path=p) for a file in the root looks for d.path = '.', which the
   * NULL of the join never equals: no file stored in the root is found.
   */
  lemma RootFileMissedAsWritten(dirs: seq<Path>, rows: seq<FileRow>, p: Path, k: int)
    requires Parent(p) == Here && 0 <= k < |rows| && rows[k].dirId == 0
    ensures AllAccepted(PathConditions(p, false))
    ensures !AllHold(dirs, rows, k, PathConditions(p, false))
  {
    PathConditionsAccepted(p, false);
    assert PathConditions(p, false)[0] == Compare("path", Eq, PyStr(Render(Here)));
    PathConditionHolds(dirs, rows, k, Here);
  }

  /**
   * With the root case filtered on dir_id = 0, get(path=p) finds exactly the rows
   * stored for p: in p's directory and under p's name.
   */
  lemma PathFilterFinds(dirs: seq<Path>, rows: seq<FileRow>, p: Path, k: int)
    requires Here !in dirs && 0 <= k < |rows|
    ensures AllAccepted(PathConditions(p, true))
    ensures AllHold(dirs, rows, k, PathConditions(p, true)) <==> InDir(dirs, rows[k].dirId, Parent(p)) && rows[k].name == Name(p)
  {
    var conds := PathConditions(p, true);
    PathConditionsAccepted(p, true);
    assert AllHold(dirs, rows, k, conds) <==> Holds(dirs, rows, k, conds[0]) && Holds(dirs, rows, k, conds[1]);
    NamePicksRows(dirs, rows, k, Name(p));
    if Parent(p) != Here {
      PathConditionHolds(dirs, rows, k, Parent(p));
    } else {
      DirIdPicksRows(dirs, rows, k, 0);
      if rows[k].dirId != 0 && 1 <= rows[k].dirId <= |dirs| {
        assert dirs[rows[k].dirId - 1] in dirs;
      }
    }
  }

  /** SQLite accepts both conditions of a path filter. */
  lemma PathConditionsAccepted(p: Path, fixRoot: bool)
    ensures AllAccepted(PathConditions(p, fixRoot))
  {
    var conds := PathConditions(p, fixRoot);
    assert Accepted(conds[0]) && Accepted(conds[1]);
  }

  /** get(path=p) returns the Files of exactly the rows passing p's conditions, in table order. */
  lemma FetchByPath(root: Path, dirs: seq<Path>, rows: seq<FileRow>, p: Path)
    requires DirsClean(dirs) && NamesClean(rows) && Clean(p)
    ensures AllAccepted(PathConditions(p, true))
    ensures Fetch(root, dirs, rows, [("path", PyPath(p))]).Success?
    ensures ListsMatching(root, dirs, rows, PathConditions(p, true), Fetch(root, dirs, rows, [("path", PyPath(p))]).value)
  {
    PathFilterConditions(root, p, true);
    SelectMatches(root, dirs, rows, PathFiltersWith(root, [("path", PyPath(p))], true).value);
  }

  /** As written likewise, with the d.path condition for every parent. */
  lemma FetchByPathAsWritten(root: Path, dirs: seq<Path>, rows: seq<FileRow>, p: Path)
    requires DirsClean(dirs) && NamesClean(rows) && Clean(p)
    ensures AllAccepted(PathConditions(p, false))
    ensures FetchAsWritten(root, dirs, rows, [("path", PyPath(p))]).Success?
    ensures ListsMatching(root, dirs, rows, PathConditions(p, false), FetchAsWritten(root, dirs, rows, [("path", PyPath(p))]).value)
  {
    PathFilterConditions(root, p, false);
    SelectMatches(root, dirs, rows, PathFiltersWith(root, [("path", PyPath(p))], false).value);
  }

  // ---- The repository object ----

  class FileRepo {
    const db: DbConnector
    /** The dir table of the same database, which add() and get() read. */
    const dirRepo: DirRepository.DirRepo
    /** The file table: the row with id k + 1 is rows[k]. */
    var rows: seq<FileRow>

    /** FileRepo(db): the file table as the database holds it, empty when it was just created. */
    constructor (db: DbConnector, dirRepo: DirRepository.DirRepo, rows: seq<FileRow>)
      ensures this.db == db && this.dirRepo == dirRepo && this.rows == rows
    {
      this.db := db;
      this.dirRepo := dirRepo;
      this.rows := rows;
    }

    /**
     * add(files): each file in turn is placed, inserted and handed back; the first
     * failure is raised with the files before it stored, and its own insert undone.
     */
    method Add(arg: FilesArg, now: int) returns (r: Result<seq<FileRecord>>)
      modifies this
      ensures rows == old(rows) + AddAll(db.root, dirRepo.dirs, |old(rows)|, FilesOf(arg), now).0
      ensures r == AddAll(db.root, dirRepo.dirs, |old(rows)|, FilesOf(arg), now).1
    {
      r := StoreFiles(StoreStep(db.root, dirRepo.dirs, now), FilesOf(arg));
    }

    /**
     * The loop of add(): the step is applied to each file with the number of rows
     * before it, and the row it gives is appended, until a step fails.
     */
    method StoreFiles(step: Step, files: seq<FileRecord>) returns (r: Result<seq<FileRecord>>)
      modifies this
      ensures rows == old(rows) + StoreEach(step, |old(rows)|, files).0
      ensures r == StoreEach(step, |old(rows)|, files).1
    {
      ghost var n := |rows|;
      var inserted: seq<FileRecord> := [];
      assert files[..0] == [] && rows[n..] == [];
      for i := 0 to |files|
        invariant |rows| == n + i && rows[..n] == old(rows)
        invariant StoreEach(step, n, files[..i]) == (rows[n..], Success(inserted))
      {
        StoreEachNext(step, n, files, i);
        var stored := step(|rows|, files[i]);
        if stored.Failure? {
          StoreEachStopped(step, n, files, i + 1);
          assert rows == old(rows) + rows[n..];
          return Failure(stored.error);
        }
        assert (rows + [stored.value.0])[n..] == rows[n..] + [stored.value.0];
        rows := rows + [stored.value.0];
        inserted := inserted + [stored.value.1];
      }
      assert files[..|files|] == files;
      assert rows == old(rows) + rows[n..];
      return Success(inserted);
    }

    /**
     * get(**filters): the path filter rewritten, the loop turning each filter into a
     * condition, and the query over the LEFT JOIN of file with dir.
     */
    method Get(filters: seq<(string, PyValue)>) returns (r: Result<seq<FileRecord>>)
      ensures r == FetchAsWritten(db.root, dirRepo.dirs, rows, filters)
    {
      var fs := PathFiltersAsWritten(db.root, filters);
      if fs.Failure? {
        return Failure(fs.error);
      }
      var conds: seq<Condition> := [];
      for i := 0 to |fs.value|
        invariant Conditions(fs.value[..i]) == Success(conds)
      {
        assert fs.value[..i + 1][..i] == fs.value[..i] && fs.value[..i + 1][i] == fs.value[i];
        var c := KeyCondition(fs.value[i].0, fs.value[i].1);
        if c.Failure? {
          ConditionsStopped(fs.value, i + 1);
          return Failure(c.error);
        }
        conds := conds + [c.value];
      }
      assert fs.value[..|fs.value|] == fs.value;
      if |fs.value| == 0 {
        r := Records(db.root, dirRepo.dirs, rows, AllRows(|rows|));
      } else if !AllAccepted(conds) {
        r := Failure(SqlError);
      } else {
        RowsWhereIncreasing(dirRepo.dirs, rows, conds, |rows|);
        r := Records(db.root, dirRepo.dirs, rows, RowsWhere(dirRepo.dirs, rows, conds, |rows|));
      }
    }
  }
}
