/**
 * DirRepo of scoutlib/handler/db.py, the older directory store: a dir table of
 * (id, name, path) rows with unique paths, and a normaliser that makes paths
 * relative to the repo root and refuses what lies outside it.
 */
module LegacyRepo {
  import opened Wrappers
  import opened Paths

  /** The value a Directory's path attribute holds: declared str, though attrs lets a PurePath through. */
  datatype AttrValue = StrValue(s: string) | PurePathValue(p: Path)

  /** Directory of scoutlib/model/fs.py. */
  datatype Directory = Directory(name: string, path: AttrValue, id: Option<int>)

  /** What the older DirRepo's path parameters may be given. */
  datatype LegacyArg = Str(s: string) | Pure(p: Path) | Dir(d: Directory) | Other

  /** A row of the dir table: the id is the row's position plus one. */
  datatype LegacyRow = LegacyRow(name: string, path: Path)

  /** DirRepo(db_path, path): without a path the repo root is the db file's directory. */
  function RootFor(dbPath: Path, path: Option<Path>): (r: Path)
    ensures path.None? ==> r == Parent(dbPath)
    ensures path.Some? ==> r == path.value
  {
    if path.None? then Parent(dbPath) else path.value
  }

  /** db_path(): the file "dir.db" in the repo root. */
  function DbFile(root: Path): (r: Path)
    ensures Parent(r) == root && Name(r) == "dir.db"
  {
    Div(root, Path(false, ["dir.db"]))
  }

  /** The message of the ValueError for a path outside the repo. */
  function OutsideMessage(path: Path): string
  {
    "Path, " + Render(path) + ", not within DirRepo!"
  }

  /**
   * The path normalize_path goes on with, as written: a Directory's path attribute
   * as it is, a str parsed, a PurePath as it is.  None where the value has no
   * is_absolute(): a Directory whose path is a str, or any other argument.
   */
  function ArgPathAsWritten(a: LegacyArg): Option<Path>
  {
    match a
    case Str(s) => Some(Parse(s))
    case Pure(p) => Some(p)
    case Dir(d) => if d.path.PurePathValue? then Some(d.path.p) else None
    case Other => None
  }

  /** The path normalize_path is evidently meant to go on with: a Directory's str path is parsed as well. */
  function ArgPath(a: LegacyArg): Option<Path>
  {
    match a
    case Str(s) => Some(Parse(s))
    case Pure(p) => Some(p)
    case Dir(d) => Some(match d.path case StrValue(s) => Parse(s) case PurePathValue(p) => p)
    case Other => None
  }

  /**
   * The rest of normalize_path: a relative path is put under the root, and the
   * result is made relative to the root again, which fails for a path outside it.
   */
  function NormalizeFrom(root: Path, path: Option<Path>): Result<Path>
  {
    if path.None? then Failure(NoSuchAttribute)
    else
      var full := if path.value.absolute then path.value else Div(root, path.value);
      match RelativeTo(full, root)
      case None => Failure(PathOutsideRepo(OutsideMessage(full)))
      case Some(rel) => Success(rel)
  }

  /** normalize_path as written. */
  function NormalizeAsWritten(root: Path, a: LegacyArg): Result<Path>
  {
    NormalizeFrom(root, ArgPathAsWritten(a))
  }

  /** normalize_path with a Directory's str path parsed. */
  function Normalize(root: Path, a: LegacyArg): Result<Path>
  {
    NormalizeFrom(root, ArgPath(a))
  }

  /** denormalize_path: the root joined with the path; a value that is neither str nor PurePath cannot be joined. */
  function Denormalize(root: Path, a: LegacyArg): Result<Path>
  {
    match a
    case Str(s) => Success(Div(root, Parse(s)))
    case Pure(p) => Success(Div(root, p))
    case _ => Failure(WrongType)
  }

  // ---- Laws of the normaliser ----

  /** Whatever normalize_path hands back is relative. */
  lemma NormalizedRelative(root: Path, a: LegacyArg)
    requires Normalize(root, a).Success?
    ensures !Normalize(root, a).value.absolute
  {
  }

  /** A relative path is read as relative to the root and comes back unchanged, ".." components and all. */
  lemma NormalizeRelative(root: Path, p: Path)
    requires !p.absolute
    ensures Normalize(root, Pure(p)) == Success(p)
    ensures Normalize(root, Str(Render(p))) == Success(p)
  {
    ParseRender(p);
    assert Div(root, p).parts[|root.parts|..] == p.parts;
  }

  /**
   * An absolute path is accepted exactly when it lies under the root, and then
   * becomes its part below the root; otherwise the ValueError names the path.
   */
  lemma NormalizeAbsolute(root: Path, p: Path)
    requires p.absolute
    ensures Normalize(root, Pure(p)).Success? <==> Under(p, root)
    ensures Normalize(root, Pure(p)).Success? ==> Div(root, Normalize(root, Pure(p)).value) == p
    ensures Normalize(root, Pure(p)).Failure? ==> Normalize(root, Pure(p)).error == PathOutsideRepo(OutsideMessage(p))
  {
  }

  /** An absolute root normalises to the empty path. */
  lemma NormalizeRoot(root: Path)
    requires root.absolute
    ensures Normalize(root, Pure(root)) == Success(Here)
  {
    assert root.parts[|root.parts|..] == [];
  }

  /** A path outside an absolute root, such as the root's own parent, is refused with its message. */
  lemma NormalizeParentRefused(root: Path)
    requires root.absolute && |root.parts| > 0
    ensures Normalize(root, Pure(Parent(root))) == Failure(PathOutsideRepo(OutsideMessage(Parent(root))))
  {
    assert !Under(Parent(root), root);
  }

  /** normalize_path is idempotent. */
  lemma NormalizeIdempotent(root: Path, a: LegacyArg)
    requires Normalize(root, a).Success?
    ensures Normalize(root, Pure(Normalize(root, a).value)) == Normalize(root, a)
  {
    NormalizeRelative(root, Normalize(root, a).value);
  }

  /** Under an absolute root, denormalising a normalised path and normalising again gives it back. */
  lemma NormalizeDenormalize(root: Path, a: LegacyArg)
    requires root.absolute && Normalize(root, a).Success?
    ensures var p := Normalize(root, a).value;
      Denormalize(root, Pure(p)).Success? && Normalize(root, Pure(Denormalize(root, Pure(p)).value)) == Success(p)
  {
    var p := Normalize(root, a).value;
    var full := Div(root, p);
    assert full.parts[|root.parts|..] == p.parts;
  }

  /**
   * Under a relative root (the default for a db path given without a directory)
   * the denormalised path is relative too, so normalising it puts the root in front
   * a second time: the round trip gives root / p instead of p.
   */
  lemma RelativeRootRoundTrip(root: Path, p: Path)
    requires !root.absolute && !p.absolute
    ensures Normalize(root, Pure(Denormalize(root, Pure(p)).value)) == Success(Div(root, p))
  {
    NormalizeRelative(root, Div(root, p));
  }

  /** For a path under an absolute root, denormalising what normalize_path gives is the path itself. */
  lemma DenormalizeNormalize(root: Path, p: Path)
    requires p.absolute && Under(p, root)
    ensures Normalize(root, Pure(p)).Success?
    ensures Denormalize(root, Pure(Normalize(root, Pure(p)).value)) == Success(p)
  {
  }

  /** The empty path denormalises to the root. */
  lemma DenormalizeHere(root: Path)
    ensures Denormalize(root, Pure(Here)) == Success(root)
    ensures Denormalize(root, Str("")) == Success(root)
  {
    assert root.parts + [] == root.parts;
    assert Segments("", "") == [];
  }

  /**
   * As written, a Directory built the usual way, with its path as a str, cannot be
   * normalised: str has no is_absolute().
   */
  lemma DirectoryRefusedAsWritten(root: Path, name: string, s: string, id: Option<int>)
    ensures NormalizeAsWritten(root, Dir(Directory(name, StrValue(s), id))) == Failure(NoSuchAttribute)
  {
  }

  /** With the str path parsed, a Directory normalises as its path does. */
  lemma DirectoryNormalizes(root: Path, name: string, s: string, id: Option<int>)
    ensures Normalize(root, Dir(Directory(name, StrValue(s), id))) == Normalize(root, Str(s))
    ensures Normalize(root, Dir(Directory(name, PurePathValue(Parse(s)), id))) == Normalize(root, Str(s))
  {
  }

  /** Both readings agree on everything but a Directory holding a str. */
  lemma NormalizeAgrees(root: Path, a: LegacyArg)
    requires !(a.Dir? && a.d.path.StrValue?)
    ensures NormalizeAsWritten(root, a) == Normalize(root, a)
  {
  }

  // ---- The dir table ----

  /** SELECT * FROM dir WHERE path = ?: the id of the row holding p, if any. */
  function FindRow(rows: seq<LegacyRow>, p: Path): (r: Option<int>)
    ensures r.Some? ==> 1 <= r.value <= |rows| && rows[r.value - 1].path == p
    ensures r.None? <==> forall k :: 0 <= k < |rows| ==> rows[k].path != p
    decreases |rows|
  {
    if |rows| == 0 then None
    else if rows[|rows| - 1].path == p then Some(|rows|)
    else FindRow(rows[..|rows| - 1], p)
  }

  /** No two rows hold the same path, as the UNIQUE constraint on path keeps it. */
  predicate PathsUnique(rows: seq<LegacyRow>)
  {
    forall i, j :: 0 <= i < j < |rows| ==> rows[i].path != rows[j].path
  }

  /**
   * insert_into_dir on the table rows, with normalize_path as written: the normalised path is inserted with the
   * name and the new id handed back; a name of None (NOT NULL) or a path already
   * present (UNIQUE) makes SQLite refuse the insert, and None comes back.
   */
  function Inserted(root: Path, rows: seq<LegacyRow>, name: Option<string>, a: LegacyArg): Result<(seq<LegacyRow>, Option<int>)>
  {
    var np :- NormalizeAsWritten(root, a);
    if name.None? || FindRow(rows, np).Some? then Success((rows, None))
    else Success((rows + [LegacyRow(name.value, np)], Some(|rows| + 1)))
  }

  /** A new path gets one new row, last, and its id; nothing else changes. */
  lemma InsertFresh(root: Path, rows: seq<LegacyRow>, name: string, a: LegacyArg)
    requires NormalizeAsWritten(root, a).Success?
    requires forall k :: 0 <= k < |rows| ==> rows[k].path != NormalizeAsWritten(root, a).value
    ensures Inserted(root, rows, Some(name), a) == Success((rows + [LegacyRow(name, NormalizeAsWritten(root, a).value)], Some(|rows| + 1)))
  {
    assert FindRow(rows, NormalizeAsWritten(root, a).value).None?;
  }

  /** A path already in the table leaves it as it is, and None comes back. */
  lemma InsertDuplicate(root: Path, rows: seq<LegacyRow>, name: Option<string>, a: LegacyArg, k: int)
    requires NormalizeAsWritten(root, a).Success? && 0 <= k < |rows| && rows[k].path == NormalizeAsWritten(root, a).value
    ensures Inserted(root, rows, name, a) == Success((rows, None))
  {
  }

  /** A path outside the repo raises before anything is inserted. */
  lemma InsertOutside(root: Path, rows: seq<LegacyRow>, name: Option<string>, a: LegacyArg)
    requires NormalizeAsWritten(root, a).Failure?
    ensures Inserted(root, rows, name, a) == Failure(NormalizeAsWritten(root, a).error)
  {
  }

  /** Inserting keeps paths unique. */
  lemma InsertKeepsUnique(root: Path, rows: seq<LegacyRow>, name: Option<string>, a: LegacyArg)
    requires PathsUnique(rows) && Inserted(root, rows, name, a).Success?
    ensures PathsUnique(Inserted(root, rows, name, a).value.0)
  {
  }

  /** Inserting the same path twice leaves one row for it: the second insert changes nothing. */
  lemma InsertTwice(root: Path, rows: seq<LegacyRow>, name: string, name2: Option<string>, a: LegacyArg)
    requires Inserted(root, rows, Some(name), a).Success?
    ensures var once := Inserted(root, rows, Some(name), a).value.0;
      Inserted(root, once, name2, a) == Success((once, None))
  {
    var np := NormalizeAsWritten(root, a).value;
    var once := Inserted(root, rows, Some(name), a).value.0;
    if FindRow(rows, np).None? {
      assert once[|rows|].path == np;
    } else {
      var k := FindRow(rows, np).value - 1;
      assert once[k].path == np;
    }
  }

  /** A row inserted by insert_into_dir is what select_dir_where_path finds for the same path. */
  lemma InsertThenSelect(root: Path, rows: seq<LegacyRow>, name: string, a: LegacyArg)
    requires PathsUnique(rows) && NormalizeAsWritten(root, a).Success?
    requires Inserted(root, rows, Some(name), a).value.1.Some?
    ensures var (rows', id) := Inserted(root, rows, Some(name), a).value;
      SelectWherePath(root, rows', a) == Success(Some((id.value, name, NormalizeAsWritten(root, a).value)))
  {
    var np := NormalizeAsWritten(root, a).value;
    var rows' := rows + [LegacyRow(name, np)];
    assert rows'[|rows|].path == np;
    assert rows'[..|rows|] == rows;
  }

  /** select_dir_where_path on the table rows: the (id, name, path) of the row holding the normalised path. */
  function SelectWherePath(root: Path, rows: seq<LegacyRow>, a: LegacyArg): Result<Option<(int, string, Path)>>
  {
    var np :- NormalizeAsWritten(root, a);
    match FindRow(rows, np)
    case None => Success(None)
    case Some(id) => Success(Some((id, rows[id - 1].name, rows[id - 1].path)))
  }

  /** What select_dir_where_path finds holds the normalised path, and it finds a row whenever one holds it. */
  lemma SelectFinds(root: Path, rows: seq<LegacyRow>, a: LegacyArg)
    requires NormalizeAsWritten(root, a).Success?
    ensures SelectWherePath(root, rows, a).Success?
    ensures SelectWherePath(root, rows, a).value.Some? <==>
      exists k :: 0 <= k < |rows| && rows[k].path == NormalizeAsWritten(root, a).value
    ensures SelectWherePath(root, rows, a).value.Some? ==>
      var (id, name, path) := SelectWherePath(root, rows, a).value.value;
      1 <= id <= |rows| && rows[id - 1] == LegacyRow(name, path) && path == NormalizeAsWritten(root, a).value
  {
  }

  /**
   * As written, neither insert_into_dir nor select_dir_where_path gets past
   * normalize_path with a Directory whose path is a str; any other argument is
   * normalised as the corrected reading does.
   */
  lemma TableRefusesStrDirectory(root: Path, rows: seq<LegacyRow>, name: Option<string>, a: LegacyArg)
    ensures a.Dir? && a.d.path.StrValue? ==>
      Inserted(root, rows, name, a) == Failure(NoSuchAttribute) &&
      SelectWherePath(root, rows, a) == Failure(NoSuchAttribute)
    ensures !(a.Dir? && a.d.path.StrValue?) ==> NormalizeAsWritten(root, a) == Normalize(root, a)
  {
    if !(a.Dir? && a.d.path.StrValue?) {
      NormalizeAgrees(root, a);
    }
  }

  /** The repository object: the db file, the repo root and the dir table's rows. */
  class LegacyDirRepo {
    const pathDb: Path
    const root: Path
    var rows: seq<LegacyRow>

    /** DirRepo(db_path, path): a str db path is parsed; the table is the one the file holds. */
    constructor (dbPath: LegacyArg, path: Option<Path>, rows: seq<LegacyRow>)
      requires dbPath.Str? || dbPath.Pure?
      ensures pathDb == (if dbPath.Str? then Parse(dbPath.s) else dbPath.p)
      ensures root == RootFor(pathDb, path) && this.rows == rows
    {
      var p := if dbPath.Str? then Parse(dbPath.s) else dbPath.p;
      pathDb := p;
      root := RootFor(p, path);
      this.rows := rows;
    }

    /** ancestor_paths: the root-first chain of prefixes of the normalised path. */
    method AncestorPaths(a: LegacyArg) returns (r: Result<seq<Path>>)
      ensures r.Success? <==> NormalizeAsWritten(root, a).Success?
      ensures r.Failure? ==> r.error == NormalizeAsWritten(root, a).error
      ensures r.Success? ==> r.value == Prefixes(NormalizeAsWritten(root, a).value)
    {
      var n := NormalizeAsWritten(root, a);
      if n.Failure? {
        return Failure(n.error);
      }
      var chain := AncestorChain(n.value);
      return Success(chain);
    }

    /** insert_into_dir(name, path). */
    method InsertIntoDir(name: Option<string>, a: LegacyArg) returns (r: Result<Option<int>>)
      modifies this
      ensures Inserted(root, old(rows), name, a).Success? ==> rows == Inserted(root, old(rows), name, a).value.0
      ensures Inserted(root, old(rows), name, a).Failure? ==> rows == old(rows)
      ensures r.Success? <==> Inserted(root, old(rows), name, a).Success?
      ensures r.Success? ==> r.value == Inserted(root, old(rows), name, a).value.1
      ensures r.Failure? ==> r.error == Inserted(root, old(rows), name, a).error
    {
      var np := NormalizeAsWritten(root, a);
      if np.Failure? {
        return Failure(np.error);
      }
      if name.None? || FindRow(rows, np.value).Some? {
        return Success(None);
      }
      rows := rows + [LegacyRow(name.value, np.value)];
      return Success(Some(|rows|));
    }

    /** select_dir_where_path(path). */
    method SelectDirWherePath(a: LegacyArg) returns (r: Result<Option<(int, string, Path)>>)
      ensures r == SelectWherePath(root, rows, a)
    {
      var np := NormalizeAsWritten(root, a);
      if np.Failure? {
        return Failure(np.error);
      }
      var id := FindRow(rows, np.value);
      if id.None? {
        return Success(None);
      }
      var row := rows[id.value - 1];
      return Success(Some((id.value, row.name, row.path)));
    }
  }
}
