/**
 * DBConnector, in both copies (lib/handler/db_connector.py and
 * scoutlib/handler/db_connector.py): root-relative path normalisation and the
 * constructor's choice between creating a database and reopening one.
 */
module Connector {
  import opened Wrappers
  import opened Text
  import opened Paths
  import opened DirModel

  /** A path argument: a str, a PurePath, a Dir, or a value of some other type (with its str()). */
  datatype PathArg = TextArg(s: string) | PureArg(p: Path) | DirArg(d: Dir) | OtherArg(repr: string)

  /** str(arg), the text the ".." test looks at. */
  function ArgString(a: PathArg): string
  {
    match a
    case TextArg(s) => s
    case PureArg(p) => Render(p)
    case DirArg(d) => Repr(d)
    case OtherArg(repr) => repr
  }

  /** The path the argument denotes, for the argument types the lib copy accepts. */
  function ArgPath(a: PathArg): Path
    requires !a.OtherArg?
  {
    match a
    case TextArg(s) => Parse(s)
    case PureArg(p) => p
    case DirArg(d) => d.path
  }

  /** An argument without ".." in its text denotes a path with no ".." component. */
  lemma ArgNoDotDot(a: PathArg)
    requires !a.OtherArg? && !HasDotDot(ArgString(a))
    ensures !PartHasDotDot(ArgPath(a).parts)
  {
    match a
    case TextArg(s) => ParseNoDotDot(s);
    case PureArg(p) => RenderDotDot(p);
    case DirArg(d) => ReprDotDot(d);
  }

  /** The normalisation both copies share once the argument is a path: root / path, then relative_to(root). */
  function Relativize(root: Path, p: Path): (r: Result<Path>)
    ensures r.Success? <==> !p.absolute || Under(p, root)
    ensures r.Failure? ==> r.error == PathOutsideRoot
    ensures r.Success? ==> !r.value.absolute && Div(root, r.value) == Div(root, p)
    ensures r.Success? && !p.absolute ==> r.value == p
  {
    var full := if p.absolute then p else Div(root, p);
    match RelativeTo(full, root)
    case None => Failure(PathOutsideRoot)
    case Some(rel) =>
      assert !p.absolute ==> rel.parts == p.parts;
      Success(rel)
  }

  /** DBConnector.normalize_path of the lib copy, which also accepts a Dir. */
  function Normalize(root: Path, arg: PathArg): (r: Result<Path>)
    ensures HasDotDot(ArgString(arg)) ==> r == Failure(PathNotSupported)
    ensures !HasDotDot(ArgString(arg)) && arg.OtherArg? ==> r == Failure(WrongType)
    ensures !HasDotDot(ArgString(arg)) && !arg.OtherArg? ==>
      (r.Success? <==> !ArgPath(arg).absolute || Under(ArgPath(arg), root))
    ensures r.Failure? && !HasDotDot(ArgString(arg)) && !arg.OtherArg? ==> r.error == PathOutsideRoot
    ensures r.Success? ==> !r.value.absolute && !PartHasDotDot(r.value.parts)
    ensures r.Success? ==> Div(root, r.value) == Div(root, ArgPath(arg))
    ensures r.Success? && !ArgPath(arg).absolute ==> r.value == ArgPath(arg)
  {
    if HasDotDot(ArgString(arg)) then Failure(PathNotSupported)
    else if arg.OtherArg? then Failure(WrongType)
    else
      ArgNoDotDot(arg);
      var r := Relativize(root, ArgPath(arg));
      assert r.Success? ==> r.value.parts == ArgPath(arg).parts[|ArgPath(arg).parts| - |r.value.parts|..];
      r
  }

  /** DBConnector.normalize_path of the scoutlib copy: PurePath(arg), so a Dir is a TypeError. */
  function NormalizeScout(root: Path, arg: PathArg): (r: Result<Path>)
    ensures HasDotDot(ArgString(arg)) ==> r == Failure(PathNotSupported)
    ensures !HasDotDot(ArgString(arg)) && (arg.OtherArg? || arg.DirArg?) ==> r == Failure(WrongType)
    ensures r.Success? ==> !r.value.absolute
    ensures r.Failure? ==> r.error == PathNotSupported || r.error == WrongType || r.error == PathOutsideRoot
  {
    if HasDotDot(ArgString(arg)) then Failure(PathNotSupported)
    else
      match arg
      case TextArg(s) => Relativize(root, Parse(s))
      case PureArg(p) => Relativize(root, p)
      case _ => Failure(WrongType)
  }

  /** The two copies agree on every argument that is not a Dir. */
  lemma NormalizeCopiesAgree(root: Path, arg: PathArg)
    requires !arg.DirArg?
    ensures NormalizeScout(root, arg) == Normalize(root, arg)
  {
  }

  /** DBConnector.denormalize_path (the same in both copies): root / path, for paths inside the root. */
  function Denormalize(root: Path, arg: PathArg): (r: Result<Path>)
    ensures HasDotDot(ArgString(arg)) ==> r == Failure(PathNotSupported)
    ensures !HasDotDot(ArgString(arg)) && (arg.OtherArg? || arg.DirArg?) ==> r == Failure(WrongType)
    ensures !HasDotDot(ArgString(arg)) && (arg.TextArg? || arg.PureArg?) ==>
      (r.Success? <==> !ArgPath(arg).absolute || Under(ArgPath(arg), root))
    ensures r.Failure? && !HasDotDot(ArgString(arg)) && (arg.TextArg? || arg.PureArg?) ==> r.error == PathOutsideRoot
    ensures r.Success? && ArgPath(arg).absolute ==> r.value == ArgPath(arg)
    ensures r.Success? && !ArgPath(arg).absolute ==>
      r.value.absolute == root.absolute && r.value.parts == root.parts + ArgPath(arg).parts
  {
    if HasDotDot(ArgString(arg)) then Failure(PathNotSupported)
    else if arg.OtherArg? || arg.DirArg? then Failure(WrongType)
    else
      var p := ArgPath(arg);
      if p.absolute then
        match RelativeTo(p, root)
        case None => Failure(PathOutsideRoot)
        case Some(rel) => Success(Div(root, rel))
      else Success(Div(root, p))
  }

  // ---- Laws of the normaliser ----

  /** A relative path is taken to be root-relative already and comes back unchanged. */
  lemma NormalizeRelativeUnchanged(root: Path, p: Path)
    requires !p.absolute && !PartHasDotDot(p.parts)
    ensures Normalize(root, PureArg(p)) == Success(p)
    ensures Normalize(root, TextArg(Render(p))) == Success(p)
  {
    RenderDotDot(p);
    ParseRender(p);
  }

  /** normalize_path is idempotent. */
  lemma NormalizeIdempotent(root: Path, arg: PathArg)
    requires Normalize(root, arg).Success?
    ensures Normalize(root, PureArg(Normalize(root, arg).value)) == Normalize(root, arg)
  {
    var r := Normalize(root, arg).value;
    RenderDotDot(r);
  }

  /** An absolute path under the root normalises to what follows the root, one outside it is refused. */
  lemma NormalizeAbsolute(root: Path, p: Path)
    requires p.absolute && !PartHasDotDot(p.parts)
    ensures Under(p, root) ==> Normalize(root, PureArg(p)) == Success(Path(false, p.parts[|root.parts|..]))
    ensures !Under(p, root) ==> Normalize(root, PureArg(p)) == Failure(PathOutsideRoot)
  {
    RenderDotDot(p);
    assert Under(p, root) ==> p.parts == root.parts + p.parts[|root.parts|..];
  }

  /** Denormalising what normalize_path returned gives back the absolute form of the argument. */
  lemma DenormalizeNormalize(root: Path, arg: PathArg)
    requires Normalize(root, arg).Success?
    ensures Denormalize(root, PureArg(Normalize(root, arg).value)) == Success(Div(root, ArgPath(arg)))
  {
    var r := Normalize(root, arg).value;
    RenderDotDot(r);
  }

  /** Under an absolute root without "..", normalising a denormalised root-relative path gives it back. */
  lemma NormalizeDenormalize(root: Path, p: Path)
    requires root.absolute && !PartHasDotDot(root.parts)
    requires !p.absolute && !PartHasDotDot(p.parts)
    ensures Denormalize(root, PureArg(p)).Success?
    ensures Normalize(root, PureArg(Denormalize(root, PureArg(p)).value)) == Success(p)
  {
    RenderDotDot(p);
    var q := Denormalize(root, PureArg(p)).value;
    assert q.parts == root.parts + p.parts;
    PartHasDotDotAppend(root.parts, p.parts);
    RenderDotDot(q);
    assert q.parts[|root.parts|..] == p.parts;
  }

  /**
   * The same round trip fails under a relative root: denormalising gives a relative
   * path, which normalize_path takes as root-relative again and hands back whole,
   * so the result is root / p instead of p.
   */
  lemma RelativeRootRoundTrip(root: Path, p: Path)
    requires !root.absolute && !PartHasDotDot(root.parts)
    requires !p.absolute && !PartHasDotDot(p.parts)
    ensures Denormalize(root, PureArg(p)) == Success(Div(root, p))
    ensures Normalize(root, PureArg(Div(root, p))) == Success(Div(root, p))
  {
    RenderDotDot(p);
    var q := Div(root, p);
    assert q.parts == root.parts + p.parts;
    PartHasDotDotAppend(root.parts, p.parts);
    NormalizeRelativeUnchanged(root, q);
  }

  /** The empty path (PurePath() or "") denormalises to the root itself. */
  lemma DenormalizeEmpty(root: Path)
    ensures Denormalize(root, PureArg(Here)) == Success(root)
    ensures Denormalize(root, TextArg("")) == Success(root)
  {
    assert !HasDotDot(".");
    assert root.parts + [] == root.parts;
  }

  /** DBConnector.ancestor_paths: the root-first chain of prefixes of the normalised path. */
  method AncestorPaths(root: Path, arg: PathArg) returns (r: Result<seq<Path>>)
    ensures r.Success? <==> Normalize(root, arg).Success?
    ensures r.Failure? ==> r.error == Normalize(root, arg).error
    ensures r.Success? ==> r.value == Prefixes(Normalize(root, arg).value)
  {
    var n := Normalize(root, arg);
    if n.Failure? {
      return Failure(n.error);
    }
    var chain := AncestorChain(n.value);
    return Success(chain);
  }

  /** What ancestor_paths promises: one path per component, root first, ending with the path itself. */
  lemma AncestorPathsShape(root: Path, arg: PathArg)
    requires Normalize(root, arg).Success?
    ensures var p := Normalize(root, arg).value;
      var chain := Prefixes(p);
      |chain| == |p.parts| && (|chain| > 0 ==> chain[|chain| - 1] == p) &&
      (p == Here <==> chain == []) &&
      forall i :: 0 <= i < |chain| ==> !chain[i].absolute && |chain[i].parts| == i + 1 && chain[i].parts <= p.parts
  {
  }

  // ---- Creating or reopening the database file ----

  /** What the filesystem holds at a path, as far as the constructor asks. */
  datatype Entry =
    | Directory
    | ScoutDb(rootText: string)   // a SQLite file with an fs_meta row 'root'
    | OtherFile                   // any other file, SQLite or not

  /** The filesystem: a missing key is a path where nothing exists. */
  type World = map<Path, Entry>

  predicate IsDir(w: World, p: Path) { p in w && w[p] == Directory }

  /** The path argument of the constructor: a str, a PurePath or some other value. */
  datatype FileArg = FileText(s: string) | FilePure(p: Path) | FileOther

  /** The root argument: None, a str, a PurePath or some other value. */
  datatype RootArg = RootNone | RootText(s: string) | RootPure(p: Path) | RootOther

  /** The path a str or PurePath argument of the constructor names. */
  function FileArgPath(arg: FileArg): Path
    requires !arg.FileOther?
  {
    if arg.FileText? then Parse(arg.s) else arg.p
  }

  /** validate_arg_path: a str or PurePath, inside a directory, absent or a scout db. */
  function ValidatePath(w: World, arg: FileArg): (r: Result<Path>)
    ensures arg.FileOther? ==> r == Failure(WrongType)
    ensures r.Success? ==> !arg.FileOther? && r.value == FileArgPath(arg)
    ensures r.Success? ==> IsDir(w, Parent(r.value)) && (r.value !in w || w[r.value].ScoutDb?)
    ensures !arg.FileOther? ==>
      (r.Success? <==> IsDir(w, Parent(FileArgPath(arg))) && (FileArgPath(arg) !in w || w[FileArgPath(arg)].ScoutDb?))
    ensures !arg.FileOther? && !IsDir(w, Parent(FileArgPath(arg))) ==> r == Failure(NotInDirectory)
    ensures !arg.FileOther? && IsDir(w, Parent(FileArgPath(arg))) && FileArgPath(arg) in w ==>
      (w[FileArgPath(arg)] == OtherFile ==> r == Failure(FileOccupied)) &&
      (w[FileArgPath(arg)] == Directory ==> r == Failure(IsADirectory))
  {
    var p :- match arg
      case FileText(s) => Success(Parse(s))
      case FilePure(p) => Success(p)
      case FileOther => Failure(WrongType);
    if !IsDir(w, Parent(p)) then Failure(NotInDirectory)
    else if p in w && !w[p].ScoutDb? then
      if w[p] == Directory then Failure(IsADirectory) else Failure(FileOccupied)
    else Success(p)
  }

  /** validate_arg_root: None means the db file's parent; the root must be a directory. */
  function ValidateRoot(w: World, path: Path, arg: RootArg): (r: Result<Path>)
    ensures arg.RootOther? ==> r == Failure(WrongType)
    ensures r.Success? ==> IsDir(w, r.value)
    ensures arg.RootNone? ==> (r.Success? <==> IsDir(w, Parent(path))) && (r.Success? ==> r.value == Parent(path))
    ensures arg.RootPure? ==> (r.Success? <==> IsDir(w, arg.p)) && (r.Success? ==> r.value == arg.p)
    ensures arg.RootText? ==> (r.Success? <==> IsDir(w, Parse(arg.s))) && (r.Success? ==> r.value == Parse(arg.s))
    ensures r.Failure? && !arg.RootOther? ==> r.error == RootNotDirectory
  {
    var root :- match arg
      case RootNone => Success(Parent(path))
      case RootText(s) => Success(Parse(s))
      case RootPure(p) => Success(p)
      case RootOther => Failure(WrongType);
    if IsDir(w, root) then Success(root) else Failure(RootNotDirectory)
  }

  /** The connector's final state, and whether the constructor wrote a new database. */
  datatype Opened = Opened(path: Path, root: Path, created: bool)

  /**
   * DBConnector.__init__: validate both arguments, then create the database with
   * the validated root, or reopen it and take its persisted root instead.
   */
  function OpenDecision(w: World, pathArg: FileArg, rootArg: RootArg): (r: Result<Opened>)
    ensures r.Success? <==> ValidatePath(w, pathArg).Success? && ValidateRoot(w, ValidatePath(w, pathArg).value, rootArg).Success?
    ensures r.Success? ==> r.value.path == ValidatePath(w, pathArg).value
    ensures r.Success? ==> (r.value.created <==> r.value.path !in w)
    ensures r.Success? && r.value.created ==> r.value.root == ValidateRoot(w, r.value.path, rootArg).value
    ensures r.Success? && !r.value.created ==> r.value.root == Parse(w[r.value.path].rootText)
  {
    var path :- ValidatePath(w, pathArg);
    var root :- ValidateRoot(w, path, rootArg);
    if path !in w then Success(Opened(path, root, true))
    else if w[path].ScoutDb? then Success(Opened(path, Parse(w[path].rootText), false))
    else
      // validate_arg_path has already refused every other existing entry
      assert false; Failure(FileOccupied)
  }

  /**
   * init_db puts str(root) between quotes in its INSERT: a root whose text holds a
   * quote breaks the statement, after CREATE TABLE has already made the file.
   */
  predicate InitFails(o: Opened)
  {
    o.created && '\'' in Render(o.root)
  }

  /**
   * The filesystem after the constructor: init_db writes str(root) as the persisted
   * root; when its INSERT fails the file holds fs_meta without a root row, which
   * is_scout_db_file does not accept.
   */
  function AfterOpen(w: World, o: Opened): (w': World)
    ensures o.created && !InitFails(o) ==> w' == w[o.path := ScoutDb(Render(o.root))]
    ensures InitFails(o) ==> w' == w[o.path := OtherFile]
    ensures !o.created ==> w' == w
  {
    if !o.created then w
    else if InitFails(o) then w[o.path := OtherFile]
    else w[o.path := ScoutDb(Render(o.root))]
  }

  /** On reopen the persisted root replaces whatever root was passed, as long as that root validates. */
  lemma PersistedRootWins(w: World, p: Path, rootText: string, rootArg: RootArg)
    requires IsDir(w, Parent(p)) && p in w && w[p] == ScoutDb(rootText)
    requires ValidateRoot(w, p, rootArg).Success?
    ensures OpenDecision(w, FilePure(p), rootArg) == Success(Opened(p, Parse(rootText), false))
  {
  }

  /** With nothing at the path, the database is created with the validated root. */
  lemma MissingFileCreates(w: World, p: Path, rootArg: RootArg)
    requires IsDir(w, Parent(p)) && p !in w
    requires ValidateRoot(w, p, rootArg).Success?
    ensures OpenDecision(w, FilePure(p), rootArg) == Success(Opened(p, ValidateRoot(w, p, rootArg).value, true))
  {
  }

  /** Leaving the root out can never fail once the path is valid: the path's parent is a directory. */
  lemma DefaultRootAlwaysValid(w: World, pathArg: FileArg)
    requires ValidatePath(w, pathArg).Success?
    ensures OpenDecision(w, pathArg, RootNone).Success?
    ensures OpenDecision(w, pathArg, RootNone).value.created ==>
      OpenDecision(w, pathArg, RootNone).value.root == Parent(OpenDecision(w, pathArg, RootNone).value.path)
  {
  }

  /** An existing file that is not a scout database, or a directory, is refused. */
  lemma OccupiedPathRefused(w: World, p: Path, rootArg: RootArg)
    requires IsDir(w, Parent(p)) && p in w && !w[p].ScoutDb?
    ensures w[p] == OtherFile ==> OpenDecision(w, FilePure(p), rootArg) == Failure(FileOccupied)
    ensures w[p] == Directory ==> OpenDecision(w, FilePure(p), rootArg) == Failure(IsADirectory)
  {
  }

  /** Opening a freshly created database again yields the root it was created with. */
  lemma CreateThenReopen(w: World, p: Path, rootArg: RootArg, rootArg2: RootArg)
    requires OpenDecision(w, FilePure(p), rootArg).Success?
    requires OpenDecision(w, FilePure(p), rootArg).value.created
    requires !InitFails(OpenDecision(w, FilePure(p), rootArg).value)
    requires ValidateRoot(AfterOpen(w, OpenDecision(w, FilePure(p), rootArg).value), p, rootArg2).Success?
    ensures var o := OpenDecision(w, FilePure(p), rootArg).value;
      OpenDecision(AfterOpen(w, o), FilePure(p), rootArg2) == Success(Opened(p, o.root, false))
  {
    var o := OpenDecision(w, FilePure(p), rootArg).value;
    ParseRender(o.root);
    var w' := AfterOpen(w, o);
    assert Parent(p) != p by {
      // the parent is a directory in w while p is absent from w
      assert Parent(p) in w && p !in w;
    }
    assert IsDir(w', Parent(p));
  }

  /**
   * A root whose text holds a quote leaves a file that is no scout database: the
   * next attempt to open the same path is refused as occupied.
   */
  lemma QuotedRootSpoilsPath(w: World, p: Path, rootArg: RootArg, rootArg2: RootArg)
    requires OpenDecision(w, FilePure(p), rootArg).Success?
    requires InitFails(OpenDecision(w, FilePure(p), rootArg).value)
    ensures OpenDecision(AfterOpen(w, OpenDecision(w, FilePure(p), rootArg).value), FilePure(p), rootArg2) == Failure(FileOccupied)
  {
    var o := OpenDecision(w, FilePure(p), rootArg).value;
    var w' := AfterOpen(w, o);
    assert Parent(p) != p by {
      assert Parent(p) in w && p !in w;
    }
    assert IsDir(w', Parent(p));
  }

  /** The connector object: the db file's path and the root its paths are relative to. */
  class DbConnector {
    var path: Path
    var root: Path

    constructor (path: Path, root: Path)
      ensures this.path == path && this.root == root
    {
      this.path := path;
      this.root := root;
    }

    /** self.root = read_root(self.path): reopening replaces the root and leaves the path. */
    method TakePersistedRoot(rootText: string)
      modifies this
      ensures path == old(path) && root == Parse(rootText)
    {
      root := Parse(rootText);
    }

    /** self.normalize_path (lib copy) against the current root. */
    function NormalizePath(arg: PathArg): (r: Result<Path>)
      reads this
    {
      Normalize(root, arg)
    }

    /** self.denormalize_path against the current root. */
    function DenormalizePath(arg: PathArg): (r: Result<Path>)
      reads this
    {
      Denormalize(root, arg)
    }
  }

  /**
   * DBConnector(path, root): assigns the validated path and root, then either
   * writes a new database or overwrites the root with the persisted one.
   */
  method Connect(w: World, pathArg: FileArg, rootArg: RootArg) returns (r: Result<DbConnector>, w': World)
    ensures r.Success? <==> OpenDecision(w, pathArg, rootArg).Success? && !InitFails(OpenDecision(w, pathArg, rootArg).value)
    ensures OpenDecision(w, pathArg, rootArg).Failure? ==> r == Failure(OpenDecision(w, pathArg, rootArg).error) && w' == w
    ensures OpenDecision(w, pathArg, rootArg).Success? && InitFails(OpenDecision(w, pathArg, rootArg).value) ==>
      r == Failure(SqlError) && w' == AfterOpen(w, OpenDecision(w, pathArg, rootArg).value)
    ensures r.Success? ==> fresh(r.value)
    ensures r.Success? ==> r.value.path == OpenDecision(w, pathArg, rootArg).value.path
    ensures r.Success? ==> r.value.root == OpenDecision(w, pathArg, rootArg).value.root
    ensures r.Success? ==> w' == AfterOpen(w, OpenDecision(w, pathArg, rootArg).value)
  {
    w' := w;
    var path := ValidatePath(w, pathArg);
    if path.Failure? {
      return Failure(path.error), w';
    }
    var root := ValidateRoot(w, path.value, rootArg);
    if root.Failure? {
      return Failure(root.error), w';
    }
    var c := new DbConnector(path.value, root.value);
    if path.value !in w {
      if '\'' in Render(c.root) {
        w' := w[c.path := OtherFile];
        return Failure(SqlError), w';
      }
      w' := w[c.path := ScoutDb(Render(c.root))];
    } else {
      c.TakePersistedRoot(w[path.value].rootText);
    }
    return Success(c), w';
  }
}
