/**
 * The value types of lib/model/dir.py: a directory (a path and an optional row id),
 * the id validator, and a file (a name inside a parent directory).
 */
module DirModel {
  import opened Wrappers
  import opened Text
  import opened Paths

  // ---- Validator.id ----

  /** The value handed to Validator.id: None, a Python int, or anything else. */
  datatype IdArg = NoId | IntId(i: int) | NonIntId

  /** Validator.id: None passes, a non-int or a negative int is a ValueError. */
  function ValidateId(v: IdArg): (r: Result<Option<int>>)
    ensures r.Success? <==> v.NoId? || (v.IntId? && v.i >= 0)
    ensures r.Failure? ==> r.error == InvalidId
    ensures r.Success? ==> (r.value.Some? <==> v.IntId?)
    ensures r.Success? && v.IntId? ==> r.value == Some(v.i)
  {
    match v
    case NoId => Success(None)
    case NonIntId => Failure(InvalidId)
    case IntId(i) => if i < 0 then Failure(InvalidId) else Success(Some(i))
  }

  // ---- Dir ----

  datatype Dir = Dir(path: Path, id: Option<int>)

  /** The path argument of Dir(...): a str or an already-built PurePath. */
  datatype PathInput = Text(s: string) | Pure(p: Path)

  /** Dir(path, id): a str is parsed with PurePath, a PurePath is kept, the id is stored as given. */
  function NewDir(path: PathInput, id: Option<int>): (d: Dir)
    ensures d.id == id
    ensures path.Pure? ==> d.path == path.p
    ensures path.Text? ==> (d.path.absolute <==> |path.s| > 0 && path.s[0] == '/')
  {
    match path
    case Text(s) => Dir(Parse(s), id)
    case Pure(p) => Dir(p, id)
  }

  /** A Dir built from the text of a path holds that path. */
  lemma NewDirFromText(q: Path, id: Option<int>)
    ensures NewDir(Text(Render(q)), id) == Dir(q, id)
  {
    ParseRender(q);
  }

  /** Dir.from_path(path, id) is the constructor applied to a str. */
  function DirFromPath(path: string, id: Option<int>): (d: Dir)
    ensures d == NewDir(Text(path), id)
    ensures d.id == id
  {
    Dir(Parse(path), id)
  }

  /** Dir.name: the directory's last component, "" for the root or the empty path. */
  function DirName(d: Dir): (r: string)
    ensures |d.path.parts| > 0 ==> r == d.path.parts[|d.path.parts| - 1] && '/' !in r && r != ""
    ensures |d.path.parts| == 0 ==> r == ""
  {
    Name(d.path)
  }

  /** Dir.parent: a new Dir, without an id, for the parent path. */
  function DirParent(d: Dir): (r: Dir)
    ensures r.id == None
    ensures r.path.absolute == d.path.absolute
    ensures |d.path.parts| > 0 ==> r.path.parts + [DirName(d)] == d.path.parts
    ensures |d.path.parts| == 0 ==> r.path == d.path
  {
    Dir(Parent(d.path), None)
  }

  /** Dir.find_subdirs: the dirs of the list whose parent path is this dir's path, in list order. */
  function FindSubdirs(self: Dir, all: seq<Dir>): (r: seq<Dir>)
    ensures |r| <= |all|
    ensures forall d :: d in r <==> d in all && Parent(d.path) == self.path
    decreases |all|
  {
    if |all| == 0 then []
    else
      var rest := FindSubdirs(self, all[1..]);
      assert forall d :: d in all <==> d == all[0] || d in all[1..];
      if Parent(all[0].path) == self.path then [all[0]] + rest else rest
  }

  /** Filtering distributes over concatenation, so the result keeps the input order. */
  lemma {:induction false} FindSubdirsAppend(self: Dir, a: seq<Dir>, b: seq<Dir>)
    ensures FindSubdirs(self, a + b) == FindSubdirs(self, a) + FindSubdirs(self, b)
    decreases |a|
  {
    if |a| == 0 {
      assert a + b == b;
    } else {
      assert (a + b)[1..] == a[1..] + b;
      FindSubdirsAppend(self, a[1..], b);
    }
  }

  /** A subdirectory is one component longer than the directory it was found under. */
  lemma SubdirShape(self: Dir, all: seq<Dir>, d: Dir)
    requires d in FindSubdirs(self, all)
    ensures |d.path.parts| == |self.path.parts| + 1 || (d.path == self.path && |self.path.parts| == 0)
    ensures d.path.absolute == self.path.absolute
    ensures self.path.parts <= d.path.parts
  {
  }

  /** What Dir.__eq__ can be compared with: another Dir or any other Python value. */
  datatype Value = ADir(d: Dir) | NotADir

  /** Dir.__eq__: false for a non-Dir, otherwise name, path and id must all agree. */
  function DirEquals(self: Dir, other: Value): (r: bool)
    ensures r <==> other == ADir(self)
  {
    match other
    case NotADir => false
    case ADir(o) => DirName(self) == DirName(o) && self.path == o.path && self.id == o.id
  }

  /** Comparing names adds nothing to comparing paths: equality is symmetric, and equal Dirs have equal names. */
  lemma DirEqualsSymmetric(a: Dir, b: Dir)
    ensures DirEquals(a, ADir(b)) == DirEquals(b, ADir(a))
    ensures DirEquals(a, ADir(b)) ==> DirName(a) == DirName(b)
  {
  }

  /** repr(dir), which is also its str(): "Dir(path=<path>, id=<id>)". */
  function Repr(d: Dir): string
  {
    "Dir(path=" + Render(d.path) + ", id=" + (match d.id case None => "None" case Some(i) => IntToDecimal(i)) + ")"
  }

  predicate NoDot(s: string)
  {
    forall i :: 0 <= i < |s| ==> s[i] != '.'
  }

  /** Gluing a text without dots to either side of s neither adds nor removes "..". */
  lemma NoDotGlue(a: string, s: string)
    requires NoDot(a)
    ensures HasDotDot(a + s) <==> HasDotDot(s)
    ensures HasDotDot(s + a) <==> HasDotDot(s)
  {
    NoDotNoDotDot(a);
    DotDotAppend(a, s);
    DotDotAppend(s, a);
  }

  /** ".." is in repr(dir) exactly when it is in some component of the dir's path. */
  lemma ReprDotDot(d: Dir)
    ensures HasDotDot(Repr(d)) <==> PartHasDotDot(d.path.parts)
  {
    var idText := match d.id case None => "None" case Some(i) => IntToDecimal(i);
    var tail := ", id=" + idText + ")";
    assert NoDot(tail) by {
      assert tail == ", id=" + idText + ")";
      forall i | 0 <= i < |tail| ensures tail[i] != '.' {
        if 5 <= i < 5 + |idText| { assert tail[i] == idText[i - 5]; }
      }
    }
    var head := "Dir(path=";
    assert NoDot(head);
    assert Repr(d) == head + (Render(d.path) + tail);
    NoDotGlue(head, Render(d.path) + tail);
    NoDotGlue(tail, Render(d.path));
    RenderDotDot(d.path);
  }

  // ---- File ----

  datatype File = File(name: string, parent: Dir, id: Option<int>)

  /** Index just after the last "/" of s, or 0 when there is none (os.path's rfind("/") + 1). */
  function SplitPoint(s: string): (i: nat)
    ensures i <= |s|
    ensures i > 0 ==> s[i - 1] == '/'
    ensures forall k :: i <= k < |s| ==> s[k] != '/'
  {
    if |s| == 0 then 0
    else if s[|s| - 1] == '/' then |s|
    else SplitPoint(s[..|s| - 1])
  }

  predicate AllSlashes(s: string)
  {
    forall k :: 0 <= k < |s| ==> s[k] == '/'
  }

  /** s.rstrip("/"). */
  function StripSlashes(s: string): (r: string)
    ensures r <= s
    ensures AllSlashes(s[|r|..])
    ensures r == [] || r[|r| - 1] != '/'
  {
    if |s| > 0 && s[|s| - 1] == '/' then
      var r := StripSlashes(s[..|s| - 1]);
      assert s[|r|..] == s[..|s| - 1][|r|..] + ['/'];
      r
    else s
  }

  /** os.path.basename on a POSIX path. */
  function Basename(s: string): (r: string)
    ensures '/' !in r
    ensures |r| <= |s| && r == s[|s| - |r|..]
    ensures |r| < |s| ==> s[|s| - |r| - 1] == '/'
  {
    var i := SplitPoint(s);
    assert forall c :: c in s[i..] ==> c != '/';
    s[i..]
  }

  /** os.path.dirname on a POSIX path: the text before the last "/", trailing slashes removed unless that is all of it. */
  function Dirname(s: string): string
  {
    var head := s[..SplitPoint(s)];
    if head != [] && !AllSlashes(head) then StripSlashes(head) else head
  }

  /** os.path.join(a, b) for two POSIX path texts. */
  function OsJoin(a: string, b: string): string
  {
    if |b| > 0 && b[0] == '/' then b
    else if a == [] || a[|a| - 1] == '/' then a + b
    else a + "/" + b
  }

  /** File.from_path: the basename is the name, the dirname (parsed) the parent Dir. */
  function FileFromPath(path: string, id: Option<int>): (f: File)
    ensures '/' !in f.name
    ensures f.parent.id == None && f.id == id
    ensures f.parent == DirFromPath(Dirname(path), None)
    ensures |f.name| <= |path| && f.name == path[|path| - |f.name|..]
    ensures |f.name| < |path| ==> path[|path| - |f.name| - 1] == '/'
  {
    File(Basename(path), DirFromPath(Dirname(path), None), id)
  }

  /** File.path(): os.path.join(str(parent.path), name). */
  function FilePath(f: File): string
  {
    OsJoin(Render(f.parent.path), f.name)
  }

  // ---- from_path and path() agree ----

  /** Trailing slashes add no component. */
  lemma {:induction false} TrailingSlashes(d: string, t: string)
    requires AllSlashes(t)
    ensures Segments(d + t, "") == Segments(d, "")
    decreases |t|
  {
    if |t| > 0 {
      var t' := t[..|t| - 1];
      assert d + t == (d + t') + "/" + "";
      SegmentsSplit(d + t', "", "");
      TrailingSlashes(d, t');
    } else {
      assert d + t == d;
    }
  }

  /** A rendered path ends with "/" only when it is the root. */
  lemma RenderSlashEnd(p: Path)
    ensures |Render(p)| > 0
    ensures Render(p)[|Render(p)| - 1] == '/' <==> p == Path(true, [])
    ensures Render(p)[0] == '/' <==> p.absolute
  {
    var n := |p.parts|;
    if n > 0 {
      JoinEndsWithPart(p.parts);
      var last := p.parts[n - 1];
      assert last[|last| - 1] in last;
      JoinStartsWithPart(p.parts);
      assert p.parts[0][0] in p.parts[0];
    }
  }

  lemma {:induction false} JoinEndsWithPart(parts: seq<Part>)
    requires |parts| > 0
    ensures |Join(parts, "/")| > 0
    ensures Join(parts, "/")[|Join(parts, "/")| - 1] == parts[|parts| - 1][|parts[|parts| - 1]| - 1]
    decreases |parts|
  {
    if |parts| > 1 {
      JoinEndsWithPart(parts[1..]);
    }
  }

  /** PurePath(text) for a text read as a directory text followed by a name without "/". */
  lemma ParseJoined(dir: string, name: string)
    requires '/' !in name && |dir| > 0
    ensures Parse(dir + "/" + name) == Path(Parse(dir).absolute, Parse(dir).parts + Keep(name))
  {
    SegmentsSplit(dir, name, "");
    SegmentsWord(name, "");
    assert "" + name == name;
  }

  /** The dirname keeps the components of everything before the last "/". */
  lemma DirnameSegments(s: string)
    requires SplitPoint(s) > 0
    ensures Segments(Dirname(s), "") == Segments(s[..SplitPoint(s) - 1], "")
    ensures |Dirname(s)| > 0 && Dirname(s)[0] == s[0]
  {
    var i := SplitPoint(s);
    var head := s[..i];
    var h' := s[..i - 1];
    var d := Dirname(s);
    if !AllSlashes(head) {
      var r := StripSlashes(head);
      assert d == r;
      assert r[0] == head[0];
      var t := h'[|r|..];
      assert h' == r + t;
      assert AllSlashes(t) by {
        forall k | 0 <= k < |t| ensures t[k] == '/' {
          assert t[k] == head[|r|..][k];
        }
      }
      TrailingSlashes(r, t);
    } else {
      assert d == head;
      assert head == h' + "/" + "";
      SegmentsSplit(h', "", "");
    }
  }

  lemma ParseSplitNoSlash(s: string)
    requires SplitPoint(s) == 0
    ensures Parse(s) == Path(Parse(Dirname(s)).absolute, Parse(Dirname(s)).parts + Keep(Basename(s)))
  {
    assert Dirname(s) == "" && Basename(s) == s;
    assert '/' !in s;
    SegmentsWord(s, "");
    assert "" + s == s;
    if |s| > 0 { assert s[0] in s; }
  }

  lemma ParseSplitSlash(s: string)
    requires SplitPoint(s) > 0
    ensures Parse(s) == Path(Parse(Dirname(s)).absolute, Parse(Dirname(s)).parts + Keep(Basename(s)))
  {
    var i := SplitPoint(s);
    var base := Basename(s);
    var h' := s[..i - 1];
    assert s == h' + "/" + base;
    SegmentsSplit(h', base, "");
    SegmentsWord(base, "");
    assert "" + base == base;
    DirnameSegments(s);
  }

  /** PurePath reads a path text as its dirname extended by its basename. */
  lemma ParseSplit(s: string)
    ensures Parse(s) == Path(Parse(Dirname(s)).absolute, Parse(Dirname(s)).parts + Keep(Basename(s)))
  {
    if SplitPoint(s) == 0 { ParseSplitNoSlash(s); } else { ParseSplitSlash(s); }
  }

  /** PurePath reads os.path.join(str(p), name) as p extended by the name. */
  lemma ParseOsJoin(p: Path, name: string)
    requires '/' !in name
    ensures Parse(OsJoin(Render(p), name)) == Path(p.absolute, p.parts + Keep(name))
  {
    var r := Render(p);
    RenderSlashEnd(p);
    ParseRender(p);
    if |name| > 0 {
      assert name[0] in name;
    }
    SegmentsWord(name, "");
    assert "" + name == name;
    if r[|r| - 1] == '/' {
      assert r == "/";
      assert ("/" + name)[1..] == name;
    } else {
      ParseJoined(r, name);
    }
  }

  /**
   * Splitting a path with File.from_path and joining it back with File.path()
   * gives a text that PurePath reads as the same path.
   */
  lemma FromPathThenPath(s: string, id: Option<int>)
    ensures Parse(FilePath(FileFromPath(s, id))) == Parse(s)
  {
    ParseSplit(s);
    ParseOsJoin(Parse(Dirname(s)), Basename(s));
  }
}
