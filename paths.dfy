/**
 * POSIX pure paths as pathlib.PurePosixPath has them: an optional root "/" and a
 * sequence of components, none empty, none ".", none containing "/".  str(p) is
 * Render(p) and PurePath(s) is Parse(s).
 */
module Paths {
  import opened Text
  import opened Wrappers

  predicate IsPart(s: string) { s != "" && s != "." && '/' !in s }

  type Part = s: string | IsPart(s) witness "a"

  datatype Path = Path(absolute: bool, parts: seq<Part>)

  /** PurePath() and PurePath("."): the empty relative path. */
  const Here: Path := Path(false, [])

  /** str(p). */
  function Render(p: Path): string
  {
    if p.absolute then "/" + Join(p.parts, "/")
    else if p.parts == [] then "."
    else Join(p.parts, "/")
  }

  function Keep(cur: string): seq<Part>
    requires '/' !in cur
  {
    if cur == "" || cur == "." then [] else [cur]
  }

  /** The components of s, where cur is the component read so far. */
  function Segments(s: string, cur: string): seq<Part>
    requires '/' !in cur
    decreases |s|
  {
    if s == [] then Keep(cur)
    else if s[0] == '/' then Keep(cur) + Segments(s[1..], "")
    else Segments(s[1..], cur + [s[0]])
  }

  /** PurePath(s): a leading "/" makes it absolute; empty and "." components vanish. */
  function Parse(s: string): Path
  {
    Path(|s| > 0 && s[0] == '/', Segments(s, ""))
  }

  /** a / b: an absolute right-hand side replaces the left. */
  function Div(a: Path, b: Path): (r: Path)
    ensures b.absolute ==> r == b
    ensures !b.absolute ==> r.absolute == a.absolute && a.parts <= r.parts && r.parts[|a.parts|..] == b.parts
  {
    if b.absolute then b else Path(a.absolute, a.parts + b.parts)
  }

  /** p.is_relative_to(root). */
  predicate Under(p: Path, root: Path)
  {
    p.absolute == root.absolute && root.parts <= p.parts
  }

  /** p.relative_to(root), None where Python raises ValueError. */
  function RelativeTo(p: Path, root: Path): (r: Option<Path>)
    ensures r.Some? <==> Under(p, root)
    ensures r.Some? ==> !r.value.absolute && Div(root, r.value) == p
  {
    if Under(p, root) then Some(Path(false, p.parts[|root.parts|..])) else None
  }

  /** p.parent: the root and the empty path are their own parents. */
  function Parent(p: Path): (r: Path)
    ensures r.absolute == p.absolute
    ensures |p.parts| > 0 ==> r.parts + [p.parts[|p.parts| - 1]] == p.parts
    ensures |p.parts| == 0 ==> r == p
  {
    if |p.parts| == 0 then p else Path(p.absolute, p.parts[..|p.parts| - 1])
  }

  /** p.name: the last component, or "" when there is none. */
  function Name(p: Path): (r: string)
    ensures |p.parts| > 0 ==> r == p.parts[|p.parts| - 1]
    ensures |p.parts| == 0 ==> r == ""
  {
    if |p.parts| == 0 then "" else p.parts[|p.parts| - 1]
  }

  /** Every non-empty prefix of a relative path, shortest first, ending with the path itself. */
  function Prefixes(p: Path): (r: seq<Path>)
    ensures |r| == |p.parts|
    ensures forall i :: 0 <= i < |r| ==> !r[i].absolute && |r[i].parts| == i + 1 && r[i].parts <= p.parts
    ensures !p.absolute && |r| > 0 ==> r[|r| - 1] == p
  {
    seq(|p.parts|, i requires 0 <= i < |p.parts| => Path(false, p.parts[..i + 1]))
  }

  /** Each prefix after the first has the one before it as its parent. */
  lemma PrefixesParent(p: Path, i: int)
    requires 0 < i < |p.parts|
    ensures Parent(Prefixes(p)[i]) == Prefixes(p)[i - 1]
  {
    assert p.parts[..i + 1][..i] == p.parts[..i];
  }

  function Reverse<T>(s: seq<T>): (r: seq<T>)
    ensures |r| == |s|
    ensures forall i :: 0 <= i < |s| ==> r[i] == s[|s| - 1 - i]
  {
    seq(|s|, i requires 0 <= i < |s| => s[|s| - 1 - i])
  }

  /**
   * The ancestor walk of both connectors and of the older database handler: go
   * from the path to its parent until the empty path, collecting each step, and
   * reverse the list.
   */
  method AncestorChain(start: Path) returns (chain: seq<Path>)
    requires !start.absolute
    ensures chain == Prefixes(start)
  {
    var n := |start.parts|;
    var current := start;
    var ancestors: seq<Path> := [];
    while current != Here
      invariant !current.absolute && current.parts <= start.parts
      invariant |ancestors| == n - |current.parts|
      invariant forall k :: 0 <= k < |ancestors| ==> ancestors[k] == Path(false, start.parts[..n - k])
      invariant |ancestors| > 0 ==> current == Parent(ancestors[|ancestors| - 1])
      decreases |current.parts|
    {
      ancestors := ancestors + [current];
      current := Parent(current);
    }
    chain := Reverse(ancestors);
  }

  // ---- Parsing and rendering ----

  lemma {:induction false} SegmentsSplit(x: string, y: string, cur: string)
    requires '/' !in cur
    ensures Segments(x + "/" + y, cur) == Segments(x, cur) + Segments(y, "")
    decreases |x|
  {
    if x == [] {
      assert x + "/" + y == "/" + y;
      assert ("/" + y)[1..] == y;
    } else {
      assert (x + "/" + y)[1..] == x[1..] + "/" + y;
      if x[0] == '/' {
        SegmentsSplit(x[1..], y, "");
      } else {
        SegmentsSplit(x[1..], y, cur + [x[0]]);
      }
    }
  }

  /** A text without a slash is read as the one component it spells (if any). */
  lemma {:induction false} SegmentsWord(x: string, cur: string)
    requires '/' !in cur && '/' !in x
    ensures Segments(x, cur) == Keep(cur + x)
    decreases |x|
  {
    if x == [] {
      assert cur + x == cur;
    } else {
      assert cur + [x[0]] + x[1..] == cur + x;
      SegmentsWord(x[1..], cur + [x[0]]);
    }
  }

  lemma {:induction false} JoinStartsWithPart(parts: seq<Part>)
    requires |parts| > 0
    ensures |Join(parts, "/")| > 0 && Join(parts, "/")[0] == parts[0][0]
  {
  }

  lemma {:induction false} SegmentsOfJoin(parts: seq<Part>)
    ensures Segments(Join(parts, "/"), "") == parts
    decreases |parts|
  {
    if |parts| == 0 {
    } else if |parts| == 1 {
      SegmentsWord(parts[0], "");
      assert "" + parts[0] == parts[0];
    } else {
      SegmentsSplit(parts[0], Join(parts[1..], "/"), "");
      SegmentsWord(parts[0], "");
      assert "" + parts[0] == parts[0];
      SegmentsOfJoin(parts[1..]);
      assert parts == [parts[0]] + parts[1..];
    }
  }

  /** PurePath(str(p)) == p. */
  lemma ParseRender(p: Path)
    ensures Parse(Render(p)) == p
  {
    SegmentsOfJoin(p.parts);
    if p.absolute {
      var j := Join(p.parts, "/");
      assert ("/" + j)[1..] == j;
    } else if p.parts != [] {
      var j := Join(p.parts, "/");
      assert Render(p) == j;
      JoinStartsWithPart(p.parts);
      assert p.parts[0][0] in p.parts[0];
      assert j[0] != '/';
      assert Parse(j) == Path(false, Segments(j, ""));
    } else {
      assert "."[1..] == "";
      assert Segments(".", "") == Segments("", "" + ['.']);
    }
  }

  /** str is injective on paths, so comparing stored path text is comparing paths. */
  lemma RenderInjective(p: Path, q: Path)
    ensures Render(p) == Render(q) <==> p == q
  {
    if Render(p) == Render(q) {
      ParseRender(p);
      ParseRender(q);
    }
  }

  // ---- Where ".." can come from ----

  predicate PartHasDotDot(parts: seq<Part>)
  {
    exists i :: 0 <= i < |parts| && HasDotDot(parts[i])
  }

  /** ".." occurs in str(p) exactly when one of p's components contains it. */
  lemma RenderDotDot(p: Path)
    ensures HasDotDot(Render(p)) <==> PartHasDotDot(p.parts)
  {
    JoinSlashDotDot(p.parts);
    var ps: seq<string> := p.parts;
    if p.absolute {
      DotDotAppend("/", Join(p.parts, "/"));
    } else if p.parts == [] {
      assert !HasDotDot(".");
    }
  }

  lemma PartHasDotDotAppend(a: seq<Part>, b: seq<Part>)
    ensures PartHasDotDot(a + b) <==> PartHasDotDot(a) || PartHasDotDot(b)
  {
    if PartHasDotDot(a + b) {
      var i :| 0 <= i < |a + b| && HasDotDot((a + b)[i]);
      if i >= |a| { assert b[i - |a|] == (a + b)[i]; }
    }
    if PartHasDotDot(a) {
      var i :| 0 <= i < |a| && HasDotDot(a[i]);
      assert (a + b)[i] == a[i];
    }
    if PartHasDotDot(b) {
      var i :| 0 <= i < |b| && HasDotDot(b[i]);
      assert (a + b)[|a| + i] == b[i];
    }
  }

  lemma {:induction false} SegmentsNoDotDot(s: string, cur: string)
    requires '/' !in cur && !HasDotDot(cur + s)
    ensures !PartHasDotDot(Segments(s, cur))
    decreases |s|
  {
    DotDotAppend(cur, s);
    if s == [] {
      assert cur + s == cur;
      assert Segments(s, cur) == Keep(cur);
    } else if s[0] == '/' {
      var t := s[1..];
      assert [s[0]] + t == s;
      DotDotAppend([s[0]], t);
      assert !HasDotDot(t);
      assert "" + t == t;
      SegmentsNoDotDot(t, "");
      assert Segments(s, cur) == Keep(cur) + Segments(t, "");
      PartHasDotDotAppend(Keep(cur), Segments(t, ""));
    } else {
      var t := s[1..];
      var c := cur + [s[0]];
      assert c + t == cur + s;
      SegmentsNoDotDot(t, c);
      assert Segments(s, cur) == Segments(t, c);
    }
  }

  /** Text without ".." parses to components without "..". */
  lemma ParseNoDotDot(s: string)
    requires !HasDotDot(s)
    ensures !PartHasDotDot(Parse(s).parts)
  {
    assert "" + s == s;
    SegmentsNoDotDot(s, "");
  }

  /** A prefix of a path without ".." components has none either. */
  lemma PrefixNoDotDot(p: seq<Part>, q: seq<Part>)
    requires q <= p && !PartHasDotDot(p)
    ensures !PartHasDotDot(q)
  {
  }
}
