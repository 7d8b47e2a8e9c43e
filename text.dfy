/** String helpers: Python's str(int), str.join and the substring test ".." in s. */
module Text {

  predicate IsDigit(c: char) { '0' <= c <= '9' }

  /** str(n) for a non-negative Python int: its decimal digits, most significant first. */
  function NatToDecimal(n: nat): (s: string)
    ensures |s| > 0
    ensures forall i :: 0 <= i < |s| ==> IsDigit(s[i])
    decreases n
  {
    var d := [('0' as int + n % 10) as char];
    if n < 10 then d else NatToDecimal(n / 10) + d
  }

  /** The number a string of decimal digits denotes. */
  function DecimalValue(s: string): nat
    requires forall i :: 0 <= i < |s| ==> IsDigit(s[i])
  {
    if s == [] then 0
    else
      assert IsDigit(s[|s| - 1]);
      10 * DecimalValue(s[..|s| - 1]) + (s[|s| - 1] as int - '0' as int)
  }

  /** str(n) loses nothing: reading the digits back gives n. */
  lemma {:induction false} DecimalRoundTrip(n: nat)
    ensures DecimalValue(NatToDecimal(n)) == n
    decreases n
  {
    var s := NatToDecimal(n);
    if n >= 10 {
      DecimalRoundTrip(n / 10);
      assert s[..|s| - 1] == NatToDecimal(n / 10);
    }
  }

  /** str(i) for any Python int. */
  function IntToDecimal(i: int): (s: string)
    ensures |s| > 0
    ensures forall k :: 0 <= k < |s| ==> s[k] != '.' && s[k] != '\''
    ensures i >= 0 ==> s == NatToDecimal(i)
    ensures i < 0 ==> s == "-" + NatToDecimal(-i)
  {
    if i < 0 then "-" + NatToDecimal(-i) else NatToDecimal(i)
  }

  /** sep.join(xs). */
  function Join(xs: seq<string>, sep: string): string
  {
    if |xs| == 0 then ""
    else if |xs| == 1 then xs[0]
    else xs[0] + sep + Join(xs[1..], sep)
  }

  /** The Python test `".." in s`. */
  predicate HasDotDot(s: string)
  {
    |s| >= 2 && ((s[0] == '.' && s[1] == '.') || HasDotDot(s[1..]))
  }

  /** ".." occurs in a + b exactly when it occurs in a, in b, or across the seam. */
  lemma {:induction false} DotDotAppend(a: string, b: string)
    ensures HasDotDot(a + b) <==>
      HasDotDot(a) || HasDotDot(b) || (|a| > 0 && |b| > 0 && a[|a| - 1] == '.' && b[0] == '.')
    decreases |a|
  {
    if |a| == 0 {
      assert a + b == b;
    } else if |a| == 1 {
      assert (a + b)[1..] == b;
    } else {
      assert (a + b)[1..] == a[1..] + b;
      DotDotAppend(a[1..], b);
    }
  }

  /** A string without a dot has no "..". */
  lemma {:induction false} NoDotNoDotDot(s: string)
    requires forall i :: 0 <= i < |s| ==> s[i] != '.'
    ensures !HasDotDot(s)
    decreases |s|
  {
    if |s| >= 2 {
      NoDotNoDotDot(s[1..]);
    }
  }

  /** Joining with "/" never creates "..": it occurs in the result exactly when it occurs in a piece. */
  lemma {:induction false} JoinSlashDotDot(xs: seq<string>)
    ensures HasDotDot(Join(xs, "/")) <==> exists i :: 0 <= i < |xs| && HasDotDot(xs[i])
    decreases |xs|
  {
    if |xs| == 1 {
      assert HasDotDot(xs[0]) <==> exists i :: 0 <= i < |xs| && HasDotDot(xs[i]);
    } else if |xs| > 1 {
      var rest := Join(xs[1..], "/");
      JoinSlashDotDot(xs[1..]);
      DotDotAppend(xs[0] + "/", rest);
      DotDotAppend(xs[0], "/");
      NoDotNoDotDot("/");
      assert (xs[0] + "/")[|xs[0] + "/"| - 1] == '/';
      assert Join(xs, "/") == (xs[0] + "/") + rest;
      assert (exists i :: 0 <= i < |xs| && HasDotDot(xs[i])) <==>
        (HasDotDot(xs[0]) || exists i :: 0 <= i < |xs[1..]| && HasDotDot(xs[1..][i])) by {
        if exists i :: 0 <= i < |xs| && HasDotDot(xs[i]) {
          var i :| 0 <= i < |xs| && HasDotDot(xs[i]);
          if i > 0 { assert HasDotDot(xs[1..][i - 1]); }
        }
        if exists i :: 0 <= i < |xs[1..]| && HasDotDot(xs[1..][i]) {
          var i :| 0 <= i < |xs[1..]| && HasDotDot(xs[1..][i]);
          assert HasDotDot(xs[i + 1]);
        }
      }
    }
  }

  /** Appending a separator after every piece is the join followed by one separator. */
  function Terminated(xs: seq<string>, sep: string): string
  {
    if |xs| == 0 then "" else xs[0] + sep + Terminated(xs[1..], sep)
  }

  lemma {:induction false} TerminatedIsJoin(xs: seq<string>, sep: string)
    requires |xs| > 0
    ensures Terminated(xs, sep) == Join(xs, sep) + sep
    decreases |xs|
  {
    if |xs| > 1 {
      TerminatedIsJoin(xs[1..], sep);
    }
  }

  lemma {:induction false} TerminatedSnoc(xs: seq<string>, x: string, sep: string)
    ensures Terminated(xs + [x], sep) == Terminated(xs, sep) + x + sep
    decreases |xs|
  {
    if |xs| == 0 {
      assert xs + [x] == [x];
    } else {
      assert (xs + [x])[1..] == xs[1..] + [x];
      TerminatedSnoc(xs[1..], x, sep);
    }
  }
}
