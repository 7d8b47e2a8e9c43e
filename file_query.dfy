/**
 * The query side of FileRepo (scoutlib/handler/file_repo.py): the rows of the
 * file table, the filter keys get() understands and what each resulting
 * condition asks of a row, and the two SQL text builders select_dir_where and
 * select_files_where_query.
 */
module FileQuery {
  import opened Wrappers
  import opened Text
  import opened Paths
  import DirTables
  import DirRepository

  /**
   * A Python value handed to get() or to the query builder.  There is no bool: a
   * bound True or False is the int 1 or 0, but f"{True}" in a query text is "True",
   * so a bool handed to the query builder is not modelled.
   */
  datatype PyValue = PyNone | PyInt(i: int) | PyStr(s: string) | PyPath(p: Path)

  /** A value as SQLite holds it. */
  datatype SqlValue = SqlNull | SqlInt(i: int) | SqlText(s: string)

  /**
   * A row of the file table; the row whose id is k + 1 is the k-th.  There is no
   * size column: the table has id, dir_id, name, md5, mtime and updated.
   */
  datatype FileRow = FileRow(dirId: int, name: string, md5: Option<string>, mtime: Option<int>, updated: int)

  /** Python truthiness. */
  predicate Truthy(v: PyValue)
  {
    match v
    case PyNone => false
    case PyInt(i) => i != 0
    case PyStr(s) => s != ""
    case PyPath(_) => true
  }

  /** How sqlite3 binds a parameter: None, int and str have SQLite counterparts, a PurePath has none. */
  function Bind(v: PyValue): (r: Result<SqlValue>)
    ensures r.Failure? <==> v.PyPath?
    ensures r.Success? ==> (r.value.SqlNull? <==> v.PyNone?)
  {
    match v
    case PyNone => Success(SqlNull)
    case PyInt(i) => Success(SqlInt(i))
    case PyStr(s) => Success(SqlText(s))
    case PyPath(_) => Failure(SqlError)
  }

  // ---- Filter keys: key.split("__") ----

  /** The Python test `"__" in s`. */
  predicate HasSep(s: string)
  {
    |s| >= 2 && ((s[0] == '_' && s[1] == '_') || HasSep(s[1..]))
  }

  /** str.split("__") of s, where cur is the piece read so far: occurrences are taken left to right. */
  function SplitAt(s: string, cur: string): (r: seq<string>)
    ensures |r| >= 1
    decreases |s|
  {
    if |s| >= 2 && s[0] == '_' && s[1] == '_' then [cur] + SplitAt(s[2..], "")
    else if s == [] then [cur]
    else SplitAt(s[1..], cur + [s[0]])
  }

  function SplitKey(key: string): seq<string>
  {
    SplitAt(key, "")
  }

  /** A key has a separator exactly when splitting it gives more than one piece. */
  lemma {:induction false} SplitCount(s: string, cur: string)
    ensures HasSep(s) <==> |SplitAt(s, cur)| > 1
    decreases |s|
  {
    if |s| >= 2 && s[0] == '_' && s[1] == '_' {
    } else if s != [] {
      SplitCount(s[1..], cur + [s[0]]);
    }
  }

  /** A name that can stand before "__" without merging with it: no "__" and no trailing "_". */
  predicate PlainName(c: string)
  {
    !HasSep(c) && (|c| == 0 || c[|c| - 1] != '_')
  }

  /** Text without a separator is one piece. */
  lemma {:induction false} SplitPlain(o: string, cur: string)
    requires !HasSep(o)
    ensures SplitAt(o, cur) == [cur + o]
    decreases |o|
  {
    if o == [] {
      assert cur + o == cur;
    } else {
      assert cur + [o[0]] + o[1..] == cur + o;
      SplitPlain(o[1..], cur + [o[0]]);
    }
  }

  /** The first piece of c + "__" + rest is c, when c is a plain name. */
  lemma {:induction false} SplitHead(c: string, rest: string, cur: string)
    requires PlainName(c)
    ensures SplitAt(c + "__" + rest, cur) == [cur + c] + SplitAt(rest, "")
    decreases |c|
  {
    var s := c + "__" + rest;
    if c == [] {
      assert s == "__" + rest;
      assert s[2..] == rest;
      assert cur + c == cur;
    } else {
      assert s[0] == c[0];
      assert |c| >= 2 ==> s[1] == c[1] && !(c[0] == '_' && c[1] == '_');
      assert |c| == 1 ==> c[0] != '_';
      assert s[1..] == c[1..] + "__" + rest;
      assert cur + [c[0]] + c[1..] == cur + c;
      SplitHead(c[1..], rest, cur + [c[0]]);
    }
  }

  /** column + "__" + operator splits back into the column and the operator. */
  lemma SplitSuffixed(c: string, o: string)
    requires PlainName(c) && !HasSep(o)
    ensures SplitKey(c + "__" + o) == [c, o]
  {
    SplitHead(c, o, "");
    SplitPlain(o, "");
    assert "" + c == c && "" + o == o;
  }

  // ---- Conditions ----

  datatype Op = Eq | Gt | Lt | Ge | Le | Ne

  /** One WHERE condition of get(): the column named by the key and what it asks of its value. */
  datatype Condition = Compare(column: string, op: Op, value: PyValue) | NullTest(column: string, isNull: bool)

  /**
   * The condition one filter contributes: a key with "__" is split into a column
   * and an operator suffix, a key without one compares for equality; __null takes
   * no parameter and asks for NULL when its value is truthy.
   */
  function KeyCondition(key: string, value: PyValue): Result<Condition>
  {
    if HasSep(key) then
      var parts := SplitKey(key);
      if |parts| != 2 then Failure(BadFilterKey)
      else
        var column, op := parts[0], parts[1];
        if op == "gt" then Success(Compare(column, Gt, value))
        else if op == "lt" then Success(Compare(column, Lt, value))
        else if op == "ge" then Success(Compare(column, Ge, value))
        else if op == "le" then Success(Compare(column, Le, value))
        else if op == "ne" then Success(Compare(column, Ne, value))
        else if op == "null" then Success(NullTest(column, Truthy(value)))
        else Failure(UnsupportedOperator)
    else
      Success(Compare(key, Eq, value))
  }

  predicate IsOperator(o: string)
  {
    o == "gt" || o == "lt" || o == "ge" || o == "le" || o == "ne" || o == "null"
  }

  /** The suffix table of get(): the six operator names and nothing else are understood. */
  lemma OperatorSuffix(c: string, o: string, v: PyValue)
    requires PlainName(c) && !HasSep(o)
    ensures KeyCondition(c + "__" + o, v).Success? <==> IsOperator(o)
    ensures !IsOperator(o) ==> KeyCondition(c + "__" + o, v) == Failure(UnsupportedOperator)
    ensures o == "gt" ==> KeyCondition(c + "__" + o, v) == Success(Compare(c, Gt, v))
    ensures o == "lt" ==> KeyCondition(c + "__" + o, v) == Success(Compare(c, Lt, v))
    ensures o == "ge" ==> KeyCondition(c + "__" + o, v) == Success(Compare(c, Ge, v))
    ensures o == "le" ==> KeyCondition(c + "__" + o, v) == Success(Compare(c, Le, v))
    ensures o == "ne" ==> KeyCondition(c + "__" + o, v) == Success(Compare(c, Ne, v))
    ensures o == "null" ==> KeyCondition(c + "__" + o, v) == Success(NullTest(c, Truthy(v)))
  {
    SplitSuffixed(c, o);
    SplitCount(c + "__" + o, "");
  }

  /** A key with two separators does not unpack into a column and an operator. */
  lemma TwoSeparators(a: string, b: string, o: string, v: PyValue)
    requires PlainName(a) && PlainName(b) && !HasSep(o)
    ensures KeyCondition(a + "__" + b + "__" + o, v) == Failure(BadFilterKey)
  {
    var key := a + "__" + b + "__" + o;
    assert key == a + "__" + (b + "__" + o);
    SplitHead(a, b + "__" + o, "");
    SplitSuffixed(b, o);
    SplitCount(key, "");
  }

  /** A key without a separator compares its column for equality. */
  lemma PlainKey(key: string, v: PyValue)
    requires !HasSep(key)
    ensures KeyCondition(key, v) == Success(Compare(key, Eq, v))
  {
  }

  // ---- Columns and their values ----

  /** The columns a condition can name: f.<column> of the file table, and f.path rewritten to d.path. */
  datatype Column = IdCol | DirIdCol | NameCol | Md5Col | MtimeCol | UpdatedCol | PathCol

  function ColumnNamed(c: string): (r: Option<Column>)
    ensures r.Some? <==> c in ["id", "dir_id", "name", "md5", "mtime", "updated", "path"]
  {
    if c == "id" then Some(IdCol)
    else if c == "dir_id" then Some(DirIdCol)
    else if c == "name" then Some(NameCol)
    else if c == "md5" then Some(Md5Col)
    else if c == "mtime" then Some(MtimeCol)
    else if c == "updated" then Some(UpdatedCol)
    else if c == "path" then Some(PathCol)
    else None
  }

  /** The declared types id INTEGER, dir_id iINTEGER, mtime and updated INTEGER carry INTEGER affinity. */
  predicate IntegerAffinity(col: Column)
  {
    col == IdCol || col == DirIdCol || col == MtimeCol || col == UpdatedCol
  }

  function OptText(o: Option<string>): SqlValue
  {
    if o.Some? then SqlText(o.value) else SqlNull
  }

  function OptInt(o: Option<int>): SqlValue
  {
    if o.Some? then SqlInt(o.value) else SqlNull
  }

  /**
   * The value of a column in the k-th row of the LEFT JOIN of file with dir on
   * f.dir_id = d.id: d.path is NULL when no dir row has that id (dir_id 0 among them).
   */
  function ValueAt(dirs: seq<Path>, rows: seq<FileRow>, k: int, col: Column): SqlValue
    requires 0 <= k < |rows|
  {
    var row := rows[k];
    match col
    case IdCol => SqlInt(k + 1)
    case DirIdCol => SqlInt(row.dirId)
    case NameCol => SqlText(row.name)
    case Md5Col => OptText(row.md5)
    case MtimeCol => OptInt(row.mtime)
    case UpdatedCol => SqlInt(row.updated)
    case PathCol => JoinedPath(dirs, row.dirId)
  }

  /** d.path of the dir row a file row's dir_id points at. */
  function JoinedPath(dirs: seq<Path>, dirId: int): (r: SqlValue)
    ensures r.SqlNull? <==> !(1 <= dirId <= |dirs|)
  {
    if 1 <= dirId <= |dirs| then SqlText(Render(dirs[dirId - 1])) else SqlNull
  }

  predicate Digits(s: string)
  {
    |s| > 0 && forall i :: 0 <= i < |s| ==> IsDigit(s[i])
  }

  /**
   * The parameter as the comparison sees it: a column of INTEGER affinity turns
   * a decimal text into its number, a column of TEXT affinity turns a number into
   * its decimal text.
   */
  function Coerce(col: Column, v: SqlValue): SqlValue
  {
    if IntegerAffinity(col) && v.SqlText? && Digits(v.s) then SqlInt(DecimalValue(v.s))
    else if !IntegerAffinity(col) && v.SqlInt? then SqlText(IntToDecimal(v.i))
    else v
  }

  /** -1, 0 or 1 as the BINARY collation orders two texts: by code points, a prefix first. */
  function TextOrder(a: string, b: string): (r: int)
    ensures r == 0 <==> a == b
    ensures -1 <= r <= 1
  {
    if a == [] && b == [] then 0
    else if a == [] then -1
    else if b == [] then 1
    else if a[0] < b[0] then -1
    else if a[0] > b[0] then 1
    else
      assert a == [a[0]] + a[1..] && b == [b[0]] + b[1..];
      TextOrder(a[1..], b[1..])
  }

  /** SQLite's order on non-NULL values: every number before every text. */
  function Order(x: SqlValue, y: SqlValue): (r: int)
    requires !x.SqlNull? && !y.SqlNull?
    ensures r == 0 <==> x == y
    ensures -1 <= r <= 1
  {
    match (x, y)
    case (SqlInt(a), SqlInt(b)) => if a < b then -1 else if a > b then 1 else 0
    case (SqlInt(_), SqlText(_)) => -1
    case (SqlText(_), SqlInt(_)) => 1
    case (SqlText(a), SqlText(b)) => TextOrder(a, b)
  }

  /** A comparison is true only between two non-NULL values; with a NULL it is NULL, which WHERE drops. */
  predicate Satisfies(op: Op, x: SqlValue, y: SqlValue)
  {
    !x.SqlNull? && !y.SqlNull? &&
    var c := Order(x, y);
    match op
    case Eq => c == 0
    case Ne => c != 0
    case Lt => c < 0
    case Le => c <= 0
    case Gt => c > 0
    case Ge => c >= 0
  }

  /** SQLite prepares the condition: its column exists and its parameter can be bound. */
  predicate Accepted(c: Condition)
  {
    ColumnNamed(c.column).Some? && (c.Compare? ==> Bind(c.value).Success?)
  }

  predicate AllAccepted(conds: seq<Condition>)
  {
    forall i :: 0 <= i < |conds| ==> Accepted(conds[i])
  }

  predicate Holds(dirs: seq<Path>, rows: seq<FileRow>, k: int, c: Condition)
    requires 0 <= k < |rows| && Accepted(c)
  {
    var col := ColumnNamed(c.column).value;
    var x := ValueAt(dirs, rows, k, col);
    match c
    case NullTest(_, isNull) => x.SqlNull? == isNull
    case Compare(_, op, v) => Satisfies(op, x, Coerce(col, Bind(v).value))
  }

  /** The conditions joined with " AND ". */
  predicate AllHold(dirs: seq<Path>, rows: seq<FileRow>, k: int, conds: seq<Condition>)
    requires 0 <= k < |rows| && AllAccepted(conds)
  {
    forall i :: 0 <= i < |conds| ==> Holds(dirs, rows, k, conds[i])
  }

  /** The indices of the rows among the first n that pass every condition, in table order. */
  function RowsWhere(dirs: seq<Path>, rows: seq<FileRow>, conds: seq<Condition>, n: int): seq<int>
    requires 0 <= n <= |rows| && AllAccepted(conds)
  {
    if n == 0 then []
    else RowsWhere(dirs, rows, conds, n - 1) + (if AllHold(dirs, rows, n - 1, conds) then [n - 1] else [])
  }

  /** A row is selected exactly when it passes every condition. */
  lemma {:induction false} RowsWhereHas(dirs: seq<Path>, rows: seq<FileRow>, conds: seq<Condition>, n: int, k: int)
    requires 0 <= n <= |rows| && AllAccepted(conds)
    ensures k in RowsWhere(dirs, rows, conds, n) <==> 0 <= k < n && AllHold(dirs, rows, k, conds)
    decreases n
  {
    if n > 0 {
      RowsWhereHas(dirs, rows, conds, n - 1, k);
    }
  }

  /** The selected indices are strictly increasing: rows come back in table order, each once. */
  lemma {:induction false} RowsWhereIncreasing(dirs: seq<Path>, rows: seq<FileRow>, conds: seq<Condition>, n: int)
    requires 0 <= n <= |rows| && AllAccepted(conds)
    ensures forall i, j :: 0 <= i < j < |RowsWhere(dirs, rows, conds, n)| ==>
      RowsWhere(dirs, rows, conds, n)[i] < RowsWhere(dirs, rows, conds, n)[j]
    ensures forall i :: 0 <= i < |RowsWhere(dirs, rows, conds, n)| ==> 0 <= RowsWhere(dirs, rows, conds, n)[i] < n
    decreases n
  {
    if n > 0 {
      RowsWhereIncreasing(dirs, rows, conds, n - 1);
      var prev := RowsWhere(dirs, rows, conds, n - 1);
      var r := RowsWhere(dirs, rows, conds, n);
      if AllHold(dirs, rows, n - 1, conds) {
        assert r == prev + [n - 1];
        forall i, j | 0 <= i < j < |r| ensures r[i] < r[j] {
          assert r[i] == prev[i];
          if j < |prev| {
            assert r[j] == prev[j];
          }
        }
      } else {
        assert r == prev;
      }
    }
  }

  /** With no condition every row is selected. */
  lemma {:induction false} RowsWhereAll(dirs: seq<Path>, rows: seq<FileRow>, n: int)
    requires 0 <= n <= |rows|
    ensures RowsWhere(dirs, rows, [], n) == seq(n, i => i)
    decreases n
  {
    if n > 0 {
      RowsWhereAll(dirs, rows, n - 1);
    }
  }

  // ---- Laws of the conditions ----

  /** On a row whose column is not NULL exactly one of c > v and c <= v holds; on a NULL neither. */
  lemma GtLeSplit(dirs: seq<Path>, rows: seq<FileRow>, k: int, c: string, v: PyValue)
    requires 0 <= k < |rows| && Accepted(Compare(c, Gt, v)) && !v.PyNone?
    ensures var x := ValueAt(dirs, rows, k, ColumnNamed(c).value);
      x.SqlNull? ==> !Holds(dirs, rows, k, Compare(c, Gt, v)) && !Holds(dirs, rows, k, Compare(c, Le, v))
    ensures var x := ValueAt(dirs, rows, k, ColumnNamed(c).value);
      !x.SqlNull? ==> (Holds(dirs, rows, k, Compare(c, Gt, v)) <==> !Holds(dirs, rows, k, Compare(c, Le, v)))
  {
    var col := ColumnNamed(c).value;
    var b := Bind(v).value;
    assert !Coerce(col, b).SqlNull?;
  }

  /** On an INTEGER column, c >= v + 1 and c > v select the same rows. */
  lemma GeSuccIsGt(dirs: seq<Path>, rows: seq<FileRow>, k: int, c: string, v: int)
    requires 0 <= k < |rows| && ColumnNamed(c).Some? && IntegerAffinity(ColumnNamed(c).value)
    ensures Holds(dirs, rows, k, Compare(c, Ge, PyInt(v + 1))) <==> Holds(dirs, rows, k, Compare(c, Gt, PyInt(v)))
  {
  }

  /** c IS NULL and c IS NOT NULL split the rows between them. */
  lemma NullSplit(dirs: seq<Path>, rows: seq<FileRow>, k: int, c: string)
    requires 0 <= k < |rows| && ColumnNamed(c).Some?
    ensures Holds(dirs, rows, k, NullTest(c, true)) <==> !Holds(dirs, rows, k, NullTest(c, false))
  {
  }

  /** Comparing with None binds NULL, so the condition holds on no row at all. */
  lemma NoneMatchesNothing(dirs: seq<Path>, rows: seq<FileRow>, k: int, c: string, op: Op)
    requires 0 <= k < |rows| && ColumnNamed(c).Some?
    ensures !Holds(dirs, rows, k, Compare(c, op, PyNone))
  {
  }

  /** The id condition picks out the row whose position the id names and no other. */
  lemma IdPicksRow(dirs: seq<Path>, rows: seq<FileRow>, k: int, id: int)
    requires 0 <= k < |rows|
    ensures Holds(dirs, rows, k, Compare("id", Eq, PyInt(id))) <==> k + 1 == id
  {
  }

  /** dir_id = v holds exactly for the rows stored under v. */
  lemma DirIdPicksRows(dirs: seq<Path>, rows: seq<FileRow>, k: int, v: int)
    requires 0 <= k < |rows|
    ensures Holds(dirs, rows, k, Compare("dir_id", Eq, PyInt(v))) <==> rows[k].dirId == v
  {
  }

  /** name = x holds exactly for the rows whose name is x. */
  lemma NamePicksRows(dirs: seq<Path>, rows: seq<FileRow>, k: int, x: string)
    requires 0 <= k < |rows|
    ensures Holds(dirs, rows, k, Compare("name", Eq, PyStr(x))) <==> rows[k].name == x
  {
  }

  // ---- select_dir_where ----

  /**
   * The body of a single-quoted SQL literal ('' standing for one quote) up to its
   * closing quote, with what follows it; None when the quote is never closed.
   */
  function ReadLiteral(s: string, acc: string): Option<(string, string)>
    decreases |s|
  {
    if s == [] then None
    else if s[0] == '\'' then
      if |s| >= 2 && s[1] == '\'' then ReadLiteral(s[2..], acc + ['\''])
      else Some((acc, s[1..]))
    else ReadLiteral(s[1..], acc + [s[0]])
  }

  /** A text without quotes is read back as itself, and the statement ends right after it. */
  lemma {:induction false} ReadQuoteFree(s: string, acc: string)
    requires '\'' !in s
    ensures ReadLiteral(s + "';", acc) == Some((acc + s, ";"))
    decreases |s|
  {
    if s == [] {
      assert s + "';" == "';";
      assert acc + s == acc;
    } else {
      assert (s + "';")[0] == s[0];
      assert (s + "';")[1..] == s[1..] + "';";
      assert acc + [s[0]] + s[1..] == acc + s;
      ReadQuoteFree(s[1..], acc + [s[0]]);
    }
  }

  /** The dir row whose stored path text is exactly text. */
  function RowWithText(dirs: seq<Path>, text: string): Option<DirTables.DirRow>
  {
    var p := Parse(text);
    if Render(p) == text then DirRepository.SelectByPath(dirs, p) else None
  }

  /** A row is found by its path text exactly when some row stores that text. */
  lemma RowWithTextFinds(dirs: seq<Path>, text: string)
    ensures RowWithText(dirs, text).Some? <==> exists k :: 0 <= k < |dirs| && Render(dirs[k]) == text
    ensures RowWithText(dirs, text).Some? ==>
      var row := RowWithText(dirs, text).value;
      1 <= row.id <= |dirs| && dirs[row.id - 1] == row.path && Render(row.path) == text
  {
    if RowWithText(dirs, text).Some? {
      RowWithTextFound(dirs, text);
    }
    if exists k :: 0 <= k < |dirs| && Render(dirs[k]) == text {
      var k :| 0 <= k < |dirs| && Render(dirs[k]) == text;
      RowWithTextStored(dirs, text, k);
    }
  }

  lemma RowWithTextFound(dirs: seq<Path>, text: string)
    requires RowWithText(dirs, text).Some?
    ensures var row := RowWithText(dirs, text).value;
      1 <= row.id <= |dirs| && dirs[row.id - 1] == row.path && Render(row.path) == text
  {
    var p := Parse(text);
    assert Render(p) == text;
    var r := DirRepository.SelectByPath(dirs, p);
    assert RowWithText(dirs, text) == r;
  }

  lemma RowWithTextStored(dirs: seq<Path>, text: string, k: int)
    requires 0 <= k < |dirs| && Render(dirs[k]) == text
    ensures RowWithText(dirs, text).Some?
  {
    ParseRender(dirs[k]);
    assert Parse(text) in dirs;
  }

  /**
   * select_dir_where(id, path): by id when one is given, otherwise by the path text
   * quoted into the statement; a statement the literal does not end cleanly is an
   * error, and neither argument is a TypeError.
   */
  function DirWhere(dirs: seq<Path>, id: Option<int>, path: Option<string>): (r: Result<Option<DirTables.DirRow>>)
    ensures id.None? && path.None? <==> r == Failure(NoSelector)
    ensures id.Some? ==> r == Success(DirRepository.SelectById(dirs, id.value))
  {
    if id.Some? then Success(DirRepository.SelectById(dirs, id.value))
    else if path.Some? then
      match ReadLiteral(path.value + "';", "")
      case Some((text, rest)) => if rest == ";" then Success(RowWithText(dirs, text)) else Failure(SqlError)
      case None => Failure(SqlError)
    else Failure(NoSelector)
  }

  /** Without an id, a quote-free path finds the row storing it, or no row. */
  lemma DirWhereByPath(dirs: seq<Path>, path: string)
    requires '\'' !in path
    ensures DirWhere(dirs, None, Some(path)) == Success(RowWithText(dirs, path))
  {
    ReadQuoteFree(path, "");
    assert "" + path == path;
  }

  // ---- select_files_where_query ----

  /** f"{v}" for a value that is not None. */
  function Format(v: PyValue): string
  {
    match v
    case PyNone => "None"
    case PyInt(i) => IntToDecimal(i)
    case PyStr(s) => s
    case PyPath(p) => Render(p)
  }

  /** One WHERE clause, the value quoted when it is a str. */
  function Clause(name: string, v: PyValue): string
  {
    if v.PyStr? then name + " = '" + v.s + "'" else name + " = " + Format(v)
  }

  /** The clauses of the arguments that are not None, in argument order. */
  function Clauses(names: seq<string>, vals: seq<PyValue>): seq<string>
    requires |names| == |vals|
  {
    if |vals| == 0 then []
    else
      var n := |vals| - 1;
      Clauses(names[..n], vals[..n]) + ClauseOf(names[n], vals[n])
  }

  /** The clause of one argument, none for None. */
  function ClauseOf(name: string, v: PyValue): seq<string>
  {
    if v.PyNone? then [] else [Clause(name, v)]
  }

  /** The clauses of all arguments are those of all but the last, then the last one's. */
  lemma ClausesLast(names: seq<string>, vals: seq<PyValue>)
    requires |names| == |vals| > 0
    ensures Clauses(names, vals) ==
      Clauses(names[..|vals| - 1], vals[..|vals| - 1]) + ClauseOf(names[|vals| - 1], vals[|vals| - 1])
  {
  }

  /** Taking one more argument adds its clause, if it has one. */
  lemma ClausesSnoc(names: seq<string>, vals: seq<PyValue>, j: int)
    requires |names| == |vals| && 0 <= j < |vals|
    ensures Clauses(names[..j + 1], vals[..j + 1]) ==
      Clauses(names[..j], vals[..j]) + ClauseOf(names[j], vals[j])
  {
    assert names[..j + 1][..j] == names[..j] && vals[..j + 1][..j] == vals[..j];
    assert names[..j + 1][j] == names[j] && vals[..j + 1][j] == vals[j];
  }

  /** A first argument of None contributes no clause. */
  lemma {:induction false} ClausesSkipFirst(names: seq<string>, vals: seq<PyValue>)
    requires |names| == |vals| > 0 && vals[0].PyNone?
    ensures Clauses(names, vals) == Clauses(names[1..], vals[1..])
    decreases |vals|
  {
    var n := |vals| - 1;
    ClausesLast(names, vals);
    if n == 0 {
      assert names[..0] == [] && vals[..0] == [];
    } else {
      assert vals[..n][0] == vals[0];
      ClausesSkipFirst(names[..n], vals[..n]);
      DropFirstOfPrefix(names, n);
      DropFirstOfPrefix(vals, n);
      ClausesLast(names[1..], vals[1..]);
    }
  }

  /** The first n elements without the first are the rest's first n - 1. */
  lemma DropFirstOfPrefix<T>(s: seq<T>, n: int)
    requires 0 < n < |s|
    ensures s[..n][1..] == s[1..][..n - 1] && s[1..][n - 1] == s[n]
  {
  }

  /** There is one clause for each argument that is not None, and none when all are None. */
  lemma {:induction false} ClausesNone(names: seq<string>, vals: seq<PyValue>)
    requires |names| == |vals|
    ensures Clauses(names, vals) == [] <==> forall k :: 0 <= k < |vals| ==> vals[k].PyNone?
    decreases |vals|
  {
    if |vals| > 0 {
      var n := |vals| - 1;
      ClausesNone(names[..n], vals[..n]);
      assert forall k :: 0 <= k < n ==> vals[..n][k] == vals[k];
    }
  }

  /** The argument names of select_files_where_query, in the order of its args dict. */
  const QueryArgs: seq<string> := ["id", "dir_id", "name", "md5", "mtime", "updated"]

  const SelectFiles: string := "SELECT * FROM file WHERE "

  predicate AllNone(vals: seq<PyValue>)
  {
    forall k :: 0 <= k < |vals| ==> vals[k].PyNone?
  }

  /** The query text, or the TypeError raised when every argument is None. */
  function FilesWhere(vals: seq<PyValue>): Result<string>
    requires |vals| == |QueryArgs|
  {
    if AllNone(vals) then Failure(NoSelector)
    else if !vals[0].PyNone? then Success(SelectFiles + "id = " + Format(vals[0]) + ";")
    else Success(SelectFiles + Join(Clauses(QueryArgs, vals), " AND ") + ";")
  }

  /** A given id is all the query says: every other argument is ignored. */
  lemma FilesWhereIdWins(vals: seq<PyValue>, others: seq<PyValue>)
    requires |vals| == |others| == |QueryArgs| && !vals[0].PyNone? && others[0] == vals[0]
    ensures FilesWhere(vals) == FilesWhere(others) == Success(SelectFiles + "id = " + Format(vals[0]) + ";")
  {
    assert !AllNone(vals) && !AllNone(others);
  }

  /** Without an id the query holds one clause per given argument, in the fixed argument order. */
  lemma FilesWhereClauses(vals: seq<PyValue>)
    requires |vals| == |QueryArgs| && vals[0].PyNone? && !AllNone(vals)
    ensures FilesWhere(vals) == Success(SelectFiles + Join(Clauses(QueryArgs[1..], vals[1..]), " AND ") + ";")
    ensures Clauses(QueryArgs[1..], vals[1..]) != []
  {
    ClausesSkipFirst(QueryArgs, vals);
    ClausesNone(QueryArgs, vals);
  }

  /** With one argument given there is exactly its clause. */
  lemma {:induction false} ClausesOne(names: seq<string>, vals: seq<PyValue>, k: int)
    requires |names| == |vals| && 0 <= k < |vals| && !vals[k].PyNone?
    requires forall i :: 0 <= i < |vals| && i != k ==> vals[i].PyNone?
    ensures Clauses(names, vals) == [Clause(names[k], vals[k])]
    decreases |vals|
  {
    var n := |vals| - 1;
    assert forall i :: 0 <= i < n ==> vals[..n][i] == vals[i];
    if k == n {
      ClausesNone(names[..n], vals[..n]);
    } else {
      ClausesOne(names[..n], vals[..n], k);
    }
  }

  /** A single given argument (other than id) makes a query of its one clause. */
  lemma FilesWhereSingle(vals: seq<PyValue>, k: int)
    requires |vals| == |QueryArgs| && 1 <= k < |vals| && !vals[k].PyNone?
    requires forall i :: 0 <= i < |vals| && i != k ==> vals[i].PyNone?
    ensures FilesWhere(vals) == Success(SelectFiles + Clause(QueryArgs[k], vals[k]) + ";")
  {
    assert !AllNone(vals);
    ClausesOne(QueryArgs, vals, k);
  }

  /** Appending one more "<clause> AND " to the query extends the terminated clause list by it. */
  lemma AppendedClause(q0: string, cs: seq<string>, c: string)
    ensures q0 + Terminated(cs, " AND ") + c + " AND " == q0 + Terminated(cs + [c], " AND ")
  {
    TerminatedSnoc(cs, c, " AND ");
  }

  /** The loop of select_files_where_query: "<arg> = <v> AND " appended for each argument that is not None. */
  method AppendClauses(q0: string, names: seq<string>, vals: seq<PyValue>) returns (q: string)
    requires |names| == |vals|
    ensures q == q0 + Terminated(Clauses(names, vals), " AND ")
  {
    q := q0;
    for j := 0 to |vals|
      invariant q == q0 + Terminated(Clauses(names[..j], vals[..j]), " AND ")
    {
      ClausesSnoc(names, vals, j);
      if !vals[j].PyNone? {
        var cs := Clauses(names[..j], vals[..j]);
        var c := Clause(names[j], vals[j]);
        AppendedClause(q0, cs, c);
        q := q + c + " AND ";
      } else {
        assert Clauses(names[..j], vals[..j]) + [] == Clauses(names[..j], vals[..j]);
      }
    }
    assert names[..|vals|] == names && vals[..|vals|] == vals;
  }

  /**
   * select_files_where_query: the loop that looks for a given argument, the early
   * return on id, and the loop that appends "<arg> = <v> AND " before the last
   * " AND " is cut and ";" added.
   */
  method SelectFilesWhereQuery(id: PyValue, dirId: PyValue, name: PyValue, md5: PyValue, mtime: PyValue, updated: PyValue)
    returns (r: Result<string>)
    ensures r == FilesWhere([id, dirId, name, md5, mtime, updated])
  {
    var args := [id, dirId, name, md5, mtime, updated];
    var noargs := true;
    var i := 0;
    while i < |args|
      invariant 0 <= i <= |args| && noargs
      invariant forall k :: 0 <= k < i ==> args[k].PyNone?
    {
      if !args[i].PyNone? {
        noargs := false;
        break;
      }
      i := i + 1;
    }
    if noargs {
      return Failure(NoSelector);
    }
    assert !AllNone(args);
    var q := SelectFiles;
    if !id.PyNone? {
      q := q + "id = " + Format(id) + ";";
      return Success(q);
    }
    q := AppendClauses(q, QueryArgs, args);
    ClausesNone(QueryArgs, args);
    var cs := Clauses(QueryArgs, args);
    TerminatedIsJoin(cs, " AND ");
    assert q == SelectFiles + Join(cs, " AND ") + " AND ";
    q := q[..|q| - 5] + ";";
    return Success(q);
  }
}
