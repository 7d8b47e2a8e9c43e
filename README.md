# scout storage layer in Dafny

A model of the storage layer of *scout*, a tool that indexes a directory tree
into a SQLite database. The model covers:

- **The connector** (`DBConnector`, in `lib/handler/db_connector.py` and its
  trimmed copy `scoutlib/handler/db_connector.py`). It validates the database
  path and the repository root. It decides whether to create a new database or
  reopen an existing one, in which case the persisted root wins. It also turns
  paths into root-relative form (`normalize_path`) and back
  (`denormalize_path`), and lists a path's ancestors (`ancestor_paths`).
- **The closure-table directory store** (`scoutlib/handler/dir_repo.py`). This
  is `insert_dir`, plus the closure algorithm kept in the file as commented
  code: `insert_into_dir_ancestor`, `add`, the ancestor and descendant depth
  queries, `getone`, `get_ancestors` and `get_descendants`.
- **The file repository** (`scoutlib/handler/file_repo.py`). This covers:
  - `select_dir_where` and the `select_files_where_query` string builder;
  - `add`, which places each file under its directory row;
  - `get`, whose keyword filters become conditions over a LEFT JOIN of the
    file table with the dir table.
- **The older directory repository** (`scoutlib/handler/db.py`).
- **The value types** `Dir`, `File` and the id `Validator`
  (`lib/model/dir.py`).

How the model represents the system:

- **Paths.** A path is a value `Path(absolute, parts)` modelled on
  `PurePosixPath`. `Render` is `str(p)`, `Parse` is `PurePath(s)` and `Div` is
  `a / b`. `Render` is injective and `Parse` inverts it, so the tables store
  paths rather than their text.
- **The ".." rule.** Wherever the source rejects ".." it tests for the
  substring in `str(arg)`. The model keeps that test as `HasDotDot` on the
  argument's text.
- **Tables.** Each table is a sequence, and the row with id `i + 1` is the
  `i`-th. The dir table is a `seq<Path>`, the dir_ancestor table a
  `seq<Edge>` and the file table a `seq<FileRow>`. The UNIQUE and PRIMARY KEY
  constraints are invariants of the classes that own the tables.
- **Objects.** `DbConnector`, `DirRepo`, `FileRepo` and `LegacyDirRepo` are
  classes whose methods update their table fields. Each method is proved
  against a function on the old state, and the laws are lemmas about those
  functions.
- **Errors.** Every Python exception on an error path is an `Error` value in a
  `Result`.
- **The closure invariant.** `Closed` means that every stored path has its
  prefixes stored, and that every prefix pair has exactly the edge
  `(dir, ancestor, depth)` at their component distance.

## Model

| member | source | states |
|---|---|---|
| Paths.Div | lib/handler/db_connector.py:250 | `a / b` is b itself when b is absolute; otherwise it keeps a's absoluteness, starts with a's components and continues with exactly b's |
| Paths.RelativeTo | lib/handler/db_connector.py:226 | `relative_to` succeeds exactly for paths under the root; its result is relative and joins back to the path |
| Paths.Parent | lib/handler/db_connector.py:265 | `.parent` drops the last component and keeps absoluteness; the root and the empty path are their own parents |
| Paths.Name | scoutlib/handler/file_repo.py:196 | `.name` is the last component, or "" when there is none |
| Paths.Prefixes | lib/handler/db_connector.py:253-266 | one relative prefix per component, prefix i having i+1 components, the last being the path itself |
| Paths.AncestorChain | lib/handler/db_connector.py:261-266 | the walk from the path to its parents until `PP()`, followed by the reversal, yields exactly `Prefixes` |
| Paths.ParseRender | scoutlib/handler/dir_repo.py:90-92 | `PurePath(str(p)) == p`, so storing `str(path)` and reading it back loses nothing |
| Paths.RenderInjective | scoutlib/handler/dir_repo.py:35-39 | two paths have the same text iff they are equal, so UNIQUE on the text is UNIQUE on paths |
| Paths.RenderDotDot | lib/handler/db_connector.py:209-211 | ".." occurs in `str(p)` iff some component of p contains it |
| Paths.PrefixesParent | lib/handler/db_connector.py:261-266 | each prefix after the first is the next one's `.parent`, which is how the loop walks the chain |
| Paths.ParseNoDotDot | scoutlib/handler/db_connector.py:190-193 | a text that passes the ".." test parses to components free of ".." |
| Text.NatToDecimal | scoutlib/handler/file_repo.py:141 | the decimal text of a natural number is a non-empty string of digits |
| Text.DecimalRoundTrip | scoutlib/handler/file_repo.py:140-151 | the decimal text `f"{n}"` puts in a query reads back as n |
| Text.IntToDecimal | scoutlib/handler/file_repo.py:141 | `str(i)` is the digits of abs(i), with "-" in front for a negative i; it never contains a quote or a dot |
| DirModel.ValidateId | lib/model/dir.py:17-23 | None passes; a non-int or a negative int is a ValueError; a valid id is kept |
| DirModel.NewDir | lib/model/dir.py:34-36 | the id is stored as given; a PurePath is kept; a str is parsed, and is absolute iff it starts with "/" |
| DirModel.NewDirFromText | lib/model/dir.py:34-36 | building a Dir from `str(q)` gives back the path q |
| DirModel.DirFromPath | lib/model/dir.py:39-40 | `from_path` is the constructor applied to the text |
| DirModel.DirName | lib/model/dir.py:43-45 | `name` is the last component, which is non-empty and has no "/"; it is "" for the root |
| DirModel.DirParent | lib/model/dir.py:48-49 | `parent` has no id, and its path with the name appended is the original path |
| DirModel.FindSubdirs | lib/model/dir.py:51-52 | d is in the result iff d is in the list and its parent path is this dir's path |
| DirModel.FindSubdirsAppend | lib/model/dir.py:51-52 | the filter distributes over concatenation, so input order is kept |
| DirModel.SubdirShape | lib/model/dir.py:51-52 | a found subdir extends this dir's path, with the same absoluteness, by exactly one component (or is the root, its own parent) |
| DirModel.DirEquals | lib/model/dir.py:57-63 | `__eq__` is false for a non-Dir, and true iff name, path and id all agree, which is exactly equality of the Dir values |
| DirModel.DirEqualsSymmetric | lib/model/dir.py:57-63 | equality is symmetric, and equal Dirs have equal names |
| DirModel.ReprDotDot | lib/model/dir.py:65-66 | ".." is in `repr(dir)` iff it is in some component of the dir's path, so the connector's ".." test on a Dir sees only its path |
| DirModel.Basename | lib/model/dir.py:79-83 | `os.path.basename` is the slash-free tail of the text, preceded by "/" when shorter than the text |
| DirModel.FileFromPath | lib/model/dir.py:79-83 | `File.from_path`: the name is the basename, the parent is `Dir.from_path(dirname)` without an id, and the id is the one passed |
| DirModel.ParseSplit | lib/model/dir.py:79-83 | parsing a text gives the parse of its dirname followed by its basename as one component (none when empty) |
| DirModel.ParseOsJoin | lib/model/dir.py:85-86 | `os.path.join(str(p), name)` parses to p with name appended |
| DirModel.FromPathThenPath | lib/model/dir.py:79-86 | `PurePath(File.from_path(s).path()) == PurePath(s)`: splitting and rejoining keeps the path |
| Connector.ArgNoDotDot | lib/handler/db_connector.py:209-221 | an argument that passes the ".." test denotes a path with no ".." component |
| Connector.Relativize | lib/handler/db_connector.py:224-227 | root-prefixing then `relative_to` succeeds iff the path is relative or under the root; the result is relative and denotes the same absolute path |
| Connector.Normalize | lib/handler/db_connector.py:196-227 | ".." is refused first; a non-Dir/str/PurePath is a TypeError; the call succeeds iff the path is relative or under the root; a relative input comes back unchanged |
| Connector.NormalizeScout | scoutlib/handler/db_connector.py:178-197 | the scoutlib copy refuses ".." first, then any Dir or other non-path as a wrong type; results are relative, and the only errors are those three |
| Connector.NormalizeCopiesAgree | scoutlib/handler/db_connector.py:178-197 | both copies of `normalize_path` agree on every argument that is not a Dir |
| Connector.Denormalize | lib/handler/db_connector.py:229-251 | ".." is refused; an absolute path outside the root is refused; an absolute path inside comes back unchanged; a relative p becomes `root / p` |
| Connector.NormalizeRelativeUnchanged | lib/handler/db_connector.py:224-227 | a relative path, or its text, normalises to itself |
| Connector.NormalizeIdempotent | scoutlib/handler/db_connector.py:193-197 | normalising a normalised path changes nothing |
| Connector.NormalizeAbsolute | lib/handler/db_connector.py:224-227 | an absolute path under the root becomes its suffix after the root; one outside is refused |
| Connector.DenormalizeNormalize | lib/handler/db_connector.py:196-251 | denormalising a normalised argument gives `root / arg` |
| Connector.NormalizeDenormalize | scoutlib/handler/db_connector.py:193-221 | under an absolute root, `normalize(denormalize(p)) == p` for a relative p without ".." |
| Connector.RelativeRootRoundTrip | scoutlib/handler/db_connector.py:193-221 | under any relative root without "..", a clean relative p denormalises to `root / p`, which normalises to itself: the round trip returns `root / p` instead of p |
| Connector.DenormalizeEmpty | lib/handler/db_connector.py:243-251 | the empty path and "" both denormalise to the root itself |
| Connector.AncestorPaths | lib/handler/db_connector.py:253-266 | succeeds iff normalisation does, with normalisation's error otherwise; the result is the prefix chain of the normalised path |
| Connector.AncestorPathsShape | lib/handler/db_connector.py:253-266 | one path per component, root first, ending with the path itself; `[]` exactly for the empty path |
| Connector.ValidatePath | scoutlib/handler/db_connector.py:58-85 | a non-path is a TypeError; a str is parsed and a PurePath kept, and it passes iff its parent is a directory and nothing or a scout db is there; otherwise a non-directory parent is the not-in-directory error, an ordinary file the occupied ValueError and a directory the IsADirectory error |
| Connector.ValidateRoot | scoutlib/handler/db_connector.py:88-114 | None means the db file's parent and a str is parsed as `PP(root)`; for each of None, str and PurePath the root passes iff that path is a directory, and the result is that path; otherwise it is the not-a-directory error |
| Connector.OpenDecision | scoutlib/handler/db_connector.py:155-176 | succeeds iff both validations do; a database is created iff nothing is at the path, with the validated root, and is otherwise reopened with the persisted root |
| Connector.AfterOpen | lib/handler/db_connector.py:156-170 | creating writes `str(root)` as the persisted root; when that text holds a quote the f-string INSERT fails after CREATE TABLE and the file is left without a root row, so it is no scout db; reopening writes nothing |
| Connector.PersistedRootWins | lib/handler/db_connector.py:188-193 | on reopen the persisted root replaces the validated root argument |
| Connector.MissingFileCreates | lib/handler/db_connector.py:188-193 | with nothing at the path, the database is created with the validated root |
| Connector.DefaultRootAlwaysValid | lib/handler/db_connector.py:105-131 | leaving the root out never fails once the path is valid, and then the root is the path's parent |
| Connector.OccupiedPathRefused | lib/handler/db_connector.py:75-102 | an ordinary file that is not a scout db at the path is refused as occupied, and a directory there as a directory |
| Connector.CreateThenReopen | lib/handler/db_connector.py:172-193 | reopening a database just created, with a quote-free root, yields the root it was created with |
| Connector.QuotedRootSpoilsPath | lib/handler/db_connector.py:35-72 | after a creation whose root holds a quote, opening the same path again is refused as occupied |
| Connector.DbConnector.constructor | lib/handler/db_connector.py:185-187 | the object holds the given path and root |
| Connector.DbConnector.TakePersistedRoot | lib/handler/db_connector.py:192-193 | reopening replaces `self.root` with the persisted root and keeps `self.path` |
| Connector.Connect | lib/handler/db_connector.py:172-193 | succeeds iff `OpenDecision` does and `init_db` does not fail on a quoted root; validation errors leave the filesystem unchanged; a failing `init_db` is an SQLite error that leaves `AfterOpen`; success returns a fresh connector with the decided path and root, the filesystem being `AfterOpen` |
| DirTables.FindPath | scoutlib/handler/dir_repo.py:80-89 | the lookup finds a row iff the path is stored, and the row it finds holds the path |
| DirTables.FindPathUnique | scoutlib/handler/dir_repo.py:35-39 | under UNIQUE(path) the lookup of a stored path finds its own row |
| DirTables.WithDir | scoutlib/handler/dir_repo.py:71-92 | insert-or-fetch: a stored path leaves the table as it is, a new path is appended as the last row, the returned id's row holds the path, and uniqueness is kept |
| DirTables.WithDirTwice | scoutlib/handler/dir_repo.py:71-92 | inserting the same path again changes nothing and returns the same id |
| DirTables.WithDirsHas | scoutlib/handler/dir_repo.py:239-246 | after `insert_dir` of each ancestor path, a path is stored iff it was stored before or is one of them |
| DirTables.WithEdge | scoutlib/handler/dir_repo.py:95-112 | ON CONFLICT DO NOTHING: a row whose key is taken is dropped and anything else is appended; keys stay unique |
| DirTables.WithEdgeTwice | scoutlib/handler/dir_repo.py:104-111 | an edge inserted twice is stored once |
| DirTables.WithEdges | scoutlib/handler/dir_repo.py:95-112 | after the batch every row's key is present, nothing else is added, and keys stay unique |
| DirTables.WithEdgesPresent | scoutlib/handler/dir_repo.py:95-112 | a batch whose keys are all present changes nothing |
| DirTables.WithEdgesTwice | scoutlib/handler/dir_repo.py:95-112 | inserting the same batch twice leaves the table as after the first time |
| DirTables.ClosureRowsHas | scoutlib/handler/dir_repo.py:248-253 | `add` emits `(ids[i], ids[j], i - j)` for every `j <= i` |
| DirTables.ClosureRowsOnly | scoutlib/handler/dir_repo.py:248-253 | every emitted row is such a pair |
| DirTables.AddDirsHas | scoutlib/handler/dir_repo.py:239-246 | after `add`, a path is stored iff it was stored before or is a prefix of the leaf |
| DirTables.AddIds | scoutlib/handler/dir_repo.py:239-246 | one id per prefix, root first, each naming the row that holds that prefix |
| DirTables.PrefixesStored | scoutlib/handler/dir_repo.py:239-246 | after `add` every prefix of the leaf is stored |
| DirTables.AddKeepsClosed | scoutlib/handler/dir_repo.py:226-258 | `add` keeps the closure invariant: unique paths and keys, prefix-closed rows, and exactly the right edge for every prefix pair |
| DirTables.AddStoresChain | scoutlib/handler/dir_repo.py:248-253 | after `add`, each prefix of the leaf has an edge to each of its own prefixes at their distance, including a depth-0 self-edge |
| DirTables.AddTwice | scoutlib/handler/dir_repo.py:226-258 | adding the same directory a second time leaves both tables as they are and collects the same ids |
| DirTables.MatchingHas | scoutlib/handler/dir_repo.py:135-151 | the WHERE filter keeps exactly the edges from the id with `0 < depth <= limit` |
| DirTables.SortPerm | scoutlib/handler/dir_repo.py:149 | ORDER BY depth keeps the rows (a permutation) |
| DirTables.SortSorted | scoutlib/handler/dir_repo.py:149 | ORDER BY depth orders the rows by depth |
| DirTables.HitsSorted | scoutlib/handler/dir_repo.py:135-151 | the selected edges come shallowest first |
| DirTables.HitsMembers | scoutlib/handler/dir_repo.py:156-223 | the query keeps exactly the edges from the id (the ancestor end for descendants), within the limit, that reach a stored row |
| DirTables.Related | scoutlib/handler/dir_repo.py:156-223 | one row per selected edge, holding the far end's id and path; no rows for an id not stored |
| DirTables.AncestorRow | scoutlib/handler/dir_repo.py:156-175 | in a sound store each ancestor row is a proper prefix, as many components short as its depth, within the limit |
| DirTables.AncestorListed | scoutlib/handler/dir_repo.py:156-175 | in a complete store every stored proper prefix within the limit is listed |
| DirTables.AncestorsNearestFirst | scoutlib/handler/dir_repo.py:149 | ancestors come nearest first: no row's path is shorter than a later row's |
| DirTables.DescendantRow | scoutlib/handler/dir_repo.py:203-223 | each descendant row extends the directory by as many components as its depth, within the limit |
| DirTables.DescendantListed | scoutlib/handler/dir_repo.py:203-223 | every stored extension within the limit is listed |
| DirTables.DescendantsNearestFirst | scoutlib/handler/dir_repo.py:189-197 | descendants come nearest first: no row's path is longer than a later row's |
| DirRepository.ClosureRowsOf | scoutlib/handler/dir_repo.py:248-253 | the nested loop builds exactly the closure rows of the id list |
| DirRepository.DirsOf | scoutlib/handler/dir_repo.py:256-258 | one Dir per ancestor path, with `root / path` and the path's id |
| DirRepository.SelectById | scoutlib/handler/dir_repo.py:124-130 | a row is found iff the id is in range, and it is the row with that id |
| DirRepository.SelectByPath | scoutlib/handler/dir_repo.py:114-122 | a row is found iff the path is stored, and the row holds it |
| DirRepository.RowToDir | scoutlib/handler/dir_repo.py:270-283 | no row gives None; a row gives the Dir with the denormalised path and the row id, or the denormalisation error |
| DirRepository.GetOne | scoutlib/handler/dir_repo.py:260-283 | an explicit id wins, then an explicit path, then `dir.id`; no argument is a ValueError; a falsy id or path finds nothing; a truthy path that normalises is looked up by its normalised form, and one that does not passes on the normaliser's error |
| DirRepository.GetOnePrecedence | scoutlib/handler/dir_repo.py:266-283 | the first argument given decides the answer and the others are ignored |
| DirRepository.GetOneFindsRow | scoutlib/handler/dir_repo.py:260-283 | a stored row is found by its id, its relative path, its absolute path, or a Dir carrying its id, and comes back with its absolute path |
| DirRepository.GetOneMissing | scoutlib/handler/dir_repo.py:276-283 | a path not stored finds None |
| DirRepository.RelatedByPath | scoutlib/handler/dir_repo.py:132-154 | normalisation errors propagate; a path not stored gives no rows |
| DirRepository.RelatedByPathIsById | scoutlib/handler/dir_repo.py:132-223 | the query by a stored path, relative or absolute, equals the query by its id |
| DirRepository.RowsToDirs | scoutlib/handler/dir_repo.py:301-310 | one Dir per row, in order, with the denormalised path and the row id; the first row that cannot be denormalised raises its error |
| DirRepository.RowsToDirsClean | scoutlib/handler/dir_repo.py:301-310 | rows of clean relative paths all come back, each as `root / path` |
| DirRepository.GetRelated | scoutlib/handler/dir_repo.py:285-341 | a nonzero id wins, then a Dir's nonzero id; otherwise a truthy path argument, or failing that `str(dir.path)`, is looked up, its normalisation error propagating and its rows coming back as Dirs |
| DirRepository.GetRelatedNoTarget | scoutlib/handler/dir_repo.py:296-300 | the ValueError comes iff there is no truthy id, no dir and no truthy path |
| DirRepository.GetRelatedByPath | scoutlib/handler/dir_repo.py:285-341 | asking by a stored path, relative or absolute, gives what asking by its id gives |
| DirRepository.GetRelatedDirWithoutId | scoutlib/handler/dir_repo.py:296-306 | a Dir without an id whose path is stored gives what asking by that row's id gives |
| DirRepository.GetAncestorsListed | scoutlib/handler/dir_repo.py:285-311 | for a stored directory, `Dir(root / q, id)` is listed iff q is a stored proper prefix within the depth limit |
| DirRepository.AncestorsRowListed | scoutlib/handler/dir_repo.py:156-175 | in a sound and complete store the ancestor query by id lists a row iff it is a proper prefix within the depth limit |
| DirRepository.DescendantsRowListed | scoutlib/handler/dir_repo.py:203-223 | in a sound and complete store the descendant query by id lists a row iff it extends the directory within the depth limit |
| DirRepository.GetDescendantsListed | scoutlib/handler/dir_repo.py:313-341 | for a stored directory, `Dir(root / q, id)` is listed iff q is a stored extension within the depth limit |
| DirRepository.DirRepo.constructor | scoutlib/handler/dir_repo.py:61-66 | the repository holds the connector and the tables as given, which must already have unique paths and keys |
| DirRepository.DirRepo.InsertDir | scoutlib/handler/dir_repo.py:71-92 | normalisation errors leave the table as it was; otherwise the table and id are `WithDir` of the normalised path; edges are untouched |
| DirRepository.DirRepo.InsertEdges | scoutlib/handler/dir_repo.py:95-112 | the edge table becomes `WithEdges` of the batch; dirs are untouched |
| DirRepository.DirRepo.InsertChain | scoutlib/handler/dir_repo.py:242-246 | the loop stores every ancestor path and collects exactly their ids |
| DirRepository.DirRepo.Add | scoutlib/handler/dir_repo.py:226-258 | normalisation errors change nothing, and an empty path is refused as having no ancestors; otherwise both tables become `AddDirs`/`AddEdges`, one Dir per prefix comes back root first, the leaf gets the last id, and `Closed` is preserved |
| DirRepository.DirRepo.AddPath | scoutlib/handler/dir_repo.py:239-258 | the body of `add` for a normalised path: tables, ids and returned Dirs as specified, with the closure invariant kept |
| FileQuery.Bind | scoutlib/handler/file_repo.py:287-296 | sqlite3 binds None, int and str, and refuses a PurePath |
| FileQuery.OperatorSuffix | scoutlib/handler/file_repo.py:256-282 | `col__op` is accepted iff op is one of gt, lt, ge, le, ne or null; each gives its comparison or NULL test, and any other suffix is a ValueError |
| FileQuery.TwoSeparators | scoutlib/handler/file_repo.py:258 | a key with two separators does not unpack into a column and an operator |
| FileQuery.PlainKey | scoutlib/handler/file_repo.py:279-280 | a key without "__" compares for equality |
| FileQuery.RowsWhereHas | scoutlib/handler/file_repo.py:283 | the conditions are ANDed: a row is selected iff it passes every condition |
| FileQuery.RowsWhereIncreasing | scoutlib/handler/file_repo.py:287-296 | rows come back in table order, each once |
| FileQuery.RowsWhereAll | scoutlib/handler/file_repo.py:292 | with no condition every row is selected, in table order |
| FileQuery.GtLeSplit | scoutlib/handler/file_repo.py:259-266 | on a non-NULL value exactly one of `>` and `<=` holds; on NULL neither does |
| FileQuery.GeSuccIsGt | scoutlib/handler/file_repo.py:259-266 | on an integer column `>= v + 1` and `> v` select the same rows |
| FileQuery.NullSplit | scoutlib/handler/file_repo.py:269-275 | `__null=True` and `__null=False` split the rows between them |
| FileQuery.NoneMatchesNothing | scoutlib/handler/file_repo.py:277-282 | comparing with None binds NULL and holds on no row |
| FileQuery.IdPicksRow | scoutlib/handler/file_repo.py:279-280 | `id=n` holds exactly for the row with id n |
| FileQuery.DirIdPicksRows | scoutlib/handler/file_repo.py:279-280 | `dir_id=v` holds exactly for the rows stored under v |
| FileQuery.NamePicksRows | scoutlib/handler/file_repo.py:279-280 | `name=x` holds exactly for the rows named x |
| FileQuery.DirWhere | scoutlib/handler/file_repo.py:74-80 | an id wins over a path; neither is a TypeError |
| FileQuery.DirWhereByPath | scoutlib/handler/file_repo.py:77-78 | without an id, a quote-free path finds the row storing it, or None |
| FileQuery.FilesWhereIdWins | scoutlib/handler/file_repo.py:138-142 | with an id the query is exactly `SELECT * FROM file WHERE id = N;`, whatever the other arguments |
| FileQuery.FilesWhereClauses | scoutlib/handler/file_repo.py:144-153 | without an id, one clause per given argument in the fixed order, joined by " AND " and ended by ";" |
| FileQuery.FilesWhereSingle | scoutlib/handler/file_repo.py:144-153 | a single non-id argument gives a query whose only condition is that argument's clause |
| FileQuery.ClausesNone | scoutlib/handler/file_repo.py:130-136 | there are no clauses exactly when every argument is None |
| FileQuery.AppendClauses | scoutlib/handler/file_repo.py:144-151 | the loop appends `<clause> AND ` for each non-None argument in order |
| FileQuery.SelectFilesWhereQuery | scoutlib/handler/file_repo.py:86-153 | the loop-built query is exactly `FilesWhere` of the six arguments, so the laws above hold of it |
| FileRepository.StoreEachStores | scoutlib/handler/file_repo.py:162-219 | files are stored in order until one fails; either every file is stored and handed back, or the first failure is raised with the files before it stored |
| FileRepository.StoreEachStopped | scoutlib/handler/file_repo.py:162-219 | after a failure the rest of the list is never looked at |
| FileRepository.StoreKeeps | scoutlib/handler/file_repo.py:192-218 | a stored file is handed back with id n+1, the row's dir_id, the clock reading, and the size, mtime and md5 it came with, the row holding the same mtime, md5 and clock reading |
| FileRepository.StoreEachNext | scoutlib/handler/file_repo.py:162-218 | one more file either stops the run with its error, keeping the rows so far, or adds its row and its record |
| FileRepository.PlaceErrors | scoutlib/handler/file_repo.py:168-191 | placement fails iff (no dir_id and a parent other than "." with no dir row) or (a nonzero dir_id with no row), and then with a ValueError |
| FileRepository.PlaceRefusedPath | scoutlib/handler/file_repo.py:164 | a path `normalize_path` refuses fails `add` with that error before any dir_id is looked at |
| FileRepository.PlaceDenotes | scoutlib/handler/file_repo.py:168-191 | the stored dir_id names the directory of the stored path (0 for the root), the name is the file's own, and without a dir_id the path is kept |
| FileRepository.PlaceKeepsOnlyName | scoutlib/handler/file_repo.py:179-191 | an explicit dir_id overrides the parent: only the file's name is looked at |
| FileRepository.PlaceAbsoluteRelative | scoutlib/handler/file_repo.py:164-165 | a file given by its absolute path under the root is placed as the same file given root-relative |
| FileRepository.ConditionsEach | scoutlib/handler/file_repo.py:256-282 | every filter has its own condition, in order, or the first filter without one decides the error |
| FileRepository.ConditionsStopped | scoutlib/handler/file_repo.py:256-282 | once a filter has failed, the filters after it do not change the outcome |
| FileRepository.FetchAll | scoutlib/handler/file_repo.py:288-296 | with no filter every row comes back, in table order |
| FileRepository.SelectMatches | scoutlib/handler/file_repo.py:256-310 | with filters, get returns exactly the rows that pass every condition, each once and in table order |
| FileRepository.SelectRefused | scoutlib/handler/file_repo.py:256-282 | the first filter without a condition fails `get` with its error |
| FileRepository.SelectUnknownColumn | scoutlib/handler/file_repo.py:24-34 | a condition on a column the table lacks (size among them) is an SQLite error |
| FileRepository.FetchById | scoutlib/handler/file_repo.py:223-311 | `get(id=k+1)` returns the k-th row alone |
| FileRepository.RowComesBack | scoutlib/handler/file_repo.py:298-311 | a row in the directory of p under p's name is rebuilt as the file `root / p` with its dir_id, id, mtime, md5 and updated, and no size |
| FileRepository.StoredComesBack | scoutlib/handler/file_repo.py:192-219 | `get` rebuilds a stored file as `add` returned it, except for the size, which the table does not keep |
| FileRepository.AddThenGet | scoutlib/handler/file_repo.py:158-311 | after `add`, `get` by the id of any file it returned gives back that file, except for the size |
| FileRepository.StoredById | scoutlib/handler/file_repo.py:197-211 | the row stored by one step has id n+1, and `get` by that id finds the file |
| FileRepository.PathFiltersOf | scoutlib/handler/file_repo.py:246-254 | `path=p` is replaced by a filter on p's parent and one on p's name |
| FileRepository.PathConditionHolds | scoutlib/handler/file_repo.py:285 | `d.path = str(q)` holds exactly for rows whose dir_id names a dir row storing q |
| FileRepository.PathFilterConditions | scoutlib/handler/file_repo.py:246-254 | `get(path=p)` becomes a filter on p's parent and one on p's name, and SQLite accepts both |
| FileRepository.RootFileMissedAsWritten | scoutlib/handler/file_repo.py:248-254 | as written, a file stored in the root (dir_id 0) never passes the `d.path = '.'` condition |
| FileRepository.PathFilterFinds | scoutlib/handler/file_repo.py:248-254 | with the root case filtered on dir_id 0, the path filter holds exactly for rows in p's directory under p's name |
| FileRepository.FetchByPath | scoutlib/handler/file_repo.py:246-311 | `get(path=p)` returns exactly the files passing p's conditions, in table order |
| FileRepository.FetchByPathAsWritten | scoutlib/handler/file_repo.py:246-311 | the same, for the conditions the code as written builds |
| FileRepository.FetchAgreesWithoutPath | scoutlib/handler/file_repo.py:246-254 | without a path filter the program as written and the corrected `get` return the same |
| FileRepository.FileRepo.constructor | scoutlib/handler/file_repo.py:44-48 | the repository holds the connector, the dir repository and the file table |
| FileRepository.FileRepo.Add | scoutlib/handler/file_repo.py:158-219 | the table gains exactly the rows of the files stored before any failure, and the result is the list of stored files or the first error |
| FileRepository.FileRepo.StoreFiles | scoutlib/handler/file_repo.py:162-218 | the loop appends each step's row until a step fails, as `StoreEach` specifies |
| FileRepository.FileRepo.Get | scoutlib/handler/file_repo.py:223-311 | the method returns `FetchAsWritten` of the filters over the current tables: the path filter as written, so root files are not found by path |
| LegacyRepo.RootFor | scoutlib/handler/db.py:25-33 | without a path the repository root is the db file's parent |
| LegacyRepo.DbFile | scoutlib/handler/db.py:35-36 | the db file is "dir.db" in the root |
| LegacyRepo.NormalizedRelative | scoutlib/handler/db.py:66-88 | what `normalize_path` returns is relative |
| LegacyRepo.NormalizeRelative | scoutlib/handler/db.py:82-84 | a relative path, or its text, comes back unchanged, ".." and all |
| LegacyRepo.NormalizeAbsolute | scoutlib/handler/db.py:85-88 | an absolute path is accepted iff it lies under the root, becoming its part below the root; otherwise the ValueError names it |
| LegacyRepo.NormalizeRoot | scoutlib/handler/db.py:85-88 | an absolute root normalises to the empty path |
| LegacyRepo.NormalizeParentRefused | scoutlib/handler/db.py:85-88 | the root's own parent is refused with its message |
| LegacyRepo.NormalizeIdempotent | scoutlib/handler/db.py:66-88 | normalising twice equals normalising once |
| LegacyRepo.NormalizeDenormalize | scoutlib/handler/db.py:66-96 | under an absolute root, `normalize(denormalize(p)) == p` for a normalised p |
| LegacyRepo.RelativeRootRoundTrip | scoutlib/handler/db.py:29-32 | under a relative root (the default for a bare db file name) the round trip gives `root / p` |
| LegacyRepo.DenormalizeNormalize | scoutlib/handler/db.py:66-96 | for a path under an absolute root, denormalising its normal form gives the path back |
| LegacyRepo.DenormalizeHere | scoutlib/handler/db.py:91-96 | the empty path denormalises to the root |
| LegacyRepo.DirectoryRefusedAsWritten | scoutlib/handler/db.py:76-82 | as written, a Directory whose path is a str raises AttributeError |
| LegacyRepo.DirectoryNormalizes | scoutlib/handler/db.py:76-81 | with the str path parsed, a Directory normalises as its path does |
| LegacyRepo.NormalizeAgrees | scoutlib/handler/db.py:66-88 | the two readings agree except on a Directory holding a str |
| LegacyRepo.TableRefusesStrDirectory | scoutlib/handler/db.py:100-137 | as written, insert and select raise AttributeError for a Directory with a str path; every other argument is normalised as the corrected reading does |
| LegacyRepo.FindRow | scoutlib/handler/db.py:100-109 | a row is found iff one holds the path, and it holds it |
| LegacyRepo.InsertFresh | scoutlib/handler/db.py:120-137 | a new path gets one new last row and its id back, and nothing else changes |
| LegacyRepo.InsertDuplicate | scoutlib/handler/db.py:45 | a path already present leaves the table as it is and returns None |
| LegacyRepo.InsertOutside | scoutlib/handler/db.py:120-137 | a path outside the repository raises before anything is inserted |
| LegacyRepo.InsertKeepsUnique | scoutlib/handler/db.py:45 | inserting keeps paths unique |
| LegacyRepo.InsertTwice | scoutlib/handler/db.py:120-137 | a second insert of the same path changes nothing |
| LegacyRepo.InsertThenSelect | scoutlib/handler/db.py:100-137 | the inserted row is what `select_dir_where_path` finds for the same path |
| LegacyRepo.SelectFinds | scoutlib/handler/db.py:100-109 | the lookup finds a row iff one holds the normalised path, and it returns that row's id, name and path |
| LegacyRepo.LegacyDirRepo.constructor | scoutlib/handler/db.py:25-33 | a str db path is parsed, and the root defaults to its parent |
| LegacyRepo.LegacyDirRepo.AncestorPaths | scoutlib/handler/db.py:112-118 | the loop yields the prefix chain of the path as `normalize_path` as written normalises it, or its error |
| LegacyRepo.LegacyDirRepo.InsertIntoDir | scoutlib/handler/db.py:120-137 | the table and result are those of `Inserted`, which uses `normalize_path` as written, and the table is unchanged on error |
| LegacyRepo.LegacyDirRepo.SelectDirWherePath | scoutlib/handler/db.py:100-109 | the method returns the row `SelectWherePath` specifies, with `normalize_path` as written, so a Directory with a str path raises AttributeError |

## Left out

- SQLite itself is not modelled: connections, cursors, `lastrowid`, `PRAGMA` and the context managers. This includes `connect` and `table_exists` (lib/handler/db_connector.py:271-288), `create_dir_table`/`create_dir_ancestor_table`/`create_file_table`, and `_init_db`/`connection` in scoutlib/handler/db.py. Tables are sequences held by the repository objects, and the schema constraints are their invariants.
- `is_db_file` and `is_scout_db_file` (lib/handler/db_connector.py:35-72) read a file header and query `sqlite_master`. The filesystem is abstracted as a `World` map from paths to entries (directory, ordinary file, scout db with its root text).
- `read_root` and `init_db` (lib/handler/db_connector.py:134-170) are modelled only by their effect on that map (`AfterOpen`). No other fs_meta content is modelled.
- Connector.AfterOpen: a root whose text holds a quote is modelled as the INSERT failing. SQLite accepts some such texts as a valid statement (a doubled quote, or `'||'`) and then persists a different root; the model does not capture those.
- The scoutlib copy raises FileNotFoundError where the lib copy raises `DBNotInDirError` for a path outside any directory. Both are the one `NotInDirectory` error of the model.
- Clock reads and datetime conversions (`dt.now()`, `fromtimestamp`) are left out. `updated` is an integer parameter, and mtime and updated stay integers.
- MD5 hashing is left out: the hash is kept as its hex text.
- The `breakpoint()` at scoutlib/handler/file_repo.py:184 is treated as the ValueError that follows it.
- The file table has no size column. A size filter is therefore an SQLite error, and `get` returns files without a size.
- Value coercion in comparisons follows SQLite's column affinity for integers and decimal text only. Floating-point values and other Python types are not modelled.
- `Dir.find_files` (lib/model/dir.py:54-55) is not modelled.
- `DirRepo.get` (scoutlib/handler/db.py:165-173) calls a `query_path` that does not exist, so it is not modelled. The commented `add` drafts in the same file (lines 139-163 and 177-179) are not modelled either.
- The commented closure code reads `r[2]` from the dir table, which has two columns. The model reads the path column.
- DirRepository.DirRepo.Add: `add` sets `dir.id` on the Dir passed in. Dirs are values in the model, so the updated Dir comes back as the `leaf` out-parameter instead of being updated through aliases.
- Connector.DbConnector.NormalizePath and Connector.DbConnector.DenormalizePath only delegate to `Normalize` and `Denormalize` on the object's root. They carry no contract of their own; the laws are stated on the functions.
- DirTables.AncestorsNearestFirst and DirTables.DescendantsNearestFirst state the order of the result. The order among rows of equal depth (table order) is fixed by the model's stable sort, whereas SQLite leaves it unspecified.
- FileQuery.DirWhere: a path text that closes its literal early but leaves valid SQL (`x' OR 'a'='a`, `a'--`) runs the injected statement in SQLite and may return a row. The model reads only the quoted literal and reports every such text as an SQLite error.
- Paths.Parse: `PurePosixPath` keeps a leading `//` as its own anchor; the model reads it as `/`.
- FileRepository.FileRepo.Add: one clock reading `now` stamps every file of a call, whereas the source reads the clock once per file.
- A bool handed to `select_files_where_query` appears in the query as `True` or `False`; bools are not modelled.
- The commented `add` in scoutlib/handler/dir_repo.py calls `insert_into_dir(ap.name, ap)`, which that class does not define; the model uses its `insert_dir` (insert-or-fetch), the only insert the class has.
- LegacyRepo.InsertDuplicate follows the code and its docstring (scoutlib/handler/db.py:120-137): a duplicate path returns None. tests/handler/test_db.py:292-302 expects the existing id instead.
- The test files, the CLI, the db_manager wiring, the filesystem stat wrappers and the model structs under scoutlib/model are not part of this model.

## Findings

| source | as written | input that shows it | evidently intended | confidence | as-written member | corrected member |
|---|---|---|---|---|---|---|
| scoutlib/handler/file_repo.py:248-254 | the path filter of `get` becomes `d.path = str(path.parent)`, which is `'.'` for a file in the root; root files are stored with dir_id 0, which joins no dir row, so `d.path` is NULL | `add(File("x.txt"))` then `get(path="x.txt")` returns `[]` | a file in the root is found by its path, for instance by filtering on `dir_id = 0` when the parent is the root | not executed | FileRepository.RootFileMissedAsWritten | FileRepository.PathFilterFinds |
| scoutlib/handler/db.py:76-82 | `normalize_path` takes `pathlike.path` from a `Directory` and calls `.is_absolute()` on it, but `Directory.path` is a str (scoutlib/model/fs.py:32) | `normalize_path(Directory(name="a", path="a"))` raises AttributeError | the Directory's path is parsed like a str argument | not executed | LegacyRepo.DirectoryRefusedAsWritten | LegacyRepo.DirectoryNormalizes |
