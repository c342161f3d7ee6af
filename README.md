# PgGit branch algebra, in Dafny

A model of `PgGit` from pggit/pggit.go, a versioned key/value store kept in
one PostgreSQL table. Every row `(id, file_name, key, version, data)` belongs
to the branch named by its `version`. A `PgGit` handle is bound to one
current branch. It can delete a branch, delete one key of a branch, merge
the current branch into another branch (a destructive move), and replace the
current branch with a copy of another one.

## Modules

- `Relation` (relation.dfy): the table as a sequence of rows in scan order,
  plus the WHERE clauses as a small datatype `Cond` with one filter `Where`.
  It also holds the schema's constraints: `PrimaryKey` (ids are distinct),
  `UniqueIdent` (the `UNIQUE (file_name, key, version)` constraint) and
  `IdsBelow` (every id came from the serial sequence). Together these are
  `Constrained`.
- `Statements` (statements.dfy): the four SQL constants `DeleteBranchSql`,
  `DeleteBranchKeySql`, `UpdateBranchSql` and `CopyBranchSql`. Each one is
  modelled by what it does to the relation.
- `BranchAlgebra` (algebra.dfy): `Merge` and `Replace`, the table a
  committed `MergeToBranch` or `ReplaceFromBranch` publishes, and the lemmas
  about all four operations.
- `Schema` (schema.dfy): the column names, the dot-stripping that `init`
  applies to derive constraint names, and the identifiers that
  `CREATE TABLE IF NOT EXISTS` declares.
- `Pggit` (pggit.dfy): the class `PgGit`. Its fields are `branch`, `table`,
  `useCache`, `hasPlugin` (whether the plugin field is set), the table's
  `rows` and the next value `serial` of its `id` sequence. `Valid()` is `Constrained(rows, serial)`. Every method keeps it.
- `Scenarios` (scenarios.dfy): scenarios of merge, replace, key-delete and
  branch delete on small tables.

A failed database call is an input. Each method takes a `Status` for every
call it makes: `Done`, or `Failed(e)`. A transaction takes a `TxOutcomes`
value covering BeginTx, the first statement, the second statement, Rollback
and Commit. This makes failure a nondeterministic outcome that the caller
picks. For every combination of outcomes, each method's contract gives the
error it returns. It also states that after any failure the table and the
serial sequence are exactly as they were before the call.

The order of rows in the sequence has no meaning in SQL. The model keeps
the order anyway, because that makes "nothing else changes" an exact
sequence equality (`Branch(rows', b) == Branch(rows, b)`).

Two behaviours of pggit.go worth noting:

- When a statement fails and the rollback fails too, the statement error is
  wrapped with its own message and the rollback error is dropped
  (pggit/pggit.go:137-139). `Error` therefore carries the failing call's
  error and a `rewrapped` flag.
- When the target of a merge or the source of a replace is the current
  branch itself, the operation empties that branch (`MergeIntoSelf`,
  `ReplaceFromSelf`).

## Model

| member | source | states |
|---|---|---|
| `Relation.Where` | pggit/pggit.go:36-41 | a WHERE clause keeps exactly the rows that satisfy it, and never adds a row |
| `Relation.WhereConstrained` | pggit/pggit.go:30-31 | deleting rows keeps the primary key, the (file_name, key, version) uniqueness and the id bound |
| `Statements.DeleteBranchSql` | pggit/pggit.go:37 | a row survives exactly when it was present and its version differs from the given branch |
| `Statements.DeleteBranchKeySql` | pggit/pggit.go:36 | a row survives exactly when it was present and does not have both the given version and the given key, whatever its file_name |
| `Statements.UpdateBranchSql` | pggit/pggit.go:38 | every row keeps its place, id, file_name, key and data; the version becomes the new name exactly for rows of the old branch |
| `Statements.Copies` | pggit/pggit.go:39-42 | one copy per selected row, in order, tagged with the target branch, with file_name, key and data carried over and consecutive ids from the serial value |
| `Statements.CopyBranchSql` | pggit/pggit.go:39-42 | the old rows stay as a prefix; the added rows have the same (file_name, key, data) sequence as the source branch, all carry the target version and ids in [serial, new serial); the serial advances by the number of copies |
| `Statements.UpdateKeepsOthers` | pggit/pggit.go:38 | a rename leaves the rows of every third branch unchanged |
| `Statements.UpdateIntoEmpty` | pggit/pggit.go:38 | renaming into an empty branch makes that branch exactly the renamed rows of the old branch |
| `Statements.UpdateEmptiesSource` | pggit/pggit.go:38 | after renaming to a different name, no row keeps the old version |
| `Statements.UpdateConstrained` | pggit/pggit.go:31-38 | a rename into a branch with no rows keeps all schema constraints |
| `BranchAlgebra.DeleteBranchClears` | pggit/pggit.go:154-157 | after DeleteBranch(b) no row has version b |
| `BranchAlgebra.DeleteBranchKeepsOthers` | pggit/pggit.go:154-157 | DeleteBranch(b) leaves every other branch's rows unchanged, in order |
| `BranchAlgebra.DeleteBranchIdempotent` | pggit/pggit.go:154-157 | applying DeleteBranch(b) twice equals applying it once |
| `BranchAlgebra.DeleteBranchConstrained` | pggit/pggit.go:154-157 | DeleteBranch keeps all schema constraints |
| `BranchAlgebra.DeleteBranchKeyWithinBranch` | pggit/pggit.go:160-163 | within branch b exactly the rows with key k go, for every file_name; b's rows with other keys stay, in order |
| `BranchAlgebra.DeleteBranchKeyKeepsOthers` | pggit/pggit.go:160-163 | DeleteBranchKey(b, k) leaves the rows of every other branch unchanged, including rows with key k |
| `BranchAlgebra.DeleteBranchKeyIdempotent` | pggit/pggit.go:160-163 | applying DeleteBranchKey(b, k) twice equals applying it once |
| `BranchAlgebra.DeleteBranchKeyConstrained` | pggit/pggit.go:160-163 | DeleteBranchKey keeps all schema constraints |
| `BranchAlgebra.Merge` | pggit/pggit.go:136-150 | the table a committed merge publishes: it loses exactly the target's rows in number, and when the target differs from the current branch no row keeps the current branch's version |
| `BranchAlgebra.MergeMovesBranch` | pggit/pggit.go:127-151 | after merging S into T with S ≠ T: S is empty; T is exactly S's former rows retagged T (same ids, file names, keys, data, order); T has as many rows as S had |
| `BranchAlgebra.MergeKeepsOthers` | pggit/pggit.go:127-151 | a merge leaves every branch other than S and T unchanged |
| `BranchAlgebra.MergeConstrained` | pggit/pggit.go:136-143 | because T is deleted before the rename, a merge keeps (file_name, key, version) unique and the primary key intact |
| `BranchAlgebra.RenameAloneBreaksUniqueness` | pggit/pggit.go:31-38 | a constrained table on which the rename alone, without the delete first, produces two rows with the same (file_name, key, version) |
| `BranchAlgebra.MergeIntoSelf` | pggit/pggit.go:136-143 | merging a branch into itself equals deleting that branch |
| `BranchAlgebra.CopiesBranch` | pggit/pggit.go:39-42 | all copies belong to the target branch and to no other |
| `BranchAlgebra.CopiesConstrained` | pggit/pggit.go:39-42 | copies of one branch's rows are pairwise distinct on id and on (file_name, key, version), and take ids from the serial value on |
| `BranchAlgebra.Replace` | pggit/pggit.go:176-191 | the table and serial a committed replace publishes: the serial never goes back; the table loses the current branch's rows and gains one row per serial value used; with a different source, the serial advances by the source branch's size |
| `BranchAlgebra.ReplaceCopiesBranch` | pggit/pggit.go:166-192 | after replacing C from Src with C ≠ Src: C's (file_name, key, data) sequence equals Src's; every row of C has a fresh id; the serial advances by the size of Src |
| `BranchAlgebra.ReplaceKeepsOthers` | pggit/pggit.go:166-192 | a replace leaves every branch other than C unchanged, Src included |
| `BranchAlgebra.ReplaceConstrained` | pggit/pggit.go:176-184 | because C is deleted before the copy, a replace keeps all schema constraints under the advanced serial |
| `BranchAlgebra.ReplaceFromSelf` | pggit/pggit.go:176-184 | replacing a branch from itself equals deleting it and leaves the serial unchanged |
| `Schema.StripDots` | pggit/pggit.go:68 | the result has no '.', and every other character occurs as often as in the input |
| `Schema.StripDotsConcat` | pggit/pggit.go:68 | stripping distributes over concatenation, so the kept characters stay in order |
| `Schema.StripDotsUndotted` | pggit/pggit.go:68 | a name without dots is returned unchanged |
| `Schema.StripDotsIdempotent` | pggit/pggit.go:68 | stripping twice equals stripping once |
| `Schema.CreateTableSql` | pggit/pggit.go:21-34 | the constraint names are the dot-stripped table name with `_pkey` and `_uxk` appended; they contain no '.' and differ; the unique constraint covers exactly file_name, key and version, in that order |
| `Schema.QualifiedTableName` | pggit/pggit.go:68-69 | for "schema.table" the constraint names are "schematable_pkey" and "schematable_uxk" |
| `Pggit.PgGit.constructor` | pggit/pggit.go:53-59 | the handle holds the given branch, table, caching flag and the table's rows, has no plugin yet, and satisfies the schema invariant |
| `Pggit.PgGit.New` | pggit/pggit.go:53-64 | returns the fresh handle whatever happens, plus the schema statement's error, else the plugin's error, else none; the handle has a plugin exactly when both succeeded |
| `Pggit.PgGit.Init` | pggit/pggit.go:66-88 | issues the DDL for this table; a failed CREATE returns its error before the plugin is built; otherwise the plugin is set exactly when its constructor succeeds, and its error, else none, is returned |
| `Pggit.PgGit.Config` | pggit/pggit.go:90-101 | reports the current branch as Version, the table, UseCache and UsePreload equal to the caching flag, the unique constraint's columns as file, key and version columns, and `data` as the value column |
| `Pggit.PgGit.SetVersion` | pggit/pggit.go:115-119 | requires a built plugin (the call goes through it); sets branch (and Config's Version) to b whatever the plugin returns; rows and serial are unchanged; returns the plugin's error |
| `Pggit.PgGit.DeleteBranch` | pggit/pggit.go:154-157 | on success rows are DeleteBranchSql of the old rows and branch b is empty; on failure rows are unchanged and the error is returned; other branches are unchanged either way |
| `Pggit.PgGit.DeleteBranchKey` | pggit/pggit.go:160-163 | on success rows are DeleteBranchKeySql of the old rows, and branch b loses exactly its rows with key k; on failure rows are unchanged; other branches are unchanged either way |
| `Pggit.PgGit.MergeToBranch` | pggit/pggit.go:127-151 | succeeds exactly when begin, both statements and commit succeed, and then publishes Merge of the old rows; on any failure the rows are exactly as before and the error is the one of the failing call, rewrapped exactly when rollback also failed; branch and serial are unchanged; Valid is kept |
| `Pggit.PgGit.ReplaceFromBranch` | pggit/pggit.go:166-192 | succeeds exactly when begin, both statements and commit succeed, and then publishes Replace of the old rows and serial; on any failure rows and serial are exactly as before and the error is the one of the failing call; branch is unchanged; Valid is kept |
| `Scenarios.MergeOverwritesTarget` | pggit/pggit.go:127-151 | main (f,k,A) merged into dev holding (f,k,B) leaves the single row (f,k,A) in dev |
| `Scenarios.ReplaceCopiesIntoEmpty` | pggit/pggit.go:166-192 | replacing an empty branch from main with two rows yields four rows, the copies getting the next two ids |
| `Scenarios.DeleteKeyAcrossFiles` | pggit/pggit.go:160-163 | deleting key k1 from main removes k1 under both file names and keeps (f,k2,Y) |
| `Scenarios.DeleteGhostBranch` | pggit/pggit.go:154-157 | deleting a branch of an empty table succeeds and leaves it empty |

## Left out

- `Save`, `Read`, `PreloadByVersion` and `Plugin` (pggit/pggit.go:103-124), and the plugin built by `pgPlug.New`. They only forward to the external record plugin, whose behaviour is not part of this model. `SetVersion` and `init` model the plugin call only by its success or failure; a failed `pgPlug.New` is taken to leave the plugin field nil, as Go constructors that return an error conventionally do.
- `context` cancellation, serializable isolation and concurrent callers. A cancelled or serialization-failed call is a failed call, and the state then rolls back. No interleaving of two handles is modelled.
- The shared `*sql.DB` handle. Each `PgGit` owns the rows of its table, so two handles on one table are not modelled.
- `date_create`, and the numbering of ids beyond "taken from the serial sequence, in scan order". The PostgreSQL sequence is not transactional: a rolled-back insert still uses up sequence values. The model restores `serial` on failure. No id can clash either way.
- The text of the SQL statements and of the wrapped error messages. Each statement is modelled by its effect on the relation, and each error by the driver error it carries.
- Column length limits, collation and FILLFACTOR. The database enforces these; they are not logic in pggit.go.
- A pre-existing table with other columns or without the `_pkey`/`_uxk` constraints. `CREATE TABLE IF NOT EXISTS` does not check a table that already exists; the constructor and `New` assume its rows satisfy the declared constraints (`Constrained(stored, serial)`).
