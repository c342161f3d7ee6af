/**
 * The PgGit handle of pggit/pggit.go: the current branch, the table name,
 * the caching flag, whether the record plugin was built, and the table itself
 * with its serial sequence.  Every database call pggit.go's code makes (BeginTx, ExecContext, Rollback, Commit,
 * the schema statement and the plugin's constructor) is replaced by a
 * parameter that says whether that call succeeds, so each method states
 * exactly what it returns and leaves behind for every combination of
 * outcomes.
 */
module Pggit {
  import opened Relation
  import opened Statements
  import opened BranchAlgebra
  import Schema

  datatype Option<+T> = None | Some(value: T)

  /** An error the database driver reports; its content is opaque here. */
  datatype DbError = DbError(message: string)

  /** How one database call ends. */
  datatype Status = Done | Failed(error: DbError)

  /** How each call of a two-statement branch transaction ends, in the order
      pggit.go's code makes them. `rollback` is consulted only after a failed
      statement, `commit` only after both statements succeed. */
  datatype TxOutcomes = TxOutcomes(begin: Status, first: Status, second: Status, rollback: Status, commit: Status)
  {
    predicate Commits() {
      begin.Done? && first.Done? && second.Done? && commit.Done?
    }
  }

  /** The error a branch transaction returns: the error of the call that
      failed, and whether it was wrapped once more with its own message
      because the rollback failed as well (the rollback's own error is
      dropped). */
  datatype Error = Error(cause: DbError, rewrapped: bool)

  /** The configuration PgGit hands to the record plugin. */
  datatype PluginConfig = PluginConfig(
    table: string,
    fileCol: string,
    keyCol: string,
    valCol: string,
    versionCol: string,
    useCache: bool,
    usePreload: bool,
    version: string)

  class PgGit {
    /** The current branch: the version subsequent record calls act on. */
    var branch: string
    /** Schema and table name, as given. */
    const table: string
    const useCache: bool
    /** Whether the `plugin` field holds a plugin (it stays nil until `init`
        has built one); every record call goes through it. */
    var hasPlugin: bool
    /** The rows of the table. */
    var rows: Table
    /** The next value of the table's `id serial` sequence. */
    var serial: nat

    ghost predicate Valid()
      reads this
    {
      Constrained(rows, serial)
    }

    /** The handle `New` builds before calling `init`, over a table whose
        rows are `stored` (none, when the table does not exist yet). */
    constructor (branch: string, table: string, useCache: bool, stored: Table, serial: nat)
      requires Constrained(stored, serial)
      ensures Valid()
      ensures this.branch == branch && this.table == table && this.useCache == useCache
      ensures rows == stored && this.serial == serial
      ensures !hasPlugin
    {
      this.branch := branch;
      this.table := table;
      this.useCache := useCache;
      this.rows := stored;
      this.serial := serial;
      this.hasPlugin := false;
    }

    /** `New`: builds the handle and runs `init`; the handle is returned
        even when `init` fails. */
    static method New(branch: string, table: string, useCache: bool, stored: Table, serial: nat,
                      create: Status, plugin: Status)
      returns (out: PgGit, err: Option<DbError>)
      requires Constrained(stored, serial)
      ensures fresh(out) && out.Valid()
      ensures out.branch == branch && out.table == table && out.useCache == useCache
      ensures out.rows == stored && out.serial == serial
      ensures out.hasPlugin <==> create.Done? && plugin.Done?
      ensures err == (if create.Failed? then Some(create.error)
                      else if plugin.Failed? then Some(plugin.error)
                      else None)
    {
      out := new PgGit(branch, table, useCache, stored, serial);
      var _, e := out.Init(create, plugin);
      err := e;
    }

    /** `init`: issues `CREATE TABLE IF NOT EXISTS` with constraint names
        derived from the table name, then builds the plugin from a configuration equal to `Config()`.
        A failed CREATE returns before the plugin is built, and a failed
        plugin constructor leaves none, so the handle then has no plugin.
        `IF NOT EXISTS` does not check a table that already exists, so its
        rows are assumed to satisfy the declared constraints; a new table is
        empty. Either way its rows are left as they are. */
    method Init(create: Status, plugin: Status) returns (ddl: Schema.CreateTable, err: Option<DbError>)
      modifies this`hasPlugin
      ensures ddl == Schema.CreateTableSql(table)
      ensures create.Failed? ==> err == Some(create.error) && hasPlugin == old(hasPlugin)
      ensures create.Done? ==> err == (if plugin.Failed? then Some(plugin.error) else None)
      ensures create.Done? ==> hasPlugin == plugin.Done?
    {
      ddl := Schema.CreateTableSql(table);
      if create.Failed? {
        return ddl, Some(create.error);
      }
      hasPlugin := plugin.Done?;
      if plugin.Failed? {
        return ddl, Some(plugin.error);
      }
      err := None;
    }

    /** A snapshot of the plugin configuration: the table, the column names
        of the schema, the caching flags and the current branch. */
    function Config(): (c: PluginConfig)
      reads this
      ensures c.version == branch && c.table == table
      ensures c.useCache == useCache && c.usePreload == useCache
      ensures [c.fileCol, c.keyCol, c.versionCol] == Schema.CreateTableSql(table).uniqueColumns
      ensures c.valCol == Schema.DataCol
    {
      PluginConfig(table, Schema.FileNameCol, Schema.KeyCol, Schema.DataCol, Schema.VersionCol,
                   useCache, useCache, branch)
    }

    /** Rebinds the current branch in memory, then asks the plugin to do the
        same; the branch field is set even when the plugin fails. No row is
        touched. The call goes through the plugin, so the handle must have
        one (on a handle whose `init` failed, the nil plugin makes it panic). */
    method SetVersion(b: string, plugin: Status) returns (err: Option<DbError>)
      requires Valid() && hasPlugin
      modifies this`branch
      ensures Valid()
      ensures branch == b && Config().version == b
      ensures rows == old(rows) && serial == old(serial)
      ensures err == (if plugin.Failed? then Some(plugin.error) else None)
    {
      branch := b;
      err := if plugin.Failed? then Some(plugin.error) else None;
    }

    /** Deletes every row of branch `b`, in one statement. */
    method DeleteBranch(b: string, exec: Status) returns (err: Option<DbError>)
      requires Valid()
      modifies this`rows
      ensures Valid()
      ensures exec.Failed? ==> err == Some(exec.error) && rows == old(rows)
      ensures exec.Done? ==> err.None? && rows == DeleteBranchSql(old(rows), b)
      ensures exec.Done? ==> Branch(rows, b) == []
      ensures forall other :: other != b ==> Branch(rows, other) == Branch(old(rows), other)
    {
      if exec.Failed? {
        return Some(exec.error);
      }
      DeleteBranchConstrained(rows, b, serial);
      DeleteBranchClears(rows, b);
      forall other | other != b ensures Branch(DeleteBranchSql(rows, b), other) == Branch(rows, other) {
        DeleteBranchKeepsOthers(rows, b, other);
      }
      rows := DeleteBranchSql(rows, b);
      err := None;
    }

    /** Deletes the rows of branch `b` whose key is `k`, whatever their file
        name, in one statement. */
    method DeleteBranchKey(b: string, k: string, exec: Status) returns (err: Option<DbError>)
      requires Valid()
      modifies this`rows
      ensures Valid()
      ensures exec.Failed? ==> err == Some(exec.error) && rows == old(rows)
      ensures exec.Done? ==> err.None? && rows == DeleteBranchKeySql(old(rows), b, k)
      ensures exec.Done? ==> Branch(rows, b) == Where(Branch(old(rows), b), Not(KeyIs(k)))
      ensures forall other :: other != b ==> Branch(rows, other) == Branch(old(rows), other)
    {
      if exec.Failed? {
        return Some(exec.error);
      }
      DeleteBranchKeyConstrained(rows, b, k, serial);
      DeleteBranchKeyWithinBranch(rows, b, k);
      forall other | other != b ensures Branch(DeleteBranchKeySql(rows, b, k), other) == Branch(rows, other) {
        DeleteBranchKeyKeepsOthers(rows, b, k, other);
      }
      rows := DeleteBranchKeySql(rows, b, k);
      err := None;
    }

    /** Moves every row of the current branch to `target`, replacing what
        `target` held, in one transaction: delete the rows of `target`,
        rename the current branch's rows, commit. On any failure the table
        is as it was. The current branch stays bound. */
    method MergeToBranch(target: string, o: TxOutcomes) returns (err: Option<Error>)
      requires Valid()
      modifies this`rows
      ensures Valid() && branch == old(branch) && serial == old(serial)
      ensures err.None? <==> o.Commits()
      ensures err.None? ==> rows == Merge(old(rows), branch, target)
      ensures err.Some? ==> rows == old(rows)
      ensures o.begin.Failed? ==> err == Some(Error(o.begin.error, false))
      ensures o.begin.Done? && o.first.Failed? ==> err == Some(Error(o.first.error, o.rollback.Failed?))
      ensures o.begin.Done? && o.first.Done? && o.second.Failed? ==>
        err == Some(Error(o.second.error, o.rollback.Failed?))
      ensures o.begin.Done? && o.first.Done? && o.second.Done? && o.commit.Failed? ==>
        err == Some(Error(o.commit.error, false))
      ensures err.None? && target != branch ==>
        Branch(rows, branch) == [] &&
        Branch(rows, target) == UpdateBranchSql(Branch(old(rows), branch), target, branch)
      ensures forall other :: other != branch && other != target ==> Branch(rows, other) == Branch(old(rows), other)
    {
      forall other | other != branch && other != target
        ensures Branch(Merge(rows, branch, target), other) == Branch(rows, other)
      {
        MergeKeepsOthers(rows, branch, target, other);
      }
      if o.begin.Failed? {
        return Some(Error(o.begin.error, false));
      }
      var work := rows;
      if o.first.Failed? {
        return Some(Error(o.first.error, o.rollback.Failed?));
      }
      work := DeleteBranchSql(work, target);
      if o.second.Failed? {
        return Some(Error(o.second.error, o.rollback.Failed?));
      }
      work := UpdateBranchSql(work, target, branch);
      if o.commit.Failed? {
        return Some(Error(o.commit.error, false));
      }
      MergeConstrained(rows, branch, target, serial);
      if target != branch {
        MergeMovesBranch(rows, branch, target);
      }
      rows := work;
      err := None;
    }

    /** Makes the current branch a copy of `source`, in one transaction:
        delete the current branch's rows, insert a copy of each row of
        `source` tagged with the current branch, commit. On any failure the
        table and its serial sequence are as they were. */
    method ReplaceFromBranch(source: string, o: TxOutcomes) returns (err: Option<Error>)
      requires Valid()
      modifies this`rows, this`serial
      ensures Valid() && branch == old(branch)
      ensures err.None? <==> o.Commits()
      ensures err.None? ==> rows == Replace(old(rows), branch, source, old(serial)).table
      ensures err.None? ==> serial == Replace(old(rows), branch, source, old(serial)).serial
      ensures err.Some? ==> rows == old(rows) && serial == old(serial)
      ensures o.begin.Failed? ==> err == Some(Error(o.begin.error, false))
      ensures o.begin.Done? && o.first.Failed? ==> err == Some(Error(o.first.error, o.rollback.Failed?))
      ensures o.begin.Done? && o.first.Done? && o.second.Failed? ==>
        err == Some(Error(o.second.error, o.rollback.Failed?))
      ensures o.begin.Done? && o.first.Done? && o.second.Done? && o.commit.Failed? ==>
        err == Some(Error(o.commit.error, false))
      ensures err.None? && source != branch ==>
        Entries(Branch(rows, branch)) == Entries(Branch(old(rows), source)) &&
        Branch(rows, source) == Branch(old(rows), source)
      ensures forall other :: other != branch ==> Branch(rows, other) == Branch(old(rows), other)
    {
      forall other | other != branch
        ensures Branch(Replace(rows, branch, source, serial).table, other) == Branch(rows, other)
      {
        ReplaceKeepsOthers(rows, branch, source, serial, other);
      }
      if o.begin.Failed? {
        return Some(Error(o.begin.error, false));
      }
      var work := rows;
      if o.first.Failed? {
        return Some(Error(o.first.error, o.rollback.Failed?));
      }
      work := DeleteBranchSql(work, branch);
      if o.second.Failed? {
        return Some(Error(o.second.error, o.rollback.Failed?));
      }
      var inserted := CopyBranchSql(work, branch, source, serial);
      if o.commit.Failed? {
        return Some(Error(o.commit.error, false));
      }
      ReplaceConstrained(rows, branch, source, serial);
      if source != branch {
        ReplaceCopiesBranch(rows, branch, source, serial);
      }
      rows, serial := inserted.table, inserted.serial;
      err := None;
    }
  }
}
