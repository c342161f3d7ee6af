/**
 * The four branch statements of pggit/pggit.go (DeleteBranchSql,
 * DeleteBranchKeySql, UpdateBranchSql, CopyBranchSql), each given by what it
 * does to the relation rather than by its SQL text.  Parameters are named
 * after the statement's placeholders: the first argument after the table is
 * `$1`, the next `$2`.
 */
module Statements {
  import opened Relation

  /** `DELETE FROM t WHERE version = $1` */
  function DeleteBranchSql(t: Table, version: string): (r: Table)
    ensures forall x :: x in r <==> x in t && x.version != version
  {
    var c := Not(VersionIs(version));
    assert forall x :: Holds(c, x) <==> x.version != version;
    Where(t, c)
  }

  /** `DELETE FROM t WHERE version = $1 AND key = $2`: matches on `key`
      whatever the `file_name`. */
  function DeleteBranchKeySql(t: Table, version: string, key: string): (r: Table)
    ensures forall x :: x in r <==> x in t && (x.version != version || x.key != key)
  {
    var c := Not(And(VersionIs(version), KeyIs(key)));
    assert forall x :: Holds(c, x) <==> !(Holds(VersionIs(version), x) && Holds(KeyIs(key), x));
    assert forall x :: Holds(c, x) <==> x.version != version || x.key != key;
    Where(t, c)
  }

  function RetagRow(x: Row, from: string, to: string): Row {
    if x.version == from then x.(version := to) else x
  }

  /** `UPDATE t SET version = $1 WHERE version = $2`: each row keeps its place,
      its id, file name, key and data; only rows of branch `from` change, and
      only their version. */
  function UpdateBranchSql(t: Table, to: string, from: string): (r: Table)
    ensures |r| == |t|
    ensures forall i :: 0 <= i < |t| ==>
      r[i].id == t[i].id && r[i].fileName == t[i].fileName && r[i].key == t[i].key && r[i].data == t[i].data
    ensures forall i :: 0 <= i < |t| ==> r[i].version == (if t[i].version == from then to else t[i].version)
  {
    if t == [] then [] else [RetagRow(t[0], from, to)] + UpdateBranchSql(t[1..], to, from)
  }

  /** The rows an INSERT ... SELECT adds for the selected rows `src`: one per
      selected row, in scan order, tagged `to`, with ids drawn from the serial
      sequence starting at `serial`. */
  function Copies(src: Table, to: string, serial: nat): (r: Table)
    ensures |r| == |src|
    ensures forall i :: 0 <= i < |src| ==>
      r[i].id == serial + i && r[i].version == to && EntryOf(r[i]) == EntryOf(src[i])
  {
    if src == [] then []
    else [Row(serial, src[0].fileName, src[0].key, to, src[0].data)] + Copies(src[1..], to, serial + 1)
  }

  /** A table together with the next value of its serial sequence. */
  datatype Insertion = Insertion(table: Table, serial: nat)

  /** `INSERT INTO t (file_name, key, data, version)
      (SELECT file_name, key, data, $1 AS version FROM t WHERE version = $2)` */
  function CopyBranchSql(t: Table, to: string, from: string, serial: nat): (r: Insertion)
    ensures |r.table| == |t| + |Branch(t, from)| && r.table[..|t|] == t
    ensures r.serial == serial + |Branch(t, from)|
    ensures Entries(r.table[|t|..]) == Entries(Branch(t, from))
    ensures forall x :: x in r.table[|t|..] ==> x.version == to && serial <= x.id < r.serial
  {
    var selected := Branch(t, from);
    var added := Copies(selected, to, serial);
    assert (t + added)[|t|..] == added;
    Insertion(t + added, serial + |selected|)
  }

  /** Renaming a branch leaves every third branch as it was. */
  lemma {:induction false} UpdateKeepsOthers(t: Table, to: string, from: string, other: string)
    requires other != to && other != from
    ensures Branch(UpdateBranchSql(t, to, from), other) == Branch(t, other)
  {
    if t != [] {
      UpdateKeepsOthers(t[1..], to, from, other);
    }
  }

  /** After a rename into a branch that had no rows, that branch holds the
      renamed rows and nothing else. */
  lemma {:induction false} UpdateIntoEmpty(t: Table, to: string, from: string)
    requires Branch(t, to) == []
    ensures Branch(UpdateBranchSql(t, to, from), to) == UpdateBranchSql(Branch(t, from), to, from)
  {
    if t != [] {
      assert t[0] !in Branch(t, to);
      assert Branch(t[1..], to) == [] by {
        forall x | x in t[1..] ensures x.version != to {
          assert x in t && x !in Branch(t, to);
        }
      }
      UpdateIntoEmpty(t[1..], to, from);
    }
  }

  /** A rename from branch `from` to a different branch leaves `from` empty. */
  lemma UpdateEmptiesSource(t: Table, to: string, from: string)
    requires to != from
    ensures Branch(UpdateBranchSql(t, to, from), from) == []
  {
    var r := UpdateBranchSql(t, to, from);
    forall x | x in r ensures x.version != from {
      var i :| 0 <= i < |r| && r[i] == x;
    }
  }

  /** A rename keeps the primary key and the ids' bound, and keeps the
      (file_name, key, version) constraint when the target branch had no rows. */
  lemma UpdateConstrained(t: Table, to: string, from: string, serial: nat)
    requires Constrained(t, serial)
    requires forall x :: x in t ==> x.version != to
    ensures Constrained(UpdateBranchSql(t, to, from), serial)
  {
    var r := UpdateBranchSql(t, to, from);
    forall x | x in r ensures x.id < serial {
      var i :| 0 <= i < |r| && r[i] == x;
      assert t[i] in t;
    }
    assert PrimaryKey(r) by {
      forall i, j | 0 <= i < j < |r| ensures r[i].id != r[j].id {
        assert r[i].id == t[i].id && r[j].id == t[j].id;
      }
    }
    forall x, y | x in r && y in r && IdentOf(x) == IdentOf(y) ensures x == y {
      var i :| 0 <= i < |r| && r[i] == x;
      var j :| 0 <= j < |r| && r[j] == y;
      assert t[i] in t && t[j] in t;
      assert t[i].version != to && t[j].version != to;
      assert t[i].version == t[j].version;
      assert IdentOf(t[i]) == IdentOf(t[j]);
      assert t[i] == t[j];
    }
  }
}
