/**
 * The branch algebra: what each branch operation of PgGit does to the
 * relation when it completes, and the properties the store relies on.
 * MergeToBranch and ReplaceFromBranch run two statements in one
 * transaction; Merge and Replace are the table their commit publishes.
 */
module BranchAlgebra {
  import opened Relation
  import opened Statements

  /** A committed MergeToBranch, bound to `current`, into `target`: delete
      the rows of `target`, then rename the rows of `current` to `target`. */
  function Merge(t: Table, current: string, target: string): (r: Table)
    ensures |r| + |Branch(t, target)| == |t|
    ensures current != target ==> forall x :: x in r ==> x.version != current
  {
    WhereSplit(t, VersionIs(target));
    var r := UpdateBranchSql(DeleteBranchSql(t, target), target, current);
    assert forall i :: 0 <= i < |r| && current != target ==> r[i].version != current;
    r
  }

  /** A committed ReplaceFromBranch, bound to `current`, from `source`:
      delete the rows of `current`, then copy the rows of `source` into it. */
  function Replace(t: Table, current: string, source: string, serial: nat): (r: Insertion)
    ensures serial <= r.serial
    ensures |r.table| + |Branch(t, current)| == |t| + (r.serial - serial)
    ensures source != current ==> r.serial == serial + |Branch(t, source)|
  {
    WhereSplit(t, VersionIs(current));
    if source != current then
      DeleteBranchKeepsOthers(t, current, source);
      CopyBranchSql(DeleteBranchSql(t, current), current, source, serial)
    else
      CopyBranchSql(DeleteBranchSql(t, current), current, source, serial)
  }

  // ---------------------------------------------------------------------
  // DeleteBranch

  lemma DeleteBranchClears(t: Table, b: string)
    ensures Branch(DeleteBranchSql(t, b), b) == []
  {
    WhereNone(DeleteBranchSql(t, b), VersionIs(b));
  }

  lemma DeleteBranchKeepsOthers(t: Table, b: string, other: string)
    requires other != b
    ensures Branch(DeleteBranchSql(t, b), other) == Branch(t, other)
  {
    var d := Not(VersionIs(b));
    WhereAnd(t, d, VersionIs(other));
    forall x | x in t ensures Holds(And(d, VersionIs(other)), x) <==> Holds(VersionIs(other), x) {
      assert Holds(d, x) == !Holds(VersionIs(b), x);
    }
    WhereEquiv(t, And(d, VersionIs(other)), VersionIs(other));
  }

  lemma DeleteBranchIdempotent(t: Table, b: string)
    ensures DeleteBranchSql(DeleteBranchSql(t, b), b) == DeleteBranchSql(t, b)
  {
    var d := Not(VersionIs(b));
    WhereAnd(t, d, d);
    WhereEquiv(t, And(d, d), d);
  }

  lemma DeleteBranchConstrained(t: Table, b: string, serial: nat)
    requires Constrained(t, serial)
    ensures Constrained(DeleteBranchSql(t, b), serial)
  {
    WhereConstrained(t, Not(VersionIs(b)), serial);
  }

  // ---------------------------------------------------------------------
  // DeleteBranchKey

  /** Within branch `b`, exactly the rows with key `k` go, whatever their
      file name; rows of `b` with other keys stay, in order. */
  lemma DeleteBranchKeyWithinBranch(t: Table, b: string, k: string)
    ensures Branch(DeleteBranchKeySql(t, b, k), b) == Where(Branch(t, b), Not(KeyIs(k)))
  {
    var d := Not(And(VersionIs(b), KeyIs(k)));
    WhereAnd(t, d, VersionIs(b));
    WhereAnd(t, VersionIs(b), Not(KeyIs(k)));
    forall x | x in t ensures Holds(And(d, VersionIs(b)), x) <==> Holds(And(VersionIs(b), Not(KeyIs(k))), x) {
      assert Holds(d, x) == !(Holds(VersionIs(b), x) && Holds(KeyIs(k), x));
    }
    WhereEquiv(t, And(d, VersionIs(b)), And(VersionIs(b), Not(KeyIs(k))));
  }

  lemma DeleteBranchKeyKeepsOthers(t: Table, b: string, k: string, other: string)
    requires other != b
    ensures Branch(DeleteBranchKeySql(t, b, k), other) == Branch(t, other)
  {
    var d := Not(And(VersionIs(b), KeyIs(k)));
    WhereAnd(t, d, VersionIs(other));
    forall x | x in t ensures Holds(And(d, VersionIs(other)), x) <==> Holds(VersionIs(other), x) {
      assert Holds(d, x) == !(Holds(VersionIs(b), x) && Holds(KeyIs(k), x));
    }
    WhereEquiv(t, And(d, VersionIs(other)), VersionIs(other));
  }

  lemma DeleteBranchKeyIdempotent(t: Table, b: string, k: string)
    ensures DeleteBranchKeySql(DeleteBranchKeySql(t, b, k), b, k) == DeleteBranchKeySql(t, b, k)
  {
    var d := Not(And(VersionIs(b), KeyIs(k)));
    WhereAnd(t, d, d);
    WhereEquiv(t, And(d, d), d);
  }

  lemma DeleteBranchKeyConstrained(t: Table, b: string, k: string, serial: nat)
    requires Constrained(t, serial)
    ensures Constrained(DeleteBranchKeySql(t, b, k), serial)
  {
    WhereConstrained(t, Not(And(VersionIs(b), KeyIs(k))), serial);
  }

  // ---------------------------------------------------------------------
  // MergeToBranch

  /** After merging `current` into a different `target`: `current` is empty,
      `target` holds exactly the former rows of `current` (same ids, file
      names, keys and data, in order) retagged `target`, so it has as many
      rows as `current` had. */
  lemma MergeMovesBranch(t: Table, current: string, target: string)
    requires current != target
    ensures Branch(Merge(t, current, target), current) == []
    ensures Branch(Merge(t, current, target), target) == UpdateBranchSql(Branch(t, current), target, current)
    ensures |Branch(Merge(t, current, target), target)| == |Branch(t, current)|
  {
    var w := DeleteBranchSql(t, target);
    UpdateEmptiesSource(w, target, current);
    DeleteBranchClears(t, target);
    UpdateIntoEmpty(w, target, current);
    DeleteBranchKeepsOthers(t, target, current);
  }

  /** Rows of every other branch are untouched by a merge. */
  lemma MergeKeepsOthers(t: Table, current: string, target: string, other: string)
    requires other != current && other != target
    ensures Branch(Merge(t, current, target), other) == Branch(t, other)
  {
    UpdateKeepsOthers(DeleteBranchSql(t, target), target, current, other);
    DeleteBranchKeepsOthers(t, target, other);
  }

  /** The delete comes first, so the rename cannot produce two rows with the
      same (file_name, key, version). */
  lemma MergeConstrained(t: Table, current: string, target: string, serial: nat)
    requires Constrained(t, serial)
    ensures Constrained(Merge(t, current, target), serial)
  {
    DeleteBranchConstrained(t, target, serial);
    UpdateConstrained(DeleteBranchSql(t, target), target, current, serial);
  }

  /** Without the delete, the rename alone breaks the constraint as soon as a
      (file_name, key) pair exists in both branches. */
  lemma RenameAloneBreaksUniqueness()
    ensures var t := [Row(1, "f", "k", "main", Bytes([65])), Row(2, "f", "k", "dev", Bytes([66]))];
      Constrained(t, 3) && !UniqueIdent(UpdateBranchSql(t, "dev", "main"))
  {
    var t := [Row(1, "f", "k", "main", Bytes([65])), Row(2, "f", "k", "dev", Bytes([66]))];
    var r := UpdateBranchSql(t, "dev", "main");
    assert "main" != "dev";
    assert r[0] in r && r[1] in r && IdentOf(r[0]) == IdentOf(r[1]) && r[0] != r[1];
  }

  /** Merging a branch into itself, as written, deletes it: the first
      statement removes every row of the branch and there is nothing left
      to rename. */
  lemma MergeIntoSelf(t: Table, b: string)
    ensures Merge(t, b, b) == DeleteBranchSql(t, b)
  {
    var w := DeleteBranchSql(t, b);
    var r := Merge(t, b, b);
    assert forall i :: 0 <= i < |w| ==> r[i] == w[i];
  }

  // ---------------------------------------------------------------------
  // ReplaceFromBranch

  /** The copies all belong to branch `to`. */
  lemma {:induction false} CopiesBranch(src: Table, to: string, serial: nat, b: string)
    ensures Branch(Copies(src, to, serial), b) == if b == to then Copies(src, to, serial) else []
  {
    if src != [] {
      CopiesBranch(src[1..], to, serial + 1, b);
    }
  }

  /** Copies of the rows of one branch are pairwise distinct, on ids and on
      (file_name, key, version), and take ids from `serial` on. */
  lemma CopiesConstrained(src: Table, from: string, to: string, serial: nat)
    requires PrimaryKey(src) && UniqueIdent(src)
    requires forall x :: x in src ==> x.version == from
    ensures PrimaryKey(Copies(src, to, serial)) && UniqueIdent(Copies(src, to, serial))
    ensures forall x :: x in Copies(src, to, serial) ==> serial <= x.id < serial + |src|
  {
    var c := Copies(src, to, serial);
    forall x | x in c ensures serial <= x.id < serial + |src| {
      var i :| 0 <= i < |c| && c[i] == x;
    }
    assert PrimaryKey(c) by {
      forall i, j | 0 <= i < j < |c| ensures c[i].id != c[j].id {
        assert c[i].id == serial + i && c[j].id == serial + j;
      }
    }
    forall x, y | x in c && y in c && IdentOf(x) == IdentOf(y) ensures x == y {
      var i :| 0 <= i < |c| && c[i] == x;
      var j :| 0 <= j < |c| && c[j] == y;
      assert src[i] in src && src[j] in src;
      assert IdentOf(src[i]) == IdentOf(src[j]);
      assert src[i] == src[j];
    }
  }

  /** After replacing `current` from a different `source`: the file names,
      keys and data of `current` are those of `source`, in order, and each
      copy took a new id from the serial sequence. */
  lemma ReplaceCopiesBranch(t: Table, current: string, source: string, serial: nat)
    requires current != source
    ensures Entries(Branch(Replace(t, current, source, serial).table, current)) == Entries(Branch(t, source))
    ensures forall x :: x in Branch(Replace(t, current, source, serial).table, current) ==>
      serial <= x.id < Replace(t, current, source, serial).serial
    ensures Replace(t, current, source, serial).serial == serial + |Branch(t, source)|
  {
    var w := DeleteBranchSql(t, current);
    var sel := Branch(w, source);
    var added := Copies(sel, current, serial);
    var r := Replace(t, current, source, serial);
    assert r.table == w + added && r.serial == serial + |sel|;
    DeleteBranchKeepsOthers(t, current, source);
    WhereConcat(w, added, VersionIs(current));
    DeleteBranchClears(t, current);
    CopiesBranch(sel, current, serial, current);
    assert Branch(r.table, current) == added;
  }

  /** Rows of every branch other than `current`, `source` included, are
      untouched by a replace. */
  lemma ReplaceKeepsOthers(t: Table, current: string, source: string, serial: nat, other: string)
    requires other != current
    ensures Branch(Replace(t, current, source, serial).table, other) == Branch(t, other)
  {
    var w := DeleteBranchSql(t, current);
    var sel := Branch(w, source);
    var added := Copies(sel, current, serial);
    assert Replace(t, current, source, serial).table == w + added;
    DeleteBranchKeepsOthers(t, current, other);
    WhereConcat(w, added, VersionIs(other));
    CopiesBranch(sel, current, serial, other);
  }

  /** The delete comes first, so the copies cannot collide with old rows of
      `current`; the copies are pairwise distinct because the rows of
      `source` are; every copy takes a new id from the serial sequence. */
  lemma ReplaceConstrained(t: Table, current: string, source: string, serial: nat)
    requires Constrained(t, serial)
    ensures Constrained(Replace(t, current, source, serial).table, Replace(t, current, source, serial).serial)
  {
    var w := DeleteBranchSql(t, current);
    DeleteBranchConstrained(t, current, serial);
    var sel := Branch(w, source);
    WhereConstrained(w, VersionIs(source), serial);
    var added := Copies(sel, current, serial);
    CopiesConstrained(sel, source, current, serial);
    var r := Replace(t, current, source, serial);
    assert r.table == w + added && r.serial == serial + |sel|;
    PrimaryKeyConcat(w, added);
    assert UniqueIdent(w + added) by {
      CopiesBranch(sel, current, serial, current);
      forall x, y | x in w && y in added ensures IdentOf(x) != IdentOf(y) {
        assert y in Branch(added, current);
      }
    }
  }

  /** Replacing a branch from itself, as written, deletes it: the copy
      selects from the table after the delete, where the branch is empty. */
  lemma ReplaceFromSelf(t: Table, b: string, serial: nat)
    ensures Replace(t, b, b, serial) == Insertion(DeleteBranchSql(t, b), serial)
  {
    DeleteBranchClears(t, b);
  }
}
