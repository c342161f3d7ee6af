/**
 * Scenarios: the branch operations on small tables, for any two
 * distinct branch names.
 */
module Scenarios {
  import opened Relation
  import opened Statements
  import opened BranchAlgebra

  /** "main" holds (f, k, A), "dev" holds (f, k, B); merging main into dev
      leaves exactly one row, (f, k, A) in dev. */
  lemma MergeOverwritesTarget(main: string, dev: string, a: Payload, b: Payload)
    requires main != dev
    ensures Merge([Row(1, "f", "k", main, a), Row(2, "f", "k", dev, b)], main, dev)
         == [Row(1, "f", "k", dev, a)]
  {
    var t := [Row(1, "f", "k", main, a), Row(2, "f", "k", dev, b)];
    var c := Not(VersionIs(dev));
    assert !Holds(VersionIs(dev), t[0]) && Holds(VersionIs(dev), t[1]);
    assert Holds(c, t[0]) && !Holds(c, t[1]);
    assert t[1..][1..] == [];
    assert Where(t[1..], c) == [];
    assert DeleteBranchSql(t, dev) == [t[0]];
  }

  /** "main" holds (f, k1, X) and (f, k2, Y); replacing the empty branch
      "tmp" from main leaves four rows, tmp a copy of main with new ids. */
  lemma ReplaceCopiesIntoEmpty(main: string, tmp: string, x: Payload, y: Payload)
    requires main != tmp
    ensures Replace([Row(1, "f", "k1", main, x), Row(2, "f", "k2", main, y)], tmp, main, 3)
         == Insertion([Row(1, "f", "k1", main, x), Row(2, "f", "k2", main, y),
                       Row(3, "f", "k1", tmp, x), Row(4, "f", "k2", tmp, y)], 5)
  {
    var t := [Row(1, "f", "k1", main, x), Row(2, "f", "k2", main, y)];
    assert DeleteBranchSql(t, tmp) == t by {
      assert t[1..][1..] == [];
    }
    assert Branch(t, main) == t by {
      assert t[1..][1..] == [];
    }
  }

  /** main holds (f, k1, X), (g, k1, Z), (f, k2, Y); deleting key k1 from
      main removes both file names' k1 rows and keeps (f, k2, Y). */
  lemma DeleteKeyAcrossFiles(main: string, x: Payload, y: Payload, z: Payload)
    ensures DeleteBranchKeySql([Row(1, "f", "k1", main, x), Row(2, "g", "k1", main, z), Row(3, "f", "k2", main, y)], main, "k1")
         == [Row(3, "f", "k2", main, y)]
  {
    var t := [Row(1, "f", "k1", main, x), Row(2, "g", "k1", main, z), Row(3, "f", "k2", main, y)];
    var c := Not(And(VersionIs(main), KeyIs("k1")));
    assert "k2" != "k1";
    var both := And(VersionIs(main), KeyIs("k1"));
    assert Holds(VersionIs(main), t[0]) && Holds(KeyIs("k1"), t[0]) && Holds(both, t[0]);
    assert Holds(VersionIs(main), t[1]) && Holds(KeyIs("k1"), t[1]) && Holds(both, t[1]);
    assert !Holds(KeyIs("k1"), t[2]) && !Holds(both, t[2]);
    assert !Holds(c, t[0]) && !Holds(c, t[1]) && Holds(c, t[2]);
    assert t[1..][1..][1..] == [];
    assert Where(t[1..][1..], c) == [t[2]];
    assert Where(t[1..], c) == [t[2]];
  }

  /** Deleting a branch of an empty table succeeds and changes nothing. */
  lemma DeleteGhostBranch(ghostBranch: string)
    ensures DeleteBranchSql([], ghostBranch) == []
  {
  }
}
