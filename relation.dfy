/**
 * The backing table of a PgGit store, seen as an abstract relation: a
 * sequence of rows in the table's scan order (the order carries no meaning
 * of its own, but keeping it makes "nothing else changes" exact), the WHERE
 * clauses the branch statements filter by, and the key constraints that the
 * CREATE TABLE statement declares.
 */
module Relation {

  /** The `data bytea` column: an opaque byte string, or SQL NULL. */
  datatype Payload = Null | Bytes(octets: seq<bv8>)

  /** One row: `id serial`, `file_name`, `key`, `version` (the branch) and `data`. */
  datatype Row = Row(id: nat, fileName: string, key: string, version: string, data: Payload)

  /** The columns of the UNIQUE (file_name, key, version) constraint. */
  datatype Ident = Ident(fileName: string, key: string, version: string)

  /** The columns a branch copy carries over: everything but `id` and `version`. */
  datatype Entry = Entry(fileName: string, key: string, data: Payload)

  type Table = seq<Row>

  function IdentOf(r: Row): Ident {
    Ident(r.fileName, r.key, r.version)
  }

  function EntryOf(r: Row): Entry {
    Entry(r.fileName, r.key, r.data)
  }

  function Entries(t: Table): seq<Entry> {
    seq(|t|, i requires 0 <= i < |t| => EntryOf(t[i]))
  }

  /** The WHERE clauses the branch statements use. */
  datatype Cond =
    | VersionIs(version: string)
    | KeyIs(key: string)
    | And(left: Cond, right: Cond)
    | Not(negated: Cond)

  predicate Holds(c: Cond, r: Row) {
    match c
    case VersionIs(v) => r.version == v
    case KeyIs(k) => r.key == k
    case And(a, b) => Holds(a, r) && Holds(b, r)
    case Not(a) => !Holds(a, r)
  }

  /** The rows of `t` that satisfy `c`, in scan order. */
  function Where(t: Table, c: Cond): (s: Table)
    ensures |s| <= |t|
    ensures forall x :: x in s <==> x in t && Holds(c, x)
  {
    if t == [] then []
    else if Holds(c, t[0]) then [t[0]] + Where(t[1..], c)
    else Where(t[1..], c)
  }

  /** The rows of one branch. */
  function Branch(t: Table, version: string): Table {
    Where(t, VersionIs(version))
  }

  /** `CONSTRAINT ..._pkey PRIMARY KEY (id)`: no two rows share an id. */
  ghost predicate PrimaryKey(t: Table) {
    forall i, j :: 0 <= i < j < |t| ==> t[i].id != t[j].id
  }

  /** `CONSTRAINT ..._uxk UNIQUE (file_name, key, version)`: two rows with the
      same identifying triple are the same row. */
  ghost predicate UniqueIdent(t: Table) {
    forall x, y :: x in t && y in t && IdentOf(x) == IdentOf(y) ==> x == y
  }

  /** Every id was handed out by the `serial` sequence, whose next value is `serial`. */
  ghost predicate IdsBelow(t: Table, serial: nat) {
    forall x :: x in t ==> x.id < serial
  }

  /** The state of the table that the declared constraints require. */
  ghost predicate Constrained(t: Table, serial: nat) {
    PrimaryKey(t) && UniqueIdent(t) && IdsBelow(t, serial)
  }

  lemma {:induction false} WhereConcat(a: Table, b: Table, c: Cond)
    ensures Where(a + b, c) == Where(a, c) + Where(b, c)
  {
    if a == [] {
      assert a + b == b;
    } else {
      assert (a + b)[1..] == a[1..] + b;
      WhereConcat(a[1..], b, c);
    }
  }

  /** Filtering twice is filtering by the conjunction. */
  lemma {:induction false} WhereAnd(t: Table, c: Cond, d: Cond)
    ensures Where(Where(t, c), d) == Where(t, And(c, d))
  {
    if t != [] {
      WhereAnd(t[1..], c, d);
    }
  }

  /** Two clauses that agree on every row of `t` select the same rows. */
  lemma {:induction false} WhereEquiv(t: Table, c: Cond, d: Cond)
    requires forall x :: x in t ==> (Holds(c, x) <==> Holds(d, x))
    ensures Where(t, c) == Where(t, d)
  {
    if t != [] {
      WhereEquiv(t[1..], c, d);
    }
  }

  /** Every row either satisfies a clause or its negation. */
  lemma {:induction false} WhereSplit(t: Table, c: Cond)
    ensures |Where(t, c)| + |Where(t, Not(c))| == |t|
  {
    if t != [] {
      WhereSplit(t[1..], c);
    }
  }

  /** A clause no row satisfies selects nothing. */
  lemma {:induction false} WhereNone(t: Table, c: Cond)
    requires forall x :: x in t ==> !Holds(c, x)
    ensures Where(t, c) == []
  {
    if t != [] {
      WhereNone(t[1..], c);
    }
  }

  lemma ConsPrimaryKey(h: Row, s: Table)
    requires PrimaryKey(s)
    requires forall x :: x in s ==> x.id != h.id
    ensures PrimaryKey([h] + s)
  {
    var t := [h] + s;
    forall i, j | 0 <= i < j < |t| ensures t[i].id != t[j].id {
      assert t[j] == s[j - 1];
      if i == 0 {
        assert s[j - 1] in s;
      } else {
        assert t[i] == s[i - 1];
      }
    }
  }

  lemma PrimaryKeyConcat(a: Table, b: Table)
    requires PrimaryKey(a) && PrimaryKey(b)
    requires forall x, y :: x in a && y in b ==> x.id != y.id
    ensures PrimaryKey(a + b)
  {
    var t := a + b;
    forall i, j | 0 <= i < j < |t| ensures t[i].id != t[j].id {
      if j < |a| {
        assert t[i] == a[i] && t[j] == a[j];
      } else if i >= |a| {
        assert t[i] == b[i - |a|] && t[j] == b[j - |a|];
      } else {
        assert t[i] == a[i] && t[j] == b[j - |a|];
        assert t[i] in a && t[j] in b;
      }
    }
  }

  /** Deleting rows never breaks the primary key. */
  lemma {:induction false} WherePrimaryKey(t: Table, c: Cond)
    requires PrimaryKey(t)
    ensures PrimaryKey(Where(t, c))
  {
    if t != [] {
      var rest := t[1..];
      assert PrimaryKey(rest) by {
        forall i, j | 0 <= i < j < |rest| ensures rest[i].id != rest[j].id {
          assert rest[i] == t[i + 1] && rest[j] == t[j + 1];
        }
      }
      WherePrimaryKey(rest, c);
      if Holds(c, t[0]) {
        forall x | x in Where(rest, c) ensures x.id != t[0].id {
          var k :| 0 <= k < |rest| && rest[k] == x;
          assert t[k + 1] == x;
        }
        ConsPrimaryKey(t[0], Where(rest, c));
      }
    }
  }

  /** Deleting rows keeps every constraint of the schema. */
  lemma WhereConstrained(t: Table, c: Cond, serial: nat)
    requires Constrained(t, serial)
    ensures Constrained(Where(t, c), serial)
  {
    WherePrimaryKey(t, c);
  }
}
