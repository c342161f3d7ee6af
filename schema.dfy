/**
 * The schema PgGit creates on start-up (CreateTableSql in pggit/pggit.go)
 * and the constraint names it derives from the table name.
 */
module Schema {

  const FileNameCol: string := "file_name"
  const KeyCol: string := "key"
  const VersionCol: string := "version"
  const DataCol: string := "data"

  /** Every column of the table, in declaration order. */
  const Columns: seq<string> := ["id", FileNameCol, KeyCol, VersionCol, DataCol, "date_create"]

  /** `strings.Replace(table, ".", "", -1)`: the table name with every dot
      dropped, so that a schema-qualified name can prefix an identifier. */
  function StripDots(s: string): (r: string)
    ensures '.' !in r
    ensures forall c :: c != '.' ==> multiset(r)[c] == multiset(s)[c]
  {
    if s == [] then []
    else if s[0] == '.' then
      assert s == [s[0]] + s[1..];
      StripDots(s[1..])
    else
      assert s == [s[0]] + s[1..];
      [s[0]] + StripDots(s[1..])
  }

  /** Stripping works character by character, so the characters that stay
      keep their order. */
  lemma {:induction false} StripDotsConcat(a: string, b: string)
    ensures StripDots(a + b) == StripDots(a) + StripDots(b)
  {
    if a == [] {
      assert a + b == b;
    } else {
      assert (a + b)[1..] == a[1..] + b;
      StripDotsConcat(a[1..], b);
    }
  }

  /** A name without dots is used as it is. */
  lemma {:induction false} StripDotsUndotted(s: string)
    requires '.' !in s
    ensures StripDots(s) == s
  {
    if s != [] {
      StripDotsUndotted(s[1..]);
    }
  }

  lemma StripDotsIdempotent(s: string)
    ensures StripDots(StripDots(s)) == StripDots(s)
  {
    StripDotsUndotted(StripDots(s));
  }

  /** The identifiers `CREATE TABLE IF NOT EXISTS` declares. */
  datatype CreateTable = CreateTable(
    table: string,
    primaryKeyName: string,
    uniqueName: string,
    uniqueColumns: seq<string>)

  function CreateTableSql(table: string): (d: CreateTable)
    ensures d.table == table
    ensures '.' !in d.primaryKeyName && '.' !in d.uniqueName
    ensures d.primaryKeyName != d.uniqueName
    ensures d.primaryKeyName == StripDots(table) + "_pkey" && d.uniqueName == StripDots(table) + "_uxk"
    ensures d.uniqueColumns == [FileNameCol, KeyCol, VersionCol]
    ensures forall c :: c in d.uniqueColumns ==> c in Columns
  {
    var prefix := StripDots(table);
    CreateTable(table, prefix + "_pkey", prefix + "_uxk", [FileNameCol, KeyCol, VersionCol])
  }

  /** A name qualified by a schema, both parts without dots, gives the
      constraint names "<schema><table>_pkey" and "<schema><table>_uxk". */
  lemma QualifiedTableName(schema: string, name: string)
    requires '.' !in schema && '.' !in name
    ensures CreateTableSql(schema + "." + name).primaryKeyName == schema + name + "_pkey"
    ensures CreateTableSql(schema + "." + name).uniqueName == schema + name + "_uxk"
  {
    StripDotsConcat(schema + ".", name);
    StripDotsConcat(schema, ".");
    StripDotsUndotted(schema);
    StripDotsUndotted(name);
    assert StripDots(".") == [];
  }
}
