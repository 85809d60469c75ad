/**
 * The state the script works on through its two database connections and
 * the file system: the source database's foreign-key constraints and table
 * rows, the CSV files, and the staging database that receives INSERT
 * statements. Each operation of the script that touches this state is a
 * method here (dropForeignKeys, restoreForeignKeys, exportDataToCsvFile,
 * truncateTable, importDataFromCsvFile).
 */
module Database {

  import opened Wrappers
  import opened Text
  import opened Transform

  /** One row of the schema query: constraint name, child table and column, parent table and column. */
  datatype ForeignKey = ForeignKey(name: string, childTable: string, childColumn: string, parentTable: string, parentColumn: string)

  /** A table row, every field already in its text form. */
  type Row = seq<string>

  /** Constraint names are unique within the database. */
  ghost predicate DistinctNames(fks: seq<ForeignKey>) {
    forall i, j :: 0 <= i < j < |fks| ==> fks[i].name != fks[j].name
  }

  predicate HasName(fks: seq<ForeignKey>, name: string) {
    exists i :: 0 <= i < |fks| && fks[i].name == name
  }

  /** The constraints left after dropping constraint `name` of table `table`. */
  function Without(fks: seq<ForeignKey>, table: string, name: string): (r: seq<ForeignKey>)
    ensures |r| <= |fks|
    ensures forall fk :: fk in r <==> fk in fks && !(fk.name == name && fk.childTable == table)
  {
    if fks == [] then []
    else if fks[0].name == name && fks[0].childTable == table then Without(fks[1..], table, name)
    else [fks[0]] + Without(fks[1..], table, name)
  }

  lemma {:induction false} WithoutAbsent(fks: seq<ForeignKey>, table: string, name: string)
    requires !HasName(fks, name)
    ensures Without(fks, table, name) == fks
    decreases |fks|
  {
    if fks != [] {
      assert !HasName(fks[1..], name) by {
        forall i | 0 <= i < |fks[1..]| ensures fks[1..][i].name != name {
          assert fks[1..][i] == fks[i + 1];
        }
      }
      WithoutAbsent(fks[1..], table, name);
    }
  }

  /** Dropping the first constraint of a catalogue with unique names leaves exactly the others. */
  lemma WithoutFirst(fks: seq<ForeignKey>)
    requires fks != [] && DistinctNames(fks)
    ensures Without(fks, fks[0].childTable, fks[0].name) == fks[1..]
  {
    assert !HasName(fks[1..], fks[0].name) by {
      forall i | 0 <= i < |fks[1..]| ensures fks[1..][i].name != fks[0].name {
        assert fks[1..][i] == fks[i + 1];
      }
    }
    WithoutAbsent(fks[1..], fks[0].childTable, fks[0].name);
  }

  lemma DistinctSuffix(fks: seq<ForeignKey>, i: nat)
    requires DistinctNames(fks) && i <= |fks|
    ensures DistinctNames(fks[i..])
  {
    forall a, b | 0 <= a < b < |fks[i..]| ensures fks[i..][a].name != fks[i..][b].name {
      assert fks[i..][a] == fks[i + a] && fks[i..][b] == fks[i + b];
    }
  }

  lemma DistinctSnoc(fks: seq<ForeignKey>, fk: ForeignKey)
    ensures DistinctNames(fks + [fk]) <==> DistinctNames(fks) && !HasName(fks, fk.name)
  {
    var s := fks + [fk];
    if DistinctNames(s) {
      assert forall i :: 0 <= i < |fks| ==> fks[i] == s[i];
      assert s[|fks|] == fk;
    }
    if DistinctNames(fks) && !HasName(fks, fk.name) {
      forall i, j | 0 <= i < j < |s| ensures s[i].name != s[j].name {
        if j == |fks| {
          assert s[i] == fks[i];
        } else {
          assert s[i] == fks[i] && s[j] == fks[j];
        }
      }
    }
  }

  /** A catalogue with unique names keeps them when cut short. */
  lemma DistinctPrefix(fks: seq<ForeignKey>, k: nat)
    requires k <= |fks|
    ensures DistinctNames(fks) ==> DistinctNames(fks[..k])
  {
    if DistinctNames(fks) {
      forall i, j | 0 <= i < j < k ensures fks[..k][i].name != fks[..k][j].name {
        assert fks[..k][i] == fks[i] && fks[..k][j] == fks[j];
      }
    }
  }

  /**
   * The data check of ADD CONSTRAINT (WITH CHECK, SQL Server's default):
   * both tables and both columns exist, and every child row whose key is
   * not NULL finds a parent row holding the same value in the referenced
   * column. NULL is the empty field of the text form.
   */
  predicate Satisfied(fk: ForeignKey, tables: map<string, seq<Row>>, columns: map<string, seq<string>>) {
    && fk.childTable in tables && fk.parentTable in tables
    && fk.childTable in columns && fk.parentTable in columns
    && var c := IndexOf(columns[fk.childTable], fk.childColumn);
       var p := IndexOf(columns[fk.parentTable], fk.parentColumn);
       && c < |columns[fk.childTable]| && p < |columns[fk.parentTable]|
       && KeysFound(tables[fk.childTable], c, tables[fk.parentTable], p)
  }

  /** Every child row whose field `c` is not NULL has a parent row with the same text in field `p`. */
  predicate KeysFound(children: seq<Row>, c: nat, parents: seq<Row>, p: nat) {
    forall row :: row in children && c < |row| && row[c] != "" ==>
      exists parent :: parent in parents && p < |parent| && parent[p] == row[c]
  }

  /** Every constraint listed holds on the data. */
  ghost predicate Enforced(fks: seq<ForeignKey>, tables: map<string, seq<Row>>, columns: map<string, seq<string>>) {
    forall k :: 0 <= k < |fks| ==> Satisfied(fks[k], tables, columns)
  }

  lemma EnforcedConcat(a: seq<ForeignKey>, b: seq<ForeignKey>, tables: map<string, seq<Row>>, columns: map<string, seq<string>>)
    requires Enforced(a, tables, columns) && Enforced(b, tables, columns)
    ensures Enforced(a + b, tables, columns)
  {
    forall k | 0 <= k < |a + b| ensures Satisfied((a + b)[k], tables, columns) {
      if k < |a| {
        assert (a + b)[k] == a[k];
      } else {
        assert (a + b)[k] == b[k - |a|];
      }
    }
  }

  /** After `i` constraints of `list` are added back to `start`: the names are unique and everything added holds. */
  ghost predicate Restoring(start: seq<ForeignKey>, list: seq<ForeignKey>, i: nat, current: seq<ForeignKey>,
                            tables: map<string, seq<Row>>, columns: map<string, seq<string>>) {
    && i <= |list|
    && current == start + list[..i]
    && DistinctNames(current)
    && Enforced(start, tables, columns) && Enforced(list[..i], tables, columns)
  }

  /** One more constraint added back: the names stay unique and the added ones all hold. */
  lemma RestoreStep(start: seq<ForeignKey>, list: seq<ForeignKey>, i: nat, current: seq<ForeignKey>,
                    tables: map<string, seq<Row>>, columns: map<string, seq<string>>)
    requires Restoring(start, list, i, current, tables, columns) && i < |list|
    requires !HasName(current, list[i].name) && Satisfied(list[i], tables, columns)
    ensures Restoring(start, list, i + 1, current + [list[i]], tables, columns)
  {
    NamesStep(start, list, i, current);
    EnforcedStep(list, i, tables, columns);
  }

  lemma NamesStep(start: seq<ForeignKey>, list: seq<ForeignKey>, i: nat, current: seq<ForeignKey>)
    requires i < |list| && current == start + list[..i]
    ensures start + list[..i + 1] == current + [list[i]]
    ensures DistinctNames(current + [list[i]]) <==> DistinctNames(current) && !HasName(current, list[i].name)
  {
    assert list[..i + 1] == list[..i] + [list[i]];
    DistinctSnoc(current, list[i]);
  }

  lemma EnforcedStep(list: seq<ForeignKey>, i: nat, tables: map<string, seq<Row>>, columns: map<string, seq<string>>)
    requires i < |list| && Enforced(list[..i], tables, columns) && Satisfied(list[i], tables, columns)
    ensures Enforced(list[..i + 1], tables, columns)
  {
    var before, after := list[..i], list[..i + 1];
    forall k | 0 <= k < |after| ensures Satisfied(after[k], tables, columns) {
      assert after[k] == list[k];
      if k < i {
        assert before[k] == list[k];
      }
    }
  }

  /** A constraint that cannot be added back shows that the whole list could not be; what was added still holds. */
  lemma RestoreStops(start: seq<ForeignKey>, list: seq<ForeignKey>, i: nat, current: seq<ForeignKey>,
                     tables: map<string, seq<Row>>, columns: map<string, seq<string>>)
    requires Restoring(start, list, i, current, tables, columns) && i < |list|
    requires HasName(current, list[i].name) || !Satisfied(list[i], tables, columns)
    ensures !(DistinctNames(start + list) && Enforced(list, tables, columns))
    ensures DistinctNames(current) && Enforced(current, tables, columns)
  {
    EnforcedConcat(start, list[..i], tables, columns);
    if Satisfied(list[i], tables, columns) {
      NamesStep(start, list, i, current);
      NamesCut(start, list, i);
    }
  }

  /** A clash among the first constraints is a clash in the whole catalogue. */
  lemma NamesCut(start: seq<ForeignKey>, list: seq<ForeignKey>, i: nat)
    requires i < |list|
    ensures DistinctNames(start + list) ==> DistinctNames(start + list[..i + 1])
  {
    assert start + list[..i + 1] == (start + list)[..|start| + i + 1];
    DistinctPrefix(start + list, |start| + i + 1);
  }

  /** Every constraint of the list added back: the catalogue is the old one followed by the list, and it all holds. */
  lemma RestoreEnds(start: seq<ForeignKey>, list: seq<ForeignKey>, current: seq<ForeignKey>,
                    tables: map<string, seq<Row>>, columns: map<string, seq<string>>)
    requires Restoring(start, list, |list|, current, tables, columns)
    ensures current == start + list && list[..|list|] == list
    ensures DistinctNames(current) && Enforced(current, tables, columns) && Enforced(list, tables, columns)
  {
    assert list[..|list|] == list;
    EnforcedConcat(start, list, tables, columns);
  }

  /**
   * Emptying a table that no other table's key references keeps every key:
   * its own child rows are gone, and the parent rows other tables point to are
   * untouched.
   */
  lemma TruncateKeepsEnforced(fks: seq<ForeignKey>, tables: map<string, seq<Row>>, columns: map<string, seq<string>>, table: string)
    requires table in tables
    requires forall i :: 0 <= i < |fks| ==> !(fks[i].parentTable == table && fks[i].childTable != table)
    ensures Enforced(fks, tables, columns) ==> Enforced(fks, tables[table := []], columns)
  {
    if Enforced(fks, tables, columns) {
      forall k | 0 <= k < |fks| ensures Satisfied(fks[k], tables[table := []], columns) {
        assert Satisfied(fks[k], tables, columns);
      }
    }
  }

  /** In a catalogue with unique names, no constraint's name occurs before it. */
  lemma DistinctNotEarlier(fks: seq<ForeignKey>, k: nat)
    requires DistinctNames(fks) && k < |fks|
    ensures !HasName(fks[..k], fks[k].name)
  {
    forall i | 0 <= i < k ensures fks[..k][i].name != fks[k].name {
      assert fks[..k][i] == fks[i];
    }
  }

  /**
   * The source database: its foreign keys in the order the schema query
   * returns them, its tables' rows, and each table's column names.
   */
  class SourceDatabase {
    var constraints: seq<ForeignKey>
    var tables: map<string, seq<Row>>
    const columns: map<string, seq<string>>

    /** Constraint names are unique and every constraint holds on the data. */
    ghost predicate Valid()
      reads this
    {
      DistinctNames(constraints) && Enforced(constraints, tables, columns)
    }

    /** The catalogue may list keys the rows violate, such as keys disabled with NOCHECK. */
    constructor (constraints: seq<ForeignKey>, tables: map<string, seq<Row>>, columns: map<string, seq<string>>)
      requires DistinctNames(constraints)
      ensures Valid() <==> Enforced(constraints, tables, columns)
      ensures this.constraints == constraints && this.tables == tables && this.columns == columns
    {
      this.constraints := constraints;
      this.tables := tables;
      this.columns := columns;
    }

    /**
     * Some constraint of another table references `table` as its parent, so
     * TRUNCATE TABLE refuses it. A key that references its own table does not
     * block it.
     */
    predicate Referenced(table: string)
      reads this
    {
      exists i :: 0 <= i < |constraints| && constraints[i].parentTable == table && constraints[i].childTable != table
    }

    /** ALTER TABLE table DROP CONSTRAINT name; it fails when the table has no such constraint. */
    method DropConstraint(table: string, name: string) returns (ok: bool)
      modifies this
      ensures ok <==> exists i :: 0 <= i < |old(constraints)| && old(constraints)[i].name == name && old(constraints)[i].childTable == table
      ensures constraints == if ok then Without(old(constraints), table, name) else old(constraints)
      ensures tables == old(tables)
    {
      ok := exists i | 0 <= i < |constraints| :: constraints[i].name == name && constraints[i].childTable == table;
      if ok {
        constraints := Without(constraints, table, name);
      }
    }

    /**
     * ALTER TABLE child ADD CONSTRAINT name FOREIGN KEY (column) REFERENCES
     * parent(column); it fails when the name is taken or the data do not
     * satisfy the key.
     */
    method AddConstraint(fk: ForeignKey) returns (ok: bool)
      modifies this
      ensures ok <==> !HasName(old(constraints), fk.name) && Satisfied(fk, tables, columns)
      ensures constraints == if ok then old(constraints) + [fk] else old(constraints)
      ensures tables == old(tables)
    {
      ok := !HasName(constraints, fk.name) && Satisfied(fk, tables, columns);
      if ok {
        constraints := constraints + [fk];
      }
    }

    /** dropForeignKeys: lists every foreign key, dropping each one as it is listed. */
    method DropForeignKeys() returns (rowList: seq<ForeignKey>)
      requires DistinctNames(constraints)
      modifies this
      ensures Valid()
      ensures rowList == old(constraints)
      ensures constraints == []
      ensures tables == old(tables)
    {
      var results := constraints;
      rowList := [];
      for i := 0 to |results|
        invariant rowList == results[..i]
        invariant constraints == results[i..]
        invariant tables == old(tables)
      {
        rowList := rowList + [results[i]];
        DistinctSuffix(results, i);
        WithoutFirst(results[i..]);
        assert results[i..][0] == results[i];
        assert results[i..][1..] == results[i + 1..];
        var dropped := DropConstraint(results[i].childTable, results[i].name);
        assert dropped;
      }
      assert results[..|results|] == results;
    }

    /**
     * restoreForeignKeys: adds the listed constraints back in order. An
     * ALTER TABLE that fails raises out of the script; `ok` is false then,
     * `added` is the position of the failing constraint, and the ones before
     * it stay added.
     */
    method RestoreForeignKeys(foreignKeyList: seq<ForeignKey>) returns (ok: bool, ghost added: nat)
      requires Valid()
      modifies this
      ensures Valid()
      ensures ok <==> DistinctNames(old(constraints) + foreignKeyList) && Enforced(foreignKeyList, tables, columns)
      ensures added <= |foreignKeyList| && constraints == old(constraints) + foreignKeyList[..added]
      ensures ok ==> added == |foreignKeyList|
      ensures !ok ==>
        && added < |foreignKeyList|
        && (HasName(old(constraints) + foreignKeyList[..added], foreignKeyList[added].name) || !Satisfied(foreignKeyList[added], tables, columns))
      ensures tables == old(tables)
    {
      added := 0;
      ghost var start, current := constraints, tables;
      for i := 0 to |foreignKeyList|
        invariant added == i && tables == current
        invariant Restoring(start, foreignKeyList, i, constraints, current, columns)
      {
        ghost var before := constraints;
        ok := AddConstraint(foreignKeyList[i]);
        if !ok {
          RestoreStops(start, foreignKeyList, i, before, current, columns);
          return;
        }
        RestoreStep(start, foreignKeyList, i, before, current, columns);
        added := added + 1;
      }
      RestoreEnds(start, foreignKeyList, constraints, current, columns);
      ok := true;
    }

    /**
     * truncateTable: empties the table, then reports whether a SELECT finds it
     * empty. None stands for the ProgrammingError the script catches: the
     * table does not exist, or a foreign key still references it.
     */
    method TruncateTable(table: string) returns (r: Option<bool>)
      modifies this
      ensures r.Some? <==> table in old(tables) && !old(Referenced(table))
      ensures r.Some? ==> r.value && tables == old(tables)[table := []]
      ensures r.None? ==> tables == old(tables)
      ensures constraints == old(constraints)
      ensures old(Valid()) ==> Valid()
    {
      if table in tables && !Referenced(table) {
        TruncateKeepsEnforced(constraints, tables, columns, table);
        tables := tables[table := []];
        var results := tables[table];
        r := Some(|results| == 0);
      } else {
        r := None;
      }
    }
  }

  /** The CSV files on disk, each as the rows it holds. */
  class FileSystem {
    var files: map<string, seq<Row>>

    constructor (files: map<string, seq<Row>>)
      ensures this.files == files
    {
      this.files := files;
    }

    /** Opening with mode 'w+' creates the file or empties it. */
    method Create(name: string)
      modifies this
      ensures files == old(files)[name := []]
    {
      files := files[name := []];
    }

    /** One `writerow`. */
    method WriteRow(name: string, row: Row)
      requires name in files
      modifies this
      ensures files == old(files)[name := old(files)[name] + [row]]
    {
      files := files[name := files[name] + [row]];
    }

    /** `os.remove`; it fails, raising, when there is no such file. */
    method Remove(name: string) returns (ok: bool)
      modifies this
      ensures ok <==> name in old(files)
      ensures files == old(files) - {name}
    {
      ok := name in files;
      files := files - {name};
    }
  }

  /**
   * The staging database: which tables exist, the statements it refuses with
   * ProgrammingError (syntax errors, such as a quote left unescaped inside a
   * text value, or a wrong number of values), and every INSERT it has
   * committed, in order.
   */
  class StagingDatabase {
    var tables: set<string>
    const rejected: set<string>
    var executed: seq<string>

    constructor (tables: set<string>, rejected: set<string>)
      ensures this.tables == tables && this.rejected == rejected && executed == []
    {
      this.tables := tables;
      this.rejected := rejected;
      executed := [];
    }

    /** Executes and commits one statement on `table`; it fails with ProgrammingError when the table does not exist or the statement is refused. */
    method Execute(table: string, statement: string) returns (ok: bool)
      modifies this
      ensures ok <==> table in tables && statement !in rejected
      ensures executed == if ok then old(executed) + [statement] else old(executed)
      ensures tables == old(tables)
    {
      ok := table in tables && statement !in rejected;
      if ok {
        executed := executed + [statement];
      }
    }
  }

  /** The statements before the first one in `rejected`: what a run of statements commits when the first refusal stops it. */
  function UntilRejected(statements: seq<string>, rejected: set<string>): (r: seq<string>)
    ensures |r| <= |statements| && r == statements[..|r|]
    ensures forall i :: 0 <= i < |r| ==> r[i] !in rejected
    ensures |r| < |statements| ==> statements[|r|] in rejected
  {
    if statements == [] || statements[0] in rejected then []
    else
      var rest := UntilRejected(statements[1..], rejected);
      assert statements[..|rest| + 1] == [statements[0]] + statements[1..][..|rest|];
      [statements[0]] + rest
  }

  /** The prefix UntilRejected keeps is the only one that ends at a refusal or at the end. */
  lemma {:induction false} UntilRejectedAt(statements: seq<string>, rejected: set<string>, i: nat)
    requires i <= |statements|
    requires forall j :: 0 <= j < i ==> statements[j] !in rejected
    requires i < |statements| ==> statements[i] in rejected
    ensures UntilRejected(statements, rejected) == statements[..i]
    decreases i
  {
    if i > 0 {
      var tail := statements[1..];
      assert forall j :: 0 <= j < i - 1 ==> tail[j] == statements[j + 1];
      UntilRejectedAt(tail, rejected, i - 1);
      assert statements[..i] == [statements[0]] + tail[..i - 1];
    }
  }

  /** The file exportDataToCsvFile writes for a table. */
  function CsvName(table: string): (name: string)
    ensures |name| > 1
  {
    table + "_stage" + table + ".csv"
  }

  /**
   * exportDataToCsvFile: reads every row of the table and writes it to the
   * table's CSV file, counting rows. None stands for the ProgrammingError of
   * a missing table, which the script catches, so the function returns None.
   * The count always equals the number of rows read, so the branch that
   * deletes the file and returns 'x' never runs.
   */
  method ExportDataToCsvFile(db: SourceDatabase, fs: FileSystem, table: string) returns (r: Option<string>)
    modifies fs
    ensures table !in db.tables ==> r == None && fs.files == old(fs.files)
    ensures table in db.tables ==> r == Some(CsvName(table)) && fs.files == old(fs.files)[CsvName(table) := db.tables[table]]
    ensures r != Some("x")
  {
    if table !in db.tables {
      return None;
    }
    var results := db.tables[table];
    var fileSource := CsvName(table);
    fs.Create(fileSource);
    var rowCounter := 0;
    for i := 0 to |results|
      invariant rowCounter == i
      invariant fs.files == old(fs.files)[fileSource := results[..i]]
    {
      rowCounter := rowCounter + 1;
      assert results[..i + 1] == results[..i] + [results[i]];
      fs.WriteRow(fileSource, results[i]);
    }
    assert results[..|results|] == results;
    if |results| == rowCounter {
      r := Some(fileSource);
    } else {
      // Removing the file and answering 'x': unreachable, the counter has counted every row.
      assert false;
    }
  }

  /** The statements importDataFromCsvFile runs for the rows of a file, one per row, in file order. */
  function InsertStatements(table: string, rows: seq<Row>): (statements: seq<string>) {
    seq(|rows|, i requires 0 <= i < |rows| => InsertStatement(table, rows[i]))
  }

  /** The statements of two files' rows one after the other are those of the first followed by those of the second. */
  lemma InsertStatementsConcat(table: string, a: seq<Row>, b: seq<Row>)
    ensures InsertStatements(table, a + b) == InsertStatements(table, a) + InsertStatements(table, b)
  {
    var l, r := InsertStatements(table, a + b), InsertStatements(table, a) + InsertStatements(table, b);
    assert |l| == |r|;
    forall k | 0 <= k < |l| ensures l[k] == r[k] {
      var row := (a + b)[k];
      assert l[k] == InsertStatement(table, row);
      if k < |a| {
        assert row == a[k];
      } else {
        assert row == b[k - |a|];
      }
    }
  }

  /**
   * Statements run in order: a refusal among the first ones ends the run
   * there, and otherwise all of them are committed before the later ones start.
   */
  lemma UntilRejectedConcat(a: seq<string>, b: seq<string>, rejected: set<string>)
    ensures UntilRejected(a + b, rejected) ==
      if |UntilRejected(a, rejected)| < |a| then UntilRejected(a, rejected) else a + UntilRejected(b, rejected)
  {
    if |UntilRejected(a, rejected)| < |a| {
      RejectedInFirst(a, b, rejected);
    } else {
      FirstAllCommitted(a, b, rejected);
    }
  }

  lemma RejectedInFirst(a: seq<string>, b: seq<string>, rejected: set<string>)
    requires |UntilRejected(a, rejected)| < |a|
    ensures UntilRejected(a + b, rejected) == UntilRejected(a, rejected)
  {
    var ab, ua := a + b, UntilRejected(a, rejected);
    assert ab[..|ua|] == ua;
    assert ab[|ua|] == a[|ua|];
    UntilRejectedAt(ab, rejected, |ua|);
  }

  lemma FirstAllCommitted(a: seq<string>, b: seq<string>, rejected: set<string>)
    requires |UntilRejected(a, rejected)| == |a|
    ensures UntilRejected(a + b, rejected) == a + UntilRejected(b, rejected)
  {
    var ab, ub := a + b, UntilRejected(b, rejected);
    var i := |a| + |ub|;
    assert ab[..i] == a + ub;
    forall j | 0 <= j < i ensures ab[j] !in rejected {
      if j < |a| {
        assert ab[j] == a[j];
      } else {
        assert ab[j] == ub[j - |a|];
      }
    }
    if i < |ab| {
      assert ab[i] == b[|ub|];
    }
    UntilRejectedAt(ab, rejected, i);
  }

  /**
   * Importing a file is importing its first rows and then, unless one of
   * them was refused, its remaining rows: what is committed for a file
   * split in two is the same in file order.
   */
  lemma ImportSplitFile(table: string, a: seq<Row>, b: seq<Row>, rejected: set<string>)
    ensures UntilRejected(InsertStatements(table, a + b), rejected) ==
      var first := UntilRejected(InsertStatements(table, a), rejected);
      if |first| < |a| then first else InsertStatements(table, a) + UntilRejected(InsertStatements(table, b), rejected)
  {
    InsertStatementsConcat(table, a, b);
    UntilRejectedConcat(InsertStatements(table, a), InsertStatements(table, b), rejected);
  }

  /**
   * importDataFromCsvFile: one INSERT and commit per row of the file. The
   * ProgrammingError of a missing table, or of a refused statement, is
   * caught, so the rows after it are skipped and the function returns. `ok`
   * is false when the file does not exist: `open` raises, and the script
   * stops.
   */
  method ImportDataFromCsvFile(fs: FileSystem, dst: StagingDatabase, table: string, fileName: string) returns (ok: bool)
    modifies dst
    ensures ok <==> fileName in fs.files
    ensures dst.tables == old(dst.tables)
    ensures dst.executed == old(dst.executed) +
      (if ok && table in dst.tables then UntilRejected(InsertStatements(table, fs.files[fileName]), dst.rejected) else [])
  {
    if fileName !in fs.files {
      return false;
    }
    ok := true;
    var rows := fs.files[fileName];
    ghost var statements := InsertStatements(table, rows);
    ghost var base, present := dst.executed, table in dst.tables;
    for i := 0 to |rows|
      invariant dst.tables == old(dst.tables)
      invariant Imported(base, statements, dst.rejected, present, i, dst.executed)
    {
      ghost var log := dst.executed;
      var query := InsertInto(table, rows[i]);
      var inserted := dst.Execute(table, query);
      if !inserted {
        ImportStops(base, statements, dst.rejected, present, i, log);
        return;
      }
      ImportStep(base, statements, dst.rejected, i, log, query);
    }
    ImportEnds(base, statements, dst.rejected, present, dst.executed);
  }

  /** After `i` rows: none of their statements was refused, and each was committed when the table exists. */
  ghost predicate Imported(base: seq<string>, statements: seq<string>, rejected: set<string>, present: bool, i: nat, log: seq<string>) {
    && i <= |statements|
    && (forall j :: 0 <= j < i ==> statements[j] !in rejected)
    && log == base + (if present then statements[..i] else [])
  }

  lemma ImportStep(base: seq<string>, statements: seq<string>, rejected: set<string>, i: nat, log: seq<string>, query: string)
    requires Imported(base, statements, rejected, true, i, log) && i < |statements|
    requires query == statements[i] && query !in rejected
    ensures Imported(base, statements, rejected, true, i + 1, log + [query])
  {
    assert statements[..i + 1] == statements[..i] + [query];
    assert base + statements[..i] + [query] == base + (statements[..i] + [query]);
  }

  lemma ImportStops(base: seq<string>, statements: seq<string>, rejected: set<string>, present: bool, i: nat, log: seq<string>)
    requires Imported(base, statements, rejected, present, i, log) && i < |statements|
    requires present ==> statements[i] in rejected
    ensures log == base + (if present then UntilRejected(statements, rejected) else [])
  {
    if present {
      UntilRejectedAt(statements, rejected, i);
    }
  }

  lemma ImportEnds(base: seq<string>, statements: seq<string>, rejected: set<string>, present: bool, log: seq<string>)
    requires Imported(base, statements, rejected, present, |statements|, log)
    ensures log == base + (if present then UntilRejected(statements, rejected) else [])
  {
    if present {
      UntilRejectedAt(statements, rejected, |statements|);
      assert statements[..|statements|] == statements;
    }
  }
}
