/**
 * The script's top level: drop every foreign key, move each configured
 * table to its staging table (export to CSV, truncate, import, delete the
 * file), count successes and failures, and restore the foreign keys.
 */
module Migration {

  import opened Wrappers
  import opened Text
  import opened PyValues
  import opened Database

  /**
   * How a run ends: with its two counters, or by an exception that escapes
   * the script. Two can escape: the TypeError of `len(None)` when a source
   * table is missing (Crashed), and the error of an ADD CONSTRAINT the data
   * no longer satisfy, after the loop has moved every table (RestoreFailed).
   */
  datatype RunOutcome = Finished(successful: int, unsuccessful: int) | Crashed(successful: int) | RestoreFailed(successful: int)

  /** The source tables once the tables in `cleared` have been truncated, in that order. */
  function Cleared(tables: map<string, seq<Row>>, cleared: seq<string>): (r: map<string, seq<Row>>)
    ensures r.Keys == tables.Keys
  {
    if cleared == [] then tables
    else
      var before := Cleared(tables, cleared[..|cleared| - 1]);
      var t := cleared[|cleared| - 1];
      if t in before then before[t := []] else before
  }

  /** The CSV files the tables in `exported` are written to. */
  function CsvNames(exported: seq<string>): (names: set<string>)
    ensures forall j :: 0 <= j < |exported| ==> CsvName(exported[j]) in names
  {
    if exported == [] then {}
    else CsvNames(exported[..|exported| - 1]) + {CsvName(exported[|exported| - 1])}
  }

  /**
   * The INSERT statements a run commits for the first `n` pairs when those
   * source tables exist: for each pair in order, the rows the source table
   * holds at that moment (a table listed twice is empty the second time),
   * into the staging table when it exists, up to the first statement the
   * staging database refuses.
   */
  ghost function TransferLog(tables: map<string, seq<Row>>, staging: set<string>, rejected: set<string>,
                             exported: seq<string>, imported: seq<string>, n: nat): (log: seq<string>)
    requires n <= |exported| == |imported|
  {
    if n == 0 then []
    else
      var before := Cleared(tables, exported[..n - 1]);
      TransferLog(tables, staging, rejected, exported, imported, n - 1) +
      (if imported[n - 1] in staging && exported[n - 1] in before
       then UntilRejected(InsertStatements(imported[n - 1], before[exported[n - 1]]), rejected) else [])
  }

  /**
   * `int(part * 100 / total)` of the closing report: the percentage rounded
   * toward zero. None stands for the ZeroDivisionError when both counters
   * are zero.
   */
  function Percentage(part: nat, total: nat): (r: Option<nat>)
    ensures r.None? <==> total == 0
    ensures r.Some? ==> r.value * total <= part * 100 < (r.value + 1) * total
  {
    if total == 0 then None else Some(part * 100 / total)
  }

  /** `len(fileName) != 'x'` as the script writes it: an int compared with a str, so it holds for every file name. */
  lemma LengthNeverEqualsX(fileName: string)
    ensures !PyEquals(PyInt(|fileName|), PyStr("x"))
  {
  }

  /** Dropping the foreign keys and restoring the list dropForeignKeys returns gives back the same constraints, in the same order. */
  method DropThenRestore(db: SourceDatabase)
    requires db.Valid()
    modifies db
    ensures db.Valid()
    ensures db.constraints == old(db.constraints)
    ensures db.tables == old(db.tables)
  {
    var foreignKeysList := db.DropForeignKeys();
    assert [] + foreignKeysList == foreignKeysList;
    var restored, added := db.RestoreForeignKeys(foreignKeysList);
    assert foreignKeysList[..added] == foreignKeysList;
  }

  /** The body of the script, between printing its banner and printing the percentages. */
  method Run(src: SourceDatabase, fs: FileSystem, dst: StagingDatabase, tablesToExport: seq<string>, tablesToImport: seq<string>)
    returns (outcome: RunOutcome)
    requires DistinctNames(src.constraints)
    modifies src, fs, dst
    ensures src.Valid()
    ensures dst.tables == old(dst.tables)
    ensures |tablesToExport| != |tablesToImport| ==>
      && outcome == Finished(0, |tablesToExport|)
      && src.constraints == []
      && src.tables == old(src.tables)
      && fs.files == old(fs.files)
      && dst.executed == old(dst.executed)
    ensures |tablesToExport| == |tablesToImport| ==>
      (!outcome.Crashed? <==> forall j :: 0 <= j < |tablesToExport| ==> tablesToExport[j] in old(src.tables))
    ensures |tablesToExport| == |tablesToImport| && !outcome.Crashed? ==>
      && outcome.successful == |tablesToExport|
      && src.tables == Cleared(old(src.tables), tablesToExport)
      && fs.files == old(fs.files) - CsvNames(tablesToExport)
      && dst.executed == old(dst.executed) +
        TransferLog(old(src.tables), old(dst.tables), dst.rejected, tablesToExport, tablesToImport, |tablesToExport|)
      && (outcome.Finished? <==> Enforced(old(src.constraints), src.tables, src.columns))
    ensures |tablesToExport| == |tablesToImport| && outcome.Finished? ==>
      outcome == Finished(|tablesToExport|, 0) && src.constraints == old(src.constraints)
    ensures outcome.RestoreFailed? ==>
      && |src.constraints| < |old(src.constraints)|
      && src.constraints == old(src.constraints)[..|src.constraints|]
      && !Satisfied(old(src.constraints)[|src.constraints|], src.tables, src.columns)
    ensures outcome.Crashed? ==>
      && 0 <= outcome.successful < |tablesToExport|
      && tablesToExport[outcome.successful] !in old(src.tables)
      && (forall j :: 0 <= j < outcome.successful ==> tablesToExport[j] in old(src.tables))
      && src.constraints == []
      && src.tables == Cleared(old(src.tables), tablesToExport[..outcome.successful])
      && fs.files == old(fs.files) - CsvNames(tablesToExport[..outcome.successful])
      && dst.executed == old(dst.executed) +
        TransferLog(old(src.tables), old(dst.tables), dst.rejected, tablesToExport, tablesToImport, outcome.successful)
  {
    var foreignKeysList := src.DropForeignKeys();
    if |tablesToExport| == |tablesToImport| {
      var successful, unsuccessful, crashed := TransferTables(src, fs, dst, tablesToExport, tablesToImport);
      if crashed {
        // `len(None)` raised TypeError: the run stops with the foreign keys dropped.
        return Crashed(successful);
      }
      assert [] + foreignKeysList == foreignKeysList;
      var restored, added := src.RestoreForeignKeys(foreignKeysList);
      if !restored {
        // ADD CONSTRAINT raised: the run stops with the keys before it restored.
        DistinctNotEarlier(foreignKeysList, added);
        return RestoreFailed(successful);
      }
      assert foreignKeysList[..added] == foreignKeysList;
      outcome := Finished(successful, unsuccessful);
    } else {
      outcome := Finished(0, |tablesToExport|);
    }
  }

  /**
   * The script's loop over the table pairs, with the foreign keys already
   * dropped. `crashed` stands for the TypeError of `len(None)`, raised when
   * the export finds no source table; the counters are those reached then,
   * and the pairs before it have been moved.
   */
  method TransferTables(src: SourceDatabase, fs: FileSystem, dst: StagingDatabase, tablesToExport: seq<string>, tablesToImport: seq<string>)
    returns (successful: int, unsuccessful: int, crashed: bool)
    requires |tablesToExport| == |tablesToImport|
    requires src.constraints == []
    modifies src, fs, dst
    ensures src.constraints == []
    ensures dst.tables == old(dst.tables)
    ensures !crashed <==> forall j :: 0 <= j < |tablesToExport| ==> tablesToExport[j] in old(src.tables)
    ensures !crashed ==> successful == |tablesToExport| && unsuccessful == 0
    ensures crashed ==>
      && 0 <= successful < |tablesToExport|
      && tablesToExport[successful] !in old(src.tables)
      && (forall j :: 0 <= j < successful ==> tablesToExport[j] in old(src.tables))
    ensures 0 <= successful <= |tablesToExport| && (!crashed ==> tablesToExport[..successful] == tablesToExport)
    ensures src.tables == Cleared(old(src.tables), tablesToExport[..successful])
    ensures fs.files == old(fs.files) - CsvNames(tablesToExport[..successful])
    ensures dst.executed == old(dst.executed) +
      TransferLog(old(src.tables), old(dst.tables), dst.rejected, tablesToExport, tablesToImport, successful)
  {
    ghost var start := Snapshot(src.tables, fs.files, dst.tables, dst.rejected, dst.executed, tablesToExport, tablesToImport);
    successful, unsuccessful, crashed := 0, 0, false;
    for i := 0 to |tablesToExport|
      invariant successful == i && unsuccessful == 0
      invariant src.constraints == [] && dst.tables == start.staging && dst.rejected == start.rejected
      invariant Progress(start, i, src.tables, fs.files, dst.executed)
    {
      ghost var tables, files, log := src.tables, fs.files, dst.executed;
      var fileName := ExportDataToCsvFile(src, fs, tablesToExport[i]);
      if fileName.None? {
        return successful, unsuccessful, true;
      }
      LengthNeverEqualsX(fileName.value);
      if !PyEquals(PyInt(|fileName.value|), PyStr("x")) {
        MoveTable(src, fs, dst, tablesToExport[i], tablesToImport[i], fileName.value);
        ProgressStep(start, i, tables, files, log, src.tables, fs.files, dst.executed);
        successful := successful + 1;
      } else {
        // Unreachable: an int never equals a str.
        assert false;
        if i < |tablesToExport| - 1 {
          unsuccessful := unsuccessful + 1;
        }
      }
    }
    assert tablesToExport[..|tablesToExport|] == tablesToExport;
  }

  /** The state a run of the loop starts from, and the pairs it goes through. */
  datatype Snapshot = Snapshot(tables: map<string, seq<Row>>, files: map<string, seq<Row>>, staging: set<string>, rejected: set<string>, log: seq<string>,
                         exported: seq<string>, imported: seq<string>)

  /** After `i` pairs: those source tables existed, were truncated, their files deleted and their rows inserted. */
  ghost predicate Progress(start: Snapshot, i: nat, tables: map<string, seq<Row>>, files: map<string, seq<Row>>, log: seq<string>) {
    && i <= |start.exported| == |start.imported|
    && (forall j :: 0 <= j < i ==> start.exported[j] in start.tables)
    && tables == Cleared(start.tables, start.exported[..i])
    && files == start.files - CsvNames(start.exported[..i])
    && log == start.log + TransferLog(start.tables, start.staging, start.rejected, start.exported, start.imported, i)
  }

  lemma ProgressStep(start: Snapshot, i: nat, tables: map<string, seq<Row>>, files: map<string, seq<Row>>, log: seq<string>,
                     tables': map<string, seq<Row>>, files': map<string, seq<Row>>, log': seq<string>)
    requires Progress(start, i, tables, files, log) && i < |start.exported|
    requires start.exported[i] in tables
    requires tables' == tables[start.exported[i] := []]
    requires files' == files[CsvName(start.exported[i]) := tables[start.exported[i]]] - {CsvName(start.exported[i])}
    requires log' == log + (if start.imported[i] in start.staging
                            then UntilRejected(InsertStatements(start.imported[i], tables[start.exported[i]]), start.rejected) else [])
    ensures Progress(start, i + 1, tables', files', log')
  {
    var e := start.exported;
    assert e[..i + 1][..i] == e[..i];
    assert e[i] in start.tables;
    ClearedStep(start.tables, e, i);
    UpdateThenRemove(files, CsvName(e[i]), tables[e[i]]);
    CsvNamesStep(start.files, e, i);
    TransferLogStep(start.tables, start.staging, start.rejected, e, start.imported, i);
    ConcatAssoc(start.log, TransferLog(start.tables, start.staging, start.rejected, e, start.imported, i),
      if start.imported[i] in start.staging then UntilRejected(InsertStatements(start.imported[i], tables[e[i]]), start.rejected) else []);
  }

  /**
   * The rest of the loop body once the export has written `fileName`: truncate
   * the source table, import the file into the staging table, delete the file.
   */
  method MoveTable(src: SourceDatabase, fs: FileSystem, dst: StagingDatabase, source: string, target: string, fileName: string)
    requires src.constraints == []
    requires source in src.tables && fileName in fs.files && fs.files[fileName] == src.tables[source]
    modifies src, fs, dst
    ensures src.constraints == []
    ensures src.tables == old(src.tables)[source := []]
    ensures fs.files == old(fs.files) - {fileName}
    ensures dst.tables == old(dst.tables)
    ensures dst.executed == old(dst.executed) +
      (if target in dst.tables then UntilRejected(InsertStatements(target, old(src.tables)[source]), dst.rejected) else [])
  {
    var cleared := src.TruncateTable(source);
    assert cleared.Some?;
    var imported := ImportDataFromCsvFile(fs, dst, target, fileName);
    var removed := fs.Remove(fileName);
  }

  lemma ClearedStep(tables: map<string, seq<Row>>, exported: seq<string>, i: nat)
    requires i < |exported| && exported[i] in tables
    ensures Cleared(tables, exported[..i])[exported[i] := []] == Cleared(tables, exported[..i + 1])
  {
    assert exported[..i + 1][..i] == exported[..i];
  }

  lemma CsvNamesStep(files: map<string, seq<Row>>, exported: seq<string>, i: nat)
    requires i < |exported|
    ensures files - CsvNames(exported[..i]) - {CsvName(exported[i])} == files - CsvNames(exported[..i + 1])
  {
    assert exported[..i + 1][..i] == exported[..i];
  }

  lemma TransferLogStep(tables: map<string, seq<Row>>, staging: set<string>, rejected: set<string>, exported: seq<string>, imported: seq<string>, i: nat)
    requires i < |exported| == |imported| && exported[i] in tables
    ensures TransferLog(tables, staging, rejected, exported, imported, i + 1) ==
      TransferLog(tables, staging, rejected, exported, imported, i) +
      (if imported[i] in staging then UntilRejected(InsertStatements(imported[i], Cleared(tables, exported[..i])[exported[i]]), rejected) else [])
  {
  }

  lemma UpdateThenRemove<K, V>(m: map<K, V>, k: K, v: V)
    ensures m[k := v] - {k} == m - {k}
  {
  }

  lemma ConcatAssoc<T>(a: seq<T>, b: seq<T>, c: seq<T>)
    ensures a + b + c == a + (b + c)
  {
  }

  /** A table is empty once cleared exactly when it was listed; the others keep their rows. */
  lemma {:induction false} ClearedContents(tables: map<string, seq<Row>>, cleared: seq<string>, t: string)
    requires t in tables
    ensures Cleared(tables, cleared)[t] == if t in cleared then [] else tables[t]
  {
    if cleared != [] {
      var n := |cleared| - 1;
      ClearedContents(tables, cleared[..n], t);
      assert cleared == cleared[..n] + [cleared[n]];
    }
  }

  /** The files a run deletes are exactly the CSV files of the exported tables. */
  lemma {:induction false} CsvNamesContents(exported: seq<string>, name: string)
    ensures name in CsvNames(exported) <==> exists j :: 0 <= j < |exported| && name == CsvName(exported[j])
  {
    if exported != [] {
      var n := |exported| - 1;
      CsvNamesContents(exported[..n], name);
      if name in CsvNames(exported[..n]) {
        var j :| 0 <= j < n && name == CsvName(exported[..n][j]);
        assert name == CsvName(exported[j]);
      }
      if j :| 0 <= j < |exported| && name == CsvName(exported[j]) {
        if j < n {
          assert exported[..n][j] == exported[j];
        }
      }
    }
  }

  /**
   * The keys come back whenever every key whose parent table is exported has
   * its child table exported too: an emptied parent then has no child rows
   * left pointing at it.
   */
  lemma RestoreSucceedsWhenChildrenMove(tables: map<string, seq<Row>>, columns: map<string, seq<string>>, fks: seq<ForeignKey>, exported: seq<string>)
    requires Enforced(fks, tables, columns)
    requires forall k :: 0 <= k < |fks| && fks[k].parentTable in exported ==> fks[k].childTable in exported
    ensures Enforced(fks, Cleared(tables, exported), columns)
  {
    forall k | 0 <= k < |fks| ensures Satisfied(fks[k], Cleared(tables, exported), columns) {
      var fk := fks[k];
      assert Satisfied(fk, tables, columns);
      ClearedContents(tables, exported, fk.childTable);
      ClearedContents(tables, exported, fk.parentTable);
    }
  }

  /** A child table left behind keeps rows pointing at a parent the run has emptied, so its key cannot come back. */
  lemma OrphanedChild(tables: map<string, seq<Row>>, columns: map<string, seq<string>>, fk: ForeignKey)
    requires fk == ForeignKey("FK_C_P", "C", "pid", "P", "id")
    requires tables == map["P" := [["1"]], "C" := [["7", "1"]]]
    requires columns == map["P" := ["id"], "C" := ["id", "pid"]]
    ensures Satisfied(fk, tables, columns)
    ensures !Satisfied(fk, Cleared(tables, ["P"]), columns)
  {
    assert IndexOf(columns["C"], "pid") == 1;
    assert IndexOf(columns["P"], "id") == 0;
    ClearedContents(tables, ["P"], "P");
    ClearedContents(tables, ["P"], "C");
    assert ["7", "1"] in Cleared(tables, ["P"])["C"];
    assert ["1"] in tables["P"];
  }
}
