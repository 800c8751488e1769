/**
 * What a whole run emits, and when nothing it emits is about a rejected column: every other
 * constraint of a used table is there.
 */
module RunSafety {
  import opened Common
  import opened CreateTable
  import opened DdlRun
  import opened FkRows
  import opened Names
  import opened SortedNames
  import opened HidableRecords
  import opened UniqueConstraints
  import RowRuns
  import TableBody

  /** The records of a column list the check. */
  predicate ListsCheck(meta: Meta, key: string, name: string) {
    key in meta.checks && exists i :: 0 <= i < |meta.checks[key]| && meta.checks[key][i].name == name
  }

  /** The columns of a table that a check uses: the query gives a record for each of them, with the whole clause. */
  function CheckColumns(meta: Meta, stname: string, name: string): set<string> {
    set key | key in meta.checks && stname in meta.tables && HasKey(stname, meta.tables[stname], key) &&
              ListsCheck(meta, key, name)
  }

  /**
   * The columns a constraint is about: for a table those of its primary key, for a CHECK all
   * those it uses, for a foreign key its own and its target.
   */
  function Named(meta: Meta, stmt: Stmt): set<string> {
    match stmt
    case CreateTableStmt(stname, _, pk) => set n | n in pk :: StcnameOf(stname, n)
    case AddCheck(stcname, name, _) => CheckColumns(meta, StnameOf(stcname), name)
    case AddUnique(stname, cnames, _) => set n | n in cnames :: StcnameOf(stname, n)
    case AddForeignKey(stcname, ref) => {stcname, ref}
    case _ => {}
  }

  // -------------------------------------------------- where a statement comes from

  predicate FromTable(meta: Meta, rejected: set<string>, stname: string, stmt: Stmt) {
    stname in meta.tables &&
    (stmt == TableStmt(meta, stname) ||
     stmt in ChecksOf(meta, rejected, stname, meta.tables[stname]) ||
     stmt in UniquesOf(meta, rejected, stname, meta.tables[stname]))
  }

  predicate FromTables(meta: Meta, rejected: set<string>, stnames: seq<string>, stmt: Stmt) {
    exists t :: t in stnames && FromTable(meta, rejected, t, stmt)
  }

  predicate IsLayout(stmt: Stmt) {
    stmt.Blank? || stmt.CreateSchema?
  }

  lemma InTableStmts(meta: Meta, rejected: set<string>, stname: string, lastSchema: string, stmt: Stmt)
    requires stname in meta.tables && !IsLayout(stmt)
    ensures stmt in TableStmts(meta, rejected, stname, lastSchema) <==> FromTable(meta, rejected, stname, stmt)
  {
    var checks, uniques := ChecksOf(meta, rejected, stname, meta.tables[stname]),
      UniquesOf(meta, rejected, stname, meta.tables[stname]);
    var schema, table := SchemaStmts(stname, lastSchema), [TableStmt(meta, stname)];
    assert stmt !in schema;
    InLead(checks, stmt);
    InLead(uniques, stmt);
    assert TableStmts(meta, rejected, stname, lastSchema) == schema + table + Lead(checks) + Lead(uniques);
    hide *;
    InFour(schema, table, Lead(checks), Lead(uniques), stmt);
    FromTableIs(meta, rejected, stname, stmt);
  }

  lemma FromTableIs(meta: Meta, rejected: set<string>, stname: string, stmt: Stmt)
    requires stname in meta.tables
    ensures FromTable(meta, rejected, stname, stmt) <==>
            (stmt == TableStmt(meta, stname) ||
             stmt in ChecksOf(meta, rejected, stname, meta.tables[stname]) ||
             stmt in UniquesOf(meta, rejected, stname, meta.tables[stname]))
  {
  }

  lemma InLead(stmts: seq<Stmt>, stmt: Stmt)
    requires !IsLayout(stmt)
    ensures stmt in Lead(stmts) <==> stmt in stmts
  {
  }

  lemma InFour<T>(a: seq<T>, b: seq<T>, c: seq<T>, d: seq<T>, x: T)
    ensures x in a + b + c + d <==> x in a || x in b || x in c || x in d
  {
  }

  lemma {:induction false} InTablesLog(meta: Meta, rejected: set<string>, stnames: seq<string>,
                                       lastSchema: string, stmt: Stmt)
    requires !IsLayout(stmt)
    ensures stmt in TablesLog(meta, rejected, stnames, lastSchema) <==> FromTables(meta, rejected, stnames, stmt)
    decreases |stnames|
  {
    hide TableStmts, FromTable;
    if stnames != [] {
      var t, rest := stnames[0], stnames[1..];
      Uncons(stnames);
      FromSplit(meta, rejected, t, rest, stmt);
      if t in meta.tables {
        InTablesLog(meta, rejected, rest, SchemaName(t), stmt);
        InTableStmts(meta, rejected, t, lastSchema, stmt);
      } else {
        InTablesLog(meta, rejected, rest, lastSchema, stmt);
        NotDefined(meta, rejected, t, stmt);
      }
    }
  }

  lemma FromSplit(meta: Meta, rejected: set<string>, stname: string, rest: seq<string>, stmt: Stmt)
    ensures FromTables(meta, rejected, [stname] + rest, stmt) <==>
            FromTable(meta, rejected, stname, stmt) || FromTables(meta, rejected, rest, stmt)
  {
    hide FromTable;
    assert forall t :: t in [stname] + rest <==> t == stname || t in rest;
  }

  lemma NotDefined(meta: Meta, rejected: set<string>, stname: string, stmt: Stmt)
    requires stname !in meta.tables
    ensures !FromTable(meta, rejected, stname, stmt)
  {
  }

  predicate FromForeignKeys(meta: Meta, rejected: set<string>, stname: string, stmt: Stmt) {
    stname in meta.tables && stmt in ForeignKeysOf(meta.fks, rejected, stname, meta.tables[stname])
  }

  lemma {:induction false} InForeignKeysLog(meta: Meta, rejected: set<string>, used: seq<string>, stmt: Stmt)
    requires !IsLayout(stmt)
    ensures stmt in ForeignKeysLog(meta, rejected, used) <==>
            exists t :: t in used && FromForeignKeys(meta, rejected, t, stmt)
  {
    hide TableForeignKeys, FromForeignKeys;
    if used != [] {
      var init, last := used[..|used| - 1], used[|used| - 1];
      assert used == init + [last];
      InForeignKeysLog(meta, rejected, init, stmt);
      InTableForeignKeys(meta, rejected, last, stmt);
    }
  }

  lemma InTableForeignKeys(meta: Meta, rejected: set<string>, stname: string, stmt: Stmt)
    requires !IsLayout(stmt)
    ensures stmt in TableForeignKeys(meta, rejected, stname) <==> FromForeignKeys(meta, rejected, stname, stmt)
  {
    if stname in meta.tables {
      InLead(ForeignKeysOf(meta.fks, rejected, stname, meta.tables[stname]), stmt);
    }
    hide ForeignKeysOf, Lead;
  }

  lemma {:induction false} InChecks(meta: Meta, rejected: set<string>, stname: string, columns: seq<Column>, stmt: Stmt)
    ensures stmt in ChecksOf(meta, rejected, stname, columns) <==>
            exists i :: 0 <= i < |columns| && stmt in ColumnChecks(meta, rejected, StcnameOf(stname, columns[i].cname))
  {
    hide ColumnChecks, StcnameOf;
    if columns != [] {
      InChecks(meta, rejected, stname, columns[..|columns| - 1], stmt);
    }
  }

  lemma {:induction false} InAddChecks(stcname: string, recs: seq<CheckRec>, stmt: Stmt)
    ensures stmt in AddChecks(stcname, recs) <==>
            exists i :: 0 <= i < |recs| && stmt == AddCheck(stcname, recs[i].name, recs[i].clause)
  {
    if recs != [] {
      InAddChecks(stcname, recs[..|recs| - 1], stmt);
    }
  }

  lemma {:induction false} InForeignKeys(rows: seq<FkRow>, rejected: set<string>, stname: string,
                                         columns: seq<Column>, stmt: Stmt)
    ensures stmt in ForeignKeysOf(rows, rejected, stname, columns) <==>
            exists i :: 0 <= i < |columns| &&
              stmt in ColumnForeignKey(rows, rejected, StcnameOf(stname, columns[i].cname))
  {
    hide ColumnForeignKey, StcnameOf;
    if columns != [] {
      InForeignKeys(rows, rejected, stname, columns[..|columns| - 1], stmt);
    }
  }

  lemma InUniques(stname: string, pairs: seq<RowRuns.Row<string>>, names: seq<string>, stmt: Stmt)
    ensures stmt in AddUniques(stname, pairs, names) <==>
            exists i :: 0 <= i < |names| && stmt == AddUnique(stname, RowRuns.Filter(pairs, names[i]), names[i])
  {
    var stmts := AddUniques(stname, pairs, names);
    StatementsByName(stname, pairs, names, 0);
    forall i | 0 <= i < |names| ensures stmts[i] == AddUnique(stname, RowRuns.Filter(pairs, names[i]), names[i]) {
      StatementsByName(stname, pairs, names, i);
    }
    hide AddUniques;
    if stmt in stmts {
      var i :| 0 <= i < |stmts| && stmts[i] == stmt;
    }
    if exists i :: 0 <= i < |names| && stmt == AddUnique(stname, RowRuns.Filter(pairs, names[i]), names[i]) {
      var i :| 0 <= i < |names| && stmt == AddUnique(stname, RowRuns.Filter(pairs, names[i]), names[i]);
      assert stmts[i] == stmt;
    }
  }

  // ------------------------------------------------------- emitted exactly when

  /** The keys of the columns of the used tables that are defined. */
  predicate IsUsed(meta: Meta, used: seq<string>, key: string) {
    exists t :: t in used && t in meta.tables && HasKey(t, meta.tables[t], key)
  }

  predicate HasKey(stname: string, columns: seq<Column>, key: string) {
    exists i :: 0 <= i < |columns| && StcnameOf(stname, columns[i].cname) == key
  }

  lemma CheckOfTable(meta: Meta, rejected: set<string>, stname: string, columns: seq<Column>, key: string,
                     rec: CheckRec)
    ensures AddCheck(key, rec.name, rec.clause) in ChecksOf(meta, rejected, stname, columns) <==>
            HasKey(stname, columns, key) && key !in rejected && key in meta.checks && rec in meta.checks[key]
  {
    var stmt := AddCheck(key, rec.name, rec.clause);
    InChecks(meta, rejected, stname, columns, stmt);
    hide StcnameOf, ChecksOf;
    forall i | 0 <= i < |columns|
      ensures stmt in ColumnChecks(meta, rejected, StcnameOf(stname, columns[i].cname)) <==>
              StcnameOf(stname, columns[i].cname) == key && key !in rejected && key in meta.checks &&
              rec in meta.checks[key]
    {
      CheckOfColumn(meta, rejected, StcnameOf(stname, columns[i].cname), key, rec);
    }
  }

  lemma CheckOfColumn(meta: Meta, rejected: set<string>, stcname: string, key: string, rec: CheckRec)
    ensures AddCheck(key, rec.name, rec.clause) in ColumnChecks(meta, rejected, stcname) <==>
            stcname == key && key !in rejected && key in meta.checks && rec in meta.checks[key]
  {
    if stcname !in rejected && stcname in meta.checks {
      InAddChecks(stcname, meta.checks[stcname], AddCheck(key, rec.name, rec.clause));
    }
  }

  lemma NotACheck(stname: string, pairs: seq<RowRuns.Row<string>>, names: seq<string>, stmt: Stmt)
    requires !stmt.AddUnique?
    ensures stmt !in AddUniques(stname, pairs, names)
  {
    InUniques(stname, pairs, names, stmt);
  }

  lemma CheckFromTable(meta: Meta, rejected: set<string>, stname: string, key: string, rec: CheckRec)
    ensures FromTable(meta, rejected, stname, AddCheck(key, rec.name, rec.clause)) <==>
            stname in meta.tables && HasKey(stname, meta.tables[stname], key) && key !in rejected &&
            key in meta.checks && rec in meta.checks[key]
  {
    if stname in meta.tables {
      CheckOfTable(meta, rejected, stname, meta.tables[stname], key, rec);
      var pairs := UniquePairs(meta, rejected, stname, meta.tables[stname]);
      NotACheck(stname, pairs, Sort(PairNames(pairs)), AddCheck(key, rec.name, rec.clause));
    }
  }

  /** A CHECK is emitted exactly for the records of the columns of used tables that are not rejected. */
  lemma ChecksEmitted(meta: Meta, rejected: set<string>, used: seq<string>, key: string, rec: CheckRec)
    ensures AddCheck(key, rec.name, rec.clause) in RunLog(meta, rejected, used) <==>
            IsUsed(meta, used, key) && key !in rejected && key in meta.checks && rec in meta.checks[key]
  {
    var stmt := AddCheck(key, rec.name, rec.clause);
    InRunLog(meta, rejected, used, stmt);
    hide RunLog, HasKey;
    forall t ensures FromTable(meta, rejected, t, stmt) <==>
        t in meta.tables && HasKey(t, meta.tables[t], key) && key !in rejected && key in meta.checks &&
        rec in meta.checks[key]
    {
      CheckFromTable(meta, rejected, t, key, rec);
    }
    hide FromTable;
    assert FromTables(meta, rejected, used, stmt) <==>
           IsUsed(meta, used, key) && key !in rejected && key in meta.checks && rec in meta.checks[key];
  }

  lemma FromTablesSame(meta: Meta, rejected: set<string>, a: seq<string>, b: seq<string>, stmt: Stmt)
    requires forall t :: t in a <==> t in b
    ensures FromTables(meta, rejected, a, stmt) <==> FromTables(meta, rejected, b, stmt)
  {
    hide FromTable;
  }

  /** A statement of a run comes from a used table or from the foreign-key phase. */
  lemma InRunLog(meta: Meta, rejected: set<string>, used: seq<string>, stmt: Stmt)
    requires !IsLayout(stmt)
    ensures stmt in RunLog(meta, rejected, used) <==>
            FromTables(meta, rejected, used, stmt) || exists t :: t in used && FromForeignKeys(meta, rejected, t, stmt)
    ensures stmt in RunLog(meta, rejected, used) && !stmt.AddForeignKey? ==> FromTables(meta, rejected, used, stmt)
    ensures stmt in RunLog(meta, rejected, used) && stmt.AddForeignKey? ==>
            exists t :: t in used && FromForeignKeys(meta, rejected, t, stmt)
  {
    SortIsSort(used);
    SameMembers(Sort(used), used);
    hide Sort, TablesLog, ForeignKeysLog;
    InTablesLog(meta, rejected, Sort(used), "", stmt);
    InForeignKeysLog(meta, rejected, used, stmt);
    FromTablesSame(meta, rejected, Sort(used), used, stmt);
    forall t ensures !stmt.AddForeignKey? ==> !FromForeignKeys(meta, rejected, t, stmt) {
      KindOfForeignKey(meta, rejected, t, stmt);
    }
    forall t ensures stmt.AddForeignKey? ==> !FromTable(meta, rejected, t, stmt) {
      KindOfTable(meta, rejected, t, stmt);
    }
  }

  lemma KindOfForeignKey(meta: Meta, rejected: set<string>, stname: string, stmt: Stmt)
    ensures FromForeignKeys(meta, rejected, stname, stmt) ==> stmt.AddForeignKey?
  {
    if stname in meta.tables {
      InForeignKeys(meta.fks, rejected, stname, meta.tables[stname], stmt);
    }
  }

  lemma KindOfTable(meta: Meta, rejected: set<string>, stname: string, stmt: Stmt)
    ensures stmt.AddForeignKey? ==> !FromTable(meta, rejected, stname, stmt)
  {
    if stname in meta.tables && stmt.AddForeignKey? {
      InChecks(meta, rejected, stname, meta.tables[stname], stmt);
      forall i | 0 <= i < |meta.tables[stname]|
        ensures stmt !in ColumnChecks(meta, rejected, StcnameOf(stname, meta.tables[stname][i].cname))
      {
        NoForeignKeyCheck(meta, rejected, StcnameOf(stname, meta.tables[stname][i].cname), stmt);
      }
      var pairs := UniquePairs(meta, rejected, stname, meta.tables[stname]);
      NotACheck(stname, pairs, Sort(PairNames(pairs)), stmt);
    }
  }

  lemma NoForeignKeyCheck(meta: Meta, rejected: set<string>, stcname: string, stmt: Stmt)
    requires stmt.AddForeignKey?
    ensures stmt !in ColumnChecks(meta, rejected, stcname)
  {
    if stcname in meta.checks {
      InAddChecks(stcname, meta.checks[stcname], stmt);
    }
  }

  /** The row a foreign key is made of. */
  lemma ForeignKeyOfColumn(rows: seq<FkRow>, rejected: set<string>, stcname: string, key: string, ref: string)
    requires DistinctSources(rows) && NamesBehave(rows)
    ensures AddForeignKey(key, ref) in ColumnForeignKey(rows, rejected, stcname) <==>
            stcname == key && HasRow(rows, key, ref) && key !in rejected && ref !in rejected
  {
    var row := FkOf(rows, stcname);
    if row.Some? {
      var i :| 0 <= i < |rows| && rows[i] == row.value;
      BehavedIsExact(rows, rejected, i);
      hide Hides, NamesBehave;
    }
  }

  predicate HasRow(rows: seq<FkRow>, source: string, ref: string) {
    exists i :: 0 <= i < |rows| && rows[i].source == source && rows[i].ref == ref
  }

  lemma ForeignKeyFromTable(meta: Meta, rejected: set<string>, stname: string, key: string, ref: string)
    requires DistinctSources(meta.fks) && NamesBehave(meta.fks)
    ensures FromForeignKeys(meta, rejected, stname, AddForeignKey(key, ref)) <==>
            stname in meta.tables && HasKey(stname, meta.tables[stname], key) && HasRow(meta.fks, key, ref) &&
            key !in rejected && ref !in rejected
  {
    if stname in meta.tables {
      var columns := meta.tables[stname];
      InForeignKeys(meta.fks, rejected, stname, columns, AddForeignKey(key, ref));
      hide StcnameOf, ForeignKeysOf, DistinctSources, NamesBehave;
      forall i | 0 <= i < |columns|
        ensures AddForeignKey(key, ref) in ColumnForeignKey(meta.fks, rejected,
                                                            StcnameOf(stname, columns[i].cname)) <==>
                StcnameOf(stname, columns[i].cname) == key && HasRow(meta.fks, key, ref) && key !in rejected &&
                ref !in rejected
      {
        ForeignKeyOfColumn(meta.fks, rejected, StcnameOf(stname, columns[i].cname), key, ref);
      }
    }
  }

  /**
   * A FOREIGN KEY is emitted exactly for the rows whose own column belongs to a used table
   * and of which neither the own column nor the target is rejected, in whichever table.
   */
  lemma ForeignKeysEmitted(meta: Meta, rejected: set<string>, used: seq<string>, key: string, ref: string)
    requires DistinctSources(meta.fks) && NamesBehave(meta.fks)
    ensures AddForeignKey(key, ref) in RunLog(meta, rejected, used) <==>
            IsUsed(meta, used, key) && HasRow(meta.fks, key, ref) && key !in rejected && ref !in rejected
  {
    var stmt := AddForeignKey(key, ref);
    InRunLog(meta, rejected, used, stmt);
    hide RunLog, HasKey, DistinctSources, NamesBehave, HasRow;
    forall t ensures FromForeignKeys(meta, rejected, t, stmt) <==>
        t in meta.tables && HasKey(t, meta.tables[t], key) && HasRow(meta.fks, key, ref) && key !in rejected &&
        ref !in rejected
    {
      ForeignKeyFromTable(meta, rejected, t, key, ref);
    }
    hide FromForeignKeys;
  }

  lemma UniqueFromTable(meta: Meta, rejected: set<string>, stname: string, cnames: seq<string>, name: string)
    requires stname in meta.tables && ListedOnce(meta, stname, meta.tables[stname])
    ensures FromTable(meta, rejected, stname, AddUnique(stname, cnames, name)) <==>
            cnames != [] && cnames == Listing(meta, rejected, stname, meta.tables[stname], name)
  {
    var columns, stmt := meta.tables[stname], AddUnique(stname, cnames, name);
    var names := UniquesInvert(meta, rejected, stname, columns);
    NoUniqueAmongChecks(meta, rejected, stname, columns, stmt);
    hide StcnameOf, ListedOnce, ChecksOf, UniquesOf, Listing;
    var stmts := UniquesOf(meta, rejected, stname, columns);
    if stmt in stmts {
      var i :| 0 <= i < |stmts| && stmts[i] == stmt;
      assert names[i] == name;
      assert name in names;
    }
    if cnames != [] && cnames == Listing(meta, rejected, stname, columns, name) {
      assert name in names;
      var i :| 0 <= i < |names| && names[i] == name;
      assert stmts[i] == stmt;
    }
  }

  lemma NoUniqueAmongChecks(meta: Meta, rejected: set<string>, stname: string, columns: seq<Column>, stmt: Stmt)
    requires stmt.AddUnique?
    ensures stmt !in ChecksOf(meta, rejected, stname, columns)
  {
    InChecks(meta, rejected, stname, columns, stmt);
    hide StcnameOf, ChecksOf;
    forall i | 0 <= i < |columns| ensures stmt !in ColumnChecks(meta, rejected, StcnameOf(stname, columns[i].cname)) {
      NoUniqueCheck(meta, rejected, StcnameOf(stname, columns[i].cname), stmt);
    }
  }

  /** A UNIQUE is written by its own table only. */
  lemma UniqueOfOther(meta: Meta, rejected: set<string>, stmt: Stmt, t: string)
    requires stmt.AddUnique? && stmt.stname != t
    ensures !FromTable(meta, rejected, t, stmt)
  {
    if t in meta.tables {
      var pairs := UniquePairs(meta, rejected, t, meta.tables[t]);
      NoUniqueAmongChecks(meta, rejected, t, meta.tables[t], stmt);
      InUniques(t, pairs, Sort(PairNames(pairs)), stmt);
    }
  }

  lemma NoUniqueCheck(meta: Meta, rejected: set<string>, stcname: string, stmt: Stmt)
    requires stmt.AddUnique?
    ensures stmt !in ColumnChecks(meta, rejected, stcname)
  {
    if stcname in meta.checks {
      InAddChecks(stcname, meta.checks[stcname], stmt);
    }
  }

  /**
   * A UNIQUE is emitted exactly for the names that visible columns of a used table list, with
   * exactly those columns.
   */
  lemma UniquesEmitted(meta: Meta, rejected: set<string>, used: seq<string>, stname: string,
                       cnames: seq<string>, name: string)
    requires stname in meta.tables ==> ListedOnce(meta, stname, meta.tables[stname])
    ensures AddUnique(stname, cnames, name) in RunLog(meta, rejected, used) <==>
            stname in used && stname in meta.tables && cnames != [] &&
            cnames == Listing(meta, rejected, stname, meta.tables[stname], name)
  {
    var stmt := AddUnique(stname, cnames, name);
    InRunLog(meta, rejected, used, stmt);
    hide RunLog, Listing, ListedOnce;
    forall t ensures FromTable(meta, rejected, t, stmt) <==>
        t in meta.tables && t == stname && cnames != [] && cnames == Listing(meta, rejected, t, meta.tables[t], name)
    {
      if t != stname {
        UniqueOfOther(meta, rejected, stmt, t);
      } else if t in meta.tables {
        UniqueFromTable(meta, rejected, stname, cnames, name);
      }
    }
    hide FromTable;
  }

  // -------------------------------------------------------- nothing rejected is named

  /** The columns of each used table have distinct names. */
  predicate DistinctColumns(meta: Meta, used: seq<string>) {
    forall t :: t in used && t in meta.tables ==> NoRepeats(ColumnNames(meta.tables[t]))
  }

  function ColumnNames(columns: seq<Column>): (names: seq<string>)
    ensures |names| == |columns| && forall i :: 0 <= i < |columns| ==> names[i] == columns[i].cname
  {
    seq(|columns|, i requires 0 <= i < |columns| => columns[i].cname)
  }

  lemma {:induction false} PkNames(pk: set<string>, stname: string, columns: seq<Column>)
    requires NoRepeats(ColumnNames(columns))
    ensures forall n :: n in PkOf(pk, stname, columns) ==> n in ColumnNames(columns)
    ensures NoRepeats(PkOf(pk, stname, columns))
  {
    if columns != [] {
      var init, last := columns[..|columns| - 1], columns[|columns| - 1].cname;
      assert ColumnNames(columns) == ColumnNames(init) + [last];
      assert NoRepeats(ColumnNames(init)) && last !in ColumnNames(init);
      hide StcnameOf;
      PkNames(pk, stname, init);
      RepeatsSnoc(PkOf(pk, stname, init), last);
      AppendEmpty(PkOf(pk, stname, init));
    }
  }

  /** The emitted key holds the names of key columns that were accepted, in order, and no others. */
  lemma EmittedPk(meta: Meta, stname: string)
    requires stname in meta.tables && NoRepeats(ColumnNames(meta.tables[stname]))
    ensures var columns := meta.tables[stname];
            TableStmt(meta, stname) ==
            CreateTableStmt(stname, columns, TableBody.Without(PkOf(meta.pk, stname, columns), RejectedNames(columns)))
  {
    PkNames(meta.pk, stname, meta.tables[stname]);
    TableBody.PkWithoutRejected(PkOf(meta.pk, stname, meta.tables[stname]), meta.tables[stname]);
  }

  /** A name of a table whose key is rejected is the name of one of its rejected columns. */
  lemma RejectedByName(meta: Meta, rejected: set<string>, stname: string, cname: string)
    requires WellNamed(meta) && OnlyRejected(meta, rejected) && stname in meta.tables && stname != "" && IsCname(cname)
    requires StcnameOf(stname, cname) in rejected
    ensures cname in RejectedNames(meta.tables[stname])
  {
    var key := StcnameOf(stname, cname);
    assert IsRejected(meta, key);
    var t :| t in meta.tables && key in RejectedKeys(t, meta.tables[t]);
    assert NamedTable(t, meta.tables[t]) && NamedTable(stname, meta.tables[stname]);
    hide WellNamed, OnlyRejected, IsStname, StcnameOf, IsCname;
    if t != stname {
      NotTheirs(stname, cname, t, meta.tables[t]);
      assert false;
    }
    var i :| 0 <= i < |meta.tables[t]| && meta.tables[t][i].outcome.Rejected? &&
      key == StcnameOf(t, meta.tables[t][i].cname);
    KeyRoundTrip(stname, cname);
    KeyRoundTrip(stname, meta.tables[t][i].cname);
    RejectedNamesContents(meta.tables[t], cname);
  }

  lemma PkIsClean(meta: Meta, rejected: set<string>, stname: string)
    requires WellNamed(meta) && OnlyRejected(meta, rejected) && stname in meta.tables && stname != ""
    requires NoRepeats(ColumnNames(meta.tables[stname]))
    ensures Named(meta, TableStmt(meta, stname)) !! rejected
  {
    var columns := meta.tables[stname];
    var pk := PkOf(meta.pk, stname, columns);
    EmittedPk(meta, stname);
    PkNames(meta.pk, stname, columns);
    TableBody.WithoutContents(pk, RejectedNames(columns));
    assert NamedTable(stname, columns);
    hide PkOf, StcnameOf, WellNamed, OnlyRejected, RejectedNames;
    forall n | n in TableBody.Without(pk, RejectedNames(columns)) ensures StcnameOf(stname, n) !in rejected {
      assert n in ColumnNames(columns);
      if StcnameOf(stname, n) in rejected {
        RejectedByName(meta, rejected, stname, n);
        assert false;
      }
    }
  }

  lemma {:induction false} PairsVisible(meta: Meta, rejected: set<string>, stname: string, columns: seq<Column>, i: nat)
    requires i < |UniquePairs(meta, rejected, stname, columns)|
    ensures StcnameOf(stname, UniquePairs(meta, rejected, stname, columns)[i].value) !in rejected
    decreases |columns|
  {
    hide StcnameOf;
    var before := UniquePairs(meta, rejected, stname, columns[..|columns| - 1]);
    if i < |before| {
      PairsVisible(meta, rejected, stname, columns[..|columns| - 1], i);
    }
  }

  lemma {:induction false} Filtered(pairs: seq<RowRuns.Row<string>>, name: string, value: string)
    requires value in RowRuns.Filter(pairs, name)
    ensures exists i :: 0 <= i < |pairs| && pairs[i].value == value
  {
    if value in RowRuns.Filter(pairs[1..], name) {
      Filtered(pairs[1..], name, value);
      var i :| 0 <= i < |pairs[1..]| && pairs[1..][i].value == value;
      assert pairs[i + 1].value == value;
    } else {
      assert pairs[0].value == value;
    }
  }

  lemma UniqueIsClean(meta: Meta, rejected: set<string>, stname: string, columns: seq<Column>, stmt: Stmt)
    requires stmt in UniquesOf(meta, rejected, stname, columns)
    ensures Named(meta, stmt) !! rejected
  {
    var pairs := UniquePairs(meta, rejected, stname, columns);
    InUniques(stname, pairs, Sort(PairNames(pairs)), stmt);
    hide UniquePairs, StcnameOf, AddUniques, Sort;
    forall c | c in stmt.cnames ensures StcnameOf(stname, c) !in rejected {
      Filtered(pairs, stmt.name, c);
      var i :| 0 <= i < |pairs| && pairs[i].value == c;
      PairsVisible(meta, rejected, stname, columns, i);
    }
  }

  /** A written CHECK belongs to a column of the table that is not rejected and lists it. */
  lemma CheckIsOwn(meta: Meta, rejected: set<string>, stname: string, columns: seq<Column>, stmt: Stmt)
    requires stmt in ChecksOf(meta, rejected, stname, columns)
    ensures stmt.AddCheck? && HasKey(stname, columns, stmt.stcname) && stmt.stcname !in rejected &&
            ListsCheck(meta, stmt.stcname, stmt.name)
  {
    InChecks(meta, rejected, stname, columns, stmt);
    hide ChecksOf, StcnameOf;
    var i :| 0 <= i < |columns| && stmt in ColumnChecks(meta, rejected, StcnameOf(stname, columns[i].cname));
    InAddChecks(StcnameOf(stname, columns[i].cname), meta.checks[StcnameOf(stname, columns[i].cname)], stmt);
  }

  /** No check is listed by both a visible and a rejected column of a used table. */
  ghost predicate ChecksWhole(meta: Meta, rejected: set<string>, used: seq<string>) {
    forall t, name, a, b ::
      t in used && a in CheckColumns(meta, t, name) && b in CheckColumns(meta, t, name) && b in rejected ==>
        a in rejected
  }

  /** The key of a column of a named table leads back to the table. */
  lemma OwnerOfKey(meta: Meta, stname: string, key: string)
    requires WellNamed(meta) && stname in meta.tables && stname != "" && HasKey(stname, meta.tables[stname], key)
    ensures StnameOf(key) == stname
  {
    hide StcnameOf, StnameOf, CnameOf, WellNamed;
    var i :| 0 <= i < |meta.tables[stname]| && StcnameOf(stname, meta.tables[stname][i].cname) == key;
    OwnColumn(meta, stname, i);
  }

  lemma CheckIsClean(meta: Meta, rejected: set<string>, used: seq<string>, stname: string, stmt: Stmt)
    requires WellNamed(meta) && ChecksWhole(meta, rejected, used)
    requires stname in used && stname in meta.tables && stname != ""
    requires stmt in ChecksOf(meta, rejected, stname, meta.tables[stname])
    ensures stmt.AddCheck? && Named(meta, stmt) !! rejected
  {
    CheckIsOwn(meta, rejected, stname, meta.tables[stname], stmt);
    OwnerOfKey(meta, stname, stmt.stcname);
    hide WellNamed, ChecksOf, HasKey, StnameOf, ListsCheck;
    assert stmt.stcname in CheckColumns(meta, stname, stmt.name);
  }

  lemma ForeignKeyIsClean(meta: Meta, rejected: set<string>, stname: string, stmt: Stmt)
    requires NamesSafe(meta.fks) && FromForeignKeys(meta, rejected, stname, stmt)
    ensures stmt.AddForeignKey? && Named(meta, stmt) !! rejected
  {
    var columns := meta.tables[stname];
    InForeignKeys(meta.fks, rejected, stname, columns, stmt);
    hide FromForeignKeys, ForeignKeysOf, StcnameOf, NamesSafe, ColumnForeignKey;
    var i :| 0 <= i < |columns| && stmt in ColumnForeignKey(meta.fks, rejected, StcnameOf(stname, columns[i].cname));
    ColumnKeyIsClean(meta, rejected, StcnameOf(stname, columns[i].cname), stmt);
  }

  lemma ColumnKeyIsClean(meta: Meta, rejected: set<string>, stcname: string, stmt: Stmt)
    requires NamesSafe(meta.fks) && stmt in ColumnForeignKey(meta.fks, rejected, stcname)
    ensures stmt.AddForeignKey? && Named(meta, stmt) !! rejected
  {
    var rows := meta.fks;
    var row := FkOf(rows, stcname).value;
    var k :| 0 <= k < |rows| && rows[k] == row;
    SafeIsHidden(rows, rejected, k);
    hide NamesSafe, Hides;
  }

  /**
   * Whole-run safety. With distinct column names per used table, foreign-key names that repeat
   * only among rows referring to their own column, and no check listed by both a visible and a
   * rejected column, nothing a run emits is about a column that is rejected when the run is
   * over: no primary key, no UNIQUE, no CHECK and no foreign key, neither as its own column nor
   * as its target, even if the target's table is migrated after the key's own table.
   */
  lemma NothingRejectedIsNamed(meta: Meta, rejected: set<string>, used: seq<string>, stmt: Stmt)
    requires WellNamed(meta) && "" !in used && DistinctColumns(meta, used)
    requires NamesSafe(meta.fks) && ChecksWhole(meta, rejected, used)
    requires OnlyRejected(meta, rejected) && stmt in RunLog(meta, rejected, used)
    ensures Named(meta, stmt) !! rejected
  {
    if !IsLayout(stmt) {
      InRunLog(meta, rejected, used, stmt);
      hide RunLog, WellNamed, NamesSafe, ChecksWhole, OnlyRejected;
      if FromTables(meta, rejected, used, stmt) {
        var t :| t in used && FromTable(meta, rejected, t, stmt);
        if stmt == TableStmt(meta, t) {
          PkIsClean(meta, rejected, t);
        } else if stmt in ChecksOf(meta, rejected, t, meta.tables[t]) {
          CheckIsClean(meta, rejected, used, t, stmt);
        } else {
          UniqueIsClean(meta, rejected, t, meta.tables[t], stmt);
        }
      } else {
        var t :| t in used && FromForeignKeys(meta, rejected, t, stmt);
        ForeignKeyIsClean(meta, rejected, t, stmt);
      }
    }
  }
}
