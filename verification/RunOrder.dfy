/** In which order a run writes its statements: tables sorted, and every constraint behind its tables. */
module RunOrder {
  import opened Common
  import opened CheckSafety
  import opened CreateTable
  import opened DdlRun
  import opened Names
  import opened RunCounts
  import opened RunSafety
  import opened SchemaRuns
  import opened SortedNames
  import opened UniqueConstraints

  /** A CREATE TABLE of the table stands before the i-th statement. */
  predicate TableBefore(log: seq<Stmt>, i: nat, stname: string)
    requires i <= |log|
  {
    exists j :: 0 <= j < i && log[j].CreateTableStmt? && log[j].stname == stname
  }

  /** The table that a CHECK or a UNIQUE is added to. */
  predicate IsOwner(stmt: Stmt, stname: string) {
    (stmt.AddCheck? && StnameOf(stmt.stcname) == stname) || (stmt.AddUnique? && stmt.stname == stname)
  }

  /** Every CHECK and UNIQUE stands behind the CREATE TABLE of its table. */
  ghost predicate BehindTables(log: seq<Stmt>) {
    forall i, t :: 0 <= i < |log| && IsOwner(log[i], t) ==> TableBefore(log, i, t)
  }

  lemma StaysBefore(a: seq<Stmt>, b: seq<Stmt>, i: nat, stname: string)
    ensures i <= |a| && TableBefore(a, i, stname) ==> TableBefore(a + b, i, stname)
    ensures i <= |b| && TableBefore(b, i, stname) ==> TableBefore(a + b, |a| + i, stname)
  {
    if i <= |a| && TableBefore(a, i, stname) {
      var j :| 0 <= j < i && a[j].CreateTableStmt? && a[j].stname == stname;
      assert (a + b)[j] == a[j];
    }
    if i <= |b| && TableBefore(b, i, stname) {
      var j :| 0 <= j < i && b[j].CreateTableStmt? && b[j].stname == stname;
      assert (a + b)[|a| + j] == b[j];
    }
  }

  lemma BehindAppend(a: seq<Stmt>, b: seq<Stmt>)
    requires BehindTables(a) && BehindTables(b)
    ensures BehindTables(a + b)
  {
    hide IsOwner, TableBefore;
    forall i, t | 0 <= i < |a + b| && IsOwner((a + b)[i], t) ensures TableBefore(a + b, i, t) {
      if i < |a| {
        assert (a + b)[i] == a[i];
        StaysBefore(a, b, i, t);
      } else {
        assert (a + b)[i] == b[i - |a|];
        StaysBefore(a, b, i - |a|, t);
      }
    }
  }

  /** Statements of one table, behind its own CREATE TABLE. */
  lemma BehindOwn(before: seq<Stmt>, stmts: seq<Stmt>, stname: string)
    requires BehindTables(before) && TableBefore(before, |before|, stname)
    requires forall i, t :: 0 <= i < |stmts| && IsOwner(stmts[i], t) ==> t == stname
    ensures BehindTables(before + stmts) && TableBefore(before + stmts, |before + stmts|, stname)
  {
    hide IsOwner;
    var log := before + stmts;
    var j :| 0 <= j < |before| && before[j].CreateTableStmt? && before[j].stname == stname;
    assert log[j] == before[j];
    forall i, t | 0 <= i < |log| && IsOwner(log[i], t) ensures TableBefore(log, i, t) {
      if i < |before| {
        assert log[i] == before[i];
        StaysBefore(before, stmts, i, t);
      } else {
        assert log[i] == stmts[i - |before|];
      }
    }
  }

  lemma OwnChecks(meta: Meta, rejected: set<string>, stname: string)
    requires WellNamed(meta) && stname in meta.tables && stname != ""
    ensures var stmts := Lead(ChecksOf(meta, rejected, stname, meta.tables[stname]));
            forall i, t :: 0 <= i < |stmts| && IsOwner(stmts[i], t) ==> t == stname
  {
    var checks := ChecksOf(meta, rejected, stname, meta.tables[stname]);
    var stmts := Lead(checks);
    forall i, t | 0 <= i < |stmts| && IsOwner(stmts[i], t) ensures t == stname {
      InLead(checks, stmts[i]);
      CheckIsOwn(meta, rejected, stname, meta.tables[stname], stmts[i]);
      OwnerOfKey(meta, stname, stmts[i].stcname);
      hide StnameOf, ChecksOf, HasKey, WellNamed, ListsCheck;
    }
  }

  lemma OwnUniques(meta: Meta, rejected: set<string>, stname: string)
    requires stname in meta.tables
    ensures var stmts := Lead(UniquesOf(meta, rejected, stname, meta.tables[stname]));
            forall i, t :: 0 <= i < |stmts| && IsOwner(stmts[i], t) ==> t == stname
  {
    var columns := meta.tables[stname];
    var pairs := UniquePairs(meta, rejected, stname, columns);
    var uniques := UniquesOf(meta, rejected, stname, columns);
    var stmts := Lead(uniques);
    forall i, t | 0 <= i < |stmts| && IsOwner(stmts[i], t) ensures t == stname {
      InLead(uniques, stmts[i]);
      InUniques(stname, pairs, Sort(PairNames(pairs)), stmts[i]);
    }
  }

  lemma SchemaOwnsNothing(stname: string, lastSchema: string)
    ensures BehindTables(SchemaStmts(stname, lastSchema))
  {
    hide SchemaName;
  }

  lemma TableItselfBehind(start: seq<Stmt>, table: Stmt)
    requires BehindTables(start) && table.CreateTableStmt?
    ensures BehindTables(start + [table]) && TableBefore(start + [table], |start| + 1, table.stname)
  {
    assert (start + [table])[|start|] == table;
    assert BehindTables([table]);
    hide BehindTables, IsOwner;
    BehindAppend(start, [table]);
  }

  lemma TableStmtsAre(meta: Meta, rejected: set<string>, stname: string, lastSchema: string)
    requires stname in meta.tables
    ensures TableStmts(meta, rejected, stname, lastSchema) ==
            SchemaStmts(stname, lastSchema) + [TableStmt(meta, stname)] +
            Lead(ChecksOf(meta, rejected, stname, meta.tables[stname])) +
            Lead(UniquesOf(meta, rejected, stname, meta.tables[stname]))
    ensures TableStmt(meta, stname).CreateTableStmt? && TableStmt(meta, stname).stname == stname
  {
    hide SchemaStmts, Lead, ChecksOf, UniquesOf, PkOf, RemainingPk;
  }

  lemma TableOrder(meta: Meta, rejected: set<string>, stname: string, lastSchema: string)
    requires WellNamed(meta) && stname in meta.tables && stname != ""
    ensures BehindTables(TableStmts(meta, rejected, stname, lastSchema))
  {
    var start, table := SchemaStmts(stname, lastSchema), TableStmt(meta, stname);
    var cks, uqs := Lead(ChecksOf(meta, rejected, stname, meta.tables[stname])),
      Lead(UniquesOf(meta, rejected, stname, meta.tables[stname]));
    hide *;
    TableStmtsAre(meta, rejected, stname, lastSchema);
    SchemaOwnsNothing(stname, lastSchema);
    TableItselfBehind(start, table);
    OwnChecks(meta, rejected, stname);
    BehindOwn(start + [table], cks, stname);
    OwnUniques(meta, rejected, stname);
    BehindOwn(start + [table] + cks, uqs, stname);
  }

  lemma {:induction false} TablesOrder(meta: Meta, rejected: set<string>, stnames: seq<string>, lastSchema: string)
    requires WellNamed(meta) && "" !in stnames
    ensures BehindTables(TablesLog(meta, rejected, stnames, lastSchema))
    decreases |stnames|
  {
    hide TableStmts, IsOwner, TableBefore, SchemaName, WellNamed;
    if stnames != [] {
      var t, rest := stnames[0], stnames[1..];
      if t in meta.tables {
        TableOrder(meta, rejected, t, lastSchema);
        TablesOrder(meta, rejected, rest, SchemaName(t));
        BehindAppend(TableStmts(meta, rejected, t, lastSchema), TablesLog(meta, rejected, rest, SchemaName(t)));
      } else {
        TablesOrder(meta, rejected, rest, lastSchema);
      }
    }
  }

  lemma KeysOwnNothing(meta: Meta, rejected: set<string>, used: seq<string>)
    ensures BehindTables(ForeignKeysLog(meta, rejected, used))
  {
    var keys := ForeignKeysLog(meta, rejected, used);
    forall i, t | 0 <= i < |keys| ensures !IsOwner(keys[i], t) {
      OnlyForeignKeys(meta, rejected, used, keys[i]);
    }
    hide ForeignKeysLog, IsOwner;
  }

  /** Every CHECK and every UNIQUE of a run stands behind the CREATE TABLE of its own table. */
  lemma ConstraintsFollowTables(meta: Meta, rejected: set<string>, used: seq<string>)
    requires WellNamed(meta) && "" !in used
    ensures BehindTables(RunLog(meta, rejected, used))
  {
    SortedNamesSame(used);
    hide TablesLog, ForeignKeysLog, BehindTables, Sort, WellNamed;
    TablesOrder(meta, rejected, Sort(used), "");
    KeysOwnNothing(meta, rejected, used);
    BehindAppend(TablesLog(meta, rejected, Sort(used), ""), ForeignKeysLog(meta, rejected, used));
  }

  lemma SortedNamesSame(used: seq<string>)
    ensures Sorted(Sort(used)) && forall t :: t in Sort(used) <==> t in used
  {
    SortIsSort(used);
    SameMembers(Sort(used), used);
  }

  // ------------------------------------------------------------------ foreign keys

  lemma TableIsThere(meta: Meta, rejected: set<string>, used: seq<string>, stname: string)
    requires stname in used && stname in meta.tables
    ensures TableStmt(meta, stname) in TablesLog(meta, rejected, Sort(used), "")
    ensures TableStmt(meta, stname).CreateTableStmt? && TableStmt(meta, stname).stname == stname
  {
    SortedNamesSame(used);
    InTablesLog(meta, rejected, Sort(used), "", TableStmt(meta, stname));
    assert FromTable(meta, rejected, stname, TableStmt(meta, stname));
    hide TablesLog, Sort, FromTable;
  }

  lemma NotInFront(a: seq<Stmt>, b: seq<Stmt>, i: nat)
    requires i < |a + b| && (a + b)[i] !in a
    ensures |a| <= i
  {
  }

  /** Every foreign key of a run stands behind the CREATE TABLE of every used table, its target's included. */
  lemma KeysFollowAllTables(meta: Meta, rejected: set<string>, used: seq<string>, i: nat, stname: string)
    requires i < |RunLog(meta, rejected, used)| && RunLog(meta, rejected, used)[i].AddForeignKey?
    requires stname in used && stname in meta.tables
    ensures TableBefore(RunLog(meta, rejected, used), i, stname)
  {
    var tables, keys := TablesLog(meta, rejected, Sort(used), ""), ForeignKeysLog(meta, rejected, used);
    var log := RunLog(meta, rejected, used);
    assert log == tables + keys;
    TableIsThere(meta, rejected, used, stname);
    RunOnce.NotAmongTables(meta, rejected, used, log[i]);
    hide RunLog, TablesLog, ForeignKeysLog, Sort, TableStmt;
    NotInFront(tables, keys, i);
    var j :| 0 <= j < |tables| && tables[j] == TableStmt(meta, stname);
    assert log[j] == tables[j];
  }

  // ------------------------------------------------------------------ sorted tables

  /** Tables are created in the order of their names. */
  predicate InOrder(log: seq<Stmt>) {
    forall i, j :: 0 <= i < j < |log| && log[i].CreateTableStmt? && log[j].CreateTableStmt? ==>
      Leq(log[i].stname, log[j].stname)
  }

  predicate Above(log: seq<Stmt>, stname: string) {
    forall i :: 0 <= i < |log| && log[i].CreateTableStmt? ==> Leq(stname, log[i].stname)
  }

  predicate OnlyTable(log: seq<Stmt>, stname: string) {
    forall i :: 0 <= i < |log| && log[i].CreateTableStmt? ==> log[i].stname == stname
  }

  lemma InOrderAppend(a: seq<Stmt>, b: seq<Stmt>, stname: string)
    requires OnlyTable(a, stname) && InOrder(b) && Above(b, stname)
    ensures InOrder(a + b)
  {
    LeqRefl(stname);
    hide Leq;
    var log := a + b;
    forall i, j | 0 <= i < j < |log| && log[i].CreateTableStmt? && log[j].CreateTableStmt?
      ensures Leq(log[i].stname, log[j].stname)
    {
      assert if i < |a| then log[i] == a[i] else log[i] == b[i - |a|];
      assert if j < |a| then log[j] == a[j] else log[j] == b[j - |a|];
    }
  }

  lemma TableFrom(meta: Meta, rejected: set<string>, stname: string, stmt: Stmt)
    requires FromTable(meta, rejected, stname, stmt) && stmt.CreateTableStmt?
    ensures stmt.stname == stname
  {
    if stmt != TableStmt(meta, stname) {
      var columns := meta.tables[stname];
      if stmt in ChecksOf(meta, rejected, stname, columns) {
        CheckIsOwn(meta, rejected, stname, columns, stmt);
      } else {
        var pairs := UniquePairs(meta, rejected, stname, columns);
        NotACheck(stname, pairs, Sort(PairNames(pairs)), stmt);
      }
    }
  }

  lemma OneTable(meta: Meta, rejected: set<string>, stname: string, lastSchema: string)
    requires stname in meta.tables
    ensures OnlyTable(TableStmts(meta, rejected, stname, lastSchema), stname)
  {
    var log := TableStmts(meta, rejected, stname, lastSchema);
    hide TableStmts;
    forall i | 0 <= i < |log| && log[i].CreateTableStmt? ensures log[i].stname == stname {
      InTableStmts(meta, rejected, stname, lastSchema, log[i]);
      TableFrom(meta, rejected, stname, log[i]);
    }
  }

  lemma AllAbove(meta: Meta, rejected: set<string>, stnames: seq<string>, lastSchema: string, stname: string)
    requires forall i :: 0 <= i < |stnames| ==> Leq(stname, stnames[i])
    ensures Above(TablesLog(meta, rejected, stnames, lastSchema), stname)
  {
    var log := TablesLog(meta, rejected, stnames, lastSchema);
    hide TablesLog, Leq, FromTable;
    forall i | 0 <= i < |log| && log[i].CreateTableStmt? ensures Leq(stname, log[i].stname) {
      InTablesLog(meta, rejected, stnames, lastSchema, log[i]);
      var t :| t in stnames && FromTable(meta, rejected, t, log[i]);
      TableFrom(meta, rejected, t, log[i]);
    }
  }

  lemma {:induction false} TablesInOrder(meta: Meta, rejected: set<string>, stnames: seq<string>, lastSchema: string)
    requires Sorted(stnames)
    ensures InOrder(TablesLog(meta, rejected, stnames, lastSchema))
    decreases |stnames|
  {
    if stnames != [] {
      var t, rest := stnames[0], stnames[1..];
      SortedSplit(stnames);
      assert forall i :: 0 <= i < |rest| ==> rest[i] == stnames[i + 1];
      assert forall i :: 0 <= i < |rest| ==> Leq(t, rest[i]);
      hide TableStmts, SchemaName, Leq, Sorted, InOrder, Above, OnlyTable;
      if t in meta.tables {
        OneTable(meta, rejected, t, lastSchema);
        TablesInOrder(meta, rejected, rest, SchemaName(t));
        AllAbove(meta, rejected, rest, SchemaName(t), t);
        InOrderAppend(TableStmts(meta, rejected, t, lastSchema), TablesLog(meta, rejected, rest, SchemaName(t)), t);
      } else {
        TablesInOrder(meta, rejected, rest, lastSchema);
      }
    }
  }

  lemma NoTableBehind(tables: seq<Stmt>, keys: seq<Stmt>)
    requires InOrder(tables) && forall i :: 0 <= i < |keys| ==> !keys[i].CreateTableStmt?
    ensures InOrder(tables + keys)
  {
    hide Leq;
    var log := tables + keys;
    assert forall i :: 0 <= i < |tables| ==> log[i] == tables[i];
    assert forall i :: |tables| <= i < |log| ==> log[i] == keys[i - |tables|];
  }

  /** A run creates its tables in the order of their names. */
  lemma TablesAreSorted(meta: Meta, rejected: set<string>, used: seq<string>)
    ensures InOrder(RunLog(meta, rejected, used))
  {
    var keys := ForeignKeysLog(meta, rejected, used);
    SortedNamesSame(used);
    forall i | 0 <= i < |keys| ensures !keys[i].CreateTableStmt? {
      OnlyForeignKeys(meta, rejected, used, keys[i]);
    }
    hide TablesLog, ForeignKeysLog, InOrder, Sort, Sorted;
    TablesInOrder(meta, rejected, Sort(used), "");
    NoTableBehind(TablesLog(meta, rejected, Sort(used), ""), keys);
  }
}
