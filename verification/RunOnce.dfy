/** How often a run creates a thing, and that it writes each foreign key exactly once. */
module RunOnce {
  import opened Common
  import opened CreateTable
  import opened DdlRun
  import opened FkRows
  import opened Names
  import opened RunSafety
  import opened SortedNames

  /** What a statement creates: a schema, a table or a constraint, each known by its table and its name. */
  datatype Thing =
    | TheSchema(schema: string)
    | TheTable(stname: string)
    | TheCheck(stname: string, name: string)
    | TheUnique(stname: string, name: string)
    | TheForeignKey(stcname: string, ref: string)

  predicate Creates(stmt: Stmt, thing: Thing) {
    match thing
    case TheSchema(schema) => stmt == CreateSchema(schema)
    case TheTable(stname) => stmt.CreateTableStmt? && stmt.stname == stname
    case TheCheck(stname, name) => stmt.AddCheck? && StnameOf(stmt.stcname) == stname && stmt.name == name
    case TheUnique(stname, name) => stmt.AddUnique? && stmt.stname == stname && stmt.name == name
    case TheForeignKey(stcname, ref) => stmt == AddForeignKey(stcname, ref)
  }

  /** How often a thing is created. */
  function Times(log: seq<Stmt>, thing: Thing): (n: nat)
    ensures n == 0 <==> forall stmt :: stmt in log ==> !Creates(stmt, thing)
  {
    if log == [] then 0
    else
      Unsnoc(log);
      Times(log[..|log| - 1], thing) + if Creates(log[|log| - 1], thing) then 1 else 0
  }

  lemma {:induction false} TimesAppend(a: seq<Stmt>, b: seq<Stmt>, thing: Thing)
    ensures Times(a + b, thing) == Times(a, thing) + Times(b, thing)
  {
    hide Creates;
    if b == [] {
      AppendEmpty(a);
    } else {
      assert (a + b)[..|a + b| - 1] == a + b[..|b| - 1];
      TimesAppend(a, b[..|b| - 1], thing);
    }
  }

  lemma TimesOne(stmt: Stmt, thing: Thing)
    ensures Times([stmt], thing) == if Creates(stmt, thing) then 1 else 0
  {
    hide Creates;
    assert [stmt][..0] == [];
  }

  lemma TimesLead(stmts: seq<Stmt>, thing: Thing)
    ensures Times(Lead(stmts), thing) == Times(stmts, thing)
  {
    TimesOne(Blank, thing);
    TimesAppend([Blank], stmts, thing);
  }

  // -------------------------------------------------------------- foreign keys

  lemma ColumnWritesOnce(rows: seq<FkRow>, rejected: set<string>, stcname: string, key: string, ref: string)
    ensures Times(ColumnForeignKey(rows, rejected, stcname), TheForeignKey(key, ref)) <= if stcname == key then 1 else 0
  {
    var row := FkOf(rows, stcname);
    if row.Some? {
      TimesOne(AddForeignKey(stcname, row.value.ref), TheForeignKey(key, ref));
    }
    hide Hides;
  }

  /** Distinct columns of a table have distinct keys. */
  lemma OtherColumn(stname: string, columns: seq<Column>, i: nat, key: string)
    requires IsStname(stname) && ColumnsNamed(columns) && NoRepeats(ColumnNames(columns)) && i < |columns|
    requires StcnameOf(stname, columns[i].cname) == key
    ensures !HasKey(stname, columns[..i], key)
  {
    hide StcnameOf, IsStname, IsCname, StnameOf, CnameOf;
    if HasKey(stname, columns[..i], key) {
      var j :| 0 <= j < i && StcnameOf(stname, columns[..i][j].cname) == key;
      assert ColumnNames(columns)[j] != ColumnNames(columns)[i];
      KeyRoundTrip(stname, columns[i].cname);
      KeyRoundTrip(stname, columns[j].cname);
      assert false;
    }
  }

  lemma {:induction false} TableWritesOnce(rows: seq<FkRow>, rejected: set<string>, stname: string,
                                           columns: seq<Column>,
                                           key: string, ref: string)
    requires IsStname(stname) && ColumnsNamed(columns) && NoRepeats(ColumnNames(columns))
    ensures Times(ForeignKeysOf(rows, rejected, stname, columns), TheForeignKey(key, ref)) <=
            if HasKey(stname, columns, key) then 1 else 0
  {
    if columns != [] {
      var init, last := columns[..|columns| - 1], columns[|columns| - 1];
      assert ColumnNames(init) == ColumnNames(columns)[..|init|];
      assert HasKey(stname, columns, key) <==> HasKey(stname, init, key) || StcnameOf(stname, last.cname) == key by {
        hide StcnameOf;
        assert columns == init + [last];
      }
      TableWritesOnce(rows, rejected, stname, init, key, ref);
      ColumnWritesOnce(rows, rejected, StcnameOf(stname, last.cname), key, ref);
      TimesAppend(ForeignKeysOf(rows, rejected, stname, init),
                  ColumnForeignKey(rows, rejected, StcnameOf(stname, last.cname)),
                  TheForeignKey(key, ref));
      if StcnameOf(stname, last.cname) == key {
        OtherColumn(stname, columns, |init|, key);
      }
      hide HasKey, StcnameOf, Times, ColumnForeignKey, NoRepeats, IsStname, ColumnsNamed;
    }
  }

  /** A key belongs to one table only. */
  lemma OneOwner(meta: Meta, a: string, b: string, key: string)
    requires WellNamed(meta) && a in meta.tables && b in meta.tables && a != "" && b != ""
    requires HasKey(a, meta.tables[a], key) && HasKey(b, meta.tables[b], key)
    ensures a == b
  {
    OwnerOfKey(meta, a, key);
    OwnerOfKey(meta, b, key);
  }

  predicate Owns(meta: Meta, stname: string, key: string) {
    stname in meta.tables && HasKey(stname, meta.tables[stname], key)
  }

  lemma UsedTableWritesOnce(meta: Meta, rejected: set<string>, stname: string, key: string, ref: string)
    requires WellNamed(meta) && stname != ""
    requires stname in meta.tables ==> NoRepeats(ColumnNames(meta.tables[stname]))
    ensures Times(TableForeignKeys(meta, rejected, stname), TheForeignKey(key, ref)) <=
            if Owns(meta, stname, key) then 1 else 0
  {
    if stname in meta.tables {
      assert NamedTable(stname, meta.tables[stname]);
      TableWritesOnce(meta.fks, rejected, stname, meta.tables[stname], key, ref);
      TimesLead(ForeignKeysOf(meta.fks, rejected, stname, meta.tables[stname]), TheForeignKey(key, ref));
      hide Times, ForeignKeysOf, HasKey, Lead;
    }
  }

  lemma {:induction false} PhaseWritesOnce(meta: Meta, rejected: set<string>, used: seq<string>, key: string,
                                           ref: string)
    requires WellNamed(meta) && "" !in used && DistinctColumns(meta, used) && NoRepeats(used)
    ensures Times(ForeignKeysLog(meta, rejected, used), TheForeignKey(key, ref)) <=
            if exists t :: t in used && Owns(meta, t, key) then 1 else 0
  {
    if used != [] {
      var init, last := used[..|used| - 1], used[|used| - 1];
      Unsnoc(used);
      assert last !in init && NoRepeats(init) && DistinctColumns(meta, init);
      hide Times, TableForeignKeys, WellNamed, DistinctColumns, NoRepeats;
      PhaseWritesOnce(meta, rejected, init, key, ref);
      UsedTableWritesOnce(meta, rejected, last, key, ref);
      TimesAppend(ForeignKeysLog(meta, rejected, init), TableForeignKeys(meta, rejected, last),
                  TheForeignKey(key, ref));
      if Owns(meta, last, key) {
        forall t | t in init ensures !Owns(meta, t, key) {
          if Owns(meta, t, key) {
            OneOwner(meta, t, last, key);
            assert false;
          }
        }
      }
    }
  }

  /**
   * Each foreign key that should be there is there exactly once, and no other: with distinct
   * columns per table and distinct used tables.
   */
  lemma ForeignKeysOnce(meta: Meta, rejected: set<string>, used: seq<string>, key: string, ref: string)
    requires WellNamed(meta) && "" !in used && DistinctColumns(meta, used) && NoRepeats(used)
    requires DistinctSources(meta.fks) && NamesBehave(meta.fks)
    ensures Times(RunLog(meta, rejected, used), TheForeignKey(key, ref)) ==
            if IsUsed(meta, used, key) && HasRow(meta.fks, key, ref) && key !in rejected && ref !in rejected then 1
            else 0
  {
    var stmt := AddForeignKey(key, ref);
    ForeignKeysEmitted(meta, rejected, used, key, ref);
    NotAmongTables(meta, rejected, used, stmt);
    PhaseWritesOnce(meta, rejected, used, key, ref);
    hide TablesLog, ForeignKeysLog, WellNamed, DistinctColumns, DistinctSources, NamesBehave, NoRepeats, IsUsed, HasRow;
    TimesAppend(TablesLog(meta, rejected, Sort(used), ""), ForeignKeysLog(meta, rejected, used),
                TheForeignKey(key, ref));
  }

  lemma NotAmongTables(meta: Meta, rejected: set<string>, used: seq<string>, stmt: Stmt)
    requires stmt.AddForeignKey?
    ensures stmt !in TablesLog(meta, rejected, Sort(used), "")
  {
    InTablesLog(meta, rejected, Sort(used), "", stmt);
    forall t ensures !FromTable(meta, rejected, t, stmt) {
      KindOfTable(meta, rejected, t, stmt);
    }
    hide FromTable, TablesLog;
  }
}
