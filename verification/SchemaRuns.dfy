/** CREATE SCHEMA once per schema: in sorted order a schema's tables are one contiguous run. */
module SchemaRuns {
  import opened Common
  import opened CreateTable
  import opened DdlRun
  import opened Names
  import opened RunOnce
  import opened RunSafety
  import opened SortedNames
  import opened UniqueConstraints

  lemma {:induction false} OnlyChecks(meta: Meta, rejected: set<string>, stname: string, columns: seq<Column>)
    ensures forall i :: 0 <= i < |ChecksOf(meta, rejected, stname, columns)| ==>
            ChecksOf(meta, rejected, stname, columns)[i].AddCheck?
  {
    var stmts := ChecksOf(meta, rejected, stname, columns);
    forall i | 0 <= i < |stmts| ensures stmts[i].AddCheck? {
      CheckIsOwn(meta, rejected, stname, columns, stmts[i]);
    }
  }

  lemma OnlyUniques(meta: Meta, rejected: set<string>, stname: string, columns: seq<Column>)
    ensures forall i :: 0 <= i < |UniquesOf(meta, rejected, stname, columns)| ==>
            UniquesOf(meta, rejected, stname, columns)[i].AddUnique?
  {
    var stmts := UniquesOf(meta, rejected, stname, columns);
    var pairs := UniquePairs(meta, rejected, stname, columns);
    var names := Sort(PairNames(pairs));
    forall i | 0 <= i < |stmts| ensures stmts[i].AddUnique? {
      StatementsByName(stname, pairs, names, i);
    }
  }

  lemma LeadCreatesNothing(stmts: seq<Stmt>, schema: string)
    requires forall i :: 0 <= i < |stmts| ==> !stmts[i].CreateSchema?
    ensures Times(Lead(stmts), TheSchema(schema)) == 0
  {
  }

  /** A table creates its schema when it differs from the last one. */
  predicate Opens(stname: string, lastSchema: string) {
    lastSchema == "" || SchemaName(stname) != lastSchema
  }

  lemma SchemaCreations(stname: string, lastSchema: string, schema: string)
    ensures Times(SchemaStmts(stname, lastSchema), TheSchema(schema)) ==
            if Opens(stname, lastSchema) && SchemaName(stname) == schema then 1 else 0
  {
    var create := CreateSchema(SchemaName(stname));
    assert Times([], TheSchema(schema)) == 0;
    TimesOne(create, TheSchema(schema));
    TimesOne(Blank, TheSchema(schema));
    assert SchemaStmts(stname, lastSchema) ==
           if Opens(stname, lastSchema) then (if lastSchema != "" then [Blank] else []) + [create] else [];
    hide Times, SchemaName, Opens;
    TimesAppend([Blank], [create], TheSchema(schema));
    AppendEmpty([create]);
  }

  lemma TableCreations(meta: Meta, rejected: set<string>, stname: string, lastSchema: string, schema: string)
    requires stname in meta.tables
    ensures Times(TableStmts(meta, rejected, stname, lastSchema), TheSchema(schema)) ==
            if Opens(stname, lastSchema) && SchemaName(stname) == schema then 1 else 0
  {
    var columns := meta.tables[stname];
    var start, table := SchemaStmts(stname, lastSchema), [TableStmt(meta, stname)];
    var cks, uqs := ChecksOf(meta, rejected, stname, columns), UniquesOf(meta, rejected, stname, columns);
    assert TableStmts(meta, rejected, stname, lastSchema) == start + table + Lead(cks) + Lead(uqs);
    assert !Creates(TableStmt(meta, stname), TheSchema(schema));
    OnlyChecks(meta, rejected, stname, columns);
    OnlyUniques(meta, rejected, stname, columns);
    LeadCreatesNothing(cks, schema);
    LeadCreatesNothing(uqs, schema);
    hide *;
    SchemaCreations(stname, lastSchema, schema);
    TimesOne(TableStmt(meta, stname), TheSchema(schema));
    TimesAppend(start, table, TheSchema(schema));
    TimesAppend(start + table, Lead(cks), TheSchema(schema));
    TimesAppend(start + table + Lead(cks), Lead(uqs), TheSchema(schema));
  }

  /** Some of the tables is defined and belongs to the schema. */
  predicate HasSchema(meta: Meta, stnames: seq<string>, schema: string) {
    exists t :: t in stnames && InSchema(meta, t, schema)
  }

  predicate InSchema(meta: Meta, stname: string, schema: string) {
    stname in meta.tables && SchemaName(stname) == schema
  }

  /** The last schema is that of a table before the remaining ones. */
  ghost predicate Follows(lastSchema: string, stnames: seq<string>) {
    lastSchema == "" || exists t :: IsStname(t) && SchemaName(t) == lastSchema && Below(t, stnames)
  }

  predicate AllNamed(meta: Meta, stnames: seq<string>) {
    forall t :: t in stnames && t in meta.tables ==> IsStname(t)
  }

  lemma FollowsTail(lastSchema: string, stnames: seq<string>)
    requires stnames != [] && Follows(lastSchema, stnames)
    ensures Follows(lastSchema, stnames[1..])
  {
    if lastSchema != "" {
      var t :| IsStname(t) && SchemaName(t) == lastSchema && Below(t, stnames);
      BelowSplit(stnames);
      assert Below(t, stnames[1..]);
    }
  }

  /** Once another schema has begun, the last one does not come back. */
  lemma SchemaIsOver(meta: Meta, stnames: seq<string>, lastSchema: string)
    requires stnames != [] && Sorted(stnames) && Follows(lastSchema, stnames) && AllNamed(meta, stnames)
    requires stnames[0] in meta.tables && lastSchema != "" && SchemaName(stnames[0]) != lastSchema
    ensures !HasSchema(meta, stnames[1..], lastSchema)
  {
    var before :| IsStname(before) && SchemaName(before) == lastSchema && Below(before, stnames);
    SortedSplit(stnames);
    BelowSplit(stnames);
    var rest := stnames[1..];
    if HasSchema(meta, rest, lastSchema) {
      var t :| t in rest && InSchema(meta, t, lastSchema);
      Uncons(stnames);
      assert t in stnames && stnames[0] in stnames;
      var i :| 0 <= i < |rest| && rest[i] == t;
      assert Leq(stnames[0], rest[i]);
      SchemaIsContiguous(before, stnames[0], t);
      assert false;
    }
  }

  lemma NamedSchema(stname: string)
    requires IsStname(stname)
    ensures SchemaName(stname) != ""
  {
    hide FirstDot;
    assert stname[0] != '.' && FirstDot(stname) < |stname|;
  }

  /** Over the remaining sorted tables a schema is created once if one of them is its first, and otherwise not. */
  lemma {:induction false} CreatedOnce(meta: Meta, rejected: set<string>, stnames: seq<string>,
                                       lastSchema: string, schema: string)
    requires Sorted(stnames) && Follows(lastSchema, stnames) && AllNamed(meta, stnames)
    ensures Times(TablesLog(meta, rejected, stnames, lastSchema), TheSchema(schema)) ==
            if (lastSchema == "" || schema != lastSchema) && HasSchema(meta, stnames, schema) then 1 else 0
    decreases |stnames|
  {
    if stnames != [] {
      var t, rest := stnames[0], stnames[1..];
      SortedSplit(stnames);
      FollowsTail(lastSchema, stnames);
      Uncons(stnames);
      assert AllNamed(meta, rest) && (t in meta.tables ==> IsStname(t));
      HasSchemaSplit(meta, t, rest, schema);
      hide Times, TableStmts, HasSchema, Follows, Sorted, IsStname, AllNamed, SchemaName;
      if t in meta.tables {
        NamedSchema(t);
        FollowsHere(t, rest);
        if lastSchema != "" && SchemaName(t) != lastSchema {
          SchemaIsOver(meta, stnames, lastSchema);
        }
        CreatedOnce(meta, rejected, rest, SchemaName(t), schema);
        TableCreations(meta, rejected, t, lastSchema, schema);
        TimesAppend(TableStmts(meta, rejected, t, lastSchema), TablesLog(meta, rejected, rest, SchemaName(t)),
                    TheSchema(schema));
      } else {
        CreatedOnce(meta, rejected, rest, lastSchema, schema);
      }
    }
  }

  lemma FollowsHere(stname: string, rest: seq<string>)
    requires IsStname(stname) && Below(stname, rest)
    ensures Follows(SchemaName(stname), rest)
  {
  }

  lemma HasSchemaSplit(meta: Meta, stname: string, rest: seq<string>, schema: string)
    ensures HasSchema(meta, [stname] + rest, schema) <==>
            InSchema(meta, stname, schema) || HasSchema(meta, rest, schema)
  {
    hide InSchema;
    assert forall t :: t in [stname] + rest <==> t == stname || t in rest;
  }

  // ---------------------------------------------------------- before its tables

  /** Every CREATE TABLE stands behind a CREATE SCHEMA of its schema, or belongs to the schema already begun. */
  predicate SchemasFirst(log: seq<Stmt>, begun: string) {
    forall j :: 0 <= j < |log| && log[j].CreateTableStmt? ==>
      (begun != "" && SchemaName(log[j].stname) == begun) || CreatedBefore(log, j, SchemaName(log[j].stname))
  }

  predicate CreatedBefore(log: seq<Stmt>, j: nat, schema: string)
    requires j <= |log|
  {
    exists i :: 0 <= i < j && log[i] == CreateSchema(schema)
  }

  lemma FirstAppend(a: seq<Stmt>, b: seq<Stmt>, begun: string, next: string)
    requires SchemasFirst(a, begun) && SchemasFirst(b, next)
    requires next == begun || CreatedBefore(a, |a|, next)
    ensures SchemasFirst(a + b, begun)
  {
    var log := a + b;
    forall j | 0 <= j < |log| && log[j].CreateTableStmt?
      ensures (begun != "" && SchemaName(log[j].stname) == begun) || CreatedBefore(log, j, SchemaName(log[j].stname))
    {
      var schema := SchemaName(log[j].stname);
      if j < |a| {
        assert log[j] == a[j];
        if CreatedBefore(a, j, schema) {
          var i :| 0 <= i < j && a[i] == CreateSchema(schema);
          assert log[i] == CreateSchema(schema);
        }
      } else {
        assert log[j] == b[j - |a|];
        if CreatedBefore(b, j - |a|, schema) {
          var i :| 0 <= i < j - |a| && b[i] == CreateSchema(schema);
          assert log[|a| + i] == CreateSchema(schema);
        } else if CreatedBefore(a, |a|, schema) {
          var i :| 0 <= i < |a| && a[i] == CreateSchema(schema);
          assert log[i] == CreateSchema(schema);
        }
      }
    }
  }

  lemma NoTables(log: seq<Stmt>, begun: string)
    requires forall i :: 0 <= i < |log| ==> !log[i].CreateTableStmt?
    ensures SchemasFirst(log, begun)
  {
  }

  /** A table's statements: its schema first, if it is a new one. */
  lemma TableAfterSchema(meta: Meta, rejected: set<string>, stname: string, lastSchema: string)
    requires stname in meta.tables
    ensures var log := TableStmts(meta, rejected, stname, lastSchema);
            SchemasFirst(log, lastSchema) &&
            (SchemaName(stname) == lastSchema || CreatedBefore(log, |log|, SchemaName(stname)))
  {
    var columns := meta.tables[stname];
    var start, table := SchemaStmts(stname, lastSchema), TableStmt(meta, stname);
    var cks, uqs := Lead(ChecksOf(meta, rejected, stname, columns)), Lead(UniquesOf(meta, rejected, stname, columns));
    assert TableStmts(meta, rejected, stname, lastSchema) == start + [table] + cks + uqs;
    OnlyChecks(meta, rejected, stname, columns);
    OnlyUniques(meta, rejected, stname, columns);
    NoTables(cks, lastSchema);
    NoTables(uqs, lastSchema);
    assert table.CreateTableStmt? && table.stname == stname;
    SchemaThenTable(stname, lastSchema, table);
    hide TableStmts, SchemaStmts, TableStmt, ChecksOf, UniquesOf, Lead, SchemasFirst, CreatedBefore, SchemaName;
    FirstAppend(start + [table], cks, lastSchema, lastSchema);
    FirstAppend(start + [table] + cks, uqs, lastSchema, lastSchema);
    if SchemaName(stname) != lastSchema {
      StaysCreated(start + [table], cks, SchemaName(stname));
      StaysCreated(start + [table] + cks, uqs, SchemaName(stname));
    }
  }

  lemma SchemaThenTable(stname: string, lastSchema: string, table: Stmt)
    requires table.CreateTableStmt? && table.stname == stname
    ensures var log := SchemaStmts(stname, lastSchema) + [table];
            SchemasFirst(log, lastSchema) &&
            (SchemaName(stname) == lastSchema || CreatedBefore(log, |log|, SchemaName(stname)))
  {
    hide SchemaName;
    var start := SchemaStmts(stname, lastSchema);
    var log := start + [table];
    assert start != [] ==> log[|start| - 1] == CreateSchema(SchemaName(stname));
    assert forall i :: 0 <= i < |start| ==> !log[i].CreateTableStmt?;
  }

  lemma StaysCreated(a: seq<Stmt>, b: seq<Stmt>, schema: string)
    requires CreatedBefore(a, |a|, schema)
    ensures CreatedBefore(a + b, |a + b|, schema)
  {
    var i :| 0 <= i < |a| && a[i] == CreateSchema(schema);
    assert (a + b)[i] == a[i];
  }

  lemma {:induction false} TablesAfterSchemas(meta: Meta, rejected: set<string>, stnames: seq<string>,
                                              lastSchema: string)
    ensures SchemasFirst(TablesLog(meta, rejected, stnames, lastSchema), lastSchema)
    decreases |stnames|
  {
    hide TableStmts, SchemasFirst, CreatedBefore, SchemaName;
    if stnames == [] {
      NoTables([], lastSchema);
    } else if stnames[0] in meta.tables {
      TableAfterSchema(meta, rejected, stnames[0], lastSchema);
      TablesAfterSchemas(meta, rejected, stnames[1..], SchemaName(stnames[0]));
      FirstAppend(TableStmts(meta, rejected, stnames[0], lastSchema),
                  TablesLog(meta, rejected, stnames[1..], SchemaName(stnames[0])),
                  lastSchema, SchemaName(stnames[0]));
    } else {
      TablesAfterSchemas(meta, rejected, stnames[1..], lastSchema);
    }
  }

  lemma OnlyForeignKeys(meta: Meta, rejected: set<string>, used: seq<string>, stmt: Stmt)
    requires stmt in ForeignKeysLog(meta, rejected, used)
    ensures stmt.Blank? || stmt.AddForeignKey?
    decreases |used|
  {
    var init, last := used[..|used| - 1], used[|used| - 1];
    hide FromForeignKeys, ForeignKeysOf;
    if stmt in ForeignKeysLog(meta, rejected, init) {
      OnlyForeignKeys(meta, rejected, init, stmt);
    } else if !stmt.Blank? {
      KeyInLead(meta, rejected, last, stmt);
    }
  }

  lemma KeyInLead(meta: Meta, rejected: set<string>, stname: string, stmt: Stmt)
    requires stmt in TableForeignKeys(meta, rejected, stname) && !stmt.Blank?
    ensures stmt.AddForeignKey?
  {
    assert FromForeignKeys(meta, rejected, stname, stmt);
    KindOfForeignKey(meta, rejected, stname, stmt);
  }

  /**
   * Each schema of a used table with metadata is created exactly once, other schemas never,
   * and every CREATE TABLE stands behind the CREATE SCHEMA of its schema.
   */
  lemma SchemasAreCreatedOnceAndFirst(meta: Meta, rejected: set<string>, used: seq<string>, schema: string)
    requires WellNamed(meta) && "" !in used
    ensures Times(RunLog(meta, rejected, used), TheSchema(schema)) == if HasSchema(meta, used, schema) then 1 else 0
    ensures SchemasFirst(RunLog(meta, rejected, used), "")
  {
    var tables, keys := TablesLog(meta, rejected, Sort(used), ""), ForeignKeysLog(meta, rejected, used);
    SortIsSort(used);
    SameMembers(Sort(used), used);
    assert HasSchema(meta, Sort(used), schema) <==> HasSchema(meta, used, schema);
    forall i | 0 <= i < |keys| ensures !keys[i].CreateSchema? && !keys[i].CreateTableStmt? {
      OnlyForeignKeys(meta, rejected, used, keys[i]);
    }
    hide TablesLog, ForeignKeysLog, Sort, HasSchema, Times, SchemasFirst, CreatedBefore, IsStname, ColumnsNamed;
    assert Follows("", Sort(used));
    CreatedOnce(meta, rejected, Sort(used), "", schema);
    TablesAfterSchemas(meta, rejected, Sort(used), "");
    NoTables(keys, "");
    TimesAppend(tables, keys, TheSchema(schema));
    FirstAppend(tables, keys, "", "");
  }
}
