/**
 * The hide-then-emit run: tables are migrated in sorted order, their rejected columns are
 * hidden in the shared metadata, constraints are written from what is left visible, and the
 * foreign keys come after all tables.
 */
module StnamesMigrator {
  import opened Common
  import opened ConstraintEmission
  import opened CreateTable
  import opened DdlRun
  import opened FkMapper
  import opened HidableRecords
  import opened Names
  import opened Ochain
  import opened RunProgress
  import opened SortedNames

  datatype TableInfo = TableInfo(columns: seq<Column>, pk: seq<string>)

  method SchemaText(schema: string) returns (text: string)
    ensures text == RenderStmt(CreateSchema(schema))
  {
    text := "CREATE SCHEMA " + schema + ";\n";
  }

  class Migrator {
    var tables: map<string, seq<Hidable<Column>>>
    const pk: set<string>
    var checks: map<string, seq<Hidable<CheckRec>>>
    var uniques: map<string, seq<Hidable<string>>>
    const fks: FkIndex
    /** What was loaded. */
    ghost const meta: Meta

    ghost predicate Valid()
      reads this, fks, fks.Recs()
    {
      WellNamed(meta) && pk == meta.pk && fks.rows == meta.fks && fks.Valid() &&
      TablesMatch(tables, meta.tables, fks.rejected) &&
      MarkedBy(checks, meta.checks, fks.rejected) &&
      MarkedBy(uniques, meta.uniques, fks.rejected) &&
      OnlyRejected(meta, fks.rejected)
    }

    constructor (tables: map<string, seq<Column>>, pk: set<string>, checks: map<string, seq<CheckRec>>,
                 uniques: map<string, seq<string>>, fks: FkIndex)
      requires WellNamed(Meta(tables, pk, checks, uniques, fks.rows))
      requires fks.Valid() && fks.rejected == {}
      ensures Valid() && this.fks == fks && meta == Meta(tables, pk, checks, uniques, fks.rows)
    {
      this.tables := map t | t in tables :: Mark(tables[t], false);
      this.pk := pk;
      this.checks := map key | key in checks :: Mark(checks[key], false);
      this.uniques := map key | key in uniques :: Mark(uniques[key], false);
      this.fks := fks;
      meta := Meta(tables, pk, checks, uniques, fks.rows);
    }

    // ------------------------------------------------------------------ hiding

    /** The search for the column's own record, which the source asserts to succeed. */
    method HideTableColumn(stcname: string, ghost stname: string, ghost pos: nat)
      requires WellNamed(meta) && TablesMatch(tables, meta.tables, fks.rejected)
      requires stname in meta.tables && stname != "" && pos < |meta.tables[stname]| &&
               stcname == StcnameOf(stname, meta.tables[stname][pos].cname)
      modifies this`tables
      ensures TablesMatch(tables, meta.tables, fks.rejected + {stcname})
    {
      hide *;
      ghost var columns := meta.tables[stname];
      OwnColumn(meta, stname, pos);
      KeyIsOwn(meta, stname, pos);
      OwnTable(tables, meta.tables, fks.rejected, stname);
      ColumnsAt(tables[stname], stname, columns, fks.rejected);
      SameLength(tables[stname], columns);
      SameColumn(tables[stname], columns, pos);
      var recs, i := HideFirst(tables[StnameOf(stcname)], CnameOf(stcname), pos);
      FirstFound(tables[stname], columns, i);
      OwnKeys(meta.tables, stcname, stname, columns[pos].cname);
      HiddenMore(tables[stname], stname, columns, fks.rejected, stcname, i);
      TablesMore(tables, meta.tables, fks.rejected, stcname, stname, columns[pos].cname, recs);
      tables := tables[StnameOf(stcname) := recs];
    }

    method HideChecks(stcname: string)
      requires MarkedBy(checks, meta.checks, fks.rejected)
      modifies this`checks
      ensures MarkedBy(checks, meta.checks, fks.rejected + {stcname})
    {
      MarkMore(checks, meta.checks, fks.rejected, stcname);
      if stcname in checks {
        var recs := HideAll(checks[stcname], meta.checks[stcname], stcname in fks.rejected);
        checks := checks[stcname := recs];
      }
    }

    method HideUniques(stcname: string, ghost rejected: set<string>)
      requires MarkedBy(uniques, meta.uniques, rejected)
      modifies this`uniques
      ensures MarkedBy(uniques, meta.uniques, rejected + {stcname})
    {
      MarkMore(uniques, meta.uniques, rejected, stcname);
      if stcname in uniques {
        var recs := HideAll(uniques[stcname], meta.uniques[stcname], stcname in rejected);
        uniques := uniques[stcname := recs];
      }
    }

    /** `hide_rejected_column` */
    method HideRejectedColumn(stcname: string, ghost stname: string, ghost pos: nat)
      requires Valid()
      requires stname in meta.tables && stname != ""
      requires pos < |meta.tables[stname]| && meta.tables[stname][pos].outcome.Rejected?
      requires stcname == StcnameOf(stname, meta.tables[stname][pos].cname)
      modifies this, fks`rejected, fks.Recs()
      ensures Valid() && fks.rejected == old(fks.rejected) + {stcname}
    {
      hide WellNamed, TablesMatch, MarkedBy, OnlyRejected, FkIndex.Valid, StcnameOf, Valid, RejectedKeys, IsRejected;
      Parts();
      RejectOneMore(meta, fks.rejected, stcname, stname, pos);
      HideTableColumn(stcname, stname, pos);
      HideChecks(stcname);
      fks.HideColumn(stcname);
      label Hidden:
      HideUniques(stcname, old(fks.rejected));
      fks.StaysValid@Hidden();
      Whole();
    }

    /** One rejected column: reported if it is not used, and hidden. */
    method HideNamedColumn(usage: Usage, stname: string, cname: string, ghost pos: nat) returns (msgs: seq<Msg>)
      requires Valid()
      requires stname in meta.tables && stname != ""
      requires pos < |meta.tables[stname]| && meta.tables[stname][pos].outcome.Rejected?
      requires cname == meta.tables[stname][pos].cname
      modifies this, fks`rejected, fks.Recs()
      ensures Valid() && fks.rejected == old(fks.rejected) + {StcnameOf(stname, cname)}
      ensures msgs == if usage.UsesColumn(StcnameOf(stname, cname)) then []
                      else [Msg(0, stname, cname, COLUMN_REJECTED)]
    {
      hide Valid, FkIndex.Valid, StcnameOf, Usage.UsesColumn;
      var stcname := StcnameOf(stname, cname);
      msgs := [];
      if !usage.UsesColumn(stcname) {
        msgs := msgs + [Msg(0, stname, cname, COLUMN_REJECTED)];
      }
      HideRejectedColumn(stcname, stname, pos);
    }

    /** Hides the rejected columns of a table, one by one, and reports those that are not used. */
    method HideRejectedColumns(usage: Usage, stname: string, rejectedCnames: seq<string>) returns (msgs: seq<Msg>)
      requires Valid()
      requires stname in meta.tables && stname != "" && rejectedCnames == RejectedNames(meta.tables[stname])
      modifies this, fks`rejected, fks.Recs()
      ensures Valid() && fks.rejected == old(fks.rejected) + RejectedKeys(stname, meta.tables[stname])
      ensures msgs == RejectionMsgs(usage, stname, rejectedCnames)
    {
      ghost var columns, before := meta.tables[stname], fks.rejected;
      NoneRejected(stname, before, rejectedCnames);
      NoRejections(usage, stname, rejectedCnames);
      hide WellNamed, TablesMatch, MarkedBy, OnlyRejected, FkIndex.Valid, StcnameOf, Valid, RejectedKeys, IsRejected,
        RejectedNames, KeysOf, RejectionMsgs, Usage.UsesColumn;
      msgs := [];
      for i := 0 to |rejectedCnames|
        invariant Valid() && fks.rejected == before + KeysOf(stname, rejectedCnames[..i])
        invariant msgs == RejectionMsgs(usage, stname, rejectedCnames[..i])
      {
        MoreRejections(usage, stname, rejectedCnames, i);
        ghost var pos := NamedColumn(columns, i);
        var more := HideNamedColumn(usage, stname, rejectedCnames[i], pos);
        msgs := msgs + more;
        KeysSnoc(before, stname, rejectedCnames, i);
      }
      KeysOfRejected(stname, columns);
      TakeAll(rejectedCnames);
    }

    // --------------------------------------------------------------- emission

    method MigrateChecks(stname: string, coc: CounterOchain)
      requires Valid() && coc.Valid() && stname in meta.tables
      modifies coc
      ensures Valid() && coc.Valid()
      ensures coc.sink == old(coc.sink) + RenderLog(Lead(ChecksOf(meta, fks.rejected, stname, meta.tables[stname])))
    {
      hide *;
      Parts();
      OwnTable(tables, meta.tables, fks.rejected, stname);
      EmitChecks(stname, tables[stname], checks, coc, meta, fks.rejected, meta.tables[stname]);
      StaysValid();
    }

    method MigrateUniques(stname: string, coc: CounterOchain)
      requires Valid() && coc.Valid() && stname in meta.tables
      modifies coc
      ensures Valid() && coc.Valid()
      ensures coc.sink == old(coc.sink) + RenderLog(Lead(UniquesOf(meta, fks.rejected, stname, meta.tables[stname])))
    {
      hide *;
      Parts();
      OwnTable(tables, meta.tables, fks.rejected, stname);
      EmitUniques(stname, tables[stname], uniques, coc, meta, fks.rejected, meta.tables[stname]);
      StaysValid();
    }

    method MigrateTableForeignKeys(usage: Usage, stname: string, validateOnly: bool, coc: CounterOchain)
      returns (targets: set<string>)
      requires Valid() && coc.Valid()
      modifies coc
      ensures Valid() && coc.Valid()
      ensures coc.sink == old(coc.sink) + RenderLog(Unless(validateOnly, TableForeignKeys(meta, fks.rejected, stname)))
      ensures targets == TableTargets(meta, fks.rejected, usage, stname)
    {
      hide *;
      Parts();
      OwnTable(tables, meta.tables, fks.rejected, stname);
      ForeignKeysAre(meta, fks.rejected, stname);
      TargetsAre(meta, fks.rejected, usage, stname);
      UnlessAppend(validateOnly, [], []);
      EmptyLog(coc.sink);
      targets := {};
      if stname in tables {
        ColumnsAt(tables[stname], stname, meta.tables[stname], fks.rejected);
        targets := EmitForeignKeys(fks, stname, tables[stname], usage.KnownCols(stname), validateOnly, coc,
                                   meta.tables[stname]);
      }
      StaysValid();
    }

    /** A warning for each table referred to that is not used, in the order the set is iterated. */
    method WarnOfTargets(usage: Usage, targets: set<string>) returns (msgs: seq<Msg>, missing: seq<string>)
      ensures msgs == TargetMsgs(missing) && EachOnce(missing, targets - usage.cols.Keys)
    {
      msgs, missing := [], [];
      var left := targets;
      while left != {}
        invariant left <= targets && NoRepeats(missing) && msgs == TargetMsgs(missing)
        invariant forall t :: t in missing <==> t in targets && t !in left && t !in usage.cols
        decreases |left|
      {
        var t :| t in left;
        left := left - {t};
        if t !in usage.cols {
          msgs, missing := msgs + [TargetMsg(t)], missing + [t];
        }
      }
    }

    /** The foreign-key phase, over the used tables in the order of their container. */
    method MigrateForeignKeys(usage: Usage, validateOnly: bool, coc: CounterOchain)
      returns (msgs: seq<Msg>, ghost missing: seq<string>)
      requires Valid() && coc.Valid()
      modifies coc
      ensures Valid() && coc.Valid()
      ensures coc.sink == old(coc.sink) +
                          RenderLog(Unless(validateOnly, ForeignKeysLog(meta, fks.rejected, usage.stnames)))
      ensures msgs == TargetMsgs(missing) && EachOnce(missing, MissingTargets(meta, fks.rejected, usage))
    {
      ghost var before, rejected, used := coc.sink, fks.rejected, usage.stnames;
      NoForeignKeys(meta, rejected, usage);
      UnlessAppend(validateOnly, [], []);
      EmptyLog(before);
      MissingAre(meta, rejected, usage);
      hide *;
      var targets: set<string> := {};
      for i := 0 to |usage.stnames|
        invariant Valid() && coc.Valid()
        invariant coc.sink == before + RenderLog(Unless(validateOnly, ForeignKeysLog(meta, rejected, used[..i])))
        invariant targets == RunTargets(meta, rejected, usage, used[..i])
      {
        var more := MigrateTableForeignKeys(usage, usage.stnames[i], validateOnly, coc);
        targets := targets + more;
        MoreForeignKeys(meta, rejected, used, i);
        MoreTargets(meta, rejected, usage, i);
        UnlessAppend(validateOnly, ForeignKeysLog(meta, rejected, used[..i]),
                     TableForeignKeys(meta, rejected, used[i]));
        LogAppend(before, Unless(validateOnly, ForeignKeysLog(meta, rejected, used[..i])),
                  Unless(validateOnly, TableForeignKeys(meta, rejected, used[i])));
      }
      TakeAll(used);
      label Written:
      msgs, missing := WarnOfTargets(usage, targets);
      StaysValid@Written();
    }

    /** The foreign-key phase, unless none of the used tables is defined. */
    method FinishRun(usage: Usage, validateOnly: bool, defined: nat, coc: CounterOchain)
      returns (msgs: seq<Msg>, ghost missing: seq<string>)
      requires Valid() && coc.Valid()
      requires defined == 0 ==> forall t :: t in usage.stnames ==> t !in meta.tables
      modifies coc
      ensures Valid() && coc.Valid()
      ensures coc.sink == old(coc.sink) +
                          RenderLog(Unless(validateOnly, ForeignKeysLog(meta, fks.rejected, usage.stnames)))
      ensures msgs == TargetMsgs(missing) && EachOnce(missing, MissingTargets(meta, fks.rejected, usage))
    {
      hide *;
      if defined != 0 {
        msgs, missing := MigrateForeignKeys(usage, validateOnly, coc);
      } else {
        NothingDefined(meta, fks.rejected, usage.stnames);
        NothingMissing(meta, fks.rejected, usage);
        UnlessAppend(validateOnly, [], []);
        EmptyLog(coc.sink);
        msgs, missing := [], [];
      }
    }

    /** `find_table_info` */
    method FindTableInfo(stname: string) returns (info: Option<TableInfo>)
      requires Valid()
      ensures Valid()
      ensures info ==
              if stname in meta.tables then
                Some(TableInfo(meta.tables[stname], PkOf(meta.pk, stname, meta.tables[stname])))
              else None
    {
      ghost var rejected := fks.rejected;
      Parts();
      OwnTable(tables, meta.tables, rejected, stname);
      hide *;
      if stname !in tables {
        return None;
      }
      ghost var loaded := meta.tables[stname];
      NoColumns(meta, rejected, stname, loaded);
      TakeNone(loaded);
      var recs, columns, pkCnames := tables[stname], [], [];
      ColumnAt(recs, stname, loaded, rejected, 0);
      for i := 0 to |recs|
        invariant columns == loaded[..i] && pkCnames == PkOf(pk, stname, loaded[..i])
      {
        ColumnAt(recs, stname, loaded, rejected, i);
        TakeSnoc(loaded, i);
        PkSnoc(pk, stname, loaded, i);
        AppendEmpty(pkCnames);
        columns := columns + [recs[i].rec];
        if StcnameOf(stname, recs[i].rec.cname) in pk {
          pkCnames := pkCnames + [recs[i].rec.cname];
        }
      }
      TakeAll(loaded);
      info := Some(TableInfo(columns, pkCnames));
    }

    /** A CREATE SCHEMA statement when the schema changes. */
    method WriteSchema(stname: string, lastSchema: string, coc: CounterOchain)
      requires coc.Valid()
      modifies coc
      ensures coc.Valid() && coc.sink == old(coc.sink) + RenderLog(SchemaStmts(stname, lastSchema))
    {
      ghost var before, schema := coc.sink, SchemaName(stname);
      SchemaRendered(before, stname, lastSchema);
      hide *;
      if lastSchema == "" || SchemaName(stname) != lastSchema {
        if lastSchema != "" {
          coc.Write("\n");
        }
        var text := SchemaText(SchemaName(stname));
        coc.Write(text);
      }
    }

    /** `migrate_ddl_stname` */
    method MigrateStname(usage: Usage, stname: string, lastSchema: string, info: TableInfo, coc: CounterOchain)
      returns (msgs: seq<Msg>)
      requires Valid() && coc.Valid() && stname in meta.tables && stname != ""
      requires info == TableInfo(meta.tables[stname], PkOf(meta.pk, stname, meta.tables[stname]))
      modifies this, fks`rejected, fks.Recs(), coc
      ensures Valid() && coc.Valid()
      ensures fks.rejected == old(fks.rejected) + RejectedKeys(stname, meta.tables[stname])
      ensures coc.sink == old(coc.sink) + RenderLog(TableStmts(meta, fks.rejected, stname, lastSchema))
      ensures msgs == TableMsgs(meta, usage, stname, lastSchema, old(coc.lines))
    {
      hide Valid, FkIndex.Valid, CounterOchain.Valid, WellNamed, TableStmts, SchemaStmts, RenderLog, Messages,
        CountNewlines, PkOf,
        ChecksOf, UniquesOf, Lead, TableOutput, RejectedKeys, RejectedNames, RejectionMsgs, RemainingPk;
      ghost var before, schemaText := coc.sink, RenderLog(SchemaStmts(stname, lastSchema));
      LinesSoFar(coc);
      WriteSchema(stname, lastSchema, coc);
      LinesAfter(before, schemaText, coc);
      var m := MigrateCreateTable(stname, info.columns, info.pk, coc);
      var rejections := HideRejectedColumns(usage, stname, m.rejected);
      msgs := m.msgs + rejections;
      MigrateChecks(stname, coc);
      MigrateUniques(stname, coc);
      TableWritten(before, meta, fks.rejected, stname, lastSchema);
    }

    /** One used table that is defined: its statements are those of the whole run's final set of rejected columns. */
    method MigrateDefined(usage: Usage, stnames: seq<string>, i: nat, lastSchema: string, info: TableInfo,
                          coc: CounterOchain,
                          msgsSoFar: seq<Msg>,
                          ghost start: set<string>) returns (msgs: seq<Msg>)
      requires Valid() && coc.Valid() && i < |stnames| && stnames[i] in meta.tables && stnames[i] != ""
      requires info == TableInfo(meta.tables[stnames[i]], PkOf(meta.pk, stnames[i], meta.tables[stnames[i]]))
      requires fks.rejected == start + RejectedBy(meta.tables, stnames[..i])
      requires Progress(meta, usage, start + RejectedBy(meta.tables, stnames), stnames, i, coc.sink, coc.lines,
                        lastSchema, msgsSoFar)
      modifies this, fks`rejected, fks.Recs(), coc
      ensures Valid() && coc.Valid()
      ensures fks.rejected == start + RejectedBy(meta.tables, stnames[..i + 1])
      ensures Progress(meta, usage, start + RejectedBy(meta.tables, stnames), stnames, i + 1, coc.sink, coc.lines,
                       SchemaName(stnames[i]), msgs)
    {
      hide Valid, FkIndex.Valid, CounterOchain.Valid, WellNamed, TableStmts, SchemaStmts, RenderLog, TableMsgs,
        CountNewlines, PkOf,
        RejectedKeys, RejectedBy, Progress, Agree;
      ghost var before, lines, final := coc.sink, coc.lines, start + RejectedBy(meta.tables, stnames);
      WellNamedHere();
      LinesSoFar(coc);
      var added := MigrateStname(usage, stnames[i], lastSchema, info, coc);
      msgs := msgsSoFar + added;
      LinesAfter(before, RenderLog(TableStmts(meta, fks.rejected, stnames[i], lastSchema)), coc);
      RejectedByMore(meta.tables, stnames, i);
      assert fks.rejected == start + RejectedBy(meta.tables, stnames[..i + 1]);
      FinalIsKnown(meta, start, stnames, i, lastSchema);
      ProgressTable(meta, usage, final, stnames, i, before, lines, lastSchema, msgsSoFar, coc.sink, coc.lines, msgs);
    }

    lemma WellNamedHere()
      requires Valid()
      ensures WellNamed(meta)
    {
    }

    /** One round of the loop over the sorted tables. */
    method MigrateNext(usage: Usage, stnames: seq<string>, i: nat, migrate: bool, lastSchema: string,
                       coc: CounterOchain,
                       msgsSoFar: seq<Msg>, ghost start: set<string>)
      returns (msgs: seq<Msg>, schema: string, defined: bool)
      requires Valid() && coc.Valid() && i < |stnames| && stnames[i] != ""
      requires SoFar(usage, stnames, i, migrate, lastSchema, coc, msgsSoFar, start)
      modifies this, fks`rejected, fks.Recs(), coc
      ensures Valid() && coc.Valid()
      ensures SoFar(usage, stnames, i + 1, migrate, schema, coc, msgs, start)
      ensures defined <==> stnames[i] in meta.tables
    {
      hide Valid, FkIndex.Valid, CounterOchain.Valid, RejectedBy, Progress, UndefinedMsgs, RenderLog, TablesLog,
        RunMsgs, PkOf, SchemaName;
      msgs, schema := msgsSoFar, lastSchema;
      var info := FindTableInfo(stnames[i]);
      defined := info.Some?;
      UndefinedMore(meta, stnames, i);
      RejectedByMore(meta.tables, stnames, i);
      if info.Some? {
        if migrate {
          msgs := MigrateDefined(usage, stnames, i, lastSchema, info.value, coc, msgs, start);
          schema := SchemaName(stnames[i]);
        }
      } else {
        if migrate {
          ProgressUndefined(meta, usage, start + RejectedBy(meta.tables, stnames), stnames, i, coc.sink, coc.lines,
                            lastSchema, msgs);
        }
        msgs := msgs + [Msg(0, stnames[i], "", TABLE_UNDEFINED)];
      }
    }

    ghost predicate SoFar(usage: Usage, stnames: seq<string>, i: nat, migrate: bool, lastSchema: string,
                          coc: CounterOchain,
                          msgs: seq<Msg>, start: set<string>)
      requires i <= |stnames|
      reads fks, coc
    {
      if migrate then
        fks.rejected == start + RejectedBy(meta.tables, stnames[..i]) &&
        Progress(meta, usage, start + RejectedBy(meta.tables, stnames), stnames, i, coc.sink, coc.lines, lastSchema,
                 msgs)
      else
        coc.sink == "" && fks.rejected == start && msgs == UndefinedMsgs(meta, stnames[..i])
    }

    /** The loop over the sorted tables. */
    method MigrateTables(usage: Usage, stnames: seq<string>, migrate: bool, coc: CounterOchain)
      returns (msgs: seq<Msg>, defined: nat)
      requires Valid() && coc.Valid() && coc.sink == "" && coc.lines == 0 && "" !in stnames
      modifies this, fks`rejected, fks.Recs(), coc
      ensures Valid() && coc.Valid()
      ensures !migrate ==> coc.sink == "" && fks.rejected == old(fks.rejected) && msgs == UndefinedMsgs(meta, stnames)
      ensures migrate ==> fks.rejected == old(fks.rejected) + RejectedBy(meta.tables, stnames)
      ensures migrate ==> coc.sink == RenderLog(TablesLog(meta, fks.rejected, stnames, ""))
      ensures migrate ==> msgs == RunMsgs(meta, usage, fks.rejected, stnames, "", 0)
      ensures defined == 0 <==> forall t :: t in stnames ==> t !in meta.tables
    {
      ghost var start := fks.rejected;
      NoProgress(meta, usage, start, start + RejectedBy(meta.tables, stnames), stnames);
      hide Valid, FkIndex.Valid, CounterOchain.Valid, RejectedBy, Progress, UndefinedMsgs, RenderLog, TablesLog,
        RunMsgs;
      var lastSchema := "";
      msgs, defined := [], 0;
      for i := 0 to |stnames|
        invariant Valid() && coc.Valid()
        invariant SoFar(usage, stnames, i, migrate, lastSchema, coc, msgs, start)
        invariant defined == 0 <==> forall t :: t in stnames[..i] ==> t !in meta.tables
      {
        TakeSnoc(stnames, i);
        var isDefined;
        msgs, lastSchema, isDefined := MigrateNext(usage, stnames, i, migrate, lastSchema, coc, msgs, start);
        if isDefined {
          defined := defined + 1;
        }
      }
      TakeAll(stnames);
      if migrate {
        ProgressDone(meta, usage, fks.rejected, stnames, coc.sink, coc.lines, lastSchema, msgs);
      }
    }

    /**
     * `migrate_ddl_stnames`: what the run writes is what the metadata and the final set of
     * rejected columns call for, whatever earlier runs have hidden. The warnings about missing
     * targets come last, in the order `missing` of the set they are collected in.
     */
    method MigrateDdlStnames(usage: Usage, migrate: bool)
      returns (body: string, msgs: seq<Msg>, ghost missing: seq<string>)
      requires Valid() && usage.Valid()
      modifies this, fks`rejected, fks.Recs()
      ensures Valid()
      ensures fks.rejected == old(fks.rejected) + if migrate then RejectedBy(meta.tables, usage.stnames) else {}
      ensures body == if migrate then RenderLog(RunLog(meta, fks.rejected, usage.stnames)) else ""
      ensures msgs == (if migrate then RunMsgs(meta, usage, fks.rejected, Sort(usage.stnames), "", 0)
                       else UndefinedMsgs(meta, Sort(usage.stnames))) + TargetMsgs(missing)
      ensures EachOnce(missing, MissingTargets(meta, fks.rejected, usage))
    {
      ghost var used := usage.stnames;
      SortedSame(meta.tables, used);
      hide Valid, FkIndex.Valid, CounterOchain.Valid, RejectedBy, UndefinedMsgs, RenderLog, TablesLog, RunMsgs, Sort,
        ForeignKeysLog, RunLog, EachOnce, MissingTargets, TargetMsgs;
      var coc := NewStream();
      var stnames := Sort(usage.stnames);
      var defined: nat;
      msgs, defined := MigrateTables(usage, stnames, migrate, coc);
      var warnings;
      warnings, missing := FinishRun(usage, !migrate, defined, coc);
      LogOf(meta, fks.rejected, used);
      msgs := msgs + warnings;
      body := coc.sink;
    }

    /** Writing the output does not disturb the metadata. */
    twostate lemma StaysValid()
      requires old(Valid())
      requires unchanged(this) && unchanged(fks) && forall s :: s in fks.bySource ==>
               fks.bySource[s].hidden == old(fks.bySource[s].hidden)
      ensures Valid()
    {
      fks.StaysValid();
      hide FkIndex.Valid, WellNamed, TablesMatch, MarkedBy, OnlyRejected;
    }

    lemma Parts()
      requires Valid()
      ensures WellNamed(meta) && pk == meta.pk && fks.rows == meta.fks && OnlyRejected(meta, fks.rejected) &&
              fks.Valid()
      ensures TablesMatch(tables, meta.tables, fks.rejected)
      ensures MarkedBy(checks, meta.checks, fks.rejected) && MarkedBy(uniques, meta.uniques, fks.rejected)
    {
      hide WellNamed, TablesMatch, MarkedBy, OnlyRejected, FkIndex.Valid;
    }

    lemma Whole()
      requires WellNamed(meta) && pk == meta.pk && fks.rows == meta.fks && OnlyRejected(meta, fks.rejected) &&
               fks.Valid()
      requires TablesMatch(tables, meta.tables, fks.rejected)
      requires MarkedBy(checks, meta.checks, fks.rejected) && MarkedBy(uniques, meta.uniques, fks.rejected)
      ensures Valid()
    {
      hide WellNamed, TablesMatch, MarkedBy, OnlyRejected, FkIndex.Valid;
    }
  }
}
