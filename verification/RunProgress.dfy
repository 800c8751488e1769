/**
 * How a run progresses from table to table: what is written and recorded so far, and why
 * rejections in later tables do not change what earlier tables wrote. Each lemma is one step
 * of a loop of the run, so that the loops themselves only name what they keep.
 */
module RunProgress {
  import opened Common
  import opened ConstraintEmission
  import opened CreateTable
  import opened DdlRun
  import opened Names
  import opened Ochain
  import opened SortedNames
  import opened UniqueConstraints

  /** The two sets agree on the columns of a table. */
  predicate Agree(a: set<string>, b: set<string>, stname: string, columns: seq<Column>) {
    forall i :: 0 <= i < |columns| ==>
      (StcnameOf(stname, columns[i].cname) in a <==> StcnameOf(stname, columns[i].cname) in b)
  }

  lemma {:induction false} ConstraintsAgree(meta: Meta, a: set<string>, b: set<string>, stname: string,
                                            columns: seq<Column>)
    requires Agree(a, b, stname, columns)
    ensures ChecksOf(meta, a, stname, columns) == ChecksOf(meta, b, stname, columns)
    ensures UniquePairs(meta, a, stname, columns) == UniquePairs(meta, b, stname, columns)
  {
    if columns != [] {
      hide StcnameOf;
      ConstraintsAgree(meta, a, b, stname, columns[..|columns| - 1]);
    }
  }

  lemma StatementsAgree(meta: Meta, a: set<string>, b: set<string>, stname: string, lastSchema: string)
    requires stname in meta.tables && Agree(a, b, stname, meta.tables[stname])
    ensures TableStmts(meta, a, stname, lastSchema) == TableStmts(meta, b, stname, lastSchema)
  {
    ConstraintsAgree(meta, a, b, stname, meta.tables[stname]);
    UniquesAre(meta, a, stname, meta.tables[stname]);
    UniquesAre(meta, b, stname, meta.tables[stname]);
    hide Agree, SchemaStmts, ChecksOf, UniquesOf, Lead, TableStmt;
  }

  lemma RejectedByMore(tables: map<string, seq<Column>>, stnames: seq<string>, i: nat)
    requires i < |stnames|
    ensures RejectedBy(tables, stnames[..i + 1]) ==
            RejectedBy(tables, stnames[..i]) +
            if stnames[i] in tables then RejectedKeys(stnames[i], tables[stnames[i]]) else {}
  {
    assert stnames[..i + 1][..i] == stnames[..i];
  }

  lemma {:induction false} RejectedByMember(tables: map<string, seq<Column>>, stnames: seq<string>, key: string)
    ensures key in RejectedBy(tables, stnames) <==>
            exists t :: t in stnames && t in tables && key in RejectedKeys(t, tables[t])
  {
    hide RejectedKeys;
    if stnames != [] {
      var init, last := stnames[..|stnames| - 1], stnames[|stnames| - 1];
      RejectedByMember(tables, init, key);
      assert stnames == init + [last];
    }
  }

  lemma RejectedBySame(tables: map<string, seq<Column>>, a: seq<string>, b: seq<string>)
    requires forall t :: t in a <==> t in b
    ensures RejectedBy(tables, a) == RejectedBy(tables, b)
  {
    forall key ensures key in RejectedBy(tables, a) <==> key in RejectedBy(tables, b) {
      RejectedByMember(tables, a, key);
      RejectedByMember(tables, b, key);
    }
  }

  lemma SortedSame(tables: map<string, seq<Column>>, names: seq<string>)
    ensures forall t :: t in Sort(names) <==> t in names
    ensures RejectedBy(tables, Sort(names)) == RejectedBy(tables, names)
  {
    SortIsSort(names);
    SameMembers(Sort(names), names);
    RejectedBySame(tables, Sort(names), names);
  }

  /** What is rejected in the tables still to come does not change this table's constraints. */
  lemma FinalIsKnown(meta: Meta, start: set<string>, stnames: seq<string>, i: nat, lastSchema: string)
    requires WellNamed(meta) && i < |stnames| && stnames[i] in meta.tables && stnames[i] != ""
    ensures TableStmts(meta, start + RejectedBy(meta.tables, stnames[..i + 1]), stnames[i], lastSchema) ==
            TableStmts(meta, start + RejectedBy(meta.tables, stnames), stnames[i], lastSchema)
  {
    var t, columns := stnames[i], meta.tables[stnames[i]];
    var now, final := start + RejectedBy(meta.tables, stnames[..i + 1]), start + RejectedBy(meta.tables, stnames);
    assert NamedTable(t, columns);
    assert stnames[..i + 1][i] == t;
    forall k | 0 <= k < |columns|
      ensures StcnameOf(t, columns[k].cname) in now <==> StcnameOf(t, columns[k].cname) in final
    {
      hide RejectedBy, RejectedKeys, IsStname, StcnameOf, WellNamed;
      RejectedByOwner(meta, stnames[..i + 1], t, columns[k].cname);
      RejectedByOwner(meta, stnames, t, columns[k].cname);
    }
    hide RejectedBy, StcnameOf, WellNamed;
    StatementsAgree(meta, now, final, t, lastSchema);
  }

  // ------------------------------------------------------------- written tables

  lemma SchemaRendered(before: string, stname: string, lastSchema: string)
    ensures before + RenderLog(SchemaStmts(stname, lastSchema)) ==
            if lastSchema == "" then before + RenderStmt(CreateSchema(SchemaName(stname)))
            else if SchemaName(stname) != lastSchema then before + "\n" + RenderStmt(CreateSchema(SchemaName(stname)))
            else before
  {
    var create := CreateSchema(SchemaName(stname));
    assert SchemaStmts(stname, lastSchema) ==
           if lastSchema == "" then [] + [create]
           else if SchemaName(stname) != lastSchema then [Blank] + [create]
           else [];
    assert RenderStmt(Blank) == "\n";
    hide RenderLog, RenderStmt, SchemaName;
    LogSnoc(before, [], create);
    LogSnoc(before, [Blank], create);
    LogSnoc(before, [], Blank);
    AppendEmpty([Blank]);
    AppendEmpty([create]);
    EmptyLog(before);
  }

  lemma LinesSoFar(coc: CounterOchain)
    requires coc.Valid()
    ensures coc.lines == coc.startLines + CountNewlines(coc.sink)
  {
    hide CountNewlines;
  }

  /** The line counter of a stream that had `text` written to it. */
  lemma LinesAfter(before: string, text: string, coc: CounterOchain)
    requires coc.Valid() && coc.sink == before + text
    ensures coc.lines == coc.startLines + CountNewlines(before) + CountNewlines(text)
  {
    hide CountNewlines;
    CountAppend(before, text);
  }

  lemma TableWritten(before: string, meta: Meta, rejected: set<string>, stname: string, lastSchema: string)
    requires stname in meta.tables
    ensures var columns := meta.tables[stname];
            before + RenderLog(SchemaStmts(stname, lastSchema)) +
            TableOutput(stname, columns, RemainingPk(PkOf(meta.pk, stname, columns), columns)) +
            RenderLog(Lead(ChecksOf(meta, rejected, stname, columns))) +
            RenderLog(Lead(UniquesOf(meta, rejected, stname, columns)))
            == before + RenderLog(TableStmts(meta, rejected, stname, lastSchema))
  {
    var columns := meta.tables[stname];
    var table := TableStmt(meta, stname);
    var start, cks, uqs := SchemaStmts(stname, lastSchema), Lead(ChecksOf(meta, rejected, stname, columns)),
      Lead(UniquesOf(meta, rejected, stname, columns));
    assert TableStmts(meta, rejected, stname, lastSchema) == start + [table] + cks + uqs;
    assert RenderStmt(table) == TableOutput(stname, columns, RemainingPk(PkOf(meta.pk, stname, columns), columns));
    hide *;
    LogSnoc(before, start, table);
    LogAppend(before, start + [table], cks);
    LogAppend(before, start + [table] + cks, uqs);
  }

  lemma ForeignKeysAre(meta: Meta, rejected: set<string>, stname: string)
    ensures TableForeignKeys(meta, rejected, stname) ==
            if stname in meta.tables then Lead(ForeignKeysOf(meta.fks, rejected, stname, meta.tables[stname])) else []
  {
  }

  lemma NoForeignKeys(meta: Meta, rejected: set<string>, usage: Usage)
    ensures ForeignKeysLog(meta, rejected, usage.stnames[..0]) == []
    ensures RunTargets(meta, rejected, usage, usage.stnames[..0]) == {}
  {
  }

  lemma MoreTargets(meta: Meta, rejected: set<string>, usage: Usage, i: nat)
    requires i < |usage.stnames|
    ensures RunTargets(meta, rejected, usage, usage.stnames[..i + 1]) ==
            RunTargets(meta, rejected, usage, usage.stnames[..i]) +
            TableTargets(meta, rejected, usage, usage.stnames[i])
  {
    hide TableTargets;
    assert usage.stnames[..i + 1][..i] == usage.stnames[..i];
  }

  lemma TargetsAre(meta: Meta, rejected: set<string>, usage: Usage, stname: string)
    ensures TableTargets(meta, rejected, usage, stname) ==
            if stname in meta.tables then
              TargetsOf(meta.fks, rejected, usage.KnownCols(stname), stname, meta.tables[stname])
            else {}
  {
  }

  lemma {:induction false} NoTargets(meta: Meta, rejected: set<string>, usage: Usage, stnames: seq<string>)
    ensures (forall t :: t in stnames ==> t !in meta.tables) ==> RunTargets(meta, rejected, usage, stnames) == {}
  {
    if stnames != [] {
      var init, last := stnames[..|stnames| - 1], stnames[|stnames| - 1];
      assert stnames == init + [last];
      NoTargets(meta, rejected, usage, init);
    }
  }

  lemma MoreForeignKeys(meta: Meta, rejected: set<string>, used: seq<string>, i: nat)
    requires i < |used|
    ensures ForeignKeysLog(meta, rejected, used[..i + 1]) ==
            ForeignKeysLog(meta, rejected, used[..i]) + TableForeignKeys(meta, rejected, used[i])
  {
    assert used[..i + 1][..i] == used[..i];
  }

  lemma {:induction false} NothingDefined(meta: Meta, rejected: set<string>, used: seq<string>)
    ensures (forall t :: t in used ==> t !in meta.tables) ==> ForeignKeysLog(meta, rejected, used) == []
  {
    if used != [] {
      var init, last := used[..|used| - 1], used[|used| - 1];
      assert used == init + [last];
      NothingDefined(meta, rejected, init);
    }
  }

  lemma LogOf(meta: Meta, rejected: set<string>, used: seq<string>)
    ensures RenderLog(RunLog(meta, rejected, used)) ==
            RenderLog(TablesLog(meta, rejected, Sort(used), "")) + RenderLog(ForeignKeysLog(meta, rejected, used))
    ensures RenderLog([]) == ""
  {
    hide TablesLog, ForeignKeysLog;
    var a, b := TablesLog(meta, rejected, Sort(used), ""), ForeignKeysLog(meta, rejected, used);
    LogAppend("", a, b);
    AppendEmpty(RenderLog(a));
    AppendEmpty(RenderLog(a + b));
  }

  lemma PkSnoc(pk: set<string>, stname: string, columns: seq<Column>, i: nat)
    requires i < |columns|
    ensures PkOf(pk, stname, columns[..i + 1]) ==
            PkOf(pk, stname, columns[..i]) +
            if StcnameOf(stname, columns[i].cname) in pk then [columns[i].cname] else []
  {
    assert columns[..i + 1][..i] == columns[..i];
    hide StcnameOf;
  }

  /** The messages of a run that only validates. */
  function UndefinedMsgs(meta: Meta, stnames: seq<string>): seq<Msg> {
    if stnames == [] then []
    else
      var last := stnames[|stnames| - 1];
      UndefinedMsgs(meta, stnames[..|stnames| - 1]) +
      if last in meta.tables then [] else [Msg(0, last, "", TABLE_UNDEFINED)]
  }

  lemma UndefinedMore(meta: Meta, stnames: seq<string>, i: nat)
    requires i < |stnames|
    ensures UndefinedMsgs(meta, stnames[..i + 1]) ==
            if stnames[i] in meta.tables then UndefinedMsgs(meta, stnames[..i])
            else UndefinedMsgs(meta, stnames[..i]) + [Msg(0, stnames[i], "", TABLE_UNDEFINED)]
  {
    assert stnames[..i + 1][..i] == stnames[..i];
    AppendEmpty(UndefinedMsgs(meta, stnames[..i]));
  }

  lemma NoRejections(usage: Usage, stname: string, cnames: seq<string>)
    ensures RejectionMsgs(usage, stname, cnames[..0]) == []
  {
  }

  lemma MoreRejections(usage: Usage, stname: string, cnames: seq<string>, i: nat)
    requires i < |cnames|
    ensures RejectionMsgs(usage, stname, cnames[..i + 1]) ==
            RejectionMsgs(usage, stname, cnames[..i]) +
            if usage.UsesColumn(StcnameOf(stname, cnames[i])) then [] else [Msg(0, stname, cnames[i], COLUMN_REJECTED)]
  {
    assert cnames[..i + 1][..i] == cnames[..i];
    hide StcnameOf, Usage.UsesColumn;
  }

  lemma MissingAre(meta: Meta, rejected: set<string>, usage: Usage)
    ensures MissingTargets(meta, rejected, usage) == RunTargets(meta, rejected, usage, usage.stnames) - usage.cols.Keys
  {
  }

  /** Without a defined table there is nothing to warn about. */
  lemma NothingMissing(meta: Meta, rejected: set<string>, usage: Usage)
    ensures (forall t :: t in usage.stnames ==> t !in meta.tables) ==>
              EachOnce([], MissingTargets(meta, rejected, usage)) && TargetMsgs([]) == []
  {
    NoTargets(meta, rejected, usage, usage.stnames);
  }

  // ------------------------------------------------------------------- progress

  /** What is written and recorded so far, and what the remaining tables will add. */
  ghost predicate Progress(meta: Meta, usage: Usage, final: set<string>, stnames: seq<string>, i: nat, sink: string,
                           lines: nat, lastSchema: string, msgs: seq<Msg>)
    requires i <= |stnames|
  {
    RenderLog(TablesLog(meta, final, stnames, "")) ==
    sink + RenderLog(TablesLog(meta, final, stnames[i..], lastSchema)) &&
    RunMsgs(meta, usage, final, stnames, "", 0) == msgs + RunMsgs(meta, usage, final, stnames[i..], lastSchema, lines)
  }

  lemma ProgressOpen(meta: Meta, usage: Usage, final: set<string>, stnames: seq<string>, i: nat, sink: string,
                     lines: nat,
                     lastSchema: string, msgs: seq<Msg>)
    requires i <= |stnames| && Progress(meta, usage, final, stnames, i, sink, lines, lastSchema, msgs)
    ensures RenderLog(TablesLog(meta, final, stnames, "")) ==
            sink + RenderLog(TablesLog(meta, final, stnames[i..], lastSchema))
    ensures RunMsgs(meta, usage, final, stnames, "", 0) ==
            msgs + RunMsgs(meta, usage, final, stnames[i..], lastSchema, lines)
  {
    hide RenderLog, TablesLog, RunMsgs;
  }

  lemma ProgressClose(meta: Meta, usage: Usage, final: set<string>, stnames: seq<string>, i: nat, sink: string,
                      lines: nat,
                      lastSchema: string, msgs: seq<Msg>)
    requires i <= |stnames|
    requires RenderLog(TablesLog(meta, final, stnames, "")) ==
             sink + RenderLog(TablesLog(meta, final, stnames[i..], lastSchema))
    requires RunMsgs(meta, usage, final, stnames, "", 0) ==
             msgs + RunMsgs(meta, usage, final, stnames[i..], lastSchema, lines)
    ensures Progress(meta, usage, final, stnames, i, sink, lines, lastSchema, msgs)
  {
    hide RenderLog, TablesLog, RunMsgs;
  }

  lemma NoProgress(meta: Meta, usage: Usage, start: set<string>, final: set<string>, stnames: seq<string>)
    ensures Progress(meta, usage, final, stnames, 0, "", 0, "", [])
    ensures UndefinedMsgs(meta, stnames[..0]) == [] && start == start + RejectedBy(meta.tables, stnames[..0])
  {
    hide RenderLog, TablesLog, RunMsgs;
    TakeAll(stnames);
    AppendEmpty(RenderLog(TablesLog(meta, final, stnames, "")));
    AppendEmpty(RunMsgs(meta, usage, final, stnames, "", 0));
  }

  lemma ProgressTable(meta: Meta, usage: Usage, final: set<string>, stnames: seq<string>, i: nat, sink: string,
                      lines: nat,
                      lastSchema: string, msgs: seq<Msg>,
                      sink': string, lines': nat, msgs': seq<Msg>)
    requires i < |stnames| && stnames[i] in meta.tables
    requires Progress(meta, usage, final, stnames, i, sink, lines, lastSchema, msgs)
    requires sink' == sink + RenderLog(TableStmts(meta, final, stnames[i], lastSchema))
    requires lines' == lines + CountNewlines(RenderLog(TableStmts(meta, final, stnames[i], lastSchema)))
    requires msgs' == msgs + TableMsgs(meta, usage, stnames[i], lastSchema, lines)
    ensures Progress(meta, usage, final, stnames, i + 1, sink', lines', SchemaName(stnames[i]), msgs')
  {
    hide *;
    var stmts, rest := TableStmts(meta, final, stnames[i], lastSchema), stnames[i + 1..];
    var added := TableMsgs(meta, usage, stnames[i], lastSchema, lines);
    ProgressOpen(meta, usage, final, stnames, i, sink, lines, lastSchema, msgs);
    DropOneName(stnames, i);
    TablesLogStep(meta, usage, final, stnames[i..], lastSchema, lines);
    LogAppend(sink, stmts, TablesLog(meta, final, rest, SchemaName(stnames[i])));
    AppendAssoc(msgs, added, RunMsgs(meta, usage, final, rest, SchemaName(stnames[i]), lines'));
    ProgressClose(meta, usage, final, stnames, i + 1, sink', lines', SchemaName(stnames[i]), msgs');
  }

  lemma ProgressUndefined(meta: Meta, usage: Usage, final: set<string>, stnames: seq<string>, i: nat, sink: string,
                          lines: nat, lastSchema: string, msgs: seq<Msg>)
    requires i < |stnames| && stnames[i] !in meta.tables
    requires Progress(meta, usage, final, stnames, i, sink, lines, lastSchema, msgs)
    ensures Progress(meta, usage, final, stnames, i + 1, sink, lines, lastSchema,
                     msgs + [Msg(0, stnames[i], "", TABLE_UNDEFINED)])
  {
    DropOneName(stnames, i);
    TablesLogStep(meta, usage, final, stnames[i..], lastSchema, lines);
    hide RenderLog, TablesLog, RunMsgs;
    AppendAssoc(msgs, [Msg(0, stnames[i], "", TABLE_UNDEFINED)],
                RunMsgs(meta, usage, final, stnames[i + 1..], lastSchema, lines));
  }

  lemma ProgressDone(meta: Meta, usage: Usage, final: set<string>, stnames: seq<string>, sink: string, lines: nat,
                     lastSchema: string, msgs: seq<Msg>)
    requires Progress(meta, usage, final, stnames, |stnames|, sink, lines, lastSchema, msgs)
    ensures sink == RenderLog(TablesLog(meta, final, stnames, "")) &&
            msgs == RunMsgs(meta, usage, final, stnames, "", 0)
  {
    assert stnames[|stnames|..] == [];
    AppendEmpty(sink);
    AppendEmpty(msgs);
    assert RenderLog(TablesLog(meta, final, [], lastSchema)) == "" &&
           RunMsgs(meta, usage, final, [], lastSchema, lines) == [];
    hide RenderLog, TablesLog, RunMsgs;
  }

  lemma DropOneName(stnames: seq<string>, i: nat)
    requires i < |stnames|
    ensures stnames[i..] != [] && stnames[i..][0] == stnames[i] && stnames[i..][1..] == stnames[i + 1..]
  {
  }

  lemma TablesLogStep(meta: Meta, usage: Usage, rejected: set<string>, stnames: seq<string>, lastSchema: string,
                      lines: nat)
    requires stnames != []
    ensures var t, rest := stnames[0], stnames[1..];
            if t in meta.tables then
              TablesLog(meta, rejected, stnames, lastSchema) ==
              TableStmts(meta, rejected, t, lastSchema) + TablesLog(meta, rejected, rest, SchemaName(t)) &&
              RunMsgs(meta, usage, rejected, stnames, lastSchema, lines) ==
              TableMsgs(meta, usage, t, lastSchema, lines) +
              RunMsgs(meta, usage, rejected, rest, SchemaName(t),
                      lines + CountNewlines(RenderLog(TableStmts(meta, rejected, t, lastSchema))))
            else
              TablesLog(meta, rejected, stnames, lastSchema) == TablesLog(meta, rejected, rest, lastSchema) &&
              RunMsgs(meta, usage, rejected, stnames, lastSchema, lines) ==
              [Msg(0, t, "", TABLE_UNDEFINED)] + RunMsgs(meta, usage, rejected, rest, lastSchema, lines)
  {
    hide RenderLog, TableStmts, TableMsgs, CountNewlines, SchemaName;
  }
}
