/** What the messages of a run say, where they point, and which of them are sent. */
module RunMessages {
  import opened Common
  import opened CreateTable
  import opened DdlRun
  import opened FkRows
  import opened LineNumbers
  import opened Names
  import opened Ochain
  import opened SortedNames
  import opened RunProgress
  import CheckSafety
  import HidableRecords
  import RunSafety
  import UniqueConstraints

  /** The j-th statement creates the message's table, and shows the message's column on the message's line. */
  predicate InStatement(log: seq<Stmt>, meta: Meta, msg: Msg, j: nat)
    requires j < |log| && msg.stname in meta.tables
  {
    log[j] == TableStmt(meta, msg.stname) &&
    Located(RenderLog(log), |RenderLog(log[..j])|, msg.stname, log[j].columns, log[j].pk, msg)
  }

  /** A rejected column of the table that is not used. */
  predicate IsRejection(meta: Meta, usage: Usage, msg: Msg)
    requires msg.stname in meta.tables
  {
    msg == Msg(0, msg.stname, msg.cname, COLUMN_REJECTED) &&
    msg.cname in RejectedNames(meta.tables[msg.stname]) && !usage.UsesColumn(StcnameOf(msg.stname, msg.cname))
  }

  predicate Holds(log: seq<Stmt>, meta: Meta, usage: Usage, msg: Msg) {
    if msg.stname in meta.tables then
      (exists j :: 0 <= j < |log| && InStatement(log, meta, msg, j)) || IsRejection(meta, usage, msg)
    else msg == Msg(0, msg.stname, "", TABLE_UNDEFINED)
  }

  lemma HoldsInStatement(log: seq<Stmt>, meta: Meta, usage: Usage, msg: Msg, j: nat)
    requires msg.stname in meta.tables && j < |log| && InStatement(log, meta, msg, j)
    ensures Holds(log, meta, usage, msg)
  {
  }

  lemma AroundStmt(log: seq<Stmt>, j: nat)
    requires j < |log|
    ensures RenderLog(log) == RenderLog(log[..j]) + RenderStmt(log[j]) + RenderLog(log[j + 1..])
  {
    hide *;
    SplitAround(log, j);
    var before := RenderLog(log[..j]);
    Rendered(log[..j]);
    LogAppend("", log[..j] + [log[j]], log[j + 1..]);
    LogSnoc("", log[..j], log[j]);
    Rendered(log[..j] + [log[j]]);
    Rendered(log);
  }

  lemma Rendered(log: seq<Stmt>)
    ensures "" + RenderLog(log) == RenderLog(log)
  {
    hide RenderLog;
    AppendEmpty(RenderLog(log));
  }

  lemma LocatedNames(body: string, start: nat, stname: string, columns: seq<Column>, pk: seq<string>, msg: Msg)
    requires Located(body, start, stname, columns, pk, msg)
    ensures msg.stname == stname
  {
    hide BeginsAt, Shown, Place;
  }

  lemma RenderedTable(meta: Meta, stname: string)
    requires stname in meta.tables
    ensures TableStmt(meta, stname).CreateTableStmt?
    ensures TableStmt(meta, stname).columns == meta.tables[stname]
    ensures RenderStmt(TableStmt(meta, stname)) == TableOutput(stname, meta.tables[stname], TableStmt(meta, stname).pk)
  {
  }

  /** A message recorded while a statement of the run was written. */
  lemma MessageInStatement(log: seq<Stmt>, meta: Meta, usage: Usage, stname: string, j: nat, i: nat)
    requires stname in meta.tables && j < |log| && log[j] == TableStmt(meta, stname)
    requires i < |Messages(CountNewlines(RenderLog(log[..j])), stname, meta.tables[stname])|
    ensures Holds(log, meta, usage, Messages(CountNewlines(RenderLog(log[..j])), stname, meta.tables[stname])[i])
  {
    hide *;
    RenderedTable(meta, stname);
    var before, columns, pk := RenderLog(log[..j]), meta.tables[stname], TableStmt(meta, stname).pk;
    var msg := Messages(CountNewlines(before), stname, columns)[i];
    AroundStmt(log, j);
    MessagesLocated(before, stname, columns, pk, RenderLog(log[j + 1..]), i);
    LocatedNames(RenderLog(log), |before|, stname, columns, pk, msg);
    StatementAt(log, meta, msg, j);
    HoldsInStatement(log, meta, usage, msg, j);
  }

  lemma StatementAt(log: seq<Stmt>, meta: Meta, msg: Msg, j: nat)
    requires msg.stname in meta.tables && j < |log| && log[j] == TableStmt(meta, msg.stname) && log[j].CreateTableStmt?
    requires Located(RenderLog(log), |RenderLog(log[..j])|, msg.stname, log[j].columns, log[j].pk, msg)
    ensures InStatement(log, meta, msg, j)
  {
    hide RenderLog, Located, TableStmt;
  }

  lemma {:induction false} RejectionMsgsAre(usage: Usage, stname: string, cnames: seq<string>, i: nat)
    requires i < |RejectionMsgs(usage, stname, cnames)|
    ensures var msg := RejectionMsgs(usage, stname, cnames)[i];
            msg == Msg(0, stname, msg.cname, COLUMN_REJECTED) && msg.cname in cnames &&
            !usage.UsesColumn(StcnameOf(stname, msg.cname))
    decreases |cnames|
  {
    hide StcnameOf, Usage.UsesColumn;
    var init, last := cnames[..|cnames| - 1], cnames[|cnames| - 1];
    Unsnoc(cnames);
    if i < |RejectionMsgs(usage, stname, init)| {
      RejectionMsgsAre(usage, stname, init, i);
    }
  }

  lemma HoldsRejection(log: seq<Stmt>, meta: Meta, usage: Usage, stname: string, i: nat)
    requires stname in meta.tables && i < |RejectionMsgs(usage, stname, RejectedNames(meta.tables[stname]))|
    ensures Holds(log, meta, usage, RejectionMsgs(usage, stname, RejectedNames(meta.tables[stname]))[i])
  {
    RejectionMsgsAre(usage, stname, RejectedNames(meta.tables[stname]), i);
    hide RejectionMsgs, RejectedNames, InStatement, StcnameOf, Usage.UsesColumn;
  }

  /** The statements of a table, with everything around them. */
  lemma TableMessageHolds(before: seq<Stmt>, meta: Meta, usage: Usage, rejected: set<string>, stname: string,
                          lastSchema: string, after: seq<Stmt>, i: nat)
    requires stname in meta.tables
    requires i < |TableMsgs(meta, usage, stname, lastSchema, CountNewlines(RenderLog(before)))|
    ensures Holds(before + TableStmts(meta, rejected, stname, lastSchema) + after, meta, usage,
                  TableMsgs(meta, usage, stname, lastSchema, CountNewlines(RenderLog(before)))[i])
  {
    hide *;
    var columns := meta.tables[stname];
    var schema := SchemaStmts(stname, lastSchema);
    var log := before + TableStmts(meta, rejected, stname, lastSchema) + after;
    var own := Messages(CountNewlines(RenderLog(before)) + CountNewlines(RenderLog(schema)), stname, columns);
    var rejections := RejectionMsgs(usage, stname, RejectedNames(columns));
    TableMsgsAre(meta, usage, stname, lastSchema, CountNewlines(RenderLog(before)));
    AppendAt(own, rejections, i);
    if i < |own| {
      TableInLog(before, meta, rejected, stname, lastSchema, after);
      LinesOfTwo(before, schema);
      MessageInStatement(log, meta, usage, stname, |before + schema|, i);
    } else {
      HoldsRejection(log, meta, usage, stname, i - |own|);
    }
  }

  lemma TableMsgsAre(meta: Meta, usage: Usage, stname: string, lastSchema: string, lines: nat)
    requires stname in meta.tables
    ensures TableMsgs(meta, usage, stname, lastSchema, lines) ==
            Messages(lines + CountNewlines(RenderLog(SchemaStmts(stname, lastSchema))), stname, meta.tables[stname]) +
            RejectionMsgs(usage, stname, RejectedNames(meta.tables[stname]))
  {
    hide Messages, RejectionMsgs, RejectedNames, CountNewlines, RenderLog, SchemaStmts;
  }

  lemma LinesOfTwo(a: seq<Stmt>, b: seq<Stmt>)
    ensures CountNewlines(RenderLog(a + b)) == CountNewlines(RenderLog(a)) + CountNewlines(RenderLog(b))
  {
    hide *;
    LogAppend("", a, b);
    Rendered(a);
    Rendered(a + b);
    CountAppend(RenderLog(a), RenderLog(b));
  }

  /** Where a table's own statement stands in the log. */
  lemma TableInLog(before: seq<Stmt>, meta: Meta, rejected: set<string>, stname: string, lastSchema: string,
                   after: seq<Stmt>)
    requires stname in meta.tables
    ensures var log := before + TableStmts(meta, rejected, stname, lastSchema) + after;
            var j := |before + SchemaStmts(stname, lastSchema)|;
            j < |log| && log[..j] == before + SchemaStmts(stname, lastSchema) && log[j] == TableStmt(meta, stname)
  {
    var columns := meta.tables[stname];
    var schema, stmt := SchemaStmts(stname, lastSchema), TableStmt(meta, stname);
    var cks, uqs := Lead(ChecksOf(meta, rejected, stname, columns)), Lead(UniquesOf(meta, rejected, stname, columns));
    assert TableStmts(meta, rejected, stname, lastSchema) == schema + [stmt] + cks + uqs;
    hide *;
    InTheMiddle(before, schema, stmt, cks, uqs, after);
  }

  lemma InTheMiddle<T>(a: seq<T>, b: seq<T>, x: T, c: seq<T>, d: seq<T>, e: seq<T>)
    ensures var all := a + (b + [x] + c + d) + e;
            |a + b| < |all| && all[..|a + b|] == a + b && all[|a + b|] == x
  {
  }

  lemma {:induction false} MessagesHold(meta: Meta, usage: Usage, rejected: set<string>, stnames: seq<string>,
                                        lastSchema: string, before: seq<Stmt>, after: seq<Stmt>, i: nat)
    requires i < |RunMsgs(meta, usage, rejected, stnames, lastSchema, CountNewlines(RenderLog(before)))|
    ensures Holds(before + TablesLog(meta, rejected, stnames, lastSchema) + after, meta, usage,
                  RunMsgs(meta, usage, rejected, stnames, lastSchema, CountNewlines(RenderLog(before)))[i])
    decreases |stnames|
  {
    hide *;
    var lines := CountNewlines(RenderLog(before));
    NoMessages(meta, usage, rejected, lastSchema, lines);
    var t, rest := stnames[0], stnames[1..];
    TablesLogStep(meta, usage, rejected, stnames, lastSchema, lines);
    if t in meta.tables {
      var stmts, later := TableStmts(meta, rejected, t, lastSchema), TablesLog(meta, rejected, rest, SchemaName(t));
      var own := TableMsgs(meta, usage, t, lastSchema, lines);
      LinesOfTwo(before, stmts);
      AppendAt(own, RunMsgs(meta, usage, rejected, rest, SchemaName(t), CountNewlines(RenderLog(before + stmts))), i);
      AppendAssoc(before, stmts, later);
      if i < |own| {
        AppendAssoc(before + stmts, later, after);
        TableMessageHolds(before, meta, usage, rejected, t, lastSchema, later + after, i);
      } else {
        MessagesHold(meta, usage, rejected, rest, SchemaName(t), before + stmts, after, i - |own|);
      }
    } else {
      AppendAt([Msg(0, t, "", TABLE_UNDEFINED)], RunMsgs(meta, usage, rejected, rest, lastSchema, lines), i);
      if i == 0 {
        UndefinedHolds(before + TablesLog(meta, rejected, stnames, lastSchema) + after, meta, usage, t);
      } else {
        MessagesHold(meta, usage, rejected, rest, lastSchema, before, after, i - 1);
      }
    }
  }

  lemma NoMessages(meta: Meta, usage: Usage, rejected: set<string>, lastSchema: string, lines: nat)
    ensures RunMsgs(meta, usage, rejected, [], lastSchema, lines) == []
  {
  }

  lemma UndefinedHolds(log: seq<Stmt>, meta: Meta, usage: Usage, stname: string)
    requires stname !in meta.tables
    ensures Holds(log, meta, usage, Msg(0, stname, "", TABLE_UNDEFINED))
  {
  }

  lemma AppendAt<T>(a: seq<T>, b: seq<T>, i: nat)
    requires i < |a + b|
    ensures (a + b)[i] == if i < |a| then a[i] else b[i - |a|]
  {
  }

  lemma LogIs(meta: Meta, rejected: set<string>, used: seq<string>)
    ensures RunLog(meta, rejected, used) ==
            [] + TablesLog(meta, rejected, Sort(used), "") + ForeignKeysLog(meta, rejected, used)
    ensures CountNewlines(RenderLog([])) == 0
  {
    hide TablesLog, ForeignKeysLog, Sort;
    AppendEmpty(TablesLog(meta, rejected, Sort(used), ""));
  }

  /** Every message of a run's tables is true of the statements it writes. */
  lemma RunMessagesHold(meta: Meta, usage: Usage, rejected: set<string>, i: nat)
    requires i < |RunMsgs(meta, usage, rejected, Sort(usage.stnames), "", 0)|
    ensures Holds(RunLog(meta, rejected, usage.stnames), meta, usage,
                  RunMsgs(meta, usage, rejected, Sort(usage.stnames), "", 0)[i])
  {
    hide *;
    LogIs(meta, rejected, usage.stnames);
    MessagesHold(meta, usage, rejected, Sort(usage.stnames), "", [], ForeignKeysLog(meta, rejected, usage.stnames), i);
  }

  // ------------------------------------------------- which rejections are reported

  function Rejection(stname: string, cname: string): Msg {
    Msg(0, stname, cname, COLUMN_REJECTED)
  }

  lemma {:induction false} RejectionIsListed(usage: Usage, stname: string, cnames: seq<string>, t: string,
                                             cname: string)
    ensures Rejection(t, cname) in RejectionMsgs(usage, stname, cnames) <==>
            t == stname && cname in cnames && !usage.UsesColumn(StcnameOf(stname, cname))
    decreases |cnames|
  {
    hide StcnameOf, Usage.UsesColumn;
    if cnames != [] {
      RejectionIsListed(usage, stname, cnames[..|cnames| - 1], t, cname);
      Unsnoc(cnames);
    }
  }

  lemma NotAColumnMessage(lines: nat, stname: string, columns: seq<Column>, msg: Msg)
    requires msg.lineno == 0
    ensures msg !in Messages(lines, stname, columns)
  {
    hide Messages, LineAfter;
    if msg in Messages(lines, stname, columns) {
      var i :| 0 <= i < |Messages(lines, stname, columns)| && Messages(lines, stname, columns)[i] == msg;
      var k := MessageOf(lines, stname, columns, i);
      LineFrom(lines, stname, columns[..k]);
      LineOfBefore(stname, columns[..k]);
      assert false;
    }
  }

  /** A defined used table with a rejected column that is not used. */
  predicate Unreported(meta: Meta, usage: Usage, stname: string, cname: string) {
    stname in meta.tables && cname in RejectedNames(meta.tables[stname]) && !usage.UsesColumn(StcnameOf(stname, cname))
  }

  lemma RejectionOfTable(meta: Meta, usage: Usage, stname: string, lastSchema: string, lines: nat, t: string,
                         cname: string)
    requires stname in meta.tables
    ensures Rejection(t, cname) in TableMsgs(meta, usage, stname, lastSchema, lines) <==>
            t == stname && Unreported(meta, usage, t, cname)
  {
    hide *;
    var columns := meta.tables[stname];
    var startLine := lines + CountNewlines(RenderLog(SchemaStmts(stname, lastSchema)));
    TableMsgsAre(meta, usage, stname, lastSchema, lines);
    RejectionIsListed(usage, stname, RejectedNames(columns), t, cname);
    RejectionHasNoLine(startLine, stname, columns, t, cname);
    InAppend(Messages(startLine, stname, columns), RejectionMsgs(usage, stname, RejectedNames(columns)),
             Rejection(t, cname));
    UnreportedIs(meta, usage, stname, cname);
  }

  lemma RejectionHasNoLine(lines: nat, stname: string, columns: seq<Column>, t: string, cname: string)
    ensures Rejection(t, cname) !in Messages(lines, stname, columns)
  {
    NotAColumnMessage(lines, stname, columns, Rejection(t, cname));
  }

  lemma InAppend<T>(a: seq<T>, b: seq<T>, x: T)
    ensures x in a + b <==> x in a || x in b
  {
  }

  lemma UnreportedIs(meta: Meta, usage: Usage, stname: string, cname: string)
    ensures Unreported(meta, usage, stname, cname) <==>
            stname in meta.tables && cname in RejectedNames(meta.tables[stname]) &&
            !usage.UsesColumn(StcnameOf(stname, cname))
  {
  }

  lemma NotUndefined(stname: string, t: string, cname: string)
    ensures Rejection(t, cname) != Msg(0, stname, "", TABLE_UNDEFINED)
  {
    assert COLUMN_REJECTED[0] != TABLE_UNDEFINED[0];
  }

  lemma {:induction false} RejectionInRun(meta: Meta, usage: Usage, rejected: set<string>, stnames: seq<string>,
                                          lastSchema: string, lines: nat, t: string, cname: string)
    ensures Rejection(t, cname) in RunMsgs(meta, usage, rejected, stnames, lastSchema, lines) <==>
            t in stnames && Unreported(meta, usage, t, cname)
    decreases |stnames|
  {
    hide *;
    NoMessages(meta, usage, rejected, lastSchema, lines);
    if stnames != [] {
      var first, rest := stnames[0], stnames[1..];
      Uncons(stnames);
      TablesLogStep(meta, usage, rejected, stnames, lastSchema, lines);
      if first in meta.tables {
        RejectionOfTable(meta, usage, first, lastSchema, lines, t, cname);
        RejectionInRun(meta, usage, rejected, rest, SchemaName(first),
                       lines + CountNewlines(RenderLog(TableStmts(meta, rejected, first, lastSchema))), t, cname);
      } else {
        NotUndefined(first, t, cname);
        UndefinedIsReported(meta, usage, first, cname);
        RejectionInRun(meta, usage, rejected, rest, lastSchema, lines, t, cname);
      }
    }
  }

  lemma UndefinedIsReported(meta: Meta, usage: Usage, stname: string, cname: string)
    requires stname !in meta.tables
    ensures !Unreported(meta, usage, stname, cname)
  {
  }

  /**
   * "column used but rejected" is sent for a column exactly when it is a rejected column of a
   * defined used table, and is itself not among the used columns: the guard is the negation
   * of what the text says.
   */
  lemma RejectionReportedExactlyWhen(meta: Meta, usage: Usage, rejected: set<string>, stname: string, cname: string)
    requires WellNamed(meta) && usage.Valid()
    ensures Rejection(stname, cname) == Msg(0, stname, cname, "column used but rejected")
    ensures Rejection(stname, cname) in RunMsgs(meta, usage, rejected, Sort(usage.stnames), "", 0) <==>
            stname in usage.stnames && stname in meta.tables && cname in RejectedNames(meta.tables[stname]) &&
            cname !in usage.cols[stname]
  {
    SortIsSort(usage.stnames);
    UniqueConstraints.SameMembers(Sort(usage.stnames), usage.stnames);
    hide RunMsgs, Sort, RejectedNames, StcnameOf, StnameOf, CnameOf, WellNamed;
    RejectionInRun(meta, usage, rejected, Sort(usage.stnames), "", 0, stname, cname);
    if stname in usage.stnames && stname in meta.tables && cname in RejectedNames(meta.tables[stname]) {
      OwnKey(meta, stname, cname);
    }
  }

  lemma OwnKey(meta: Meta, stname: string, cname: string)
    requires WellNamed(meta) && stname in meta.tables && stname != "" && cname in RejectedNames(meta.tables[stname])
    ensures StnameOf(StcnameOf(stname, cname)) == stname && CnameOf(StcnameOf(stname, cname)) == cname
  {
    var columns := meta.tables[stname];
    assert NamedTable(stname, columns);
    var i :| 0 <= i < |RejectedNames(columns)| && RejectedNames(columns)[i] == cname;
    var pos := HidableRecords.NamedColumn(columns, i);
    hide RejectedNames, IsStname, IsCname, StnameOf, CnameOf, StcnameOf;
    KeyRoundTrip(stname, cname);
  }

  lemma {:induction false} RejectionText(usage: Usage, stname: string, cnames: seq<string>, msg: Msg)
    requires msg in RejectionMsgs(usage, stname, cnames)
    ensures msg.text == "column used but rejected"
  {
    hide Usage.UsesColumn, StcnameOf;
    var init := cnames[..|cnames| - 1];
    if msg in RejectionMsgs(usage, stname, init) {
      RejectionText(usage, stname, init, msg);
    }
  }

  lemma TextsDiffer()
    ensures "table used but undefined" != "column used but rejected"
  {
    assert "table used but undefined"[0] != "column used but rejected"[0];
  }

  lemma NotOfTable(meta: Meta, usage: Usage, stname: string, lastSchema: string, lines: nat, msg: Msg)
    requires stname in meta.tables && msg.lineno == 0 && msg.text == "table used but undefined"
    ensures msg !in TableMsgs(meta, usage, stname, lastSchema, lines)
  {
    hide *;
    TextsDiffer();
    var columns := meta.tables[stname];
    var startLine := lines + CountNewlines(RenderLog(SchemaStmts(stname, lastSchema)));
    TableMsgsAre(meta, usage, stname, lastSchema, lines);
    NotAColumnMessage(startLine, stname, columns, msg);
    InAppend(Messages(startLine, stname, columns), RejectionMsgs(usage, stname, RejectedNames(columns)), msg);
    if msg in RejectionMsgs(usage, stname, RejectedNames(columns)) {
      RejectionText(usage, stname, RejectedNames(columns), msg);
      assert false;
    }
  }

  lemma UndefinedIs(t: string)
    ensures Msg(0, t, "", TABLE_UNDEFINED) == Msg(0, t, "", "table used but undefined")
  {
  }

  lemma {:induction false} UndefinedInRun(meta: Meta, usage: Usage, rejected: set<string>, stnames: seq<string>,
                                          lastSchema: string, lines: nat, t: string)
    ensures Msg(0, t, "", "table used but undefined") in RunMsgs(meta, usage, rejected, stnames, lastSchema, lines) <==>
            t in stnames && t !in meta.tables
    decreases |stnames|
  {
    hide *;
    NoMessages(meta, usage, rejected, lastSchema, lines);
    if stnames != [] {
      var first, rest := stnames[0], stnames[1..];
      Uncons(stnames);
      UndefinedIs(first);
      TablesLogStep(meta, usage, rejected, stnames, lastSchema, lines);
      if first in meta.tables {
        NotOfTable(meta, usage, first, lastSchema, lines, Msg(0, t, "", "table used but undefined"));
        UndefinedInRun(meta, usage, rejected, rest, SchemaName(first),
                       lines + CountNewlines(RenderLog(TableStmts(meta, rejected, first, lastSchema))), t);
      } else {
        UndefinedInRun(meta, usage, rejected, rest, lastSchema, lines, t);
      }
    }
  }

  /** "table used but undefined" is sent for exactly the used tables without metadata. */
  lemma UndefinedReportedExactlyWhen(meta: Meta, usage: Usage, rejected: set<string>, stname: string)
    ensures Msg(0, stname, "", "table used but undefined") in
            RunMsgs(meta, usage, rejected, Sort(usage.stnames), "", 0) <==>
            stname in usage.stnames && stname !in meta.tables
  {
    SortIsSort(usage.stnames);
    UniqueConstraints.SameMembers(Sort(usage.stnames), usage.stnames);
    hide *;
    UndefinedInRun(meta, usage, rejected, Sort(usage.stnames), "", 0, stname);
  }

  /** No used column that is rejected is ever reported as "used but rejected". */
  lemma UsedRejectionIsSilent(meta: Meta, usage: Usage, rejected: set<string>, stname: string, cname: string)
    requires WellNamed(meta) && usage.Valid()
    requires stname in usage.stnames && cname in usage.cols[stname]
    ensures Rejection(stname, cname) !in RunMsgs(meta, usage, rejected, Sort(usage.stnames), "", 0)
  {
    hide *;
    UsedTable(usage, stname);
    RejectionReportedExactlyWhen(meta, usage, rejected, stname, cname);
  }

  lemma UsedTable(usage: Usage, stname: string)
    requires usage.Valid() && stname in usage.stnames
    ensures stname in usage.cols
  {
  }

  lemma {:induction false} NoColumnMessages(lines: nat, stname: string, columns: seq<Column>)
    requires forall i :: 0 <= i < |columns| ==> columns[i].msgs == []
    ensures Messages(lines, stname, columns) == []
  {
    if columns != [] {
      NoColumnMessages(lines, stname, columns[..|columns| - 1]);
      hide LineAfter;
    }
  }

  lemma QuietTable(meta: Meta, usage: Usage, rejected: set<string>, stname: string)
    requires stname in meta.tables && RejectionMsgs(usage, stname, RejectedNames(meta.tables[stname])) == []
    requires forall i :: 0 <= i < |meta.tables[stname]| ==> meta.tables[stname][i].msgs == []
    ensures RunMsgs(meta, usage, rejected, [stname], "", 0) == []
  {
    hide *;
    var columns := meta.tables[stname];
    TablesLogStep(meta, usage, rejected, [stname], "", 0);
    TableMsgsAre(meta, usage, stname, "", 0);
    NoColumnMessages(CountNewlines(RenderLog(SchemaStmts(stname, ""))), stname, columns);
    NoMessages(meta, usage, rejected, SchemaName(stname),
               CountNewlines(RenderLog(TableStmts(meta, rejected, stname, ""))));
    assert [stname][1..] == [] && [stname][0] == stname;
  }

  lemma SortOne(stname: string)
    ensures Sort([stname]) == [stname]
  {
    assert [stname][1..] == [];
  }

  lemma OneRejection(usage: Usage, stname: string, cname: string)
    requires usage.UsesColumn(StcnameOf(stname, cname))
    ensures RejectionMsgs(usage, stname, [cname]) == []
  {
    hide StcnameOf, Usage.UsesColumn;
    assert [cname][..0] == [];
  }

  lemma SecondRejected(columns: seq<Column>)
    requires |columns| == 2 && columns[0].outcome.Accepted? && columns[1].outcome.Rejected?
    ensures RejectedNames(columns) == [columns[1].cname]
  {
    var one := columns[..1];
    assert one[..0] == [] && one[0] == columns[0];
    assert RejectedNames(one) == [] && columns[..|columns| - 1] == one;
  }

  lemma UsesSecond(usage: Usage)
    requires usage == Usage(["s.t"], map["s.t" := {"b"}], true)
    requires StnameOf("s.t.b") == "s.t" && CnameOf("s.t.b") == "b"
    ensures usage.Valid() && usage.UsesColumn("s.t.b")
  {
    hide StnameOf, CnameOf;
  }

  /** A column that is used and rejected, and a run that sends no message at all. */
  lemma UsedAndRejected()
    ensures var meta, usage := CheckSafety.Compared(Rejected("xml")), Usage(["s.t"], map["s.t" := {"b"}], true);
            WellNamed(meta) && usage.Valid() && usage.UsesColumn("s.t.b") &&
            RejectedBy(meta.tables, usage.stnames) == {"s.t.b"} &&
            RunMsgs(meta, usage, {"s.t.b"}, Sort(usage.stnames), "", 0) == []
  {
    hide *;
    var meta, usage := CheckSafety.Compared(Rejected("xml")), Usage(["s.t"], map["s.t" := {"b"}], true);
    CheckSafety.ComparedKeys();
    CheckSafety.ComparedColumns(Rejected("xml"));
    CheckSafety.ComparedNames(Rejected("xml"));
    CheckSafety.ComparedTable(Rejected("xml"));
    CheckSafety.RejectedByOne(meta, "s.t", "s.t.b");
    UsesSecond(usage);
    SecondRejected(meta.tables["s.t"]);
    OneRejection(usage, "s.t", "b");
    QuietTable(meta, usage, {"s.t.b"}, "s.t");
    SortOne("s.t");
  }

  // ------------------------------------------------- which targets are warned about

  /** The statement is a foreign key of a used column, and refers to the table. */
  predicate RefersTo(usage: Usage, stmt: Stmt, target: string) {
    stmt.AddForeignKey? && usage.known && usage.UsesColumn(stmt.stcname) && StnameOf(stmt.ref) == target
  }

  predicate Refers(cols: Option<set<string>>, stmt: Stmt, target: string) {
    stmt.AddForeignKey? && cols.Some? && CnameOf(stmt.stcname) in cols.value && StnameOf(stmt.ref) == target
  }

  lemma TargetOfColumn(rows: seq<FkRow>, rejected: set<string>, cols: Option<set<string>>, stcname: string,
                       target: string)
    ensures target in ColumnTargets(rows, rejected, cols, stcname) <==>
            exists stmt :: stmt in ColumnForeignKey(rows, rejected, stcname) && Refers(cols, stmt, target)
    ensures forall stmt :: stmt in ColumnForeignKey(rows, rejected, stcname) ==>
            stmt.AddForeignKey? && stmt.stcname == stcname
  {
    hide Hides, CnameOf, StnameOf;
    var row := FkOf(rows, stcname);
    if target in ColumnTargets(rows, rejected, cols, stcname) {
      assert AddForeignKey(stcname, row.value.ref) in ColumnForeignKey(rows, rejected, stcname);
      assert Refers(cols, AddForeignKey(stcname, row.value.ref), target);
    }
  }

  lemma {:induction false} TargetOfColumns(rows: seq<FkRow>, rejected: set<string>, cols: Option<set<string>>,
                                           stname: string, columns: seq<Column>, target: string)
    ensures target in TargetsOf(rows, rejected, cols, stname, columns) <==>
            exists stmt :: stmt in ForeignKeysOf(rows, rejected, stname, columns) && Refers(cols, stmt, target)
  {
    if columns != [] {
      var init, last := columns[..|columns| - 1], StcnameOf(stname, columns[|columns| - 1].cname);
      hide ColumnTargets, ColumnForeignKey, StcnameOf, Refers;
      TargetOfColumns(rows, rejected, cols, stname, init, target);
      TargetOfColumn(rows, rejected, cols, last, target);
      assert forall stmt :: stmt in ForeignKeysOf(rows, rejected, stname, columns) <==>
               stmt in ForeignKeysOf(rows, rejected, stname, init) || stmt in ColumnForeignKey(rows, rejected, last);
    }
  }

  lemma KeysOfTable(meta: Meta, rejected: set<string>, usage: Usage, stname: string, stmt: Stmt, target: string)
    requires WellNamed(meta) && stname != "" && RunSafety.FromForeignKeys(meta, rejected, stname, stmt)
    ensures Refers(usage.KnownCols(stname), stmt, target) <==> RefersTo(usage, stmt, target)
  {
    var columns := meta.tables[stname];
    RunSafety.InForeignKeys(meta.fks, rejected, stname, columns, stmt);
    hide ForeignKeysOf, ColumnForeignKey, StcnameOf, StnameOf, CnameOf;
    var i :| 0 <= i < |columns| && stmt in ColumnForeignKey(meta.fks, rejected, StcnameOf(stname, columns[i].cname));
    TargetOfColumn(meta.fks, rejected, None, StcnameOf(stname, columns[i].cname), target);
    HidableRecords.OwnColumn(meta, stname, i);
  }

  lemma TargetOfTable(meta: Meta, rejected: set<string>, usage: Usage, stname: string, target: string)
    requires WellNamed(meta) && stname != ""
    ensures target in TableTargets(meta, rejected, usage, stname) <==>
            exists stmt :: RunSafety.FromForeignKeys(meta, rejected, stname, stmt) && RefersTo(usage, stmt, target)
  {
    if stname in meta.tables {
      TargetOfColumns(meta.fks, rejected, usage.KnownCols(stname), stname, meta.tables[stname], target);
      hide TargetsOf, ForeignKeysOf, Refers, RefersTo, WellNamed;
      forall stmt | RunSafety.FromForeignKeys(meta, rejected, stname, stmt)
        ensures Refers(usage.KnownCols(stname), stmt, target) <==> RefersTo(usage, stmt, target)
      {
        KeysOfTable(meta, rejected, usage, stname, stmt, target);
      }
    }
  }

  lemma {:induction false} TargetOfRun(meta: Meta, rejected: set<string>, usage: Usage, stnames: seq<string>,
                                       target: string)
    requires WellNamed(meta) && "" !in stnames
    ensures target in RunTargets(meta, rejected, usage, stnames) <==>
            exists t, stmt :: t in stnames && RunSafety.FromForeignKeys(meta, rejected, t, stmt) &&
              RefersTo(usage, stmt, target)
  {
    hide TableTargets, RunSafety.FromForeignKeys, RefersTo, WellNamed;
    if stnames != [] {
      var init, last := stnames[..|stnames| - 1], stnames[|stnames| - 1];
      Unsnoc(stnames);
      TargetOfRun(meta, rejected, usage, init, target);
      TargetOfTable(meta, rejected, usage, last, target);
    }
  }

  /**
   * A table is warned about exactly when it is not used, and a foreign key that the run writes
   * for a used column refers to it.
   */
  lemma TargetWarnedExactlyWhen(meta: Meta, rejected: set<string>, usage: Usage, target: string)
    requires WellNamed(meta) && usage.Valid()
    ensures TargetMsg(target) == Msg(0, "", "", "FK target table " + target + " used but undefined")
    ensures target in MissingTargets(meta, rejected, usage) <==>
            target !in usage.cols &&
            exists stmt :: stmt in RunLog(meta, rejected, usage.stnames) && RefersTo(usage, stmt, target)
  {
    var used := usage.stnames;
    TargetOfRun(meta, rejected, usage, used, target);
    hide RunTargets, RunLog, RunSafety.FromForeignKeys, Usage.UsesColumn, StnameOf, WellNamed;
    forall stmt: Stmt | stmt.AddForeignKey?
      ensures stmt in RunLog(meta, rejected, used) <==>
              exists t :: t in used && RunSafety.FromForeignKeys(meta, rejected, t, stmt)
    {
      RunSafety.InRunLog(meta, rejected, used, stmt);
    }
  }
}
