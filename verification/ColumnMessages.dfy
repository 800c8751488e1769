/** The messages about columns that a run sends: all those of every used table and no others, with lines in numbers. */
module ColumnMessages {
  import opened Common
  import opened CreateTable
  import opened DdlRun
  import opened LineNumbers
  import opened Names
  import opened Ochain
  import opened RunMessages
  import opened RunProgress
  import opened SortedNames

  /** A message with this text about this column, at some line. */
  predicate Sent(msgs: seq<Msg>, stname: string, cname: string, text: string) {
    exists i :: 0 <= i < |msgs| && msgs[i].lineno > 0 && msgs[i] == Msg(msgs[i].lineno, stname, cname, text)
  }

  /** The rules had something to say about a column of this name. */
  predicate HasMessage(columns: seq<Column>, cname: string, text: string) {
    exists k :: 0 <= k < |columns| && columns[k].cname == cname && text in columns[k].msgs
  }

  lemma SentOfTwo(a: seq<Msg>, b: seq<Msg>, stname: string, cname: string, text: string)
    ensures Sent(a + b, stname, cname, text) <==> Sent(a, stname, cname, text) || Sent(b, stname, cname, text)
  {
    var all := a + b;
    assert forall i :: 0 <= i < |a| ==> a[i] == all[i];
    assert forall i :: 0 <= i < |b| ==> b[i] == all[|a| + i];
  }

  lemma HasMessageSnoc(columns: seq<Column>, last: Column, cname: string, text: string)
    ensures HasMessage(columns + [last], cname, text) <==>
            HasMessage(columns, cname, text) || (last.cname == cname && text in last.msgs)
  {
    var all := columns + [last];
    assert all[|columns|] == last && forall k :: 0 <= k < |columns| ==> columns[k] == all[k];
  }

  lemma SentOfColumn(lineno: nat, stname: string, column: Column, t: string, cname: string, text: string)
    requires lineno > 0
    ensures Sent(ColumnMsgs(lineno, stname, column), t, cname, text) <==>
            t == stname && column.cname == cname && text in column.msgs
  {
    var msgs := ColumnMsgs(lineno, stname, column);
    if text in column.msgs {
      var i :| 0 <= i < |column.msgs| && column.msgs[i] == text;
      assert msgs[i] == Msg(lineno, stname, column.cname, text);
    }
  }

  lemma LinesCountFromOne(lines: nat, stname: string, columns: seq<Column>)
    ensures LineAfter(lines, stname, columns) > 0
  {
  }

  lemma NothingSent(lines: nat, stname: string, t: string, cname: string, text: string)
    ensures !Sent(Messages(lines, stname, []), t, cname, text) && !HasMessage([], cname, text)
  {
  }

  lemma {:induction false} SentOfTable(lines: nat, stname: string, columns: seq<Column>, t: string, cname: string,
                                       text: string)
    ensures Sent(Messages(lines, stname, columns), t, cname, text) <==> t == stname && HasMessage(columns, cname, text)
    decreases |columns|
  {
    hide *;
    NothingSent(lines, stname, t, cname, text);
    if columns != [] {
      var init, last := columns[..|columns| - 1], columns[|columns| - 1];
      Unsnoc(columns);
      MessagesSnoc(lines, stname, columns);
      LinesCountFromOne(lines, stname, init);
      SentOfTable(lines, stname, init, t, cname, text);
      SentOfColumn(LineAfter(lines, stname, init), stname, last, t, cname, text);
      SentOfTwo(Messages(lines, stname, init), ColumnMsgs(LineAfter(lines, stname, init), stname, last), t, cname,
                text);
      HasMessageSnoc(init, last, cname, text);
    }
  }

  lemma RejectionsHaveNoLine(usage: Usage, stname: string, cnames: seq<string>, t: string, cname: string, text: string)
    ensures !Sent(RejectionMsgs(usage, stname, cnames), t, cname, text)
  {
    var msgs := RejectionMsgs(usage, stname, cnames);
    hide RejectionMsgs;
    forall i | 0 <= i < |msgs| ensures msgs[i].lineno == 0 {
      RejectionMsgsAre(usage, stname, cnames, i);
    }
  }

  lemma UndefinedHasNoLine(stname: string, t: string, cname: string, text: string)
    ensures !Sent([Msg(0, stname, "", TABLE_UNDEFINED)], t, cname, text)
    ensures !Sent([], t, cname, text)
  {
  }

  /** What is said about a column of a table with metadata. */
  predicate Said(meta: Meta, stname: string, cname: string, text: string) {
    stname in meta.tables && HasMessage(meta.tables[stname], cname, text)
  }

  lemma SaidIs(meta: Meta, stname: string, cname: string, text: string)
    ensures Said(meta, stname, cname, text) <==> stname in meta.tables && HasMessage(meta.tables[stname], cname, text)
  {
    hide HasMessage;
  }

  lemma SentOfDefined(meta: Meta, usage: Usage, stname: string, lastSchema: string, lines: nat, t: string,
                      cname: string, text: string)
    requires stname in meta.tables
    ensures Sent(TableMsgs(meta, usage, stname, lastSchema, lines), t, cname, text) <==>
            t == stname && Said(meta, t, cname, text)
  {
    hide *;
    SaidIs(meta, stname, cname, text);
    var columns := meta.tables[stname];
    var startLine := lines + CountNewlines(RenderLog(SchemaStmts(stname, lastSchema)));
    TableMsgsAre(meta, usage, stname, lastSchema, lines);
    SentOfTable(startLine, stname, columns, t, cname, text);
    RejectionsHaveNoLine(usage, stname, RejectedNames(columns), t, cname, text);
    SentOfTwo(Messages(startLine, stname, columns), RejectionMsgs(usage, stname, RejectedNames(columns)), t, cname,
              text);
  }

  lemma {:induction false} SentInRun(meta: Meta, usage: Usage, rejected: set<string>, stnames: seq<string>,
                                     lastSchema: string, lines: nat, t: string, cname: string, text: string)
    ensures Sent(RunMsgs(meta, usage, rejected, stnames, lastSchema, lines), t, cname, text) <==>
            t in stnames && Said(meta, t, cname, text)
    decreases |stnames|
  {
    hide *;
    NoMessages(meta, usage, rejected, lastSchema, lines);
    UndefinedHasNoLine("", t, cname, text);
    if stnames != [] {
      var first, rest := stnames[0], stnames[1..];
      Uncons(stnames);
      TablesLogStep(meta, usage, rejected, stnames, lastSchema, lines);
      if first in meta.tables {
        var behind := lines + CountNewlines(RenderLog(TableStmts(meta, rejected, first, lastSchema)));
        SentOfDefined(meta, usage, first, lastSchema, lines, t, cname, text);
        SentInRun(meta, usage, rejected, rest, SchemaName(first), behind, t, cname, text);
        SentOfTwo(TableMsgs(meta, usage, first, lastSchema, lines),
                  RunMsgs(meta, usage, rejected, rest, SchemaName(first), behind), t, cname, text);
      } else {
        SaidIs(meta, first, cname, text);
        UndefinedHasNoLine(first, t, cname, text);
        SentInRun(meta, usage, rejected, rest, lastSchema, lines, t, cname, text);
        SentOfTwo([Msg(0, first, "", TABLE_UNDEFINED)], RunMsgs(meta, usage, rejected, rest, lastSchema, lines), t,
                  cname, text);
      }
    }
  }

  /**
   * A run sends a message with a line for a column and a text exactly when the table is used and
   * defined, and the rules gave a column of that name that message.
   */
  lemma ColumnMessagesAreSent(meta: Meta, usage: Usage, rejected: set<string>, stname: string, cname: string,
                              text: string)
    ensures var msgs := RunMsgs(meta, usage, rejected, Sort(usage.stnames), "", 0);
            (exists i :: 0 <= i < |msgs| && msgs[i].lineno > 0 &&
                         msgs[i] == Msg(msgs[i].lineno, stname, cname, text)) <==>
            stname in usage.stnames && stname in meta.tables &&
            exists k :: 0 <= k < |meta.tables[stname]| && meta.tables[stname][k].cname == cname &&
                        text in meta.tables[stname][k].msgs
  {
    SortIsSort(usage.stnames);
    UniqueConstraints.SameMembers(Sort(usage.stnames), usage.stnames);
    hide RunMsgs, Sort;
    SentInRun(meta, usage, rejected, Sort(usage.stnames), "", 0, stname, cname, text);
  }

  // ------------------------------------------------------------ the lines, in numbers

  /** The text that the rules gave a column, or the type they rejected, is on one line. */
  predicate OneLined(column: Column) {
    if column.outcome.Accepted? then '\n' !in column.outcome.text else '\n' !in column.outcome.typeName
  }

  lemma NormalHasNoNewline(s: string)
    ensures '\n' !in Normalize(s)
  {
  }

  lemma EndOfLine()
    ensures CountNewlines("\n") == 1
  {
    assert "\n"[..0] == "";
  }

  lemma CommaCount()
    ensures CountNewlines(",\n") == 1
  {
    EndOfLine();
    OneLine(",");
    hide CountNewlines;
    CountAppend(",", "\n");
    assert "," + "\n" == ",\n";
  }

  lemma CommentWords()
    ensures CountNewlines("/* column ") == 0
    ensures CountNewlines(": data type ") == 0
  {
    hide *;
    assert '\n' !in "/* column ";
    OneLine("/* column ");
    assert '\n' !in ": data type ";
    OneLine(": data type ");
  }

  lemma CommentEnd()
    ensures CountNewlines(" rejected! */") == 0
  {
    hide *;
    assert '\n' !in " rejected! */";
    OneLine(" rejected! */");
  }

  lemma HeaderWords()
    ensures CountNewlines("\nCREATE TABLE ") == 1
    ensures CountNewlines("(") == 0
  {
    hide *;
    EndOfLine();
    OneLine("CREATE TABLE ");
    OneLine("(");
    CountAppend("\n", "CREATE TABLE ");
    assert "\n" + "CREATE TABLE " == "\nCREATE TABLE ";
  }

  lemma CommentIs(stname: string, column: Column)
    requires column.outcome.Rejected?
    ensures Render(ItemOf(stname, column)) ==
            "/* column " + StcnameOf(stname, column.cname) + ": data type " + column.outcome.typeName +
            " rejected! */" + "\n"
    ensures '\n' !in StcnameOf(stname, column.cname)
  {
    NormalHasNoNewline(SchemaName(stname) + "." + TableName(stname) + "." + column.cname);
    hide Normalize;
  }

  lemma CommentCount(stname: string, column: Column)
    requires column.outcome.Rejected? && '\n' !in column.outcome.typeName
    ensures CountNewlines(Render(ItemOf(stname, column))) == 1
  {
    hide *;
    var name, typeName := StcnameOf(stname, column.cname), column.outcome.typeName;
    CommentIs(stname, column);
    CommentWords();
    CommentEnd();
    EndOfLine();
    OneLine(name);
    OneLine(typeName);
    CountAppend("/* column ", name);
    CountAppend("/* column " + name, ": data type ");
    CountAppend("/* column " + name + ": data type ", typeName);
    CountAppend("/* column " + name + ": data type " + typeName, " rejected! */");
    CountAppend("/* column " + name + ": data type " + typeName + " rejected! */", "\n");
  }

  /** A column and what separates it from the next one end one line. */
  lemma ColumnEndsLine(stname: string, init: seq<Column>, column: Column)
    requires OneLined(column)
    ensures CountNewlines(Render(ItemOf(stname, column))) + CountNewlines(RenderAll(Separator(init + [column]))) == 1
  {
    assert Separator(init + [column]) == if column.outcome.Accepted? then [Comma] else [];
    assert column.outcome.Accepted? ==> Render(ItemOf(stname, column)) == column.outcome.text;
    assert RenderAll([]) == "" && CountNewlines("") == 0 && Render(Comma) == ",\n";
    hide Separator, RenderAll, CountNewlines, Render, ItemOf, StcnameOf;
    CommaCount();
    RenderOne(Comma);
    if column.outcome.Accepted? {
      OneLine(column.outcome.text);
    } else {
      CommentCount(stname, column);
    }
  }

  lemma NoColumnsCount(stname: string)
    ensures CountNewlines(RenderAll(Items(stname, []) + Separator([]))) == 0
  {
  }

  lemma {:induction false} ItemsCount(stname: string, columns: seq<Column>)
    requires forall i :: 0 <= i < |columns| ==> OneLined(columns[i])
    ensures CountNewlines(RenderAll(Items(stname, columns) + Separator(columns))) == |columns|
    decreases |columns|
  {
    hide *;
    if columns == [] {
      NoColumnsCount(stname);
    } else {
      var init, last := columns[..|columns| - 1], columns[|columns| - 1];
      Unsnoc(columns);
      ItemsSnoc(stname, init, last);
      ItemsCount(stname, init);
      var before, item := Items(stname, init) + Separator(init), ItemOf(stname, last);
      RenderAppend(before, [item]);
      RenderOne(item);
      RenderAppend(before + [item], Separator(columns));
      CountAppend(RenderAll(before), Render(item));
      CountAppend(RenderAll(before + [item]), RenderAll(Separator(columns)));
      ColumnEndsLine(stname, init, last);
    }
  }

  lemma HeaderLine(stname: string)
    requires '\n' !in stname
    ensures CountNewlines(Header(stname)) == 1
  {
    HeaderWords();
    OneLine(stname);
    hide CountNewlines;
    CountAppend("\nCREATE TABLE ", stname);
    CountAppend("\nCREATE TABLE " + stname, "(");
  }

  lemma LineAfterIs(lines: nat, stname: string, columns: seq<Column>)
    ensures LineAfter(lines, stname, columns) ==
            1 + lines + CountNewlines(Header(stname) + RenderAll(Items(stname, columns) + Separator(columns)))
  {
    hide CountNewlines, Header, RenderAll, Items, Separator;
  }

  /**
   * Where texts, names and types are on one line, a table takes one line for each column: behind `lines` lines
   * and the empty one in front of the statement, the messages of the column of index k get the line k + 2.
   */
  lemma OneLinePerColumn(lines: nat, stname: string, columns: seq<Column>, i: nat) returns (k: nat)
    requires i < |Messages(lines, stname, columns)| && '\n' !in stname
    requires forall j :: 0 <= j < |columns| ==>
               if columns[j].outcome.Accepted? then '\n' !in columns[j].outcome.text
               else '\n' !in columns[j].outcome.typeName
    ensures k < |columns|
    ensures var msg := Messages(lines, stname, columns)[i];
            msg.lineno == lines + k + 2 && msg.stname == stname && msg.cname == columns[k].cname &&
            msg.text in columns[k].msgs
  {
    assert forall j :: 0 <= j < |columns| ==> OneLined(columns[j]);
    hide *;
    k := MessageOf(lines, stname, columns, i);
    var before := columns[..k];
    LineAfterIs(lines, stname, before);
    HeaderLine(stname);
    ItemsCount(stname, before);
    CountAppend(Header(stname), RenderAll(Items(stname, before) + Separator(before)));
  }
}
