/**
 * CREATE TABLE emission: columns and rejection comments separated by commas, the primary
 * key, and line numbers recorded for the messages of each column.
 */
module CreateTable {
  import opened Common
  import opened Names
  import opened Ochain

  /** What the datatype rules made of a column: its DDL text, or a rejection of its type. */
  datatype Outcome = Accepted(text: string) | Rejected(typeName: string)

  datatype Column = Column(cname: string, outcome: Outcome, msgs: seq<string>)

  datatype Msg = Msg(lineno: nat, stname: string, cname: string, text: string)

  // ------------------------------------------------------------------ items

  datatype Item = Comma | ColumnItem(text: string) | CommentItem(text: string) | PkItem(pk: seq<string>)

  function Render(item: Item): string {
    match item
    case Comma => ",\n"
    case ColumnItem(text) => text
    case CommentItem(text) => text + "\n"
    case PkItem(pk) => "PRIMARY KEY(" + Join(pk, ",") + ")\n"
  }

  function RenderAll(items: seq<Item>): string {
    if items == [] then "" else RenderAll(items[..|items| - 1]) + Render(items[|items| - 1])
  }

  lemma {:induction false} RenderAppend(a: seq<Item>, b: seq<Item>)
    ensures RenderAll(a + b) == RenderAll(a) + RenderAll(b)
  {
    if b == [] {
      AppendEmpty(a);
      AppendEmpty(RenderAll(a));
    } else {
      assert (a + b)[..|a + b| - 1] == a + b[..|b| - 1];
      RenderAppend(a, b[..|b| - 1]);
      AppendAssoc(RenderAll(a), RenderAll(b[..|b| - 1]), Render(b[|b| - 1]));
    }
  }

  lemma RenderOne(item: Item)
    ensures RenderAll([item]) == Render(item)
  {
    assert [item][..0] == [];
    AppendEmpty(Render(item));
  }

  function RejectionComment(stname: string, column: Column): string
    requires column.outcome.Rejected?
  {
    "/* column " + StcnameOf(stname, column.cname) + ": data type " + column.outcome.typeName + " rejected! */"
  }

  function ItemOf(stname: string, column: Column): Item {
    match column.outcome
    case Accepted(text) => ColumnItem(text)
    case Rejected(_) => CommentItem(RejectionComment(stname, column))
  }

  predicate LastAccepted(columns: seq<Column>) {
    columns != [] && columns[|columns| - 1].outcome.Accepted?
  }

  predicate AnyAccepted(columns: seq<Column>) {
    exists i :: 0 <= i < |columns| && columns[i].outcome.Accepted?
  }

  /** A comma goes in front of the next item only if the last one was a column. */
  function Separator(columns: seq<Column>): seq<Item> {
    if LastAccepted(columns) then [Comma] else []
  }

  function Items(stname: string, columns: seq<Column>): seq<Item> {
    if columns == [] then []
    else
      var init := columns[..|columns| - 1];
      Items(stname, init) + Separator(init) + [ItemOf(stname, columns[|columns| - 1])]
  }

  function PkItems(columns: seq<Column>, pk: seq<string>): seq<Item> {
    if pk == [] then [] else Separator(columns) + [PkItem(pk)]
  }

  function Header(stname: string): string {
    "\nCREATE TABLE " + stname + "("
  }

  /** The text in front of the item of the column that follows `columns`. */
  function TextBefore(stname: string, columns: seq<Column>): string {
    Header(stname) + RenderAll(Items(stname, columns) + Separator(columns))
  }

  function TableText(stname: string, columns: seq<Column>, pk: seq<string>): string {
    Header(stname) + RenderAll(Items(stname, columns) + PkItems(columns, pk)) + ");\n"
  }

  // ------------------------------------------------------------ emptied tables

  /** Position of the first newline at or after `from`; the length when there is none. */
  function FindNewline(s: string, from: nat): (pos: nat)
    requires from <= |s|
    ensures from <= pos <= |s|
    ensures forall i :: from <= i < pos ==> s[i] != '\n'
    ensures pos < |s| ==> s[pos] == '\n'
    decreases |s| - from
  {
    if from == |s| || s[from] == '\n' then from else FindNewline(s, from + 1)
  }

  function CommentedLine(line: string): string {
    if line == "" then "\n" else "-- " + line + "\n"
  }

  /** Every complete line from a position on, as a comment unless it is empty. */
  function CommentOut(s: string, from: nat): string
    requires from <= |s|
    decreases |s| - from
  {
    var pos := FindNewline(s, from);
    if pos == |s| then "" else CommentedLine(s[from..pos]) + CommentOut(s, pos + 1)
  }

  function EmptiedNote(stname: string): string {
    "-- table " + stname + " emptied!\n"
  }

  /** What a table adds to the output: its text, or every line of it commented out. */
  function TableOutput(stname: string, columns: seq<Column>, pk: seq<string>): string {
    var text := TableText(stname, columns, pk);
    if AnyAccepted(columns) then text else CommentOut(text, 0) + EmptiedNote(stname)
  }

  // ------------------------------------------------------------------ messages

  function ColumnMsgs(lineno: nat, stname: string, column: Column): (msgs: seq<Msg>)
    ensures |msgs| == |column.msgs|
    ensures forall i :: 0 <= i < |msgs| ==> msgs[i] == Msg(lineno, stname, column.cname, column.msgs[i])
  {
    seq(|column.msgs|, i requires 0 <= i < |column.msgs| => Msg(lineno, stname, column.cname, column.msgs[i]))
  }

  /** The line, in a body of which `lines` are already written, where the next column begins. */
  function LineAfter(lines: nat, stname: string, columns: seq<Column>): nat {
    1 + lines + CountNewlines(TextBefore(stname, columns))
  }

  function Messages(lines: nat, stname: string, columns: seq<Column>): seq<Msg> {
    if columns == [] then []
    else
      var init := columns[..|columns| - 1];
      Messages(lines, stname, init) + ColumnMsgs(LineAfter(lines, stname, init), stname, columns[|columns| - 1])
  }

  function RejectedNames(columns: seq<Column>): seq<string> {
    if columns == [] then []
    else
      var last := columns[|columns| - 1];
      RejectedNames(columns[..|columns| - 1]) + if last.outcome.Rejected? then [last.cname] else []
  }

  // ------------------------------------------------------- HSQLDB table migrator

  function RemoveFirst(names: seq<string>, name: string): seq<string> {
    if names == [] then [] else if names[0] == name then names[1..] else [names[0]] + RemoveFirst(names[1..], name)
  }

  /** The key columns left when the rejected ones are erased one by one. */
  function RemainingPk(pk: seq<string>, columns: seq<Column>): seq<string> {
    if columns == [] then pk
    else
      var last := columns[|columns| - 1];
      var left := RemainingPk(pk, columns[..|columns| - 1]);
      if last.outcome.Rejected? then RemoveFirst(left, last.cname) else left
  }

  /** The loop erasing a name from a vector, which stops at the first one. */
  method EraseFirst(names: seq<string>, name: string) returns (left: seq<string>)
    ensures left == RemoveFirst(names, name)
  {
    TakeAll(names);
    AppendEmpty(RemoveFirst(names, name));
    for i := 0 to |names|
      invariant RemoveFirst(names, name) == names[..i] + RemoveFirst(names[i..], name)
    {
      RemoveStep(names, i, name);
      if names[i] == name {
        return names[..i] + names[i + 1..];
      }
    }
    AppendEmpty(names);
    left := names;
  }

  class HsqldbTableMigrator {
    var pkCnames: seq<string>
    var filterPkColumnsCalled: bool

    constructor (pkCnames: seq<string>)
      ensures this.pkCnames == pkCnames && !filterPkColumnsCalled
    {
      this.pkCnames, filterPkColumnsCalled := pkCnames, false;
    }

    /** `migrate_datatype_ddl`, after the datatype rules: a rejected column leaves the key. */
    method MigrateDatatype(column: Column)
      modifies this`pkCnames
      ensures pkCnames == if column.outcome.Rejected? then RemoveFirst(old(pkCnames), column.cname) else old(pkCnames)
    {
      if column.outcome.Rejected? {
        pkCnames := EraseFirst(pkCnames, column.cname);
      }
    }

    /** `filter_pk_columns`: a logic error the second time. */
    method FilterPkColumns() returns (r: Option<seq<string>>)
      modifies this
      ensures old(filterPkColumnsCalled) ==> r == None && pkCnames == old(pkCnames)
      ensures !old(filterPkColumnsCalled) ==> r == Some(old(pkCnames)) && pkCnames == []
      ensures filterPkColumnsCalled
    {
      if filterPkColumnsCalled {
        return None;
      }
      filterPkColumnsCalled := true;
      r := Some(pkCnames);
      pkCnames := [];
    }
  }

  lemma RemoveStep(names: seq<string>, i: nat, name: string)
    requires i < |names|
    ensures names[..i] + RemoveFirst(names[i..], name) ==
            if names[i] == name then names[..i] + names[i + 1..] else names[..i + 1] + RemoveFirst(names[i + 1..], name)
  {
    assert names[i..][1..] == names[i + 1..];
    assert names[..i + 1] == names[..i] + [names[i]];
    AppendAssoc(names[..i], [names[i]], RemoveFirst(names[i + 1..], name));
  }

  // ---------------------------------------------------------- imperative code

  /** One line of an emptied table. */
  method WriteLine(line: string, coc: CounterOchain)
    requires coc.Valid()
    modifies coc
    ensures coc.Valid() && coc.sink == old(coc.sink) + CommentedLine(line)
  {
    ghost var before := coc.sink;
    if line != "" {
      coc.Write("-- " + line);
    } else {
      AppendEmpty(coc.sink);
    }
    ghost var middle := coc.sink;
    coc.Write("\n");
    WroteLine(before, line, middle, coc.sink);
  }

  /** The line-by-line loop over an emptied table's text. */
  method WriteCommented(text: string, coc: CounterOchain)
    requires coc.Valid()
    modifies coc
    ensures coc.Valid() && coc.sink == old(coc.sink) + CommentOut(text, 0)
  {
    hide *;
    ghost var before := coc.sink;
    var linePos := 0;
    var pos := FindNewline(text, linePos);
    while pos != |text|
      invariant linePos <= pos <= |text| && pos == FindNewline(text, linePos)
      invariant coc.Valid() && before + CommentOut(text, 0) == coc.sink + CommentOut(text, linePos)
      decreases |text| - linePos
    {
      ghost var written := coc.sink;
      WriteLine(text[linePos..pos], coc);
      CommentedUpTo(written, text, linePos, coc.sink);
      linePos := pos + 1;
      pos := FindNewline(text, linePos);
    }
    CommentOutStep(text, linePos);
    AppendEmpty(coc.sink);
  }

  lemma CommentOutStep(s: string, from: nat)
    requires from <= |s|
    ensures var pos := FindNewline(s, from);
            CommentOut(s, from) == if pos == |s| then "" else CommentedLine(s[from..pos]) + CommentOut(s, pos + 1)
  {
  }

  lemma CommentedUpTo(before: string, text: string, from: nat, after: string)
    requires from <= |text| && FindNewline(text, from) < |text|
    requires after == before + CommentedLine(text[from..FindNewline(text, from)])
    ensures before + CommentOut(text, from) == after + CommentOut(text, FindNewline(text, from) + 1)
  {
    CommentOutStep(text, from);
    var pos := FindNewline(text, from);
    CarryOver(before, CommentedLine(text[from..pos]), CommentOut(text, pos + 1), CommentOut(text, from), after);
  }

  lemma CarryOver(before: string, line: string, rest: string, all: string, after: string)
    requires all == line + rest && after == before + line
    ensures before + all == after + rest
  {
  }

  lemma WroteLine(before: string, line: string, middle: string, after: string)
    requires middle == before + if line != "" then "-- " + line else ""
    requires after == middle + "\n"
    ensures after == before + CommentedLine(line)
  {
    if line != "" {
      AppendAssoc(before, "-- " + line, "\n");
    }
  }

  method WriteItem(table: CounterOchain, item: Item, ghost header: string, ghost items: seq<Item>)
    requires table.Valid() && table.sink == header + RenderAll(items)
    modifies table
    ensures table.Valid() && table.sink == header + RenderAll(items + [item])
  {
    WriteRendered(table, Render(item), item, header, items);
  }

  method WriteRendered(table: CounterOchain, text: string, ghost item: Item, ghost header: string,
                       ghost items: seq<Item>)
    requires table.Valid() && table.sink == header + RenderAll(items) && text == Render(item)
    modifies table
    ensures table.Valid() && table.sink == header + RenderAll(items + [item])
  {
    hide *;
    RenderAppend(items, [item]);
    RenderOne(item);
    AppendAssoc(header, RenderAll(items), Render(item));
    table.Write(text);
  }

  lemma ItemsSnoc(stname: string, done: seq<Column>, column: Column)
    ensures Items(stname, done + [column]) == Items(stname, done) + Separator(done) + [ItemOf(stname, column)]
  {
    assert (done + [column])[..|done|] == done;
  }

  /** The comma in front of an item, if the last one was a column. */
  method WriteSeparator(stname: string, prev: bool, table: CounterOchain, ghost done: seq<Column>)
    requires table.Valid() && table.sink == Header(stname) + RenderAll(Items(stname, done))
    requires prev <==> LastAccepted(done)
    modifies table
    ensures table.Valid() && table.sink == Header(stname) + RenderAll(Items(stname, done) + Separator(done))
  {
    assert Separator(done) == if prev then [Comma] else [];
    hide *;
    if prev {
      WriteItem(table, Comma, Header(stname), Items(stname, done));
    } else {
      AppendEmpty(Items(stname, done));
    }
  }

  /** One round of the column loop. */
  method WriteColumn(stname: string, column: Column, prev: bool, table: CounterOchain, ghost done: seq<Column>)
    returns (lineno: nat)
    requires table.Valid() && table.sink == Header(stname) + RenderAll(Items(stname, done))
    requires prev <==> LastAccepted(done)
    modifies table
    ensures table.Valid() && table.sink == Header(stname) + RenderAll(Items(stname, done + [column]))
    ensures lineno == LineAfter(table.startLines, stname, done)
  {
    ItemsSnoc(stname, done, column);
    assert ItemOf(stname, column) ==
           if column.outcome.Rejected? then CommentItem(RejectionComment(stname, column))
           else ColumnItem(column.outcome.text);
    assert column.outcome.Accepted? ==> Render(ItemOf(stname, column)) == column.outcome.text;
    hide Items, Separator, RenderAll, Render, LastAccepted, Header, ItemOf, CountNewlines, RejectionComment;
    WriteSeparator(stname, prev, table, done);
    lineno := 1 + table.lines;
    ghost var items := Items(stname, done) + Separator(done);
    if column.outcome.Rejected? {
      WriteItem(table, CommentItem(RejectionComment(stname, column)), Header(stname), items);
    } else {
      var text := new CounterOchain(0, 0);
      text.Write(column.outcome.text);
      MergeItem(table, text, ItemOf(stname, column), Header(stname), items);
    }
  }

  method MergeItem(table: CounterOchain, text: CounterOchain, ghost item: Item, ghost header: string,
                   ghost items: seq<Item>)
    requires table.Valid() && table.sink == header + RenderAll(items) && text.sink == Render(item) && text != table
    modifies table
    ensures table.Valid() && table.sink == header + RenderAll(items + [item])
  {
    hide *;
    RenderAppend(items, [item]);
    RenderOne(item);
    AppendAssoc(header, RenderAll(items), Render(item));
    AppendEmpty(table.sink);
    text.MergeInto(table, false);
  }

  datatype Migration = Migration(rejected: seq<string>, pk: seq<string>, msgs: seq<Msg>)

  method WritePkItem(table: CounterOchain, pk: seq<string>, ghost header: string, ghost items: seq<Item>)
    requires table.Valid() && table.sink == header + RenderAll(items)
    modifies table
    ensures table.Valid() && table.sink == header + RenderAll(items + [PkItem(pk)])
  {
    hide *;
    ghost var before := table.sink;
    table.Write("PRIMARY KEY(");
    WriteNames(pk, table);
    table.Write(")\n");
    PkRendered(before, pk);
    RenderAppend(items, [PkItem(pk)]);
    RenderOne(PkItem(pk));
    AppendAssoc(header, RenderAll(items), Render(PkItem(pk)));
  }

  lemma PkRendered(before: string, pk: seq<string>)
    ensures before + "PRIMARY KEY(" + Join(pk, ",") + ")\n" == before + Render(PkItem(pk))
  {
    hide Join;
    var names := Join(pk, ",");
    assert Render(PkItem(pk)) == "PRIMARY KEY(" + names + ")\n";
  }

  /** The key clause, and the end of the statement. */
  method WritePk(stname: string, pk: seq<string>, prev: bool, table: CounterOchain, ghost columns: seq<Column>)
    requires table.Valid() && table.sink == Header(stname) + RenderAll(Items(stname, columns))
    requires prev <==> LastAccepted(columns)
    modifies table
    ensures table.Valid() && table.sink == TableText(stname, columns, pk)
  {
    ghost var items := Items(stname, columns);
    assert PkItems(columns, pk) == if pk == [] then [] else Separator(columns) + [PkItem(pk)];
    assert TableText(stname, columns, pk) == Header(stname) + RenderAll(items + PkItems(columns, pk)) + ");\n";
    hide *;
    if pk != [] {
      WriteSeparator(stname, prev, table, columns);
      AppendAssoc(items, Separator(columns), [PkItem(pk)]);
      WritePkItem(table, pk, Header(stname), items + Separator(columns));
    } else {
      AppendEmpty(items);
    }
    table.Write(");\n");
  }

  /** The finished table goes to the output, line by line as comments if it kept no column. */
  method WriteTable(stname: string, table: CounterOchain, unrejectedColumn: bool, coc: CounterOchain,
                    ghost columns: seq<Column>, ghost pk: seq<string>)
    requires table.Valid() && coc.Valid() && table != coc
    requires table.sink == TableText(stname, columns, pk) && (unrejectedColumn <==> AnyAccepted(columns))
    modifies coc
    ensures coc.Valid() && coc.sink == old(coc.sink) + TableOutput(stname, columns, pk)
  {
    assert TableOutput(stname, columns, pk) ==
           if unrejectedColumn then table.sink else CommentOut(table.sink, 0) + EmptiedNote(stname);
    hide *;
    if unrejectedColumn {
      AppendEmpty(coc.sink);
      table.MergeInto(coc, false);
    } else {
      ghost var before := coc.sink;
      WriteCommented(table.sink, coc);
      coc.Write(EmptiedNote(stname));
      AppendAssoc(before, CommentOut(table.sink, 0), EmptiedNote(stname));
    }
  }

  /** What one more column adds to each result. */
  lemma MoreColumns(lines: nat, stname: string, pk: seq<string>, done: seq<Column>, column: Column)
    ensures AnyAccepted(done + [column]) <==> AnyAccepted(done) || column.outcome.Accepted?
    ensures LastAccepted(done + [column]) <==> column.outcome.Accepted?
    ensures RejectedNames(done + [column]) == RejectedNames(done) +
            if column.outcome.Rejected? then [column.cname] else []
    ensures RemainingPk(pk, done + [column]) ==
            if column.outcome.Rejected? then RemoveFirst(RemainingPk(pk, done), column.cname) else RemainingPk(pk, done)
    ensures Messages(lines, stname, done + [column]) ==
            Messages(lines, stname, done) + ColumnMsgs(LineAfter(lines, stname, done), stname, column)
  {
    AcceptedSnoc(done, column);
    assert (done + [column])[..|done|] == done;
    hide AnyAccepted, RemoveFirst, LineAfter, ColumnMsgs;
  }

  /** The column loop. */
  method WriteColumns(stname: string, columns: seq<Column>, migrator: HsqldbTableMigrator, table: CounterOchain)
    returns (rejected: seq<string>, msgs: seq<Msg>, unrejectedColumn: bool, prev: bool)
    requires table.Valid() && table.sink == Header(stname)
    modifies table, migrator`pkCnames
    ensures table.Valid() && table.sink == Header(stname) + RenderAll(Items(stname, columns))
    ensures migrator.pkCnames == RemainingPk(old(migrator.pkCnames), columns)
    ensures rejected == RejectedNames(columns) && msgs == Messages(table.startLines, stname, columns)
    ensures (unrejectedColumn <==> AnyAccepted(columns)) && (prev <==> LastAccepted(columns))
  {
    ghost var pk, lines := migrator.pkCnames, table.startLines;
    StartTable(lines, stname, pk);
    TakeNone(columns);
    rejected, msgs, unrejectedColumn, prev := [], [], false, false;
    hide *;
    for i := 0 to |columns|
      invariant table.Valid() && table.sink == Header(stname) + RenderAll(Items(stname, columns[..i]))
      invariant migrator.pkCnames == RemainingPk(pk, columns[..i])
      invariant rejected == RejectedNames(columns[..i]) && msgs == Messages(lines, stname, columns[..i])
      invariant (unrejectedColumn <==> AnyAccepted(columns[..i])) && (prev <==> LastAccepted(columns[..i]))
    {
      var column := columns[i];
      TakeSnoc(columns, i);
      MoreColumns(lines, stname, pk, columns[..i], column);
      migrator.MigrateDatatype(column);
      var lineno := WriteColumn(stname, column, prev, table, columns[..i]);
      if column.outcome.Rejected? {
        rejected := rejected + [column.cname];
        prev := false;
      } else {
        AppendEmpty(rejected);
        unrejectedColumn := true;
        prev := true;
      }
      msgs := msgs + ColumnMsgs(lineno, stname, column);
    }
    TakeAll(columns);
  }

  /** `migrate_create_table_ddl` with the HSQLDB table migrator. */
  method MigrateCreateTable(stname: string, columns: seq<Column>, pkCnames: seq<string>, coc: CounterOchain)
    returns (m: Migration)
    requires coc.Valid()
    modifies coc
    ensures coc.Valid()
    ensures m.rejected == RejectedNames(columns) && m.pk == RemainingPk(pkCnames, columns)
    ensures m.msgs == Messages(old(coc.lines), stname, columns)
    ensures coc.sink == old(coc.sink) + TableOutput(stname, columns, m.pk)
  {
    hide *;
    var table := new CounterOchain(coc.characters, coc.lines);
    table.Write(Header(stname));
    AppendEmpty(Header(stname));
    var migrator := new HsqldbTableMigrator(pkCnames);
    var rejected, msgs, unrejectedColumn, prev := WriteColumns(stname, columns, migrator, table);
    var filtered := migrator.FilterPkColumns();
    WritePk(stname, filtered.value, prev, table, columns);
    WriteTable(stname, table, unrejectedColumn, coc, columns, filtered.value);
    m := Migration(rejected, filtered.value, msgs);
  }

  lemma StartTable(lines: nat, stname: string, pk: seq<string>)
    ensures Header(stname) == Header(stname) + RenderAll(Items(stname, []))
    ensures !LastAccepted([]) && !AnyAccepted([]) && RejectedNames([]) == []
    ensures RemainingPk(pk, []) == pk && Messages(lines, stname, []) == []
  {
    AppendEmpty(Header(stname));
  }

  lemma AcceptedSnoc(columns: seq<Column>, column: Column)
    ensures AnyAccepted(columns + [column]) <==> AnyAccepted(columns) || column.outcome.Accepted?
  {
    var all := columns + [column];
    assert all[|columns|] == column && forall i :: 0 <= i < |columns| ==> all[i] == columns[i];
  }
}
