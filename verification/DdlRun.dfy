/**
 * What a run over the used tables should write: statements computed directly from the
 * metadata and the set of rejected columns, with no hidden flags and no index.
 */
module DdlRun {
  import opened Common
  import opened CreateTable
  import opened FkRows
  import opened Names
  import opened Ochain
  import opened SortedNames
  import Quoting
  import RowRuns

  datatype CheckRec = CheckRec(name: string, clause: string)

  /** The loaded metadata: tables with their columns, and constraints keyed by column. */
  datatype Meta = Meta(
    tables: map<string, seq<Column>>,
    pk: set<string>,
    checks: map<string, seq<CheckRec>>,
    uniques: map<string, seq<string>>,
    fks: seq<FkRow>)

  datatype Stmt =
    | Blank
    | CreateSchema(schema: string)
    | CreateTableStmt(stname: string, columns: seq<Column>, pk: seq<string>)
    | AddCheck(stcname: string, name: string, clause: string)
    | AddUnique(stname: string, cnames: seq<string>, name: string)
    | AddForeignKey(stcname: string, ref: string)

  function RenderStmt(stmt: Stmt): string {
    match stmt
    case Blank => "\n"
    case CreateSchema(schema) => "CREATE SCHEMA " + schema + ";\n"
    case CreateTableStmt(stname, columns, pk) => TableOutput(stname, columns, pk)
    case AddCheck(stcname, name, clause) =>
      "ALTER TABLE " + StnameOf(stcname) + " ADD CONSTRAINT " + name + " CHECK(" + Quoting.Escape(clause, '\'') + ");\n"
    case AddUnique(stname, cnames, name) =>
      "ALTER TABLE " + stname + " ADD CONSTRAINT " + name + " UNIQUE(" + Join(cnames, ",") + ");\n"
    case AddForeignKey(stcname, ref) =>
      "ALTER TABLE " + StnameOf(stcname) + " ADD FOREIGN KEY(" + ColumnName(stcname) + ") REFERENCES " +
      StnameOf(ref) + "(" + ColumnName(ref) + ");\n"
  }

  function RenderLog(log: seq<Stmt>): string {
    if log == [] then "" else RenderLog(log[..|log| - 1]) + RenderStmt(log[|log| - 1])
  }

  lemma LogSnoc(before: string, log: seq<Stmt>, stmt: Stmt)
    ensures before + RenderLog(log + [stmt]) == before + RenderLog(log) + RenderStmt(stmt)
  {
    assert (log + [stmt])[..|log|] == log;
    hide RenderStmt;
    AppendAssoc(before, RenderLog(log), RenderStmt(stmt));
  }

  lemma {:induction false} LogAppend(before: string, a: seq<Stmt>, b: seq<Stmt>)
    ensures before + RenderLog(a + b) == before + RenderLog(a) + RenderLog(b)
  {
    hide RenderStmt;
    if b == [] {
      AppendEmpty(a);
      AppendEmpty(before + RenderLog(a));
    } else {
      var init, last := b[..|b| - 1], b[|b| - 1];
      LogAppend(before, a, init);
      assert b == init + [last];
      AppendAssoc(a, init, [last]);
      LogSnoc(before, a + init, last);
      hide RenderLog;
      LogSnoc(before + RenderLog(a), init, last);
    }
  }

  /** Constraints of a table stand behind an empty line, if there are any. */
  function Lead(stmts: seq<Stmt>): seq<Stmt> {
    if stmts == [] then [] else [Blank] + stmts
  }

  // -------------------------------------------------------------- what is rejected

  /** The keys of a table's rejected columns. */
  function RejectedKeys(stname: string, columns: seq<Column>): set<string> {
    set i | 0 <= i < |columns| && columns[i].outcome.Rejected? :: StcnameOf(stname, columns[i].cname)
  }

  /** The keys of the rejected columns of those of the tables that are defined. */
  function RejectedBy(tables: map<string, seq<Column>>, stnames: seq<string>): set<string> {
    if stnames == [] then {}
    else
      RejectedBy(tables, stnames[..|stnames| - 1]) +
      var last := stnames[|stnames| - 1];
      if last in tables then RejectedKeys(last, tables[last]) else {}
  }

  // ------------------------------------------------------------------- constraints

  function AddChecks(stcname: string, recs: seq<CheckRec>): seq<Stmt> {
    if recs == [] then []
    else
      var last := recs[|recs| - 1];
      AddChecks(stcname, recs[..|recs| - 1]) + [AddCheck(stcname, last.name, last.clause)]
  }

  function ColumnChecks(meta: Meta, rejected: set<string>, stcname: string): seq<Stmt> {
    if stcname in rejected || stcname !in meta.checks then [] else AddChecks(stcname, meta.checks[stcname])
  }

  /** The checks of the columns that are not rejected, in table order. */
  function ChecksOf(meta: Meta, rejected: set<string>, stname: string, columns: seq<Column>): seq<Stmt> {
    if columns == [] then []
    else
      ChecksOf(meta, rejected, stname, columns[..|columns| - 1]) +
      ColumnChecks(meta, rejected, StcnameOf(stname, columns[|columns| - 1].cname))
  }

  function ColumnPairs(meta: Meta, rejected: set<string>, stname: string, cname: string): seq<RowRuns.Row<string>> {
    var stcname := StcnameOf(stname, cname);
    if stcname in rejected || stcname !in meta.uniques then [] else PairsOf(meta.uniques[stcname], cname)
  }

  function PairsOf(names: seq<string>, cname: string): seq<RowRuns.Row<string>> {
    seq(|names|, i requires 0 <= i < |names| => RowRuns.Row(names[i], cname))
  }

  /** Constraint name and column, for the columns that are not rejected. */
  function UniquePairs(meta: Meta, rejected: set<string>, stname: string,
                       columns: seq<Column>): seq<RowRuns.Row<string>>
  {
    if columns == [] then []
    else
      UniquePairs(meta, rejected, stname, columns[..|columns| - 1]) +
      ColumnPairs(meta, rejected, stname, columns[|columns| - 1].cname)
  }

  /** The constraint names, each once. */
  function PairNames(pairs: seq<RowRuns.Row<string>>): seq<string> {
    if pairs == [] then []
    else
      var init, last := PairNames(pairs[..|pairs| - 1]), pairs[|pairs| - 1].key;
      if last in init then init else init + [last]
  }

  function AddUniques(stname: string, pairs: seq<RowRuns.Row<string>>, names: seq<string>): seq<Stmt> {
    if names == [] then []
    else
      var name := names[|names| - 1];
      AddUniques(stname, pairs, names[..|names| - 1]) + [AddUnique(stname, RowRuns.Filter(pairs, name), name)]
  }

  /** One statement per constraint name, in sorted order, with its columns in table order. */
  function UniquesOf(meta: Meta, rejected: set<string>, stname: string, columns: seq<Column>): seq<Stmt> {
    var pairs := UniquePairs(meta, rejected, stname, columns);
    AddUniques(stname, pairs, Sort(PairNames(pairs)))
  }

  /** The row of a source column. */
  function FkOf(rows: seq<FkRow>, source: string): (r: Option<FkRow>)
    ensures r.Some? ==> r.value in rows && r.value.source == source
    ensures r.None? <==> source !in Sources(rows)
  {
    if rows == [] then None
    else
      SourcesTail(rows);
      if rows[0].source == source then Some(rows[0]) else FkOf(rows[1..], source)
  }

  lemma SourcesTail(rows: seq<FkRow>)
    requires rows != []
    ensures Sources(rows) == {rows[0].source} + Sources(rows[1..])
    ensures forall r :: r in rows[1..] ==> r in rows
  {
    Uncons(rows);
    assert forall i :: 0 <= i < |rows[1..]| ==> rows[i + 1] == rows[1..][i];
    assert forall i :: 1 <= i < |rows| ==> rows[i] == rows[1..][i - 1];
  }

  function ColumnForeignKey(rows: seq<FkRow>, rejected: set<string>, stcname: string): seq<Stmt> {
    match FkOf(rows, stcname)
    case None => []
    case Some(row) => if Hides(rows, rejected, stcname) then [] else [AddForeignKey(stcname, row.ref)]
  }

  /** The foreign keys of a table's columns that rejecting has not hidden. */
  function ForeignKeysOf(rows: seq<FkRow>, rejected: set<string>, stname: string, columns: seq<Column>): seq<Stmt> {
    if columns == [] then []
    else
      ForeignKeysOf(rows, rejected, stname, columns[..|columns| - 1]) +
      ColumnForeignKey(rows, rejected, StcnameOf(stname, columns[|columns| - 1].cname))
  }

  // ------------------------------------------------------------------------ tables

  function PkOf(pk: set<string>, stname: string, columns: seq<Column>): seq<string> {
    if columns == [] then []
    else
      var last := columns[|columns| - 1].cname;
      PkOf(pk, stname, columns[..|columns| - 1]) + if StcnameOf(stname, last) in pk then [last] else []
  }

  /** A new schema is created, behind an empty line unless it is the first. */
  function SchemaStmts(stname: string, lastSchema: string): seq<Stmt> {
    if lastSchema == "" || SchemaName(stname) != lastSchema then
      (if lastSchema != "" then [Blank] else []) + [CreateSchema(SchemaName(stname))]
    else []
  }

  function TableStmt(meta: Meta, stname: string): Stmt
    requires stname in meta.tables
  {
    var columns := meta.tables[stname];
    CreateTableStmt(stname, columns, RemainingPk(PkOf(meta.pk, stname, columns), columns))
  }

  function TableStmts(meta: Meta, rejected: set<string>, stname: string, lastSchema: string): seq<Stmt>
    requires stname in meta.tables
  {
    SchemaStmts(stname, lastSchema) + [TableStmt(meta, stname)] +
    Lead(ChecksOf(meta, rejected, stname, meta.tables[stname])) +
    Lead(UniquesOf(meta, rejected, stname, meta.tables[stname]))
  }

  function TablesLog(meta: Meta, rejected: set<string>, stnames: seq<string>, lastSchema: string): seq<Stmt>
    decreases |stnames|
  {
    if stnames == [] then []
    else if stnames[0] in meta.tables then
      TableStmts(meta, rejected, stnames[0], lastSchema) +
      TablesLog(meta, rejected, stnames[1..], SchemaName(stnames[0]))
    else TablesLog(meta, rejected, stnames[1..], lastSchema)
  }

  function TableForeignKeys(meta: Meta, rejected: set<string>, stname: string): seq<Stmt> {
    if stname in meta.tables then Lead(ForeignKeysOf(meta.fks, rejected, stname, meta.tables[stname])) else []
  }

  /** The foreign keys of all used tables that are defined, table by table. */
  function ForeignKeysLog(meta: Meta, rejected: set<string>, stnames: seq<string>): seq<Stmt> {
    if stnames == [] then []
    else
      ForeignKeysLog(meta, rejected, stnames[..|stnames| - 1]) +
      TableForeignKeys(meta, rejected, stnames[|stnames| - 1])
  }

  /**
   * Everything a run writes, for the used tables in the order their container is iterated,
   * with `rejected` the columns rejected when the run is over.
   */
  function RunLog(meta: Meta, rejected: set<string>, used: seq<string>): seq<Stmt> {
    TablesLog(meta, rejected, Sort(used), "") + ForeignKeysLog(meta, rejected, used)
  }

  // ---------------------------------------------------------------------- messages

  const TABLE_UNDEFINED := "table used but undefined"

  const COLUMN_REJECTED := "column used but rejected"

  /**
   * What the names file says is used: the tables, in the order their container is iterated,
   * and which of their columns. `known` tells whether the file gave columns at all.
   */
  datatype Usage = Usage(stnames: seq<string>, cols: map<string, set<string>>, known: bool) {
    /** The tables are the keys of the container, and the reader of the file lets no empty name pass. */
    ghost predicate Valid() {
      EachOnce(stnames, cols.Keys) && "" !in stnames
    }

    /** `used_column` */
    predicate UsesColumn(stcname: string) {
      StnameOf(stcname) in cols && CnameOf(stcname) in cols[StnameOf(stcname)]
    }

    function KnownCols(stname: string): Option<set<string>> {
      if known && stname in cols then Some(cols[stname]) else None
    }
  }

  /** The messages about a table's rejected columns; the code sends them for the columns that are not used. */
  function RejectionMsgs(usage: Usage, stname: string, cnames: seq<string>): seq<Msg> {
    if cnames == [] then []
    else
      var last := cnames[|cnames| - 1];
      RejectionMsgs(usage, stname, cnames[..|cnames| - 1]) +
      if usage.UsesColumn(StcnameOf(stname, last)) then [] else [Msg(0, stname, last, COLUMN_REJECTED)]
  }

  /** The messages of one table, when `lines` lines of the body are already written. */
  function TableMsgs(meta: Meta, usage: Usage, stname: string, lastSchema: string, lines: nat): seq<Msg>
    requires stname in meta.tables
  {
    var columns := meta.tables[stname];
    Messages(lines + CountNewlines(RenderLog(SchemaStmts(stname, lastSchema))), stname, columns) +
    RejectionMsgs(usage, stname, RejectedNames(columns))
  }

  /** The messages of a run's tables, for a body of which `lines` lines are already written. */
  function RunMsgs(meta: Meta, usage: Usage, rejected: set<string>, stnames: seq<string>, lastSchema: string,
                   lines: nat): seq<Msg>
    decreases |stnames|
  {
    if stnames == [] then []
    else if stnames[0] in meta.tables then
      var tableLines := CountNewlines(RenderLog(TableStmts(meta, rejected, stnames[0], lastSchema)));
      TableMsgs(meta, usage, stnames[0], lastSchema, lines) +
      RunMsgs(meta, usage, rejected, stnames[1..], SchemaName(stnames[0]), lines + tableLines)
    else
      [Msg(0, stnames[0], "", TABLE_UNDEFINED)] + RunMsgs(meta, usage, rejected, stnames[1..], lastSchema, lines)
  }

  // ------------------------------------------------------------ foreign-key targets

  /** The table that a used column's foreign key refers to, unless the key is hidden. */
  function ColumnTargets(rows: seq<FkRow>, rejected: set<string>, cols: Option<set<string>>,
                         stcname: string): set<string>
  {
    match FkOf(rows, stcname)
    case None => {}
    case Some(row) =>
      if Hides(rows, rejected, stcname) || cols.None? || CnameOf(stcname) !in cols.value then {}
      else {StnameOf(row.ref)}
  }

  function TargetsOf(rows: seq<FkRow>, rejected: set<string>, cols: Option<set<string>>, stname: string,
                     columns: seq<Column>): set<string>
  {
    if columns == [] then {}
    else
      TargetsOf(rows, rejected, cols, stname, columns[..|columns| - 1]) +
      ColumnTargets(rows, rejected, cols, StcnameOf(stname, columns[|columns| - 1].cname))
  }

  function TableTargets(meta: Meta, rejected: set<string>, usage: Usage, stname: string): set<string> {
    if stname in meta.tables then TargetsOf(meta.fks, rejected, usage.KnownCols(stname), stname, meta.tables[stname])
    else {}
  }

  /** The tables that the foreign keys of the used columns refer to. */
  function RunTargets(meta: Meta, rejected: set<string>, usage: Usage, stnames: seq<string>): set<string> {
    if stnames == [] then {}
    else
      RunTargets(meta, rejected, usage, stnames[..|stnames| - 1]) +
      TableTargets(meta, rejected, usage, stnames[|stnames| - 1])
  }

  function TargetMsg(stname: string): Msg {
    Msg(0, "", "", "FK target table " + stname + " used but undefined")
  }

  function TargetMsgs(stnames: seq<string>): (msgs: seq<Msg>)
    ensures |msgs| == |stnames| && forall i :: 0 <= i < |msgs| ==> msgs[i] == TargetMsg(stnames[i])
  {
    seq(|stnames|, i requires 0 <= i < |stnames| => TargetMsg(stnames[i]))
  }

  /** The tables referred to that are not used. */
  function MissingTargets(meta: Meta, rejected: set<string>, usage: Usage): set<string> {
    RunTargets(meta, rejected, usage, usage.stnames) - usage.cols.Keys
  }

  /** The names of a set, each once, in any order. */
  ghost predicate EachOnce(names: seq<string>, all: set<string>) {
    NoRepeats(names) && forall n :: n in names <==> n in all
  }

  // ------------------------------------------------------------- well-named metadata

  /**
   * Table names and column names that compose to keys which split back into them. The tables
   * whose names normalisation rejects share the empty name, with whatever columns they have;
   * no run uses that one.
   */
  predicate WellNamed(meta: Meta) {
    forall t :: t in meta.tables ==> NamedTable(t, meta.tables[t])
  }

  predicate NamedTable(stname: string, columns: seq<Column>) {
    stname == "" || (IsStname(stname) && ColumnsNamed(columns))
  }

  predicate ColumnsNamed(columns: seq<Column>) {
    forall i :: 0 <= i < |columns| ==> IsCname(columns[i].cname)
  }

  /** A table's key is rejected only by that table. */
  lemma {:induction false} RejectedByOwner(meta: Meta, stnames: seq<string>, stname: string, cname: string)
    requires WellNamed(meta) && IsStname(stname) && IsCname(cname)
    ensures StcnameOf(stname, cname) in RejectedBy(meta.tables, stnames) <==>
            stname in stnames && stname in meta.tables &&
            StcnameOf(stname, cname) in RejectedKeys(stname, meta.tables[stname])
  {
    if stnames != [] {
      var init, last := stnames[..|stnames| - 1], stnames[|stnames| - 1];
      assert last in meta.tables ==> NamedTable(last, meta.tables[last]);
      assert stnames == init + [last];
      hide WellNamed, RejectedKeys, StcnameOf, IsStname, IsCname, NamedTable;
      RejectedByOwner(meta, init, stname, cname);
      if last in meta.tables && last != stname {
        NotTheirs(stname, cname, last, meta.tables[last]);
      }
    }
  }

  lemma NotTheirs(stname: string, cname: string, other: string, columns: seq<Column>)
    requires IsStname(stname) && IsCname(cname) && NamedTable(other, columns) && stname != other
    ensures StcnameOf(stname, cname) !in RejectedKeys(other, columns)
  {
    hide IsStname, StcnameOf, StnameOf, IsCname, CnameOf;
    if StcnameOf(stname, cname) in RejectedKeys(other, columns) {
      var i :| 0 <= i < |columns| && columns[i].outcome.Rejected? &&
        StcnameOf(stname, cname) == StcnameOf(other, columns[i].cname);
      if other == "" {
        UnnamedKey(columns[i].cname, stname, cname);
      } else {
        KeyRoundTrip(stname, cname);
        KeyRoundTrip(other, columns[i].cname);
      }
      assert false;
    }
  }
}
