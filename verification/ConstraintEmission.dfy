/**
 * Writing the ALTER TABLE statements of a table: its CHECK, UNIQUE and FOREIGN KEY
 * constraints, as far as the hidden flags leave them visible. The first constraint of a kind
 * goes through a stream of its own, behind an empty line.
 */
module ConstraintEmission {
  import opened Common
  import opened CreateTable
  import opened DdlRun
  import opened FkMapper
  import opened FkRows
  import opened HidableRecords
  import opened Names
  import opened Ochain
  import opened RowRuns
  import opened SortedNames
  import opened UniqueConstraints
  import Quoting

  lemma LeadSnoc(before: string, list: seq<Stmt>, stmt: Stmt)
    ensures before + RenderLog(Lead(list + [stmt])) ==
            if list == [] then before + "\n" + RenderStmt(stmt) else before + RenderLog(Lead(list)) + RenderStmt(stmt)
  {
    if list == [] {
      AppendEmpty([stmt]);
      assert RenderStmt(Blank) == "\n";
      hide RenderLog, RenderStmt;
      LogSnoc(before, [Blank], stmt);
      AppendEmpty([Blank]);
      LogSnoc(before, [], Blank);
      EmptyLog(before);
    } else {
      hide RenderLog, RenderStmt;
      AppendAssoc([Blank], list, [stmt]);
      LogSnoc(before, Lead(list), stmt);
    }
  }

  lemma EmptyLog(before: string)
    ensures before + RenderLog([]) == before
  {
    AppendEmpty(before);
  }

  lemma LeadEmpty(before: string, list: seq<Stmt>)
    ensures list == [] ==> before + RenderLog(Lead(list)) == before
  {
    AppendEmpty(before);
  }

  /** The constraints written so far, behind an empty line; `first` tells whether there are none. */
  ghost predicate Leading(coc: CounterOchain, before: string, list: seq<Stmt>, first: bool)
    reads coc
  {
    coc.Valid() && coc.sink == before + RenderLog(Lead(list)) && (first <==> list == [])
  }

  lemma NothingWritten(coc: CounterOchain)
    requires coc.Valid()
    ensures Leading(coc, coc.sink, [], true)
  {
    AppendEmpty(coc.sink);
    hide CounterOchain.Valid;
  }

  lemma Written(coc: CounterOchain, before: string, list: seq<Stmt>, first: bool)
    requires Leading(coc, before, list, first)
    ensures coc.Valid() && coc.sink == before + RenderLog(Lead(list)) && (first <==> list == [])
  {
    hide CounterOchain.Valid, RenderLog, Lead;
  }

  /** A constraint statement; the first of a table goes through a stream of its own, behind an empty line. */
  method Emit(text: string, first: bool, coc: CounterOchain, ghost before: string, ghost list: seq<Stmt>,
              ghost stmt: Stmt)
    requires Leading(coc, before, list, first) && text == RenderStmt(stmt)
    modifies coc
    ensures Leading(coc, before, list + [stmt], false)
  {
    LeadEmpty(before, list);
    LeadSnoc(before, list, stmt);
    hide RenderLog, RenderStmt, Lead, CounterOchain.Valid;
    if first {
      var own := NewStream();
      AppendEmpty(text);
      own.Write(text);
      own.MergeInto(coc, true);
    } else {
      coc.Write(text);
    }
  }

  method NewStream() returns (coc: CounterOchain)
    ensures fresh(coc) && coc.Valid() && coc.sink == "" && coc.lines == 0
  {
    coc := new CounterOchain(0, 0);
  }

  // ------------------------------------------------------------------ CHECK

  // ------------------------------------------------------------ statement texts

  method CheckText(stcname: string, rec: CheckRec) returns (text: string)
    ensures text == RenderStmt(AddCheck(stcname, rec.name, rec.clause))
  {
    hide Quoting.Escape, StnameOf;
    var quotable := Quoting.MakeQuotable(rec.clause, '\'');
    text := "ALTER TABLE " + StnameOf(stcname) + " ADD CONSTRAINT " + rec.name + " CHECK(" + quotable + ");\n";
  }

  lemma NoColumns(meta: Meta, rejected: set<string>, stname: string, columns: seq<Column>)
    ensures ChecksOf(meta, rejected, stname, columns[..0]) == [] &&
            UniquePairs(meta, rejected, stname, columns[..0]) == []
    ensures PkOf(meta.pk, stname, columns[..0]) == []
  {
  }

  lemma NoChecks(stcname: string, loaded: seq<CheckRec>, done: seq<Stmt>)
    ensures done + AddChecks(stcname, loaded[..0]) == done && done + [] == done
  {
  }

  lemma OneMoreCheck(stcname: string, loaded: seq<CheckRec>, done: seq<Stmt>, i: nat)
    requires i < |loaded|
    ensures done + AddChecks(stcname, loaded[..i + 1]) ==
            done + AddChecks(stcname, loaded[..i]) + [AddCheck(stcname, loaded[i].name, loaded[i].clause)]
  {
    assert loaded[..i + 1][..i] == loaded[..i];
    AppendAssoc(done, AddChecks(stcname, loaded[..i]), [AddCheck(stcname, loaded[i].name, loaded[i].clause)]);
  }

  lemma ChecksSnoc(meta: Meta, rejected: set<string>, stname: string, columns: seq<Column>, i: nat)
    requires i < |columns|
    ensures var stcname := StcnameOf(stname, columns[i].cname);
            ChecksOf(meta, rejected, stname, columns[..i + 1]) == ChecksOf(meta, rejected, stname, columns[..i]) +
            if stcname !in meta.checks || stcname in rejected then [] else AddChecks(stcname, meta.checks[stcname])
  {
    assert columns[..i + 1][..i] == columns[..i];
    hide AddChecks, StcnameOf;
  }

  /** The checks of one column: all of them, or none when they are hidden. */
  method EmitColumnChecks(stcname: string, recs: seq<Hidable<CheckRec>>, firstSoFar: bool, coc: CounterOchain,
                          ghost before: string, ghost done: seq<Stmt>, ghost loaded: seq<CheckRec>, ghost hidden: bool)
    returns (first: bool)
    requires recs == Mark(loaded, hidden) && Leading(coc, before, done, firstSoFar)
    modifies coc
    ensures Leading(coc, before, done + if hidden then [] else AddChecks(stcname, loaded), first)
  {
    hide *;
    NoChecks(stcname, loaded, done);
    first := firstSoFar;
    for i := 0 to |recs|
      invariant Leading(coc, before, done + if hidden then [] else AddChecks(stcname, loaded[..i]), first)
    {
      if !recs[i].hidden {
        var text := CheckText(stcname, recs[i].rec);
        OneMoreCheck(stcname, loaded, done, i);
        Emit(text, first, coc, before, done + AddChecks(stcname, loaded[..i]),
             AddCheck(stcname, loaded[i].name, loaded[i].clause));
        first := false;
      }
    }
    TakeAll(loaded);
  }

  /** `migrate_ck_constraints_ddl`: the visible checks of the visible columns. */
  method EmitChecks(stname: string, recs: seq<Hidable<Column>>, checks: map<string, seq<Hidable<CheckRec>>>,
                    coc: CounterOchain,
                    ghost meta: Meta, ghost rejected: set<string>, ghost columns: seq<Column>)
    requires coc.Valid() && ColumnsMatch(recs, stname, columns, rejected) && MarkedBy(checks, meta.checks, rejected)
    modifies coc
    ensures coc.Valid() && coc.sink == old(coc.sink) + RenderLog(Lead(ChecksOf(meta, rejected, stname, columns)))
  {
    hide *;
    ghost var before := coc.sink;
    NothingWritten(coc);
    NoColumns(meta, rejected, stname, columns);
    ColumnAt(recs, stname, columns, rejected, 0);
    var first := true;
    for i := 0 to |recs|
      invariant Leading(coc, before, ChecksOf(meta, rejected, stname, columns[..i]), first)
    {
      ColumnAt(recs, stname, columns, rejected, i);
      var stcname := StcnameOf(stname, recs[i].rec.cname);
      ghost var done := ChecksOf(meta, rejected, stname, columns[..i]);
      ChecksSnoc(meta, rejected, stname, columns, i);
      KeyMarked(checks, meta.checks, rejected, stcname);
      AppendEmpty(done);
      if !recs[i].hidden {
        if stcname in checks {
          first := EmitColumnChecks(stcname, checks[stcname], first, coc, before, done, meta.checks[stcname],
                                    stcname in rejected);
        }
      }
    }
    TakeAll(columns);
    Written(coc, before, ChecksOf(meta, rejected, stname, columns), first);
  }

  // ----------------------------------------------------------------- UNIQUE

  method UniqueText(stname: string, cnames: seq<string>, name: string) returns (text: string)
    ensures text == RenderStmt(AddUnique(stname, cnames, name))
  {
    var own := new CounterOchain(0, 0);
    var start := "ALTER TABLE " + stname + " ADD CONSTRAINT " + name + " UNIQUE(";
    UniqueRendered(start, stname, cnames, name);
    hide *;
    AppendEmpty(start);
    own.Write(start);
    WriteNames(cnames, own);
    own.Write(");\n");
    text := own.sink;
  }

  lemma UniqueRendered(start: string, stname: string, cnames: seq<string>, name: string)
    requires start == "ALTER TABLE " + stname + " ADD CONSTRAINT " + name + " UNIQUE("
    ensures start + Join(cnames, ",") + ");\n" == RenderStmt(AddUnique(stname, cnames, name))
  {
    hide Join;
  }

  lemma NothingGrouped()
    ensures Groups(map[], [])
  {
    NoRows<string>();
  }

  lemma PairsSnoc(meta: Meta, rejected: set<string>, stname: string, columns: seq<Column>, i: nat)
    requires i < |columns|
    ensures var stcname := StcnameOf(stname, columns[i].cname);
            UniquePairs(meta, rejected, stname, columns[..i + 1]) == UniquePairs(meta, rejected, stname, columns[..i]) +
            if stcname !in meta.uniques || stcname in rejected then []
            else PairsOf(meta.uniques[stcname], columns[i].cname)
  {
    assert columns[..i + 1][..i] == columns[..i];
    hide PairsOf, StcnameOf;
  }

  lemma Grouped(m: map<string, seq<string>>, pairs: seq<Row<string>>, name: string)
    requires Groups(m, pairs) && name in m
    ensures m[name] == Filter(pairs, name)
  {
  }

  lemma NoUniques(stname: string, pairs: seq<Row<string>>, names: seq<string>)
    ensures AddUniques(stname, pairs, names[..0]) == []
  {
  }

  lemma OneMoreUnique(stname: string, pairs: seq<Row<string>>, names: seq<string>, i: nat)
    requires i < |names|
    ensures AddUniques(stname, pairs, names[..i + 1]) ==
            AddUniques(stname, pairs, names[..i]) + [AddUnique(stname, Filter(pairs, names[i]), names[i])]
  {
    assert names[..i + 1][..i] == names[..i];
  }

  /** The records of one column, each added to the columns of its constraint. */
  method MapColumnUniques(m: map<string, seq<string>>, cname: string, recs: seq<Hidable<string>>,
                          ghost pairs: seq<Row<string>>, ghost loaded: seq<string>, ghost hidden: bool)
    returns (out: map<string, seq<string>>)
    requires recs == Mark(loaded, hidden) && Groups(m, pairs)
    ensures Groups(out, pairs + if hidden then [] else PairsOf(loaded, cname))
  {
    out := m;
    hide Groups;
    AppendEmpty(pairs);
    TakeAll(PairsOf(loaded, cname));
    TakeNone(PairsOf(loaded, cname));
    for i := 0 to |recs|
      invariant Groups(out, pairs + if hidden then [] else PairsOf(loaded, cname)[..i])
    {
      if !recs[i].hidden {
        var name := recs[i].rec;
        TakeSnoc(PairsOf(loaded, cname), i);
        AppendAssoc(pairs, PairsOf(loaded, cname)[..i], [Row(name, cname)]);
        GroupOneMore(out, pairs + PairsOf(loaded, cname)[..i], Row(name, cname));
        if name in out {
          out := out[name := out[name] + [cname]];
        } else {
          out := out[name := [cname]];
        }
      }
    }
  }

  /** `map_uqrec_colnames` */
  method MapUniqueColumns(stname: string, recs: seq<Hidable<Column>>, uniques: map<string, seq<Hidable<string>>>,
                          ghost meta: Meta, ghost rejected: set<string>, ghost columns: seq<Column>)
    returns (m: map<string, seq<string>>)
    requires ColumnsMatch(recs, stname, columns, rejected) && MarkedBy(uniques, meta.uniques, rejected)
    ensures Groups(m, UniquePairs(meta, rejected, stname, columns))
  {
    hide *;
    NoColumns(meta, rejected, stname, columns);
    NothingGrouped();
    ColumnAt(recs, stname, columns, rejected, 0);
    m := map[];
    for i := 0 to |recs|
      invariant Groups(m, UniquePairs(meta, rejected, stname, columns[..i]))
    {
      ColumnAt(recs, stname, columns, rejected, i);
      var cname := recs[i].rec.cname;
      var stcname := StcnameOf(stname, cname);
      ghost var pairs := UniquePairs(meta, rejected, stname, columns[..i]);
      PairsSnoc(meta, rejected, stname, columns, i);
      KeyMarked(uniques, meta.uniques, rejected, stcname);
      AppendEmpty(pairs);
      if !recs[i].hidden {
        if stcname in uniques {
          m := MapColumnUniques(m, cname, uniques[stcname], pairs, meta.uniques[stcname], stcname in rejected);
        }
      }
    }
    TakeAll(columns);
  }

  /** One statement per constraint name, with the columns the map has for it. */
  method EmitNamed(stname: string, m: map<string, seq<string>>, names: seq<string>, coc: CounterOchain,
                   ghost pairs: seq<Row<string>>)
    requires coc.Valid() && Groups(m, pairs) && forall name :: name in names ==> name in m
    modifies coc
    ensures coc.Valid() && coc.sink == old(coc.sink) + RenderLog(Lead(AddUniques(stname, pairs, names)))
  {
    hide *;
    ghost var before := coc.sink;
    NothingWritten(coc);
    NoUniques(stname, pairs, names);
    var first := true;
    for i := 0 to |names|
      invariant Leading(coc, before, AddUniques(stname, pairs, names[..i]), first)
    {
      Grouped(m, pairs, names[i]);
      var text := UniqueText(stname, m[names[i]], names[i]);
      OneMoreUnique(stname, pairs, names, i);
      Emit(text, first, coc, before, AddUniques(stname, pairs, names[..i]),
           AddUnique(stname, Filter(pairs, names[i]), names[i]));
      first := false;
    }
    TakeAll(names);
    Written(coc, before, AddUniques(stname, pairs, names), first);
  }

  /** `migrate_uq_constraints_ddl` */
  method EmitUniques(stname: string, recs: seq<Hidable<Column>>, uniques: map<string, seq<Hidable<string>>>,
                     coc: CounterOchain,
                     ghost meta: Meta, ghost rejected: set<string>, ghost columns: seq<Column>)
    requires coc.Valid() && ColumnsMatch(recs, stname, columns, rejected) && MarkedBy(uniques, meta.uniques, rejected)
    modifies coc
    ensures coc.Valid() && coc.sink == old(coc.sink) + RenderLog(Lead(UniquesOf(meta, rejected, stname, columns)))
  {
    hide *;
    ghost var pairs := UniquePairs(meta, rejected, stname, columns);
    UniquesAre(meta, rejected, stname, columns);
    var m := MapUniqueColumns(stname, recs, uniques, meta, rejected, columns);
    var names := SortUniqueNames(m, pairs);
    EmitNamed(stname, m, names, coc, pairs);
  }

  lemma UniquesAre(meta: Meta, rejected: set<string>, stname: string, columns: seq<Column>)
    ensures var pairs := UniquePairs(meta, rejected, stname, columns);
            UniquesOf(meta, rejected, stname, columns) == AddUniques(stname, pairs, Sort(PairNames(pairs)))
  {
  }

  // ------------------------------------------------------------ FOREIGN KEY

  method ForeignKeyText(stcname: string, ref: string) returns (text: string)
    ensures text == RenderStmt(AddForeignKey(stcname, ref))
  {
    hide StnameOf, ColumnName;
    text := "ALTER TABLE " + StnameOf(stcname) + " ADD FOREIGN KEY(" + ColumnName(stcname) + ") REFERENCES " +
            StnameOf(ref) + "(" + ColumnName(ref) + ");\n";
  }

  /** Nothing is written when the run only validates. */
  function Unless(validateOnly: bool, stmts: seq<Stmt>): seq<Stmt> {
    if validateOnly then [] else stmts
  }

  lemma UnlessIs(validateOnly: bool, stmts: seq<Stmt>)
    ensures Unless(validateOnly, stmts) == if validateOnly then [] else stmts
  {
  }

  lemma UnlessAppend(validateOnly: bool, a: seq<Stmt>, b: seq<Stmt>)
    ensures Unless(validateOnly, a + b) == Unless(validateOnly, a) + Unless(validateOnly, b)
    ensures Lead(Unless(validateOnly, a)) == Unless(validateOnly, Lead(a)) && Unless(validateOnly, []) == []
  {
  }

  lemma NoForeignKeysYet(rows: seq<FkRow>, rejected: set<string>, cols: Option<set<string>>, stname: string,
                         columns: seq<Column>)
    ensures ForeignKeysOf(rows, rejected, stname, columns[..0]) == []
    ensures TargetsOf(rows, rejected, cols, stname, columns[..0]) == {}
  {
  }

  lemma ForeignKeysSnoc(rows: seq<FkRow>, rejected: set<string>, cols: Option<set<string>>, stname: string,
                        columns: seq<Column>, i: nat)
    requires i < |columns|
    ensures ForeignKeysOf(rows, rejected, stname, columns[..i + 1]) ==
            ForeignKeysOf(rows, rejected, stname, columns[..i]) +
            ColumnForeignKey(rows, rejected, StcnameOf(stname, columns[i].cname))
    ensures TargetsOf(rows, rejected, cols, stname, columns[..i + 1]) ==
            TargetsOf(rows, rejected, cols, stname, columns[..i]) +
            ColumnTargets(rows, rejected, cols, StcnameOf(stname, columns[i].cname))
  {
    assert columns[..i + 1][..i] == columns[..i];
    hide ColumnForeignKey, ColumnTargets, StcnameOf;
  }

  /** The constraint found for a column is the one the rows and the rejected columns call for. */
  lemma FoundForeignKey(fks: FkIndex, cols: Option<set<string>>, stcname: string)
    requires fks.Valid()
    ensures var rec := fks.Find(stcname, true);
            ColumnForeignKey(fks.rows, fks.rejected, stcname) ==
            (if rec == null then [] else [AddForeignKey(stcname, rec.refStcname)]) &&
            ColumnTargets(fks.rows, fks.rejected, cols, stcname) ==
            if rec == null || cols.None? || CnameOf(stcname) !in cols.value then {} else {StnameOf(rec.refStcname)}
  {
    hide Hides, NamesIndexed, RefsIndexed, CnameOf, StnameOf;
    var row := FkOf(fks.rows, stcname);
    assert row.Some? ==> exists k :: 0 <= k < |fks.rows| && fks.rows[k] == row.value;
  }

  /** One column's foreign key, if the index finds one that is still visible, and the table it refers to. */
  method EmitForeignKey(fks: FkIndex, stcname: string, cols: Option<set<string>>, validateOnly: bool, firstSoFar: bool,
                        coc: CounterOchain,
                        ghost before: string, ghost done: seq<Stmt>)
    returns (first: bool, targets: set<string>)
    requires fks.Valid() && Leading(coc, before, done, firstSoFar)
    modifies coc
    ensures fks.Valid()
    ensures Leading(coc, before, done + Unless(validateOnly, ColumnForeignKey(fks.rows, fks.rejected, stcname)), first)
    ensures targets == ColumnTargets(fks.rows, fks.rejected, cols, stcname)
  {
    hide *;
    FoundForeignKey(fks, cols, stcname);
    UnlessIs(validateOnly, ColumnForeignKey(fks.rows, fks.rejected, stcname));
    AppendEmpty(done);
    first, targets := firstSoFar, {};
    var rec := fks.Find(stcname, true);
    if rec != null {
      if !validateOnly {
        var text := ForeignKeyText(stcname, rec.refStcname);
        Emit(text, first, coc, before, done, AddForeignKey(stcname, rec.refStcname));
        first := false;
      }
      if cols.Some? && CnameOf(stcname) in cols.value {
        targets := {StnameOf(rec.refStcname)};
      }
    }
    fks.StaysValid();
  }

  /**
   * The foreign keys of a table's columns, hidden columns included: only the constraint's own
   * flag counts. Collects the tables that the used columns' keys refer to.
   */
  method EmitForeignKeys(fks: FkIndex, stname: string, recs: seq<Hidable<Column>>, cols: Option<set<string>>,
                         validateOnly: bool, coc: CounterOchain,
                         ghost columns: seq<Column>)
    returns (targets: set<string>)
    requires fks.Valid() && coc.Valid() && SameColumns(recs, columns)
    modifies coc
    ensures fks.Valid() && coc.Valid()
    ensures coc.sink == old(coc.sink) +
                        RenderLog(Unless(validateOnly, Lead(ForeignKeysOf(fks.rows, fks.rejected, stname, columns))))
    ensures targets == TargetsOf(fks.rows, fks.rejected, cols, stname, columns)
  {
    hide *;
    ghost var before, rows, rejected := coc.sink, fks.rows, fks.rejected;
    NothingWritten(coc);
    NoForeignKeysYet(rows, rejected, cols, stname, columns);
    UnlessAppend(validateOnly, [], []);
    SameLength(recs, columns);
    var first := true;
    targets := {};
    for i := 0 to |recs|
      invariant fks.Valid()
      invariant Leading(coc, before, Unless(validateOnly, ForeignKeysOf(rows, rejected, stname, columns[..i])), first)
      invariant targets == TargetsOf(rows, rejected, cols, stname, columns[..i])
    {
      SameColumn(recs, columns, i);
      ForeignKeysSnoc(rows, rejected, cols, stname, columns, i);
      ghost var done, stcname := ForeignKeysOf(rows, rejected, stname, columns[..i]),
        StcnameOf(stname, columns[i].cname);
      UnlessAppend(validateOnly, done, ColumnForeignKey(rows, rejected, stcname));
      var more;
      first, more := EmitForeignKey(fks, StcnameOf(stname, recs[i].rec.cname), cols, validateOnly, first, coc, before,
                                    Unless(validateOnly, done));
      targets := targets + more;
    }
    TakeAll(columns);
    UnlessAppend(validateOnly, ForeignKeysOf(rows, rejected, stname, columns), []);
    Written(coc, before, Unless(validateOnly, ForeignKeysOf(rows, rejected, stname, columns)), first);
  }
}
