/** How often a run creates its tables, its CHECKs and its UNIQUEs. */
module RunCounts {
  import opened CheckSafety
  import opened Common
  import opened CreateTable
  import opened DdlRun
  import opened Names
  import opened RunOnce
  import opened RunSafety
  import opened SchemaRuns
  import opened SortedNames
  import opened UniqueConstraints
  import RowRuns

  lemma TimesNone(log: seq<Stmt>, thing: Thing)
    requires forall i :: 0 <= i < |log| ==> !Creates(log[i], thing)
    ensures Times(log, thing) == 0
  {
    hide Creates;
  }

  // ------------------------------------------------------------------- checks

  /** How many of a column's records have the name. */
  function Mentions(recs: seq<CheckRec>, name: string): nat {
    if recs == [] then 0
    else Mentions(recs[..|recs| - 1], name) + if recs[|recs| - 1].name == name then 1 else 0
  }

  function ColumnListings(meta: Meta, rejected: set<string>, key: string, name: string): nat {
    if key in rejected || key !in meta.checks then 0 else Mentions(meta.checks[key], name)
  }

  /** How often the visible ones of the columns list a check. */
  function Listings(meta: Meta, rejected: set<string>, stname: string, columns: seq<Column>, name: string): nat {
    if columns == [] then 0
    else
      Listings(meta, rejected, stname, columns[..|columns| - 1], name) +
      ColumnListings(meta, rejected, StcnameOf(stname, columns[|columns| - 1].cname), name)
  }

  lemma {:induction false} RecordsWritten(key: string, recs: seq<CheckRec>, thing: Thing)
    ensures Times(AddChecks(key, recs), thing) ==
            if thing.TheCheck? && thing.stname == StnameOf(key) then Mentions(recs, thing.name) else 0
  {
    if recs != [] {
      var init, last := recs[..|recs| - 1], recs[|recs| - 1];
      var stmt := AddCheck(key, last.name, last.clause);
      assert Creates(stmt, thing) <==> thing.TheCheck? && thing.stname == StnameOf(key) && thing.name == last.name;
      RecordsWritten(key, init, thing);
      hide Times, Creates, StnameOf;
      TimesOne(stmt, thing);
      TimesAppend(AddChecks(key, init), [stmt], thing);
    }
  }

  lemma ColumnWritten(meta: Meta, rejected: set<string>, key: string, thing: Thing)
    ensures Times(ColumnChecks(meta, rejected, key), thing) ==
            if thing.TheCheck? && thing.stname == StnameOf(key) then ColumnListings(meta, rejected, key, thing.name)
            else 0
  {
    hide StnameOf, AddChecks, Mentions, Creates;
    if key !in rejected && key in meta.checks {
      RecordsWritten(key, meta.checks[key], thing);
    }
  }

  lemma {:induction false} ChecksWritten(meta: Meta, rejected: set<string>, stname: string, columns: seq<Column>,
                                         thing: Thing)
    requires IsStname(stname) && ColumnsNamed(columns)
    ensures Times(ChecksOf(meta, rejected, stname, columns), thing) ==
            if thing.TheCheck? && thing.stname == stname then Listings(meta, rejected, stname, columns, thing.name)
            else 0
  {
    if columns != [] {
      var init, last := columns[..|columns| - 1], columns[|columns| - 1].cname;
      var key := StcnameOf(stname, last);
      hide Times, ColumnChecks, ColumnListings, IsStname, IsCname, StcnameOf, StnameOf, CnameOf, Creates;
      ChecksWritten(meta, rejected, stname, init, thing);
      KeyRoundTrip(stname, last);
      ColumnWritten(meta, rejected, key, thing);
      TimesAppend(ChecksOf(meta, rejected, stname, init), ColumnChecks(meta, rejected, key), thing);
    }
  }

  // ------------------------------------------------------------------ uniques

  /** Some visible column lists the constraint. */
  predicate Listed(meta: Meta, rejected: set<string>, stname: string, columns: seq<Column>, name: string) {
    exists i :: 0 <= i < |columns| && Lists(meta, rejected, stname, columns[i].cname, name)
  }

  lemma {:induction false} NamesWritten(stname: string, pairs: seq<RowRuns.Row<string>>, names: seq<string>,
                                        thing: Thing)
    requires NoRepeats(names)
    ensures Times(AddUniques(stname, pairs, names), thing) ==
            if thing.TheUnique? && thing.stname == stname && thing.name in names then 1 else 0
  {
    if names != [] {
      var init, last := names[..|names| - 1], names[|names| - 1];
      var stmt := AddUnique(stname, RowRuns.Filter(pairs, last), last);
      assert Creates(stmt, thing) <==> thing.TheUnique? && thing.stname == stname && thing.name == last;
      assert names == init + [last] && last !in init;
      NamesWritten(stname, pairs, init, thing);
      hide Times, Creates;
      TimesOne(stmt, thing);
      TimesAppend(AddUniques(stname, pairs, init), [stmt], thing);
    }
  }

  lemma PairKeys(names: seq<string>, cname: string, name: string)
    ensures name in RowRuns.RowKeys(PairsOf(names, cname)) <==> name in names
  {
    var pairs := PairsOf(names, cname);
    if name in names {
      var i :| 0 <= i < |names| && names[i] == name;
      assert pairs[i].key == name;
    }
  }

  lemma ColumnPairKeys(meta: Meta, rejected: set<string>, stname: string, cname: string, name: string)
    ensures name in RowRuns.RowKeys(ColumnPairs(meta, rejected, stname, cname)) <==>
            Lists(meta, rejected, stname, cname, name)
  {
    var key := StcnameOf(stname, cname);
    hide StcnameOf, PairsOf;
    if key !in rejected && key in meta.uniques {
      PairKeys(meta.uniques[key], cname, name);
    }
  }

  lemma {:induction false} ListedNames(meta: Meta, rejected: set<string>, stname: string, columns: seq<Column>,
                                       name: string)
    ensures name in RowRuns.RowKeys(UniquePairs(meta, rejected, stname, columns)) <==>
            Listed(meta, rejected, stname, columns, name)
  {
    if columns != [] {
      var init, last := columns[..|columns| - 1], columns[|columns| - 1];
      hide Lists, ColumnPairs, RowRuns.RowKeys;
      ListedNames(meta, rejected, stname, init, name);
      ColumnPairKeys(meta, rejected, stname, last.cname, name);
      RowRuns.RowKeysAppend(UniquePairs(meta, rejected, stname, init), ColumnPairs(meta, rejected, stname, last.cname));
      Unsnoc(columns);
    }
  }

  lemma UniquesWritten(meta: Meta, rejected: set<string>, stname: string, columns: seq<Column>, thing: Thing)
    ensures Times(UniquesOf(meta, rejected, stname, columns), thing) ==
            if thing.TheUnique? && thing.stname == stname && Listed(meta, rejected, stname, columns, thing.name) then 1
            else 0
  {
    var pairs := UniquePairs(meta, rejected, stname, columns);
    hide UniquePairs, PairNames, Sort, AddUniques, Times, Listed, RowRuns.RowKeys;
    PairNamesContents(pairs);
    SortIsSort(PairNames(pairs));
    PermutationKeepsDistinct(PairNames(pairs), Sort(PairNames(pairs)));
    SameMembers(PairNames(pairs), Sort(PairNames(pairs)));
    NamesWritten(stname, pairs, Sort(PairNames(pairs)), thing);
    if thing.TheUnique? {
      ListedNames(meta, rejected, stname, columns, thing.name);
    }
  }

  // --------------------------------------------------------------- whole tables

  /** The things a table's own statements create. */
  predicate OfTable(thing: Thing) {
    thing.TheTable? || thing.TheCheck? || thing.TheUnique?
  }

  /** How often a defined table creates a thing of its own. */
  function Expected(meta: Meta, rejected: set<string>, thing: Thing): nat
    requires OfTable(thing) && thing.stname in meta.tables
  {
    match thing
    case TheTable(_) => 1
    case TheCheck(stname, name) => Listings(meta, rejected, stname, meta.tables[stname], name)
    case TheUnique(stname, name) => if Listed(meta, rejected, stname, meta.tables[stname], name) then 1 else 0
  }

  lemma SchemaIsNoThing(stname: string, lastSchema: string, thing: Thing)
    requires OfTable(thing)
    ensures Times(SchemaStmts(stname, lastSchema), thing) == 0
  {
    hide SchemaName;
    TimesNone(SchemaStmts(stname, lastSchema), thing);
  }

  lemma TableItself(meta: Meta, stname: string, thing: Thing)
    requires stname in meta.tables
    ensures Times([TableStmt(meta, stname)], thing) == if thing == TheTable(stname) then 1 else 0
  {
    TimesOne(TableStmt(meta, stname), thing);
  }

  lemma TableParts(meta: Meta, rejected: set<string>, stname: string, lastSchema: string, thing: Thing)
    requires stname in meta.tables
    ensures Times(TableStmts(meta, rejected, stname, lastSchema), thing) ==
            Times(SchemaStmts(stname, lastSchema), thing) + Times([TableStmt(meta, stname)], thing) +
            Times(ChecksOf(meta, rejected, stname, meta.tables[stname]), thing) +
            Times(UniquesOf(meta, rejected, stname, meta.tables[stname]), thing)
  {
    var start, table := SchemaStmts(stname, lastSchema), [TableStmt(meta, stname)];
    var cks, uqs := ChecksOf(meta, rejected, stname, meta.tables[stname]),
      UniquesOf(meta, rejected, stname, meta.tables[stname]);
    assert TableStmts(meta, rejected, stname, lastSchema) == start + table + Lead(cks) + Lead(uqs);
    hide *;
    TimesAppend(start, table, thing);
    TimesAppend(start + table, Lead(cks), thing);
    TimesAppend(start + table + Lead(cks), Lead(uqs), thing);
    TimesLead(cks, thing);
    TimesLead(uqs, thing);
  }

  lemma TableCreates(meta: Meta, rejected: set<string>, stname: string, lastSchema: string, thing: Thing)
    requires WellNamed(meta) && stname in meta.tables && stname != "" && OfTable(thing)
    ensures Times(TableStmts(meta, rejected, stname, lastSchema), thing) ==
            if thing.stname == stname then Expected(meta, rejected, thing) else 0
  {
    assert NamedTable(stname, meta.tables[stname]);
    hide WellNamed, IsStname, Times, TableStmts, SchemaStmts, TableStmt, ChecksOf, UniquesOf, Listings, Listed;
    TableParts(meta, rejected, stname, lastSchema, thing);
    SchemaIsNoThing(stname, lastSchema, thing);
    TableItself(meta, stname, thing);
    ChecksWritten(meta, rejected, stname, meta.tables[stname], thing);
    UniquesWritten(meta, rejected, stname, meta.tables[stname], thing);
  }

  lemma {:induction false} TablesCreate(meta: Meta, rejected: set<string>, stnames: seq<string>, lastSchema: string,
                                        thing: Thing)
    requires WellNamed(meta) && "" !in stnames && NoRepeats(stnames) && OfTable(thing)
    ensures Times(TablesLog(meta, rejected, stnames, lastSchema), thing) ==
            if thing.stname in stnames && thing.stname in meta.tables then Expected(meta, rejected, thing) else 0
    decreases |stnames|
  {
    if stnames != [] {
      var t, rest := stnames[0], stnames[1..];
      Uncons(stnames);
      assert t !in rest && NoRepeats(rest);
      hide WellNamed, Times, TableStmts, Expected, SchemaName, OfTable, NoRepeats;
      if t in meta.tables {
        TablesCreate(meta, rejected, rest, SchemaName(t), thing);
        TableCreates(meta, rejected, t, lastSchema, thing);
        TimesAppend(TableStmts(meta, rejected, t, lastSchema), TablesLog(meta, rejected, rest, SchemaName(t)), thing);
      } else {
        TablesCreate(meta, rejected, rest, lastSchema, thing);
      }
    }
  }

  lemma KeysCreateNone(meta: Meta, rejected: set<string>, used: seq<string>, thing: Thing)
    requires OfTable(thing)
    ensures Times(ForeignKeysLog(meta, rejected, used), thing) == 0
  {
    hide ForeignKeysLog;
    var keys := ForeignKeysLog(meta, rejected, used);
    forall i | 0 <= i < |keys| ensures !Creates(keys[i], thing) {
      OnlyForeignKeys(meta, rejected, used, keys[i]);
    }
    TimesNone(keys, thing);
  }

  lemma SortedDistinct(used: seq<string>)
    requires NoRepeats(used)
    ensures NoRepeats(Sort(used)) && forall t :: t in Sort(used) <==> t in used
  {
    SortIsSort(used);
    PermutationKeepsDistinct(used, Sort(used));
    SameMembers(used, Sort(used));
  }

  /** What a run over distinct tables creates, and how often. */
  lemma CreatedAsExpected(meta: Meta, rejected: set<string>, used: seq<string>, thing: Thing)
    requires WellNamed(meta) && "" !in used && NoRepeats(used) && OfTable(thing)
    ensures Times(RunLog(meta, rejected, used), thing) ==
            if thing.stname in used && thing.stname in meta.tables then Expected(meta, rejected, thing) else 0
  {
    SortedDistinct(used);
    hide WellNamed, Times, TablesLog, ForeignKeysLog, Sort, OfTable, Expected, NoRepeats;
    TablesCreate(meta, rejected, Sort(used), "", thing);
    KeysCreateNone(meta, rejected, used, thing);
    TimesAppend(TablesLog(meta, rejected, Sort(used), ""), ForeignKeysLog(meta, rejected, used), thing);
  }

  /** Over distinct used tables each defined one is created exactly once, and no other. */
  lemma TablesOnce(meta: Meta, rejected: set<string>, used: seq<string>, stname: string)
    requires WellNamed(meta) && "" !in used && NoRepeats(used)
    ensures Times(RunLog(meta, rejected, used), TheTable(stname)) ==
            if stname in used && stname in meta.tables then 1 else 0
  {
    hide RunLog, WellNamed, Times, NoRepeats;
    CreatedAsExpected(meta, rejected, used, TheTable(stname));
  }

  /** A UNIQUE is created exactly once if a visible column of its table lists it, and otherwise not. */
  lemma UniquesOnce(meta: Meta, rejected: set<string>, used: seq<string>, stname: string, name: string)
    requires WellNamed(meta) && "" !in used && NoRepeats(used)
    ensures Times(RunLog(meta, rejected, used), TheUnique(stname, name)) ==
            if stname in used && stname in meta.tables && Listed(meta, rejected, stname, meta.tables[stname], name)
            then 1 else 0
  {
    hide RunLog, WellNamed, Times, NoRepeats, Listed;
    CreatedAsExpected(meta, rejected, used, TheUnique(stname, name));
  }

  /** A CHECK is created as often as the visible columns of its table list it. */
  lemma ChecksAsListed(meta: Meta, rejected: set<string>, used: seq<string>, stname: string, name: string)
    requires WellNamed(meta) && "" !in used && NoRepeats(used)
    ensures Times(RunLog(meta, rejected, used), TheCheck(stname, name)) ==
            if stname in used && stname in meta.tables then Listings(meta, rejected, stname, meta.tables[stname], name)
            else 0
  {
    hide RunLog, WellNamed, Times, NoRepeats, Listings;
    CreatedAsExpected(meta, rejected, used, TheCheck(stname, name));
  }

  // -------------------------------------------------------- checks and columns

  /** No column lists a check twice. */
  predicate ChecksListedOnce(meta: Meta) {
    forall key :: key in meta.checks ==> NamesDiffer(meta.checks[key])
  }

  predicate NamesDiffer(recs: seq<CheckRec>) {
    forall i, j :: 0 <= i < j < |recs| ==> recs[i].name != recs[j].name
  }

  lemma {:induction false} MentionedOnce(recs: seq<CheckRec>, name: string)
    requires NamesDiffer(recs)
    ensures Mentions(recs, name) == if exists i :: 0 <= i < |recs| && recs[i].name == name then 1 else 0
  {
    if recs != [] {
      MentionedOnce(recs[..|recs| - 1], name);
    }
  }

  /** The keys of the visible columns that list a check. */
  function Listers(meta: Meta, rejected: set<string>, stname: string, columns: seq<Column>, name: string): set<string> {
    set key | key in meta.checks && HasKey(stname, columns, key) && ListsCheck(meta, key, name) && key !in rejected
  }

  lemma ColumnLists(meta: Meta, rejected: set<string>, key: string, name: string)
    requires ChecksListedOnce(meta)
    ensures ColumnListings(meta, rejected, key, name) ==
            if ListsCheck(meta, key, name) && key !in rejected then 1 else 0
  {
    hide Mentions;
    if key in meta.checks {
      MentionedOnce(meta.checks[key], name);
    }
  }

  lemma ListersSnoc(meta: Meta, rejected: set<string>, stname: string, columns: seq<Column>, name: string)
    requires columns != []
    ensures var key := StcnameOf(stname, columns[|columns| - 1].cname);
            Listers(meta, rejected, stname, columns, name) ==
            Listers(meta, rejected, stname, columns[..|columns| - 1], name) +
            if ListsCheck(meta, key, name) && key !in rejected then {key} else {}
  {
    hide StcnameOf;
    var init, key := columns[..|columns| - 1], StcnameOf(stname, columns[|columns| - 1].cname);
    assert ListsCheck(meta, key, name) ==> key in meta.checks;
    hide ListsCheck;
    Unsnoc(columns);
    assert forall k :: HasKey(stname, columns, k) <==> HasKey(stname, init, k) || k == key;
  }

  lemma {:induction false} ListingsAreListers(meta: Meta, rejected: set<string>, stname: string, columns: seq<Column>,
                                              name: string)
    requires ChecksListedOnce(meta) && IsStname(stname) && ColumnsNamed(columns) && NoRepeats(ColumnNames(columns))
    ensures Listings(meta, rejected, stname, columns, name) == |Listers(meta, rejected, stname, columns, name)|
  {
    if columns != [] {
      var init, key := columns[..|columns| - 1], StcnameOf(stname, columns[|columns| - 1].cname);
      assert ColumnNames(init) == ColumnNames(columns)[..|init|];
      hide IsStname, IsCname, StcnameOf, ChecksListedOnce, ColumnListings, ListsCheck, Listers;
      ListingsAreListers(meta, rejected, stname, init, name);
      OtherColumn(stname, columns, |init|, key);
      NoLister(meta, rejected, stname, init, name, key);
      ColumnLists(meta, rejected, key, name);
      ListersSnoc(meta, rejected, stname, columns, name);
    }
  }

  lemma NoLister(meta: Meta, rejected: set<string>, stname: string, columns: seq<Column>, name: string, key: string)
    requires !HasKey(stname, columns, key)
    ensures key !in Listers(meta, rejected, stname, columns, name)
  {
    hide HasKey, ListsCheck;
  }

  /**
   * Where no column lists a check twice, a CHECK is created once for each visible column it
   * uses: exactly once if and only if there is one such column.
   */
  lemma ChecksPerColumn(meta: Meta, rejected: set<string>, used: seq<string>, stname: string, name: string)
    requires WellNamed(meta) && "" !in used && NoRepeats(used)
    requires DistinctColumns(meta, used) && ChecksListedOnce(meta)
    ensures Times(RunLog(meta, rejected, used), TheCheck(stname, name)) ==
            if stname in used then |CheckColumns(meta, stname, name) - rejected| else 0
  {
    hide *;
    ChecksAsListed(meta, rejected, used, stname, name);
    NoneElsewhere(meta, stname, name);
    if stname in used && stname in meta.tables {
      TableOf(meta, used, stname);
      ListingsAreListers(meta, rejected, stname, meta.tables[stname], name);
      ListersAre(meta, rejected, stname, name);
    }
  }

  lemma NoneElsewhere(meta: Meta, stname: string, name: string)
    ensures stname !in meta.tables ==> CheckColumns(meta, stname, name) == {}
  {
    hide HasKey, ListsCheck;
  }

  lemma TableOf(meta: Meta, used: seq<string>, stname: string)
    requires WellNamed(meta) && DistinctColumns(meta, used) && stname in used && stname in meta.tables && stname != ""
    ensures IsStname(stname) && ColumnsNamed(meta.tables[stname]) && NoRepeats(ColumnNames(meta.tables[stname]))
  {
    hide IsStname, ColumnsNamed, NoRepeats;
    assert NamedTable(stname, meta.tables[stname]);
  }

  lemma ListersAre(meta: Meta, rejected: set<string>, stname: string, name: string)
    requires stname in meta.tables
    ensures CheckColumns(meta, stname, name) - rejected == Listers(meta, rejected, stname, meta.tables[stname], name)
  {
    hide HasKey, ListsCheck;
  }

  /** A check of two accepted columns is created twice, with the same text. */
  lemma ComparedTwice()
    ensures var meta := Compared(Accepted("INTEGER"));
            WellNamed(meta) && RejectedBy(meta.tables, ["s.t"]) == {} &&
            Times(RunLog(meta, {}, ["s.t"]), TheCheck("s.t", "ck")) == 2
    ensures RenderStmt(AddCheck("s.t.a", "ck", "a > b")) == RenderStmt(AddCheck("s.t.b", "ck", "a > b"))
  {
    hide *;
    var outcome := Accepted("INTEGER");
    var meta := Compared(outcome);
    ComparedKeys();
    SameText("s.t.a", "s.t.b", "ck", "a > b");
    ComparedNames(outcome);
    ComparedTable(outcome);
    ComparedListings(outcome);
    NothingRejected(meta, "s.t");
    DistinctOne("s.t");
    ChecksPerColumn(meta, {}, ["s.t"], "s.t", "ck");
    assert CheckColumns(meta, "s.t", "ck") - {} == {"s.t.a", "s.t.b"};
  }

  lemma SameText(a: string, b: string, name: string, clause: string)
    requires StnameOf(a) == StnameOf(b)
    ensures RenderStmt(AddCheck(a, name, clause)) == RenderStmt(AddCheck(b, name, clause))
  {
    hide StnameOf;
  }

  lemma ComparedListings(outcome: Outcome)
    ensures ChecksListedOnce(Compared(outcome))
    ensures CheckColumns(Compared(outcome), "s.t", "ck") == {"s.t.a", "s.t.b"}
  {
    ComparedChecks(outcome);
    ComparedTable(outcome);
    hide Compared, HasKey, ListsCheck;
    forall key | key in Compared(outcome).checks ensures NamesDiffer(Compared(outcome).checks[key]) {
    }
  }

  lemma NothingRejected(meta: Meta, stname: string)
    requires stname in meta.tables && RejectedKeys(stname, meta.tables[stname]) == {}
    ensures RejectedBy(meta.tables, [stname]) == {}
  {
    assert [stname][..0] == [];
    hide RejectedKeys;
  }

  lemma DistinctOne(stname: string)
    ensures NoRepeats([stname]) && stname in [stname] && (stname != "" ==> "" !in [stname])
  {
  }
}
