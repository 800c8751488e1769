/**
 * The loaded records with their hidden flags, and what hiding a rejected column does to them:
 * the constraint records of a column are hidden as a whole, and of a table's columns the first
 * one with the rejected name.
 */
module HidableRecords {
  import opened Common
  import opened CreateTable
  import opened DdlRun
  import opened Names

  /** A record with the flag that takes it out of the output. */
  datatype Hidable<T> = Hidable(rec: T, hidden: bool)

  function Mark<T>(recs: seq<T>, hidden: bool): (marked: seq<Hidable<T>>)
    ensures |marked| == |recs| && forall i :: 0 <= i < |recs| ==> marked[i] == Hidable(recs[i], hidden)
  {
    seq(|recs|, i requires 0 <= i < |recs| => Hidable(recs[i], hidden))
  }

  /** Every list of records is hidden as a whole, exactly when its column is rejected. */
  ghost predicate MarkedBy<T>(marked: map<string, seq<Hidable<T>>>, loaded: map<string, seq<T>>, rejected: set<string>)
  {
    marked.Keys == loaded.Keys && forall key :: key in loaded ==> marked[key] == Mark(loaded[key], key in rejected)
  }

  lemma MarkMore<T>(marked: map<string, seq<Hidable<T>>>, loaded: map<string, seq<T>>, rejected: set<string>,
                    key: string)
    requires MarkedBy(marked, loaded, rejected)
    ensures key in marked ==> MarkedBy(marked[key := Mark(loaded[key], true)], loaded, rejected + {key})
    ensures key !in marked ==> MarkedBy(marked, loaded, rejected + {key})
  {
  }

  lemma KeyMarked<T>(marked: map<string, seq<Hidable<T>>>, loaded: map<string, seq<T>>, rejected: set<string>,
                     key: string)
    requires MarkedBy(marked, loaded, rejected)
    ensures key in marked <==> key in loaded
    ensures key in loaded ==> marked[key] == Mark(loaded[key], key in rejected)
  {
  }

  /** The loop setting every record's flag. */
  method HideAll<T>(recs: seq<Hidable<T>>, ghost loaded: seq<T>, ghost hidden: bool) returns (out: seq<Hidable<T>>)
    requires recs == Mark(loaded, hidden)
    ensures out == Mark(loaded, true)
  {
    out := recs;
    for i := 0 to |recs|
      invariant |out| == |loaded| && forall k :: 0 <= k < |loaded| ==>
                out[k] == Hidable(loaded[k], if k < i then true else hidden)
    {
      out := out[i := Hidable(out[i].rec, true)];
    }
  }

  // ------------------------------------------------------------------- columns

  predicate FirstOfName(columns: seq<Column>, i: nat)
    requires i < |columns|
  {
    forall j :: 0 <= j < i ==> columns[j].cname != columns[i].cname
  }

  /** A column's record is hidden exactly when the column is rejected, and it is the first of its name. */
  predicate RecordMatches(rec: Hidable<Column>, stname: string, columns: seq<Column>, rejected: set<string>, i: nat)
    requires i < |columns|
  {
    rec.rec == columns[i] &&
    (rec.hidden <==> StcnameOf(stname, columns[i].cname) in rejected && FirstOfName(columns, i))
  }

  ghost predicate ColumnsMatch(recs: seq<Hidable<Column>>, stname: string, columns: seq<Column>, rejected: set<string>)
  {
    |recs| == |columns| && forall i :: 0 <= i < |recs| ==> RecordMatches(recs[i], stname, columns, rejected, i)
  }

  ghost predicate TablesMatch(tables: map<string, seq<Hidable<Column>>>, loaded: map<string, seq<Column>>,
                              rejected: set<string>) {
    tables.Keys == loaded.Keys && forall t :: t in loaded ==> ColumnsMatch(tables[t], t, loaded[t], rejected)
  }

  /** With distinct column names, a record is hidden exactly when its column is rejected. */
  lemma DistinctNamesMatch(recs: seq<Hidable<Column>>, stname: string, columns: seq<Column>, rejected: set<string>,
                           i: nat)
    requires ColumnsMatch(recs, stname, columns, rejected) && i < |columns|
    requires forall j, k :: 0 <= j < k < |columns| ==> columns[j].cname != columns[k].cname
    ensures recs[i].rec == columns[i] && (recs[i].hidden <==> StcnameOf(stname, columns[i].cname) in rejected)
  {
    assert RecordMatches(recs[i], stname, columns, rejected, i);
  }

  /** The key belongs to columns of this name in this table only. */
  ghost predicate OnlyOf(loaded: map<string, seq<Column>>, key: string, stname: string, cname: string) {
    forall t, i :: t in loaded && 0 <= i < |loaded[t]| && StcnameOf(t, loaded[t][i].cname) == key ==>
      t == stname && loaded[t][i].cname == cname
  }

  lemma KeyIsOwn(meta: Meta, stname: string, pos: nat)
    requires WellNamed(meta) && stname in meta.tables && stname != "" && pos < |meta.tables[stname]|
    ensures var cname := meta.tables[stname][pos].cname;
            OnlyOf(meta.tables, StcnameOf(stname, cname), stname, cname)
  {
    OwnColumn(meta, stname, pos);
    assert NamedTable(stname, meta.tables[stname]);
    hide WellNamed, StcnameOf, StnameOf, CnameOf, IsStname, IsCname;
    forall t, i | t in meta.tables && 0 <= i < |meta.tables[t]|
      ensures t == "" ==> StcnameOf(t, meta.tables[t][i].cname) != StcnameOf(stname, meta.tables[stname][pos].cname)
      ensures t != "" ==> StnameOf(StcnameOf(t, meta.tables[t][i].cname)) == t &&
                          CnameOf(StcnameOf(t, meta.tables[t][i].cname)) == meta.tables[t][i].cname
    {
      if t == "" {
        UnnamedKey(meta.tables[t][i].cname, stname, meta.tables[stname][pos].cname);
      } else {
        OwnColumn(meta, t, i);
      }
    }
  }

  /** A table without the key is not concerned. */
  lemma OtherTable(recs: seq<Hidable<Column>>, stname: string, columns: seq<Column>, rejected: set<string>, key: string)
    requires ColumnsMatch(recs, stname, columns, rejected)
    requires forall i :: 0 <= i < |columns| ==> StcnameOf(stname, columns[i].cname) != key
    ensures ColumnsMatch(recs, stname, columns, rejected + {key})
  {
    hide StcnameOf, FirstOfName;
    forall i | 0 <= i < |recs| ensures RecordMatches(recs[i], stname, columns, rejected + {key}, i) {
      assert RecordMatches(recs[i], stname, columns, rejected, i);
    }
  }

  lemma TablesMore(tables: map<string, seq<Hidable<Column>>>, loaded: map<string, seq<Column>>,
                   rejected: set<string>, key: string,
                   stname: string, cname: string, recs: seq<Hidable<Column>>)
    requires TablesMatch(tables, loaded, rejected) && stname in loaded && OnlyOf(loaded, key, stname, cname)
    requires ColumnsMatch(recs, stname, loaded[stname], rejected + {key})
    ensures TablesMatch(tables[stname := recs], loaded, rejected + {key})
  {
    hide StcnameOf, ColumnsMatch;
    forall t | t in loaded ensures ColumnsMatch(tables[stname := recs][t], t, loaded[t], rejected + {key}) {
      if t != stname {
        OtherTable(tables[t], t, loaded[t], rejected, key);
      }
    }
  }

  lemma OwnTable(tables: map<string, seq<Hidable<Column>>>, loaded: map<string, seq<Column>>,
                 rejected: set<string>, stname: string)
    requires TablesMatch(tables, loaded, rejected)
    ensures stname in tables <==> stname in loaded
    ensures stname in loaded ==> ColumnsMatch(tables[stname], stname, loaded[stname], rejected)
  {
  }

  lemma ColumnAt(recs: seq<Hidable<Column>>, stname: string, columns: seq<Column>, rejected: set<string>, i: nat)
    requires ColumnsMatch(recs, stname, columns, rejected)
    ensures |recs| == |columns|
    ensures i < |columns| ==>
              recs[i].rec == columns[i] && (recs[i].hidden ==> StcnameOf(stname, columns[i].cname) in rejected)
  {
    hide StcnameOf;
    assert i < |columns| ==> RecordMatches(recs[i], stname, columns, rejected, i);
  }

  /** Hiding the first record of a name is what rejecting its column asks for. */
  lemma HiddenMore(recs: seq<Hidable<Column>>, stname: string, columns: seq<Column>, rejected: set<string>,
                   key: string, i: nat)
    requires ColumnsMatch(recs, stname, columns, rejected) && i < |columns| &&
             StcnameOf(stname, columns[i].cname) == key
    requires FirstOfName(columns, i)
    requires forall j :: 0 <= j < |columns| && StcnameOf(stname, columns[j].cname) == key ==>
               columns[j].cname == columns[i].cname
    ensures ColumnsMatch(recs[i := Hidable(recs[i].rec, true)], stname, columns, rejected + {key})
  {
    hide StcnameOf;
    var out := recs[i := Hidable(recs[i].rec, true)];
    forall k | 0 <= k < |recs| ensures RecordMatches(out[k], stname, columns, rejected + {key}, k) {
      assert RecordMatches(recs[k], stname, columns, rejected, k);
    }
  }

  predicate SameColumns(recs: seq<Hidable<Column>>, columns: seq<Column>) {
    |recs| == |columns| && forall i :: 0 <= i < |recs| ==> recs[i].rec == columns[i]
  }

  lemma ColumnsAt(recs: seq<Hidable<Column>>, stname: string, columns: seq<Column>, rejected: set<string>)
    requires ColumnsMatch(recs, stname, columns, rejected)
    ensures SameColumns(recs, columns)
  {
  }

  lemma SameLength(recs: seq<Hidable<Column>>, columns: seq<Column>)
    requires SameColumns(recs, columns)
    ensures |recs| == |columns|
  {
  }

  lemma SameColumn(recs: seq<Hidable<Column>>, columns: seq<Column>, i: nat)
    requires SameColumns(recs, columns) && i < |recs|
    ensures recs[i].rec == columns[i]
  {
  }

  /** The loop that looks for a column by name; the source asserts that it finds one. */
  method HideFirst(recs: seq<Hidable<Column>>, cname: string, ghost pos: nat)
    returns (out: seq<Hidable<Column>>, i: nat)
    requires pos < |recs| && recs[pos].rec.cname == cname
    ensures i < |recs| && recs[i].rec.cname == cname && out == recs[i := Hidable(recs[i].rec, true)]
    ensures forall k :: 0 <= k < i ==> recs[k].rec.cname != cname
  {
    i := 0;
    while recs[i].rec.cname != cname
      invariant i <= pos && forall k :: 0 <= k < i ==> recs[k].rec.cname != cname
      decreases pos - i
    {
      i := i + 1;
    }
    out := recs[i := Hidable(recs[i].rec, true)];
  }

  lemma FirstFound(recs: seq<Hidable<Column>>, columns: seq<Column>, i: nat)
    requires SameColumns(recs, columns) && i < |recs|
    requires forall k :: 0 <= k < i ==> recs[k].rec.cname != recs[i].rec.cname
    ensures FirstOfName(columns, i) && columns[i].cname == recs[i].rec.cname
  {
  }

  lemma OwnKeys(loaded: map<string, seq<Column>>, key: string, stname: string, cname: string)
    requires OnlyOf(loaded, key, stname, cname) && stname in loaded
    ensures forall j :: 0 <= j < |loaded[stname]| && StcnameOf(stname, loaded[stname][j].cname) == key ==>
              loaded[stname][j].cname == cname
  {
    hide StcnameOf;
  }

  lemma OwnColumn(meta: Meta, stname: string, pos: nat)
    requires WellNamed(meta) && stname in meta.tables && stname != "" && pos < |meta.tables[stname]|
    ensures var stcname := StcnameOf(stname, meta.tables[stname][pos].cname);
            StnameOf(stcname) == stname && CnameOf(stcname) == meta.tables[stname][pos].cname
  {
    assert NamedTable(stname, meta.tables[stname]);
    hide IsStname, IsCname, StcnameOf, StnameOf, CnameOf;
    KeyRoundTrip(stname, meta.tables[stname][pos].cname);
  }

  // -------------------------------------------------------------- rejected keys

  /** Rejected keys belong to rejected columns of defined tables. */
  ghost predicate OnlyRejected(meta: Meta, rejected: set<string>) {
    forall key :: key in rejected ==> IsRejected(meta, key)
  }

  ghost predicate IsRejected(meta: Meta, key: string) {
    exists t :: t in meta.tables && key in RejectedKeys(t, meta.tables[t])
  }

  lemma RejectOneMore(meta: Meta, rejected: set<string>, stcname: string, stname: string, pos: nat)
    requires OnlyRejected(meta, rejected)
    requires stname in meta.tables && pos < |meta.tables[stname]| && meta.tables[stname][pos].outcome.Rejected?
    requires stcname == StcnameOf(stname, meta.tables[stname][pos].cname)
    ensures OnlyRejected(meta, rejected + {stcname})
  {
    assert stcname in RejectedKeys(stname, meta.tables[stname]);
    assert IsRejected(meta, stcname);
  }

  function KeysOf(stname: string, cnames: seq<string>): set<string> {
    set n | n in cnames :: StcnameOf(stname, n)
  }

  lemma NoneRejected(stname: string, rejected: set<string>, cnames: seq<string>)
    ensures rejected == rejected + KeysOf(stname, cnames[..0])
  {
  }

  lemma KeysSnoc(rejected: set<string>, stname: string, cnames: seq<string>, i: nat)
    requires i < |cnames|
    ensures rejected + KeysOf(stname, cnames[..i + 1]) ==
            rejected + KeysOf(stname, cnames[..i]) + {StcnameOf(stname, cnames[i])}
  {
    hide StcnameOf;
    TakeSnoc(cnames, i);
    assert KeysOf(stname, cnames[..i + 1]) == KeysOf(stname, cnames[..i]) + {StcnameOf(stname, cnames[i])};
  }

  /** Which column a rejected name was collected from. */
  lemma {:induction false} NamedColumn(columns: seq<Column>, i: nat) returns (pos: nat)
    requires i < |RejectedNames(columns)|
    ensures pos < |columns| && columns[pos].outcome.Rejected? && columns[pos].cname == RejectedNames(columns)[i]
    decreases |columns|
  {
    if i < |RejectedNames(columns[..|columns| - 1])| {
      pos := NamedColumn(columns[..|columns| - 1], i);
    } else {
      pos := |columns| - 1;
    }
  }

  lemma {:induction false} RejectedNamesContents(columns: seq<Column>, cname: string)
    ensures cname in RejectedNames(columns) <==>
            exists i :: 0 <= i < |columns| && columns[i].outcome.Rejected? && columns[i].cname == cname
  {
    if columns != [] {
      RejectedNamesContents(columns[..|columns| - 1], cname);
    }
  }

  lemma KeysOfRejected(stname: string, columns: seq<Column>)
    ensures KeysOf(stname, RejectedNames(columns)) == RejectedKeys(stname, columns)
  {
    hide StcnameOf, RejectedNames;
    forall key ensures key in KeysOf(stname, RejectedNames(columns)) <==> key in RejectedKeys(stname, columns) {
      if key in KeysOf(stname, RejectedNames(columns)) {
        var n :| n in RejectedNames(columns) && key == StcnameOf(stname, n);
        RejectedNamesContents(columns, n);
      }
      if key in RejectedKeys(stname, columns) {
        var i :| 0 <= i < |columns| && columns[i].outcome.Rejected? && key == StcnameOf(stname, columns[i].cname);
        RejectedNamesContents(columns, columns[i].cname);
      }
    }
  }
}
