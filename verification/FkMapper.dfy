/**
 * The foreign-key index: three maps over shared records. The map by source column and the
 * map by constraint name hold the same objects, so hiding through either is seen by both.
 */
module FkMapper {
  import opened Common
  import opened FkRows

  class FkRec {
    const constraintName: string
    const refStcname: string
    var hidden: bool

    constructor (constraintName: string, refStcname: string)
      ensures this.constraintName == constraintName && this.refStcname == refStcname && !hidden
    {
      this.constraintName, this.refStcname := constraintName, refStcname;
      hidden := false;
    }
  }

  ghost predicate RecMatches(rec: FkRec, row: FkRow) {
    rec.constraintName == row.name && rec.refStcname == row.ref
  }

  /** Each row's record is under its source; no record is under two. */
  ghost predicate SourcesIndexed(rows: seq<FkRow>, bySource: map<string, FkRec>) {
    DistinctSources(rows) && bySource.Keys == Sources(rows) &&
    (forall i :: 0 <= i < |rows| ==> rows[i].source in bySource && RecMatches(bySource[rows[i].source], rows[i])) &&
    (forall s, t :: s in bySource && t in bySource && s != t ==> bySource[s] != bySource[t])
  }

  /** Each constraint name leads to the record of the first row with that name. */
  ghost predicate NamesIndexed(rows: seq<FkRow>, bySource: map<string, FkRec>, byName: map<string, FkRec>) {
    byName.Keys == Names(rows) && forall n :: n in byName ==> NameIndexed(rows, bySource, byName, n)
  }

  ghost predicate NameIndexed(rows: seq<FkRow>, bySource: map<string, FkRec>, byName: map<string, FkRec>, name: string)
    requires name in byName
  {
    var first := FirstIndex(rows, name);
    first < |rows| && rows[first].source in bySource && byName[name] == bySource[rows[first].source]
  }

  /** Each target leads to the constraints that refer to it, in row order. */
  ghost predicate RefsIndexed(rows: seq<FkRow>, byRef: map<string, seq<FkReverse>>) {
    byRef.Keys == Refs(rows) && forall r :: r in byRef ==> byRef[r] == ReverseOf(rows, r)
  }

  lemma IndexSource(rows: seq<FkRow>, bySource: map<string, FkRec>, row: FkRow, rec: FkRec)
    requires SourcesIndexed(rows, bySource) && row.source !in bySource && RecMatches(rec, row)
    requires forall s :: s in bySource ==> bySource[s] != rec
    ensures SourcesIndexed(rows + [row], bySource[row.source := rec])
  {
    SnocFacts(rows, row);
    hide FkRows.DistinctSources, FkRows.Sources;
    var all, bySource' := rows + [row], bySource[row.source := rec];
    forall i | 0 <= i < |all| ensures all[i].source in bySource' && RecMatches(bySource'[all[i].source], all[i]) {
      if i < |rows| {
        assert all[i] == rows[i];
      }
    }
  }

  lemma IndexOneName(rows: seq<FkRow>, bySource: map<string, FkRec>, byName: map<string, FkRec>, row: FkRow,
                     rec: FkRec, n: string)
    requires NamesIndexed(rows, bySource, byName) && row.source !in bySource
    requires n in byName || n == row.name
    ensures NameIndexed(rows + [row], bySource[row.source := rec],
                        if row.name in byName then byName else byName[row.name := rec], n)
  {
    var all := rows + [row];
    assert all[|rows|] == row && forall i :: 0 <= i < |rows| ==> all[i] == rows[i];
    FirstIndexSnoc(rows, row, n);
    FirstIndexMissing(rows, n);
    hide FkRows.FirstIndex, FkRows.Names;
    assert n in byName ==> NameIndexed(rows, bySource, byName, n);
  }

  lemma IndexName(rows: seq<FkRow>, bySource: map<string, FkRec>, byName: map<string, FkRec>, row: FkRow, rec: FkRec)
    requires NamesIndexed(rows, bySource, byName) && row.source !in bySource
    ensures NamesIndexed(rows + [row], bySource[row.source := rec],
                         if row.name in byName then byName else byName[row.name := rec])
  {
    SnocFacts(rows, row);
    var byName' := if row.name in byName then byName else byName[row.name := rec];
    hide NameIndexed, FkRows.Names;
    forall n | n in byName' ensures NameIndexed(rows + [row], bySource[row.source := rec], byName', n) {
      IndexOneName(rows, bySource, byName, row, rec, n);
    }
  }

  lemma IndexRef(rows: seq<FkRow>, byRef: map<string, seq<FkReverse>>, row: FkRow)
    requires RefsIndexed(rows, byRef)
    ensures var revs := (if row.ref in byRef then byRef[row.ref] else []) + [FkReverse(row.name, row.source)];
            RefsIndexed(rows + [row], byRef[row.ref := revs])
  {
    SnocFacts(rows, row);
    NoReverse(rows, row.ref);
    var revs := (if row.ref in byRef then byRef[row.ref] else []) + [FkReverse(row.name, row.source)];
    var byRef' := byRef[row.ref := revs];
    forall r | r in byRef' ensures byRef'[r] == ReverseOf(rows + [row], r) {
      ReverseOfSnoc(rows, row, r);
      AppendEmpty(ReverseOf(rows, r));
    }
  }

  ghost predicate CoherentMaps(rows: seq<FkRow>, bySource: map<string, FkRec>, byName: map<string, FkRec>,
                               byRef: map<string, seq<FkReverse>>) {
    SourcesIndexed(rows, bySource) && NamesIndexed(rows, bySource, byName) && RefsIndexed(rows, byRef)
  }

  /** A row with a new source column keeps the three maps describing the same rows. */
  lemma IndexRow(rows: seq<FkRow>, bySource: map<string, FkRec>, byName: map<string, FkRec>, byRef: map<string,
                 seq<FkReverse>>, row: FkRow, rec: FkRec)
    requires CoherentMaps(rows, bySource, byName, byRef) && RecMatches(rec, row)
    requires forall s :: s in bySource ==> bySource[s] != rec
    ensures DistinctSources(rows + [row]) <==> row.source !in bySource
    ensures row.source !in bySource ==>
              CoherentMaps(rows + [row], bySource[row.source := rec],
                           if row.name in byName then byName else byName[row.name := rec],
                           byRef[row.ref := (if row.ref in byRef then byRef[row.ref] else []) +
                                 [FkReverse(row.name, row.source)]])
  {
    SnocFacts(rows, row);
    if row.source !in bySource {
      IndexSource(rows, bySource, row, rec);
      IndexName(rows, bySource, byName, row, rec);
      IndexRef(rows, byRef, row);
    }
  }

  class FkIndex {
    var bySource: map<string, FkRec>
    var byName: map<string, FkRec>
    var byRef: map<string, seq<FkReverse>>
    /** The rows the maps were filled from. */
    ghost var rows: seq<FkRow>
    /** The columns rejected so far. */
    ghost var rejected: set<string>

    ghost function Recs(): set<FkRec>
      reads this
    {
      set s | s in bySource :: bySource[s]
    }

    /** The three maps describe the same relation. */
    ghost predicate Coherent()
      reads this
    {
      CoherentMaps(rows, bySource, byName, byRef)
    }

    /** Which constraints are hidden depends on the set of rejected columns alone. */
    ghost predicate HiddenExactly()
      reads this, Recs()
    {
      forall s :: s in bySource ==> (bySource[s].hidden <==> Hides(rows, rejected, s))
    }

    ghost predicate Valid()
      reads this, Recs()
    {
      Coherent() && HiddenExactly()
    }

    /** Writing elsewhere does not disturb the index. */
    twostate lemma StaysValid()
      requires old(Valid())
      requires unchanged(this) && forall s :: s in bySource ==> bySource[s].hidden == old(bySource[s].hidden)
      ensures Valid()
    {
      hide CoherentMaps, Hides;
    }

    ghost predicate NoneHidden()
      reads this, Recs()
    {
      forall s :: s in bySource ==> !bySource[s].hidden
    }

    /** A visible record under a new source column hides nothing. */
    twostate lemma OneMoreVisible(source: string, new rec: FkRec)
      requires old(NoneHidden()) && !rec.hidden && bySource == old(bySource)[source := rec]
      requires forall s :: s in old(bySource) ==> old(bySource)[s].hidden == old(bySource[s].hidden)
      ensures NoneHidden()
    {
    }

    constructor ()
      ensures Valid() && rows == [] && rejected == {} && Recs() == {}
    {
      bySource, byName, byRef := map[], map[], map[];
      rows, rejected := [], {};
    }

    method Insert(stcname: string, rec: FkRec) returns (inserted: bool)
      modifies this`bySource
      ensures inserted <==> stcname !in old(bySource)
      ensures bySource == if inserted then old(bySource)[stcname := rec] else old(bySource)
    {
      inserted := stcname !in bySource;
      if inserted {
        bySource := bySource[stcname := rec];
      }
    }

    method InsertConstraintName(name: string, rec: FkRec) returns (inserted: bool)
      modifies this`byName
      ensures inserted <==> name !in old(byName)
      ensures byName == if inserted then old(byName)[name := rec] else old(byName)
    {
      inserted := name !in byName;
      if inserted {
        byName := byName[name := rec];
      }
    }

    method InsertReverse(ref: string, rev: FkReverse)
      modifies this`byRef
      ensures byRef == old(byRef)[ref := (if ref in old(byRef) then old(byRef[ref]) else []) + [rev]]
    {
      if ref in byRef {
        byRef := byRef[ref := byRef[ref] + [rev]];
      } else {
        AppendEmpty([rev]);
        byRef := byRef[ref := [rev]];
      }
    }

    /** The three insertions made for one row, with its new record. */
    method InsertMaps(row: FkRow, rec: FkRec) returns (inserted: bool)
      modifies this
      ensures inserted <==> row.source !in old(bySource)
      ensures bySource == if inserted then old(bySource)[row.source := rec] else old(bySource)
      ensures byName == if row.name in old(byName) then old(byName) else old(byName)[row.name := rec]
      ensures byRef == old(byRef)[row.ref := (if row.ref in old(byRef) then old(byRef[row.ref]) else []) +
                                  [FkReverse(row.name, row.source)]]
      ensures rows == old(rows) + [row] && rejected == old(rejected)
    {
      inserted := Insert(row.source, rec);
      var _ := InsertConstraintName(row.name, rec);
      InsertReverse(row.ref, FkReverse(row.name, row.source));
      rows := rows + [row];
    }

    /** A row with a new source column keeps the index coherent, and a visible record hides nothing. */
    method InsertRow(row: FkRow, rec: FkRec) returns (inserted: bool)
      requires RecMatches(rec, row) && forall s :: s in bySource ==> bySource[s] != rec
      modifies this
      ensures rows == old(rows) + [row] && rejected == old(rejected) && (inserted <==> row.source !in old(bySource))
      ensures bySource.Keys == old(bySource.Keys) + {row.source}
      ensures old(Coherent()) ==> (inserted <==> DistinctSources(rows)) && (inserted ==> Coherent())
      ensures old(NoneHidden()) && inserted && !rec.hidden ==> NoneHidden()
    {
      if CoherentMaps(rows, bySource, byName, byRef) {
        IndexRow(rows, bySource, byName, byRef, row, rec);
      }
      hide CoherentMaps, FkRows.DistinctSources, NoneHidden;
      inserted := InsertMaps(row, rec);
      if old(NoneHidden()) && inserted && !rec.hidden {
        OneMoreVisible(row.source, rec);
      }
    }

    function Find(stcname: string, unhidden: bool): (rec: FkRec?)
      reads this, if stcname in bySource then {bySource[stcname]} else {}
    {
      if stcname !in bySource || (unhidden && bySource[stcname].hidden) then null else bySource[stcname]
    }

    function FindConstraintName(name: string, unhidden: bool): (rec: FkRec?)
      reads this, if name in byName then {byName[name]} else {}
    {
      if name !in byName || (unhidden && byName[name].hidden) then null else byName[name]
    }

    function FindReverse(ref: string): Option<seq<FkReverse>>
      reads this
    {
      if ref in byRef then Some(byRef[ref]) else None
    }

    /** Sets the flag of the column's own constraint, if it is still visible. */
    method HideSource(stcname: string)
      modifies Recs()
      requires Coherent()
      ensures forall s :: s in bySource ==> (bySource[s].hidden <==> old(bySource[s].hidden) || s == stcname)
    {
      var rec := Find(stcname, true);
      if rec != null {
        rec.hidden := true;
      }
    }

    /** Sets the flag of the constraint a name leads to, if it is still visible. */
    method HideNamed(name: string)
      requires Coherent() && name in byName
      modifies Recs()
      ensures forall s :: s in bySource ==> (bySource[s].hidden <==> old(bySource[s].hidden) || LeadsTo(rows, name, s))
    {
      forall s | s in bySource ensures bySource[s] == byName[name] <==> LeadsTo(rows, name, s) {
        NameLeads(name, s);
      }
      assert NameIndexed(rows, bySource, byName, name);
      hide LeadsTo;
      var rec := FindConstraintName(name, true);
      if rec != null {
        rec.hidden := true;
      }
    }

    /** The flags are as they were, except for what the first `n` reverse records lead to. */
    ghost predicate HiddenSince(was: map<string, bool>, reverse: seq<FkReverse>, n: nat)
      requires n <= |reverse|
      reads this, Recs()
    {
      forall s :: s in bySource ==> s in was && (bySource[s].hidden <==> was[s] || NamedUpTo(rows, reverse, n, s))
    }

    method HideReverseRecord(ghost was: map<string, bool>, reverse: seq<FkReverse>, i: nat)
      requires Coherent() && i < |reverse| && reverse[i].name in byName && HiddenSince(was, reverse, i)
      modifies Recs()
      ensures HiddenSince(was, reverse, i + 1)
    {
      OneMoreName(rows, reverse, i);
      hide CoherentMaps, NamedUpTo, LeadsTo;
      HideNamed(reverse[i].name);
    }

    /** The loop over a target's reverse records. */
    method HideReverseRecords(ghost was: map<string, bool>, reverse: seq<FkReverse>)
      requires Coherent() && HiddenSince(was, reverse, 0) && NamesFound(reverse)
      modifies Recs()
      ensures HiddenSince(was, reverse, |reverse|)
    {
      hide HiddenSince, CoherentMaps;
      for i := 0 to |reverse|
        invariant HiddenSince(was, reverse, i)
      {
        HideReverseRecord(was, reverse, i);
      }
    }

    ghost predicate NamesFound(reverse: seq<FkReverse>)
      reads this
    {
      forall i :: 0 <= i < |reverse| ==> reverse[i].name in byName
    }

    /** Follows every reverse record of a target to the constraint its name leads to. */
    method HideReverse(stcname: string)
      requires Coherent()
      modifies Recs()
      ensures var reverse := ReverseOf(rows, stcname);
              forall s :: s in bySource ==>
                (bySource[s].hidden <==> old(bySource[s].hidden) || NamedUpTo(rows, reverse, |reverse|, s))
    {
      var revs := FindReverse(stcname);
      ReverseFound(stcname);
      NoNames(rows, ReverseOf(rows, stcname));
      hide FkRows.ReverseOf, FkRows.FirstIndex, CoherentMaps, NamedUpTo, LeadsTo;
      if revs.Some? {
        ghost var was := map s | s in bySource :: bySource[s].hidden;
        HideReverseRecords(was, revs.value);
      }
    }

    /** The foreign-key part of `hide_rejected_column`. */
    method HideColumn(stcname: string)
      requires Valid()
      modifies this`rejected, Recs()
      ensures Valid() && rejected == old(rejected) + {stcname}
    {
      hide CoherentMaps;
      HideSource(stcname);
      HideReverse(stcname);
      hide Hides, NamedUpTo, FkRows.ReverseOf;
      rejected := rejected + {stcname};
      forall s | s in bySource ensures bySource[s].hidden <==> Hides(rows, rejected, s) {
        HidesMore(rows, old(rejected), stcname, s);
      }
    }

    lemma ReverseFound(stcname: string)
      requires Coherent()
      ensures if stcname in byRef then byRef[stcname] == ReverseOf(rows, stcname) else ReverseOf(rows, stcname) == []
      ensures stcname in byRef ==> NamesFound(byRef[stcname])
    {
      NoReverse(rows, stcname);
      if stcname in byRef {
        forall i | 0 <= i < |byRef[stcname]| ensures byRef[stcname][i].name in byName {
          NameOfReverse(stcname, i);
        }
      }
    }

    lemma NameLeads(name: string, s: string)
      requires Coherent() && name in byName && s in bySource
      ensures bySource[s] == byName[name] <==> LeadsTo(rows, name, s)
    {
      assert NameIndexed(rows, bySource, byName, name);
    }

    lemma NameOfReverse(stcname: string, i: nat)
      requires Coherent() && stcname in byRef && i < |byRef[stcname]|
      ensures byRef[stcname][i].name in byName
    {
      var name := byRef[stcname][i].name;
      assert HasName(ReverseOf(rows, stcname), name);
      ReverseNames(rows, stcname, name);
      var k :| 0 <= k < |rows| && rows[k].ref == stcname && rows[k].name == name;
      assert name in Names(rows);
    }

    /** Rejecting any number of columns: order and repetition do not matter. */
    method HideColumns(stcnames: seq<string>)
      requires Valid()
      modifies this`rejected, Recs()
      ensures Valid() && rejected == old(rejected) + (set s | s in stcnames)
    {
      for i := 0 to |stcnames|
        invariant Valid() && rejected == old(rejected) + (set s | s in stcnames[..i])
      {
        HideColumn(stcnames[i]);
        assert stcnames[..i + 1] == stcnames[..i] + [stcnames[i]];
      }
      assert stcnames[..|stcnames|] == stcnames;
    }

    /** After any rejections a constraint is found exactly when neither of its columns was rejected. */
    lemma FoundExactlyWhenUntouched(i: nat)
      requires Valid() && NamesBehave(rows) && i < |rows|
      ensures var rec := Find(rows[i].source, true);
              (rec != null <==> !Touches(rows[i], rejected)) && (rec != null ==> rec.refStcname == rows[i].ref)
    {
      BehavedIsExact(rows, rejected, i);
    }
  }

  /** Some of the first `n` reverse records has a name whose first row has this source. */
  predicate NamedUpTo(rows: seq<FkRow>, reverse: seq<FkReverse>, n: nat, source: string)
    requires n <= |reverse|
  {
    exists j :: 0 <= j < n && LeadsTo(rows, reverse[j].name, source)
  }

  predicate LeadsTo(rows: seq<FkRow>, name: string, source: string) {
    var first := FirstIndex(rows, name);
    first < |rows| && rows[first].source == source
  }

  lemma NoNames(rows: seq<FkRow>, reverse: seq<FkReverse>)
    ensures forall source :: !NamedUpTo(rows, reverse, 0, source)
  {
  }

  lemma OneMoreName(rows: seq<FkRow>, reverse: seq<FkReverse>, i: nat)
    requires i < |reverse|
    ensures forall source :: NamedUpTo(rows, reverse, i + 1, source) <==>
                             NamedUpTo(rows, reverse, i, source) || LeadsTo(rows, reverse[i].name, source)
  {
  }

  /** What one more rejected column hides. */
  lemma HidesMore(rows: seq<FkRow>, rejected: set<string>, stcname: string, source: string)
    ensures var reverse := ReverseOf(rows, stcname);
            Hides(rows, rejected + {stcname}, source) <==>
            Hides(rows, rejected, source) || source == stcname || NamedUpTo(rows, reverse, |reverse|, source)
  {
    var reverse := ReverseOf(rows, stcname);
    var more := rejected + {stcname};
    if Hides(rows, rejected, source) && source !in rejected {
      var k :| 0 <= k < |rows| && HidesBy(rows, rejected, source, k);
      assert HidesBy(rows, more, source, k);
    }
    if NamedUpTo(rows, reverse, |reverse|, source) {
      var j :| 0 <= j < |reverse| && LeadsTo(rows, reverse[j].name, source);
      assert HasName(reverse, reverse[j].name);
      ReverseNames(rows, stcname, reverse[j].name);
      var k :| 0 <= k < |rows| && rows[k].ref == stcname && rows[k].name == reverse[j].name;
      assert HidesBy(rows, more, source, k);
    }
    if Hides(rows, more, source) && source !in more {
      var k :| 0 <= k < |rows| && HidesBy(rows, more, source, k);
      if rows[k].ref == stcname {
        assert NameRefers(rows, rows[k].name, stcname);
        ReverseNames(rows, stcname, rows[k].name);
        var j :| 0 <= j < |reverse| && reverse[j].name == rows[k].name;
        assert LeadsTo(rows, reverse[j].name, source);
      } else {
        assert HidesBy(rows, rejected, source, k);
      }
    }
  }

  // ---------------------------------------------------------------- loading

  /** All rows of all connections, in loading order. */
  function AllRows(conns: seq<seq<FkRow>>): seq<FkRow> {
    if conns == [] then [] else AllRows(conns[..|conns| - 1]) + conns[|conns| - 1]
  }

  /** The errors of one connection's rows, loaded after others: every source column that was there already. */
  function ErrorsFrom(rows: seq<FkRow>, conn: seq<FkRow>, pos: nat): seq<(nat, string)> {
    if conn == [] then []
    else
      var init, last := conn[..|conn| - 1], conn[|conn| - 1];
      ErrorsFrom(rows, init, pos) + if last.source in Sources(rows + init) then [(pos, last.source)] else []
  }

  lemma ErrorsSnoc(rows: seq<FkRow>, conn: seq<FkRow>, i: nat, pos: nat)
    requires i < |conn|
    ensures ErrorsFrom(rows, conn[..i + 1], pos) ==
            ErrorsFrom(rows, conn[..i], pos) +
            if conn[i].source in Sources(rows + conn[..i]) then [(pos, conn[i].source)] else []
  {
    assert conn[..i + 1][..i] == conn[..i];
    hide FkRows.Sources;
  }

  function LoadErrors(conns: seq<seq<FkRow>>): seq<(nat, string)> {
    if conns == [] then []
    else
      var init, last := conns[..|conns| - 1], conns[|conns| - 1];
      LoadErrors(init) + ErrorsFrom(AllRows(init), last, |init|)
  }

  lemma LoadSnoc(conns: seq<seq<FkRow>>, i: nat)
    requires i < |conns|
    ensures AllRows(conns[..i + 1]) == AllRows(conns[..i]) + conns[i]
    ensures LoadErrors(conns[..i + 1]) == LoadErrors(conns[..i]) + ErrorsFrom(AllRows(conns[..i]), conns[i], i)
  {
    assert conns[..i + 1][..i] == conns[..i];
    hide ErrorsFrom;
  }

  lemma NothingLoaded(conns: seq<seq<FkRow>>)
    ensures AllRows(conns[..0]) == [] && LoadErrors(conns[..0]) == []
  {
  }

  // ------------------------------------------------- the first connection

  lemma {:induction false} ErrorsOfConnection(rows: seq<FkRow>, conn: seq<FkRow>, pos: nat)
    ensures forall e :: e in ErrorsFrom(rows, conn, pos) ==> e.0 == pos
  {
    if conn != [] {
      hide FkRows.Sources;
      ErrorsOfConnection(rows, conn[..|conn| - 1], pos);
    }
  }

  lemma {:induction false} NoErrorMeansDistinct(conn: seq<FkRow>, pos: nat)
    ensures ErrorsFrom([], conn, pos) == [] <==> DistinctSources(conn)
  {
    if conn != [] {
      var init, last := conn[..|conn| - 1], conn[|conn| - 1];
      NoErrorMeansDistinct(init, pos);
      Unsnoc(conn);
      AppendEmpty(init);
      SnocFacts(init, last);
      hide FkRows.Sources, FkRows.DistinctSources;
    }
  }

  lemma {:induction false} FirstErrors(conns: seq<seq<FkRow>>, key: string)
    ensures (0, key) in LoadErrors(conns) <==> conns != [] && (0, key) in ErrorsFrom([], conns[0], 0)
  {
    if conns != [] {
      var init, last := conns[..|conns| - 1], conns[|conns| - 1];
      FirstErrors(init, key);
      ErrorsOfConnection(AllRows(init), last, |init|);
      hide ErrorsFrom;
      if init == [] {
        assert AllRows(init) == [] && LoadErrors(init) == [];
      } else {
        assert init[0] == conns[0];
      }
    }
  }

  /**
   * The source asserts that the first connection redefines no column. It does, exactly when
   * one of its columns is in two foreign keys.
   */
  lemma FirstConnectionRedefines(conns: seq<seq<FkRow>>)
    ensures (exists key :: (0, key) in LoadErrors(conns)) <==> conns != [] && !DistinctSources(conns[0])
  {
    hide LoadErrors, ErrorsFrom, FkRows.DistinctSources;
    forall key ensures (0, key) in LoadErrors(conns) <==> conns != [] && (0, key) in ErrorsFrom([], conns[0], 0) {
      FirstErrors(conns, key);
    }
    if conns != [] {
      var errors := ErrorsFrom([], conns[0], 0);
      NoErrorMeansDistinct(conns[0], 0);
      ErrorsOfConnection([], conns[0], 0);
      if errors != [] {
        assert errors[0] in errors && errors[0] == (0, errors[0].1);
      }
    }
  }

  class FkLoader {
    var connectionErrors: seq<(nat, string)>

    constructor ()
      ensures connectionErrors == []
    {
      connectionErrors := [];
    }

    /** While no source column has repeated, the index is coherent and nothing is hidden. */
    ghost predicate Loading(index: FkIndex, rows: seq<FkRow>)
      reads this, index, index.Recs()
    {
      index.rows == rows && index.rejected == {} && index.bySource.Keys == Sources(rows) &&
      (connectionErrors == [] <==> DistinctSources(rows)) &&
      (connectionErrors == [] ==> index.Coherent() && index.NoneHidden())
    }

    /** One round of the row loop: insert by source, by constraint name and by target. */
    method LoadRow(index: FkIndex, row: FkRow, conn: nat)
      requires Loading(index, index.rows)
      modifies this, index
      ensures index.rows == old(index.rows) + [row] && Loading(index, index.rows)
      ensures connectionErrors ==
              old(connectionErrors) + if row.source in Sources(old(index.rows)) then [(conn, row.source)] else []
    {
      SnocFacts(index.rows, row);
      AppendEmpty(connectionErrors);
      hide FkRows.DistinctSources, FkRows.Sources, FkIndex.Coherent, FkIndex.NoneHidden;
      var rec := new FkRec(row.name, row.ref);
      var inserted := index.InsertRow(row, rec);
      if !inserted {
        connectionErrors := connectionErrors + [(conn, row.source)];
      }
    }

    method LoadConnection(index: FkIndex, conn: seq<FkRow>, pos: nat)
      requires Loading(index, index.rows)
      modifies this, index
      ensures index.rows == old(index.rows) + conn && Loading(index, index.rows)
      ensures connectionErrors == old(connectionErrors) + ErrorsFrom(old(index.rows), conn, pos)
    {
      AppendEmpty(index.rows);
      AppendEmpty(connectionErrors);
      TakeNone(conn);
      ghost var before, errors := index.rows, connectionErrors;
      hide Loading, FkRows.Sources;
      for i := 0 to |conn|
        invariant index.rows == before + conn[..i] && Loading(index, index.rows)
        invariant connectionErrors == errors + ErrorsFrom(before, conn[..i], pos)
      {
        LoadRow(index, conn[i], pos);
        TakeSnoc(conn, i);
        AppendAssoc(before, conn[..i], [conn[i]]);
        ErrorsSnoc(before, conn, i, pos);
        AppendAssoc(errors, ErrorsFrom(before, conn[..i], pos),
                    if conn[i].source in Sources(before + conn[..i]) then [(pos, conn[i].source)] else []);
      }
      TakeAll(conn);
    }

    /**
     * `load_fk_mapper`: no error is reported exactly when no source column occurs twice, and
     * then the index describes exactly the rows, with nothing hidden.
     */
    method LoadFkMapper(conns: seq<seq<FkRow>>) returns (index: FkIndex)
      requires connectionErrors == []
      modifies this
      ensures fresh(index)
      ensures index.rows == AllRows(conns) && index.rejected == {}
      ensures connectionErrors == LoadErrors(conns)
      ensures connectionErrors == [] <==> DistinctSources(AllRows(conns))
      ensures connectionErrors == [] ==> index.Valid()
    {
      index := new FkIndex();
      NothingLoaded(conns);
      hide ErrorsFrom;
      for pos := 0 to |conns|
        invariant fresh(index)
        invariant Loading(index, AllRows(conns[..pos])) && connectionErrors == LoadErrors(conns[..pos])
      {
        LoadSnoc(conns, pos);
        LoadConnection(index, conns[pos], pos);
      }
      TakeAll(conns);
      forall s | s in index.bySource ensures !Hides(index.rows, {}, s) {
        NothingRejected(index.rows, s);
      }
    }
  }
}
