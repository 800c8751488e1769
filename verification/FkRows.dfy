/** Foreign-key rows as the query returns them, and what rejecting columns should hide. */
module FkRows {
  import opened Common

  /** A column, its constraint's name, and the column it refers to. */
  datatype FkRow = FkRow(source: string, name: string, ref: string)

  datatype FkReverse = FkReverse(name: string, source: string)

  predicate DistinctSources(rows: seq<FkRow>) {
    forall i, j :: 0 <= i < j < |rows| ==> rows[i].source != rows[j].source
  }

  function Sources(rows: seq<FkRow>): set<string> {
    set i | 0 <= i < |rows| :: rows[i].source
  }

  function Names(rows: seq<FkRow>): set<string> {
    set i | 0 <= i < |rows| :: rows[i].name
  }

  function Refs(rows: seq<FkRow>): set<string> {
    set i | 0 <= i < |rows| :: rows[i].ref
  }

  lemma SnocFacts(rows: seq<FkRow>, row: FkRow)
    ensures DistinctSources(rows + [row]) <==> DistinctSources(rows) && row.source !in Sources(rows)
    ensures Sources(rows + [row]) == Sources(rows) + {row.source}
    ensures Names(rows + [row]) == Names(rows) + {row.name}
    ensures Refs(rows + [row]) == Refs(rows) + {row.ref}
  {
    var all := rows + [row];
    assert all[|rows|] == row && forall i :: 0 <= i < |rows| ==> all[i] == rows[i];
  }

  /** Position of the first row with a constraint name; the length when there is none. */
  function FirstIndex(rows: seq<FkRow>, name: string): (i: nat)
    ensures i <= |rows|
    ensures i < |rows| ==> rows[i].name == name
    ensures forall j :: 0 <= j < i ==> rows[j].name != name
  {
    if rows == [] || rows[0].name == name then 0
    else
      var i := FirstIndex(rows[1..], name);
      assert forall j :: 1 <= j < 1 + i ==> rows[j] == rows[1..][j - 1];
      1 + i
  }

  lemma FirstIndexFinds(rows: seq<FkRow>, k: nat)
    requires k < |rows|
    ensures FirstIndex(rows, rows[k].name) <= k
  {
  }

  lemma FirstIndexSnoc(rows: seq<FkRow>, row: FkRow, name: string)
    ensures FirstIndex(rows + [row], name) ==
            if FirstIndex(rows, name) < |rows| then FirstIndex(rows, name)
            else if row.name == name then |rows| else |rows| + 1
  {
    var all := rows + [row];
    assert forall i :: 0 <= i < |rows| ==> all[i] == rows[i];
    assert all[|rows|] == row;
  }

  /** The rows that refer to a column, in order. */
  function ReverseOf(rows: seq<FkRow>, ref: string): seq<FkReverse> {
    if rows == [] then []
    else
      var init, row := rows[..|rows| - 1], rows[|rows| - 1];
      ReverseOf(init, ref) + if row.ref == ref then [FkReverse(row.name, row.source)] else []
  }

  lemma ReverseOfSnoc(rows: seq<FkRow>, row: FkRow, ref: string)
    ensures ReverseOf(rows + [row], ref) ==
            ReverseOf(rows, ref) + if row.ref == ref then [FkReverse(row.name, row.source)] else []
  {
    var all := rows + [row];
    assert all[..|all| - 1] == rows;
  }

  predicate NameRefers(rows: seq<FkRow>, name: string, ref: string) {
    exists k :: 0 <= k < |rows| && rows[k].ref == ref && rows[k].name == name
  }

  predicate HasName(revs: seq<FkReverse>, name: string) {
    exists j :: 0 <= j < |revs| && revs[j].name == name
  }

  lemma HasNameSnoc(revs: seq<FkReverse>, rev: FkReverse, name: string)
    ensures HasName(revs + [rev], name) <==> HasName(revs, name) || rev.name == name
  {
    var all := revs + [rev];
    assert all[|revs|] == rev && forall k :: 0 <= k < |revs| ==> all[k] == revs[k];
  }

  lemma {:induction false} ReverseNames(rows: seq<FkRow>, ref: string, name: string)
    ensures HasName(ReverseOf(rows, ref), name) <==> NameRefers(rows, name, ref)
  {
    if rows != [] {
      var init, row := rows[..|rows| - 1], rows[|rows| - 1];
      ReverseNames(init, ref, name);
      assert rows == init + [row];
      NameRefersSnoc(init, row, name, ref);
      HasNameSnoc(ReverseOf(init, ref), FkReverse(row.name, row.source), name);
      AppendEmpty(ReverseOf(init, ref));
    }
  }

  lemma NameRefersSnoc(rows: seq<FkRow>, row: FkRow, name: string, ref: string)
    ensures NameRefers(rows + [row], name, ref) <==> NameRefers(rows, name, ref) || (row.ref == ref && row.name == name)
  {
    var all := rows + [row];
    assert all[|rows|] == row && forall k :: 0 <= k < |rows| ==> all[k] == rows[k];
  }

  lemma NoReverse(rows: seq<FkRow>, ref: string)
    ensures ReverseOf(rows, ref) == [] <==> ref !in Refs(rows)
  {
    if ReverseOf(rows, ref) != [] {
      assert HasName(ReverseOf(rows, ref), ReverseOf(rows, ref)[0].name);
      ReverseNames(rows, ref, ReverseOf(rows, ref)[0].name);
    }
    if ref in Refs(rows) {
      var k :| 0 <= k < |rows| && rows[k].ref == ref;
      assert NameRefers(rows, rows[k].name, ref);
      ReverseNames(rows, ref, rows[k].name);
    }
  }

  lemma FirstIndexMissing(rows: seq<FkRow>, name: string)
    ensures name in Names(rows) <==> FirstIndex(rows, name) < |rows|
  {
  }

  // ------------------------------------------------------------ what is hidden

  /** Hiding goes through the source, or through the first row of a name that refers to a rejected column. */
  predicate Hides(rows: seq<FkRow>, rejected: set<string>, source: string) {
    source in rejected || exists k :: 0 <= k < |rows| && HidesBy(rows, rejected, source, k)
  }

  predicate HidesBy(rows: seq<FkRow>, rejected: set<string>, source: string, k: nat)
    requires k < |rows|
  {
    rows[k].ref in rejected && FirstIndex(rows, rows[k].name) < |rows| &&
    rows[FirstIndex(rows, rows[k].name)].source == source
  }

  lemma NothingRejected(rows: seq<FkRow>, source: string)
    ensures !Hides(rows, {}, source)
  {
  }

  /** What should be hidden: a constraint whose own column or whose target is rejected. */
  predicate Touches(row: FkRow, rejected: set<string>) {
    row.source in rejected || row.ref in rejected
  }

  /** Rejecting columns hides exactly the constraints that touch them. */
  ghost predicate HidesExactly(rows: seq<FkRow>) {
    forall rejected: set<string>, i :: 0 <= i < |rows| ==>
      (Hides(rows, rejected, rows[i].source) <==> Touches(rows[i], rejected))
  }

  /** A row whose name is already taken refers to itself, and so does the first row of that name to it. */
  predicate NamesBehave(rows: seq<FkRow>) {
    forall k :: 0 <= k < |rows| ==> RowBehaves(rows, k)
  }

  predicate RowBehaves(rows: seq<FkRow>, k: nat)
    requires k < |rows|
  {
    var first := FirstIndex(rows, rows[k].name);
    first == k || (first < |rows| && rows[k].source == rows[k].ref == rows[first].ref)
  }

  lemma DistinctNamesBehave(rows: seq<FkRow>)
    requires forall i, j :: 0 <= i < j < |rows| ==> rows[i].name != rows[j].name
    ensures NamesBehave(rows)
  {
  }

  lemma BehavedIsExact(rows: seq<FkRow>, rejected: set<string>, i: nat)
    requires DistinctSources(rows) && NamesBehave(rows) && i < |rows|
    ensures Hides(rows, rejected, rows[i].source) <==> Touches(rows[i], rejected)
  {
    var s := rows[i].source;
    FirstIndexFinds(rows, i);
    if Hides(rows, rejected, s) && s !in rejected {
      var k :| 0 <= k < |rows| && HidesBy(rows, rejected, s, k);
      FirstIndexFinds(rows, k);
      assert FirstIndex(rows, rows[k].name) == i;
      assert RowBehaves(rows, k);
    }
    if rows[i].ref in rejected && s !in rejected {
      assert RowBehaves(rows, i);
      assert HidesBy(rows, rejected, s, i);
    }
  }

  /** No constraint name leads to a row that is not the first of its name. */
  lemma OnlyFirstIsReached(rows: seq<FkRow>, rejected: set<string>, k: nat)
    requires DistinctSources(rows) && k < |rows| && FirstIndex(rows, rows[k].name) != k
    ensures forall j :: 0 <= j < |rows| ==> !HidesBy(rows, rejected, rows[k].source, j)
  {
    hide FirstIndex, HidesBy, DistinctSources;
    forall j | 0 <= j < |rows| ensures !HidesBy(rows, rejected, rows[k].source, j) {
      NotReached(rows, rejected, k, j);
    }
  }

  lemma NotReached(rows: seq<FkRow>, rejected: set<string>, k: nat, j: nat)
    requires DistinctSources(rows) && k < |rows| && FirstIndex(rows, rows[k].name) != k && j < |rows|
    ensures !HidesBy(rows, rejected, rows[k].source, j)
  {
    hide FirstIndex, DistinctSources;
    var first := FirstIndex(rows, rows[j].name);
    if first < |rows| && rows[first].source == rows[k].source {
      SameSource(rows, first, k);
    }
  }

  lemma SameSource(rows: seq<FkRow>, i: nat, k: nat)
    requires DistinctSources(rows) && i < |rows| && k < |rows| && rows[i].source == rows[k].source
    ensures i == k
  {
  }

  lemma ExactBehaves(rows: seq<FkRow>, k: nat)
    requires DistinctSources(rows) && HidesExactly(rows) && k < |rows|
    ensures RowBehaves(rows, k)
  {
    FirstIndexFinds(rows, k);
    var first := FirstIndex(rows, rows[k].name);
    if first != k {
      var rejected := {rows[k].ref};
      assert Hides(rows, rejected, rows[k].source) <==> Touches(rows[k], rejected);
      assert Hides(rows, rejected, rows[first].source) <==> Touches(rows[first], rejected);
      OnlyFirstIsReached(rows, rejected, k);
      assert HidesBy(rows, rejected, rows[first].source, k);
    }
  }

  /**
   * The exact condition. With distinct source columns, every set of rejected columns hides
   * exactly the constraints touching it, if and only if constraint names repeat only among
   * rows that refer to the repeated row's own column.
   */
  lemma ExactHiding(rows: seq<FkRow>)
    requires DistinctSources(rows)
    ensures HidesExactly(rows) <==> NamesBehave(rows)
  {
    if NamesBehave(rows) {
      forall rejected: set<string>, i | 0 <= i < |rows|
        ensures Hides(rows, rejected, rows[i].source) <==> Touches(rows[i], rejected)
      {
        BehavedIsExact(rows, rejected, i);
      }
    }
    if HidesExactly(rows) {
      forall k | 0 <= k < |rows| ensures RowBehaves(rows, k) {
        ExactBehaves(rows, k);
      }
    }
  }

  /** Every constraint that touches a rejected column is hidden; others may be, too. */
  ghost predicate HidesEnough(rows: seq<FkRow>) {
    forall rejected: set<string>, i :: 0 <= i < |rows| ==> HidesTouched(rows, rejected, i)
  }

  predicate HidesTouched(rows: seq<FkRow>, rejected: set<string>, i: nat)
    requires i < |rows|
  {
    Touches(rows[i], rejected) ==> Hides(rows, rejected, rows[i].source)
  }

  /** A row whose constraint name is already taken refers to its own column. */
  predicate NamesSafe(rows: seq<FkRow>) {
    forall k :: 0 <= k < |rows| ==> FirstIndex(rows, rows[k].name) == k || rows[k].source == rows[k].ref
  }

  lemma SafeIsHidden(rows: seq<FkRow>, rejected: set<string>, i: nat)
    requires NamesSafe(rows) && i < |rows|
    ensures HidesTouched(rows, rejected, i)
  {
    if rows[i].ref in rejected && rows[i].source !in rejected {
      assert FirstIndex(rows, rows[i].name) == i;
      assert HidesBy(rows, rejected, rows[i].source, i);
    }
  }

  lemma HiddenIsSafe(rows: seq<FkRow>, k: nat)
    requires DistinctSources(rows) && k < |rows| && HidesTouched(rows, {rows[k].ref}, k)
    ensures FirstIndex(rows, rows[k].name) == k || rows[k].source == rows[k].ref
  {
    if FirstIndex(rows, rows[k].name) != k {
      OnlyFirstIsReached(rows, {rows[k].ref}, k);
    }
  }

  /**
   * With distinct source columns, no constraint touching a rejected column stays visible if and
   * only if names are safe.
   */
  lemma SafeHiding(rows: seq<FkRow>)
    requires DistinctSources(rows)
    ensures HidesEnough(rows) <==> NamesSafe(rows)
  {
    if NamesSafe(rows) {
      forall rejected: set<string>, i | 0 <= i < |rows| ensures HidesTouched(rows, rejected, i) {
        SafeIsHidden(rows, rejected, i);
      }
    }
    if HidesEnough(rows) {
      forall k | 0 <= k < |rows| ensures FirstIndex(rows, rows[k].name) == k || rows[k].source == rows[k].ref {
        assert HidesTouched(rows, {rows[k].ref}, k);
        HiddenIsSafe(rows, k);
      }
    }
  }

  /** A composite key: rejecting the second target column leaves the second column's constraint visible. */
  lemma CompositeKeyEscapes()
    ensures var rows := [FkRow("s.t.a", "fk", "s.u.x"), FkRow("s.t.b", "fk", "s.u.y")];
            DistinctSources(rows) && Touches(rows[1], {"s.u.y"}) && !Hides(rows, {"s.u.y"}, "s.t.b")
  {
    var rows := [FkRow("s.t.a", "fk", "s.u.x"), FkRow("s.t.b", "fk", "s.u.y")];
    assert rows[0].source == "s.t.a" && "s.t.a"[4] != "s.t.b"[4] && "s.u.y"[2] != "s.t.b"[2];
    assert FirstIndex(rows, "fk") == 0;
  }
}
