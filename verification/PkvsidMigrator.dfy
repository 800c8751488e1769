/**
 * The table migrator that treats an identity column as a table's sole primary key: a state
 * machine over the columns of a table.
 */
module PkvsidMigrator {
  import opened Common
  import opened CreateTable
  import TableBody

  /** A column with what the datatype rules say of it. */
  datatype Col = Col(cname: string, identity: bool, passes: bool)

  datatype Conflict = NoConflict | OtherKeys | OtherIdentities

  /** Whether the column is rejected, whether it gets an identity clause, and the conflict reported. */
  datatype Decision = Decision(rejected: bool, identityClause: bool, conflict: Conflict)

  datatype State = State(pk: seq<string>, identities: seq<string>, count: nat)

  /** An identity column that is the whole key takes the key's place. */
  function KeyLeft(pk: seq<string>, cname: string): seq<string> {
    if pk == [cname] then [] else pk
  }

  function Next(st: State, col: Col): State {
    if !col.passes then st.(pk := RemoveFirst(st.pk, col.cname))
    else if !col.identity then st
    else
      var pk := KeyLeft(st.pk, col.cname);
      State(pk, if pk == [] && st.count == 0 then st.identities + [col.cname] else [], st.count + 1)
  }

  function Decide(st: State, col: Col): Decision {
    if !col.passes then Decision(true, false, NoConflict)
    else if !col.identity then Decision(false, false, NoConflict)
    else if KeyLeft(st.pk, col.cname) != [] then Decision(true, false, OtherKeys)
    else if st.count != 0 then Decision(true, false, OtherIdentities)
    else Decision(false, true, NoConflict)
  }

  /** The state after some columns, from a table's primary key. */
  function After(pk: seq<string>, cols: seq<Col>): State {
    if cols == [] then State(pk, [], 0) else Next(After(pk, cols[..|cols| - 1]), cols[|cols| - 1])
  }

  lemma AfterNone(pk: seq<string>, cols: seq<Col>)
    ensures After(pk, cols[..0]) == State(pk, [], 0)
  {
  }

  lemma AfterMore(pk: seq<string>, cols: seq<Col>, i: nat)
    requires i < |cols|
    ensures After(pk, cols[..i + 1]) == Next(After(pk, cols[..i]), cols[i])
  {
    assert cols[..i + 1][..i] == cols[..i];
  }

  class PkvsidTableMigrator {
    var pkCnames: seq<string>
    var identityCnames: seq<string>
    var identityCnt: nat
    var filterPkColumnsCalled: bool
    var uniquifyIdentityColumnsCalled: bool

    function Contents(): State
      reads this
    {
      State(pkCnames, identityCnames, identityCnt)
    }

    constructor (pkCnames: seq<string>)
      ensures Contents() == After(pkCnames, []) && !filterPkColumnsCalled && !uniquifyIdentityColumnsCalled
    {
      this.pkCnames, identityCnames, identityCnt := pkCnames, [], 0;
      filterPkColumnsCalled, uniquifyIdentityColumnsCalled := false, false;
    }

    /** The loop over the key that clears it if the column is all of it. */
    method ClearSoleKey(cname: string)
      modifies this`pkCnames
      ensures pkCnames == KeyLeft(old(pkCnames), cname)
    {
      assert pkCnames == [cname] <==> |pkCnames| == 1 && pkCnames[0] == cname;
      for i := 0 to |pkCnames|
        invariant pkCnames == old(pkCnames) && forall k :: 0 <= k < i ==> pkCnames[k] != cname
      {
        if pkCnames[i] == cname {
          if |pkCnames| == 1 {
            pkCnames := [];
          }
          return;
        }
      }
    }

    /** `migrate_datatype_ddl`, after the datatype rules. */
    method MigrateDatatype(col: Col) returns (d: Decision)
      modifies this`pkCnames, this`identityCnames, this`identityCnt
      ensures Contents() == Next(old(Contents()), col) && d == Decide(old(Contents()), col)
    {
      d := Decision(!col.passes, false, NoConflict);
      if col.passes {
        if col.identity {
          ClearSoleKey(col.cname);
          if pkCnames != [] {
            d := Decision(true, false, OtherKeys);
            identityCnames := [];
          } else if identityCnt != 0 {
            d := Decision(true, false, OtherIdentities);
            identityCnames := [];
          } else {
            d := Decision(false, true, NoConflict);
            identityCnames := identityCnames + [col.cname];
          }
          identityCnt := identityCnt + 1;
        }
      } else {
        pkCnames := EraseFirst(pkCnames, col.cname);
      }
    }

    /** The columns of a table, in order. */
    method MigrateColumns(cols: seq<Col>) returns (decisions: seq<Decision>)
      requires identityCnames == [] && identityCnt == 0
      modifies this`pkCnames, this`identityCnames, this`identityCnt
      ensures Contents() == After(old(pkCnames), cols)
      ensures |decisions| == |cols| && forall i :: 0 <= i < |cols| ==>
              decisions[i] == Decide(After(old(pkCnames), cols[..i]), cols[i])
    {
      AfterNone(pkCnames, cols);
      assert Contents() == State(pkCnames, [], 0);
      hide *;
      decisions := [];
      for i := 0 to |cols|
        invariant Contents() == After(old(pkCnames), cols[..i])
        invariant |decisions| == i && forall k :: 0 <= k < i ==>
                  decisions[k] == Decide(After(old(pkCnames), cols[..k]), cols[k])
      {
        AfterMore(old(pkCnames), cols, i);
        var d := MigrateDatatype(cols[i]);
        decisions := decisions + [d];
      }
      TakeAll(cols);
    }

    /** A logic error the second time. */
    method FilterPkColumns() returns (r: Option<seq<string>>)
      modifies this`pkCnames, this`filterPkColumnsCalled
      ensures r == if old(filterPkColumnsCalled) then None else Some(old(pkCnames))
      ensures pkCnames == if old(filterPkColumnsCalled) then old(pkCnames) else []
      ensures filterPkColumnsCalled
    {
      if filterPkColumnsCalled {
        return None;
      }
      filterPkColumnsCalled := true;
      r := Some(pkCnames);
      pkCnames := [];
    }

    /** A logic error the second time; the source asserts that there is at most one name. */
    method UniquifyIdentityColumns() returns (r: Option<seq<string>>)
      requires |identityCnames| <= 1
      modifies this`identityCnames, this`uniquifyIdentityColumnsCalled
      ensures r == if old(uniquifyIdentityColumnsCalled) then None else Some(old(identityCnames))
      ensures identityCnames == if old(uniquifyIdentityColumnsCalled) then old(identityCnames) else []
      ensures uniquifyIdentityColumnsCalled
    {
      if uniquifyIdentityColumnsCalled {
        return None;
      }
      uniquifyIdentityColumnsCalled := true;
      r := Some(identityCnames);
      identityCnames := [];
    }
  }

  /** What is decided for a column: by the rules first, then by the key that is left, then by earlier identities. */
  lemma Decided(pk: seq<string>, a: string, b: string, identity: bool)
    ensures Decide(After(pk, []), Col(a, identity, false)) == Decision(true, false, NoConflict)
    ensures Decide(After(pk, []), Col(a, false, true)) == Decision(false, false, NoConflict)
    ensures Decide(After([], []), Col(a, true, true)) == Decision(false, true, NoConflict)
    ensures Decide(After([a], []), Col(a, true, true)) == Decision(false, true, NoConflict)
    ensures b != a ==> Decide(After([b], []), Col(a, true, true)) == Decision(true, false, OtherKeys)
    ensures Decide(After([a], [Col(a, true, true)]), Col(b, true, true)) == Decision(true, false, OtherIdentities)
    ensures After([a], [Col(a, true, true)]) == State([], [a], 1)
    ensures After([a], [Col(a, true, true), Col(b, true, true)]) == State([], [], 2)
    ensures After([a, b], [Col(a, identity, false)]) == State([b], [], 0)
  {
    AfterMore([a], [Col(a, true, true)], 0);
    AfterMore([a], [Col(a, true, true), Col(b, true, true)], 0);
    AfterMore([a], [Col(a, true, true), Col(b, true, true)], 1);
    AfterMore([a, b], [Col(a, identity, false)], 0);
    assert [Col(a, true, true)][..0] == [] && [Col(a, true, true)][..1] == [Col(a, true, true)];
    assert [Col(a, true, true), Col(b, true, true)][..0] == [];
    assert [Col(a, true, true), Col(b, true, true)][..1] == [Col(a, true, true)];
    assert [Col(a, true, true), Col(b, true, true)][..2] == [Col(a, true, true), Col(b, true, true)];
    assert [Col(a, identity, false)][..0] == [] && [Col(a, identity, false)][..1] == [Col(a, identity, false)];
    assert [a, b][1..] == [b];
  }

  // ----------------------------------------------------------------- identities

  predicate IsIdentity(col: Col) {
    col.identity && col.passes
  }

  function CountIdentities(cols: seq<Col>): nat {
    if cols == [] then 0 else CountIdentities(cols[..|cols| - 1]) + if IsIdentity(cols[|cols| - 1]) then 1 else 0
  }

  /** The key columns that the rules have left, whatever the identity columns do to the key. */
  function PassingKey(pk: seq<string>, cols: seq<Col>): seq<string> {
    if cols == [] then pk
    else
      var left := PassingKey(pk, cols[..|cols| - 1]);
      if cols[|cols| - 1].passes then left else RemoveFirst(left, cols[|cols| - 1].cname)
  }

  /** The first identity column is the one at i, and no other key column remained when it was seen. */
  predicate SoleAt(pk: seq<string>, cols: seq<Col>, i: nat)
    requires i < |cols|
  {
    IsIdentity(cols[i]) && CountIdentities(cols[..i]) == 0 && KeyLeft(PassingKey(pk, cols[..i]), cols[i].cname) == []
  }

  lemma {:induction false} CountsIdentities(pk: seq<string>, cols: seq<Col>)
    ensures After(pk, cols).count == CountIdentities(cols)
    ensures CountIdentities(cols) == 0 ==> After(pk, cols) == State(PassingKey(pk, cols), [], 0)
  {
    if cols != [] {
      CountsIdentities(pk, cols[..|cols| - 1]);
      hide RemoveFirst;
    }
  }

  lemma {:induction false} NoIdentityBefore(cols: seq<Col>, n: nat, i: nat)
    requires i < n <= |cols| && IsIdentity(cols[i])
    ensures CountIdentities(cols[..n]) >= 1 + CountIdentities(cols[..i])
    decreases n
  {
    assert cols[..n][..n - 1] == cols[..n - 1];
    if i < n - 1 {
      NoIdentityBefore(cols, n - 1, i);
    }
  }

  /**
   * A column gets an identity clause exactly when it is the first identity column that the
   * rules let pass and no other key column remained when it was seen.
   */
  lemma ClauseExactlyWhen(pk: seq<string>, cols: seq<Col>, i: nat)
    requires i < |cols|
    ensures Decide(After(pk, cols[..i]), cols[i]).identityClause <==> SoleAt(pk, cols, i)
  {
    CountsIdentities(pk, cols[..i]);
    hide After, CountIdentities, PassingKey;
  }

  /** At most one column of a table ever gets an identity clause. */
  lemma AtMostOneClause(pk: seq<string>, cols: seq<Col>, i: nat, j: nat)
    requires i < |cols| && j < |cols|
    requires Decide(After(pk, cols[..i]), cols[i]).identityClause &&
             Decide(After(pk, cols[..j]), cols[j]).identityClause
    ensures i == j
  {
    ClauseExactlyWhen(pk, cols, i);
    ClauseExactlyWhen(pk, cols, j);
    if i < j {
      NoIdentityBefore(cols, j, i);
    } else if j < i {
      NoIdentityBefore(cols, i, j);
    }
  }

  /** Some column is the only identity column that passed, with this name and no other key column remaining. */
  predicate SoleIdentity(pk: seq<string>, cols: seq<Col>, cname: string) {
    CountIdentities(cols) == 1 && exists i :: 0 <= i < |cols| && cols[i].cname == cname && SoleAt(pk, cols, i)
  }

  lemma SoleSnoc(pk: seq<string>, init: seq<Col>, last: Col, cname: string)
    ensures var cols := init + [last];
            SoleIdentity(pk, cols, cname) <==>
            if IsIdentity(last) then CountIdentities(init) == 0 && last.cname == cname &&
              KeyLeft(PassingKey(pk, init), cname) == []
            else SoleIdentity(pk, init, cname)
  {
    var cols := init + [last];
    var n := |init|;
    assert cols[..n] == init;
    assert CountIdentities(cols) == CountIdentities(init) + if IsIdentity(last) then 1 else 0;
    hide PassingKey, CountIdentities, KeyLeft, IsIdentity;
    forall i | 0 <= i < n ensures SoleAt(pk, cols, i) <==> SoleAt(pk, init, i) {
      assert cols[..i] == init[..i];
    }
    assert SoleAt(pk, cols, n) <==>
           IsIdentity(last) && CountIdentities(init) == 0 && KeyLeft(PassingKey(pk, init), last.cname) == [];
    if SoleIdentity(pk, cols, cname) {
      var i :| 0 <= i < |cols| && cols[i].cname == cname && SoleAt(pk, cols, i);
      assert i < n ==> init[i].cname == cname && SoleAt(pk, init, i);
      if i < n {
        NoIdentityBefore(cols, n, i);
      }
    }
    if !IsIdentity(last) && SoleIdentity(pk, init, cname) {
      var i :| 0 <= i < |init| && init[i].cname == cname && SoleAt(pk, init, i);
      assert cols[i].cname == cname && SoleAt(pk, cols, i);
    }
    if IsIdentity(last) && CountIdentities(init) == 0 && last.cname == cname &&
      KeyLeft(PassingKey(pk, init), cname) == [] {
      assert cols[n].cname == cname && SoleAt(pk, cols, n);
    }
  }

  /**
   * `uniquify_identity_columns` never has more than one name, and it has c exactly when c is
   * the only identity column that passed the rules and no other key column remained when it
   * was seen.
   */
  lemma {:induction false} UniquifyExactlyWhen(pk: seq<string>, cols: seq<Col>)
    ensures |After(pk, cols).identities| <= 1
    ensures forall cname :: After(pk, cols).identities == [cname] <==> SoleIdentity(pk, cols, cname)
  {
    if cols != [] {
      var init, last := cols[..|cols| - 1], cols[|cols| - 1];
      UniquifyExactlyWhen(pk, init);
      CountsIdentities(pk, init);
      assert cols == init + [last];
      AppendEmpty([last.cname]);
      forall cname ensures After(pk, cols).identities == [cname] <==> SoleIdentity(pk, cols, cname) {
        SoleSnoc(pk, init, last, cname);
        hide SoleIdentity, RemoveFirst, PassingKey;
      }
    }
  }

  // ------------------------------------------------------ keys that are left over

  /** In a state: an identity column that is one of several columns left in the key. */
  predicate Conflicts(st: State, col: Col) {
    IsIdentity(col) && col.cname in st.pk && |st.pk| >= 2
  }

  /** From the table alone: the rules let the identity column pass, and it is one of several key columns they left. */
  predicate StaysInKey(pk: seq<string>, cols: seq<Col>, i: nat)
    requires i < |cols|
  {
    IsIdentity(cols[i]) && cols[i].cname in PassingKey(pk, cols[..i]) && |PassingKey(pk, cols[..i])| >= 2
  }

  lemma {:induction false} RemovedIsShorter(names: seq<string>, name: string)
    ensures |RemoveFirst(names, name)| <= |names|
  {
    if names != [] {
      RemovedIsShorter(names[1..], name);
    }
  }

  /** The machine's key is what the rules have left, unless a sole identity column has taken its place. */
  lemma {:induction false} KeyOfState(pk: seq<string>, cols: seq<Col>)
    ensures After(pk, cols).pk == PassingKey(pk, cols) || (After(pk, cols).pk == [] && |PassingKey(pk, cols)| <= 1)
  {
    if cols != [] {
      var init, last := cols[..|cols| - 1], cols[|cols| - 1];
      KeyOfState(pk, init);
      RemovedIsShorter(PassingKey(pk, init), last.cname);
      assert RemoveFirst([], last.cname) == [];
      hide RemoveFirst;
    }
  }

  lemma ConflictIsInput(pk: seq<string>, cols: seq<Col>, i: nat)
    requires i < |cols|
    ensures Conflicts(After(pk, cols[..i]), cols[i]) <==> StaysInKey(pk, cols, i)
  {
    KeyOfState(pk, cols[..i]);
    hide After, PassingKey, IsIdentity;
  }

  lemma {:induction false} EraseFirstContents(names: seq<string>, name: string)
    ensures forall n :: n != name ==> (n in RemoveFirst(names, name) <==> n in names)
    ensures NoRepeats(names) ==> name !in RemoveFirst(names, name) && NoRepeats(RemoveFirst(names, name))
  {
    if names != [] {
      EraseFirstContents(names[1..], name);
      Uncons(names);
      if NoRepeats(names) {
        TableBody.DistinctTail(names);
        if names[0] != name {
          TableBody.DistinctCons(names[0], RemoveFirst(names[1..], name));
        }
      }
    }
  }

  lemma {:induction false} KeyHasNoRepeats(pk: seq<string>, cols: seq<Col>)
    requires NoRepeats(pk)
    ensures NoRepeats(After(pk, cols).pk)
  {
    if cols != [] {
      var init := cols[..|cols| - 1];
      KeyHasNoRepeats(pk, init);
      EraseFirstContents(After(pk, init).pk, cols[|cols| - 1].cname);
      hide NoRepeats, RemoveFirst;
      NothingRepeats();
    }
  }

  lemma NothingRepeats()
    ensures NoRepeats([])
  {
  }

  lemma OneStep(st: State, col: Col)
    requires NoRepeats(st.pk)
    ensures Decide(st, col).rejected && col.cname in Next(st, col).pk <==> Conflicts(st, col)
    ensures forall n :: n != col.cname ==> (n in Next(st, col).pk <==> n in st.pk)
  {
    EraseFirstContents(st.pk, col.cname);
    hide RemoveFirst;
  }

  /**
   * With distinct key columns and distinct column names, the key that is emitted names a
   * rejected column exactly when the rules let that column pass as an identity column and it
   * was one of several key columns they had left.
   */
  lemma KeyNamesRejectedExactlyWhen(pk: seq<string>, cols: seq<Col>, n: nat, i: nat)
    requires i < n <= |cols| && NoRepeats(pk)
    requires forall j, k :: 0 <= j < k < |cols| ==> cols[j].cname != cols[k].cname
    ensures Decide(After(pk, cols[..i]), cols[i]).rejected && cols[i].cname in After(pk, cols[..n]).pk
            <==> StaysInKey(pk, cols, i)
  {
    hide *;
    ConflictStays(pk, cols, n, i);
    ConflictIsInput(pk, cols, i);
  }

  lemma {:induction false} ConflictStays(pk: seq<string>, cols: seq<Col>, n: nat, i: nat)
    requires i < n <= |cols| && NoRepeats(pk)
    requires forall j, k :: 0 <= j < k < |cols| ==> cols[j].cname != cols[k].cname
    ensures Decide(After(pk, cols[..i]), cols[i]).rejected && cols[i].cname in After(pk, cols[..n]).pk
            <==> Conflicts(After(pk, cols[..i]), cols[i])
    decreases n
  {
    AfterMore(pk, cols, n - 1);
    KeyHasNoRepeats(pk, cols[..n - 1]);
    hide After, NoRepeats, Conflicts, Next, Decide;
    OneStep(After(pk, cols[..n - 1]), cols[n - 1]);
    if i < n - 1 {
      ConflictStays(pk, cols, n - 1, i);
      assert cols[i].cname != cols[n - 1].cname;
    }
  }

  /** A composite key with an identity column: the column is rejected, and the emitted key names it. */
  lemma RejectedColumnInKey()
    ensures var pk, cols := ["a", "b"], [Col("a", true, true)];
            StaysInKey(pk, cols, 0) && Decide(After(pk, []), cols[0]) == Decision(true, false, OtherKeys) &&
            After(pk, cols).pk == pk
  {
    var pk, cols := ["a", "b"], [Col("a", true, true)];
    assert cols[..0] == [] && pk[0] == "a" && |pk| == 2 && |["a"]| == 1;
    assert After(pk, []) == State(pk, [], 0) && KeyLeft(pk, "a") == pk;
    assert After(pk, cols) == Next(After(pk, []), cols[0]);
  }
}
