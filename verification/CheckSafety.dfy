/** When the CHECKs a run writes use no rejected column. */
module CheckSafety {
  import opened CreateTable
  import opened DdlRun
  import opened FkRows
  import opened HidableRecords
  import opened Names
  import opened RunSafety
  import opened SortedNames

  /** No CHECK of the run uses a rejected column. */
  ghost predicate ChecksClean(meta: Meta, rejected: set<string>, used: seq<string>) {
    forall stmt :: stmt in RunLog(meta, rejected, used) && stmt.AddCheck? ==> Named(meta, stmt) !! rejected
  }

  /** Each check is listed by one column of its table only. */
  ghost predicate OneColumnPerCheck(meta: Meta, used: seq<string>) {
    forall t, name, a, b :: t in used && a in CheckColumns(meta, t, name) && b in CheckColumns(meta, t, name) ==> a == b
  }

  lemma InColumns(meta: Meta, stname: string, name: string, key: string) returns (rec: CheckRec)
    requires key in CheckColumns(meta, stname, name)
    ensures stname in meta.tables && HasKey(stname, meta.tables[stname], key)
    ensures key in meta.checks && rec in meta.checks[key] && rec.name == name
  {
    hide HasKey;
    var i :| 0 <= i < |meta.checks[key]| && meta.checks[key][i].name == name;
    rec := meta.checks[key][i];
  }

  lemma UsedHere(meta: Meta, used: seq<string>, stname: string, key: string)
    requires stname in used && stname in meta.tables && HasKey(stname, meta.tables[stname], key)
    ensures IsUsed(meta, used, key)
  {
    hide HasKey;
  }

  lemma NamedByCheck(meta: Meta, key: string, name: string, clause: string)
    ensures Named(meta, AddCheck(key, name, clause)) == CheckColumns(meta, StnameOf(key), name)
  {
    hide CheckColumns, StnameOf;
  }

  /** A visible column that lists a check has it written. */
  lemma VisibleIsWritten(meta: Meta, rejected: set<string>, used: seq<string>, stname: string, name: string,
                         key: string)
    returns (stmt: Stmt)
    requires WellNamed(meta) && stname in used && stname != ""
    requires key in CheckColumns(meta, stname, name) && key !in rejected
    ensures stmt in RunLog(meta, rejected, used) && stmt.AddCheck?
    ensures Named(meta, stmt) == CheckColumns(meta, stname, name)
  {
    hide *;
    var rec := InColumns(meta, stname, name, key);
    stmt := AddCheck(key, rec.name, rec.clause);
    OwnerOfKey(meta, stname, key);
    UsedHere(meta, used, stname, key);
    NamedByCheck(meta, key, name, rec.clause);
    ChecksEmitted(meta, rejected, used, key, rec);
  }

  lemma ListedHere(meta: Meta, stname: string, name: string, key: string)
    requires stname in meta.tables && HasKey(stname, meta.tables[stname], key) && ListsCheck(meta, key, name)
    ensures key in CheckColumns(meta, stname, name)
  {
    hide HasKey;
  }

  lemma NotAUnique(meta: Meta, rejected: set<string>, stname: string, stmt: Stmt)
    requires FromTable(meta, rejected, stname, stmt) && stmt.AddCheck?
    ensures stname in meta.tables && stmt in ChecksOf(meta, rejected, stname, meta.tables[stname])
  {
    hide ChecksOf, AddUniques, UniquePairs, Sort;
    var pairs := UniquePairs(meta, rejected, stname, meta.tables[stname]);
    NotACheck(stname, pairs, Sort(PairNames(pairs)), stmt);
  }

  lemma FromUsed(meta: Meta, rejected: set<string>, used: seq<string>, stmt: Stmt) returns (stname: string)
    requires FromTables(meta, rejected, used, stmt)
    ensures stname in used && FromTable(meta, rejected, stname, stmt)
  {
    hide FromTable;
    stname :| stname in used && FromTable(meta, rejected, stname, stmt);
  }

  /** A CHECK of the run belongs to a visible column of a used table, which lists it. */
  lemma WrittenIsListed(meta: Meta, rejected: set<string>, used: seq<string>, stmt: Stmt) returns (stname: string)
    requires WellNamed(meta) && "" !in used && stmt in RunLog(meta, rejected, used) && stmt.AddCheck?
    ensures stname in used && Named(meta, stmt) == CheckColumns(meta, stname, stmt.name)
    ensures stmt.stcname in CheckColumns(meta, stname, stmt.name) && stmt.stcname !in rejected
  {
    hide *;
    NoLayout(stmt);
    InRunLog(meta, rejected, used, stmt);
    stname := FromUsed(meta, rejected, used, stmt);
    NotAUnique(meta, rejected, stname, stmt);
    CheckIsOwn(meta, rejected, stname, meta.tables[stname], stmt);
    OwnerOfKey(meta, stname, stmt.stcname);
    ListedHere(meta, stname, stmt.name, stmt.stcname);
    NamedByCheck(meta, stmt.stcname, stmt.name, stmt.clause);
  }

  lemma NoLayout(stmt: Stmt)
    ensures stmt.AddCheck? ==> !IsLayout(stmt)
  {
  }

  lemma WholeAt(meta: Meta, rejected: set<string>, used: seq<string>, stname: string, name: string,
                a: string, b: string)
    requires ChecksWhole(meta, rejected, used) && stname in used && b in rejected
    requires a in CheckColumns(meta, stname, name) && b in CheckColumns(meta, stname, name)
    ensures a in rejected
  {
    hide CheckColumns;
  }

  /**
   * No CHECK that a run writes uses a rejected column, if and only if no check is listed by
   * both a visible and a rejected column of a used table.
   */
  lemma ChecksCleanExactlyWhen(meta: Meta, rejected: set<string>, used: seq<string>)
    requires WellNamed(meta) && "" !in used
    ensures ChecksClean(meta, rejected, used) <==> ChecksWhole(meta, rejected, used)
  {
    hide RunLog, WellNamed, CheckColumns, Named;
    if ChecksClean(meta, rejected, used) {
      forall t, name, a, b |
        t in used && a in CheckColumns(meta, t, name) && b in CheckColumns(meta, t, name) && b in rejected
        ensures a in rejected
      {
        if a !in rejected {
          var stmt := VisibleIsWritten(meta, rejected, used, t, name, a);
          assert false;
        }
      }
    }
    if ChecksWhole(meta, rejected, used) {
      forall stmt | stmt in RunLog(meta, rejected, used) && stmt.AddCheck? ensures Named(meta, stmt) !! rejected {
        var t := WrittenIsListed(meta, rejected, used, stmt);
      }
    }
  }

  /** It is so whatever is rejected, if and only if each check uses one column of its table. */
  lemma ChecksCleanAlwaysExactlyWhen(meta: Meta, used: seq<string>)
    requires WellNamed(meta) && "" !in used
    ensures (forall rejected :: ChecksClean(meta, rejected, used)) <==> OneColumnPerCheck(meta, used)
  {
    hide WellNamed, CheckColumns, ChecksClean, ChecksWhole;
    if forall rejected :: ChecksClean(meta, rejected, used) {
      forall t, name, a, b | t in used && a in CheckColumns(meta, t, name) && b in CheckColumns(meta, t, name)
        ensures a == b
      {
        ChecksCleanExactlyWhen(meta, {b}, used);
        WholeAt(meta, {b}, used, t, name, a, b);
      }
    }
    if OneColumnPerCheck(meta, used) {
      forall rejected ensures ChecksClean(meta, rejected, used) {
        ChecksCleanExactlyWhen(meta, rejected, used);
        OneIsWhole(meta, rejected, used);
      }
    }
  }

  lemma OneIsWhole(meta: Meta, rejected: set<string>, used: seq<string>)
    requires OneColumnPerCheck(meta, used)
    ensures ChecksWhole(meta, rejected, used)
  {
    hide CheckColumns;
  }

  // ------------------------------------------------------------------ at an input

  /** A table with an accepted column a, a column b and a check comparing them. */
  function Compared(outcome: Outcome): Meta {
    Meta(map["s.t" := [Column("a", Accepted("INTEGER"), []), Column("b", outcome, [])]], {},
         map["s.t.a" := [CheckRec("ck", "a > b")], "s.t.b" := [CheckRec("ck", "a > b")]], map[], [])
  }

  lemma ComparedKeys()
    ensures IsStname("s.t") && IsCname("a") && IsCname("b")
    ensures StcnameOf("s.t", "a") == "s.t.a" && StcnameOf("s.t", "b") == "s.t.b" && "s.t.a" != "s.t.b"
    ensures StnameOf("s.t.a") == StnameOf("s.t.b") == "s.t" && CnameOf("s.t.b") == "b"
  {
    assert IsStname("s.t") by {
      assert "s.t"[1] == '.';
    }
    assert IsCname("a") && IsCname("b");
    assert "s.t" + "." + "a" == "s.t.a" && "s.t" + "." + "b" == "s.t.b" && "s.t.a"[4] != "s.t.b"[4];
    hide *;
    KeyText("s.t", "a");
    KeyText("s.t", "b");
    KeyRoundTrip("s.t", "a");
    KeyRoundTrip("s.t", "b");
  }

  lemma ComparedColumns(outcome: Outcome)
    ensures var meta := Compared(outcome);
            meta.fks == [] && "s.t" in meta.tables && (forall t :: t in meta.tables ==> t == "s.t") &&
            var columns := meta.tables["s.t"];
            |columns| == 2 && columns[0].cname == "a" != columns[1].cname == "b" &&
            columns[0].outcome.Accepted? && columns[1].outcome == outcome &&
            forall i :: 0 <= i < 2 ==> columns[i].msgs == []
  {
    assert "a"[0] != "b"[0];
  }

  lemma ComparedNames(outcome: Outcome)
    ensures var meta := Compared(outcome);
            WellNamed(meta) && DistinctColumns(meta, ["s.t"]) && NamesSafe(meta.fks)
  {
    hide IsStname, IsCname;
    ComparedKeys();
    ComparedColumns(outcome);
    hide StcnameOf, StnameOf, Compared;
    assert forall i :: 0 <= i < 2 ==> IsCname(Compared(outcome).tables["s.t"][i].cname);
  }

  lemma ComparedTable(outcome: Outcome)
    ensures "s.t" in Compared(outcome).tables
    ensures var columns := Compared(outcome).tables["s.t"];
            RejectedKeys("s.t", columns) == (if outcome.Rejected? then {"s.t.b"} else {}) &&
            (forall key :: HasKey("s.t", columns, key) <==> key == "s.t.a" || key == "s.t.b")
  {
    hide IsStname, IsCname, StcnameOf, StnameOf;
    ComparedKeys();
    ComparedColumns(outcome);
    hide Compared;
    var columns := Compared(outcome).tables["s.t"];
    assert StcnameOf("s.t", columns[0].cname) == "s.t.a" && StcnameOf("s.t", columns[1].cname) == "s.t.b";
  }

  lemma ComparedChecks(outcome: Outcome)
    ensures Compared(outcome).checks ==
            map["s.t.a" := [CheckRec("ck", "a > b")], "s.t.b" := [CheckRec("ck", "a > b")]]
    ensures ListsCheck(Compared(outcome), "s.t.b", "ck") && ListsCheck(Compared(outcome), "s.t.a", "ck")
  {
    var checks := Compared(outcome).checks;
    assert checks["s.t.a"][0] == CheckRec("ck", "a > b") == checks["s.t.b"][0];
  }

  lemma RejectedByOne(meta: Meta, stname: string, key: string)
    requires stname in meta.tables && RejectedKeys(stname, meta.tables[stname]) == {key}
    ensures RejectedBy(meta.tables, [stname]) == {key} && OnlyRejected(meta, {key})
  {
    assert [stname][..0] == [];
    assert IsRejected(meta, key);
    hide RejectedKeys;
  }

  /** Rejecting b leaves the check written for a, and its clause uses b. */
  lemma ComparedColumnEscapes()
    ensures var meta, stmt := Compared(Rejected("xml")), AddCheck("s.t.a", "ck", "a > b");
            WellNamed(meta) && DistinctColumns(meta, ["s.t"]) && NamesSafe(meta.fks) &&
            RejectedBy(meta.tables, ["s.t"]) == {"s.t.b"} && OnlyRejected(meta, {"s.t.b"}) &&
            stmt in RunLog(meta, {"s.t.b"}, ["s.t"]) && "s.t.b" in Named(meta, stmt)
  {
    hide *;
    var meta := Compared(Rejected("xml"));
    ComparedKeys();
    ComparedNames(Rejected("xml"));
    ComparedTable(Rejected("xml"));
    ComparedChecks(Rejected("xml"));
    RejectedByOne(meta, "s.t", "s.t.b");
    UsedHere(meta, ["s.t"], "s.t", "s.t.a");
    ChecksEmitted(meta, {"s.t.b"}, ["s.t"], "s.t.a", CheckRec("ck", "a > b"));
    ListedHere(meta, "s.t", "ck", "s.t.b");
    NamedByCheck(meta, "s.t.a", "ck", "a > b");
  }
}
