/**
 * The loaders that group query rows: consecutive rows with the same key form a run, each
 * run is inserted under its key, and a key inserted twice is a connection error.
 */
module RowRuns {
  import opened Common

  /** A row: the normalised name it belongs to, and its record. */
  datatype Row<V> = Row(key: string, value: V)

  datatype Run<V> = Run(key: string, values: seq<V>)

  /** A run that may continue into the next one. */
  function Glue<V>(run: Run<V>, runs: seq<Run<V>>): seq<Run<V>> {
    if runs != [] && runs[0].key == run.key then [Run(run.key, run.values + runs[0].values)] + runs[1..]
    else [run] + runs
  }

  /** The maximal runs of equal keys. */
  function Runs<V>(rows: seq<Row<V>>): seq<Run<V>> {
    if rows == [] then [] else Glue(Run(rows[0].key, [rows[0].value]), Runs(rows[1..]))
  }

  datatype Loaded<V> = Loaded(index: map<string, seq<V>>, errors: seq<(nat, string)>)

  function Insert<V>(st: Loaded<V>, conn: nat, run: Run<V>): Loaded<V> {
    if run.key in st.index then st.(errors := st.errors + [(conn, run.key)])
    else st.(index := st.index[run.key := run.values])
  }

  function InsertRuns<V>(st: Loaded<V>, conn: nat, runs: seq<Run<V>>): Loaded<V>
    decreases |runs|
  {
    if runs == [] then st else InsertRuns(Insert(st, conn, runs[0]), conn, runs[1..])
  }

  function LoadFrom<V>(st: Loaded<V>, conns: seq<seq<Row<V>>>, conn: nat): Loaded<V>
    requires conn <= |conns|
    decreases |conns| - conn
  {
    if conn == |conns| then st else LoadFrom(InsertRuns(st, conn, Runs(conns[conn])), conns, conn + 1)
  }

  lemma GlueSame<V>(run: Run<V>, value: V, runs: seq<Run<V>>)
    ensures Glue(run, Glue(Run(run.key, [value]), runs)) == Glue(Run(run.key, run.values + [value]), runs)
  {
    var inner := Run(run.key, [value]);
    if runs != [] && runs[0].key == run.key {
      AppendAssoc(run.values, [value], runs[0].values);
      Cons(Run(run.key, [value] + runs[0].values), runs[1..]);
    } else {
      Cons(inner, runs);
    }
  }

  lemma GlueOther<V>(run: Run<V>, other: Run<V>, runs: seq<Run<V>>)
    requires run.key != other.key
    ensures Glue(run, Glue(other, runs)) == [run] + Glue(other, runs)
  {
  }

  class RunLoader<V> {
    var index: map<string, seq<V>>
    var connectionErrors: seq<(nat, string)>

    function Contents(): Loaded<V>
      reads this
    {
      Loaded(index, connectionErrors)
    }

    constructor ()
      ensures Contents() == Loaded(map[], [])
    {
      index, connectionErrors := map[], [];
    }

    /** `insert_tc_recs`, `insert_uq_recs` */
    method InsertRecs(key: string, recs: seq<V>, conn: nat)
      modifies this
      ensures Contents() == Insert(old(Contents()), conn, Run(key, recs))
    {
      if key in index {
        connectionErrors := connectionErrors + [(conn, key)];
      } else {
        index := index[key := recs];
      }
    }

    /** The row loop over one connection, with the last run flushed after it. */
    method LoadConnection(rows: seq<Row<V>>, conn: nat)
      modifies this
      ensures Contents() == InsertRuns(old(Contents()), conn, Runs(rows))
    {
      var key, lastKey, recs := "", "", [];
      ghost var before := Contents();
      TakeAll(rows);
      for i := 0 to |rows|
        invariant recs == [] ==> i == 0 && Contents() == before
        invariant recs != [] ==> key == lastKey
        invariant recs != [] ==>
                    InsertRuns(before, conn, Runs(rows)) ==
                    InsertRuns(Contents(), conn, Glue(Run(lastKey, recs), Runs(rows[i..])))
      {
        ghost var rest := Runs(rows[i + 1..]);
        DropOne(rows, i);
        key := rows[i].key;
        if key != lastKey {
          if recs != [] {
            GlueOther(Run(lastKey, recs), Run(key, [rows[i].value]), rest);
            Cons(Run(lastKey, recs), Glue(Run(key, [rows[i].value]), rest));
            InsertRecs(lastKey, recs, conn);
            recs := [];
          }
        } else if recs != [] {
          GlueSame(Run(lastKey, recs), rows[i].value, rest);
        }
        AppendEmpty([rows[i].value]);
        recs := recs + [rows[i].value];
        lastKey := key;
      }
      if recs != [] {
        assert rows[|rows|..] == [];
        AppendEmpty([Run(lastKey, recs)]);
        Cons(Run(lastKey, recs), []);
        InsertRecs(key, recs, conn);
      }
    }

    /** All connections in order. */
    method Load(conns: seq<seq<Row<V>>>)
      modifies this
      ensures Contents() == LoadFrom(old(Contents()), conns, 0)
    {
      ghost var before := Contents();
      for conn := 0 to |conns|
        invariant LoadFrom(before, conns, 0) == LoadFrom(Contents(), conns, conn)
      {
        LoadConnection(conns[conn], conn);
      }
    }
  }

  lemma DropOne<V>(rows: seq<Row<V>>, i: nat)
    requires i < |rows|
    ensures Runs(rows[i..]) == Glue(Run(rows[i].key, [rows[i].value]), Runs(rows[i + 1..]))
  {
    assert rows[i..][1..] == rows[i + 1..];
  }

  // ----------------------------------------------------------- what is loaded

  /** All runs, in loading order. */
  function AllRuns<V>(conns: seq<seq<Row<V>>>, conn: nat): seq<Run<V>>
    requires conn <= |conns|
    decreases |conns| - conn
  {
    if conn == |conns| then [] else Runs(conns[conn]) + AllRuns(conns, conn + 1)
  }

  function AllRows<V>(conns: seq<seq<Row<V>>>, conn: nat): seq<Row<V>>
    requires conn <= |conns|
    decreases |conns| - conn
  {
    if conn == |conns| then [] else conns[conn] + AllRows(conns, conn + 1)
  }

  function Keys<V>(runs: seq<Run<V>>): set<string> {
    set i | 0 <= i < |runs| :: runs[i].key
  }

  predicate DistinctKeys<V>(runs: seq<Run<V>>) {
    if runs == [] then true else runs[0].key !in Keys(runs[1..]) && DistinctKeys(runs[1..])
  }

  /** The records of the rows with a key, in row order. */
  function Filter<V>(rows: seq<Row<V>>, key: string): seq<V> {
    if rows == [] then [] else (if rows[0].key == key then [rows[0].value] else []) + Filter(rows[1..], key)
  }

  /** The records of the runs with a key, in order. */
  function ValuesOf<V>(runs: seq<Run<V>>, key: string): seq<V> {
    if runs == [] then [] else (if runs[0].key == key then runs[0].values else []) + ValuesOf(runs[1..], key)
  }

  lemma {:induction false} ValuesOfAppend<V>(a: seq<Run<V>>, b: seq<Run<V>>, key: string)
    ensures ValuesOf(a + b, key) == ValuesOf(a, key) + ValuesOf(b, key)
  {
    if a == [] {
      AppendEmpty(b);
      AppendEmpty(ValuesOf(b, key));
    } else {
      assert (a + b)[1..] == a[1..] + b;
      ValuesOfAppend(a[1..], b, key);
      AppendAssoc(if a[0].key == key then a[0].values else [], ValuesOf(a[1..], key), ValuesOf(b, key));
    }
  }

  lemma {:induction false} FilterAppend<V>(a: seq<Row<V>>, b: seq<Row<V>>, key: string)
    ensures Filter(a + b, key) == Filter(a, key) + Filter(b, key)
  {
    if a == [] {
      AppendEmpty(b);
      AppendEmpty(Filter(b, key));
    } else {
      assert (a + b)[1..] == a[1..] + b;
      FilterAppend(a[1..], b, key);
      AppendAssoc(if a[0].key == key then [a[0].value] else [], Filter(a[1..], key), Filter(b, key));
    }
  }

  lemma GlueValues<V>(run: Run<V>, runs: seq<Run<V>>, key: string)
    ensures ValuesOf(Glue(run, runs), key) == (if run.key == key then run.values else []) + ValuesOf(runs, key)
  {
    if runs != [] && runs[0].key == run.key {
      Cons(Run(run.key, run.values + runs[0].values), runs[1..]);
      if run.key == key {
        AppendAssoc(run.values, runs[0].values, ValuesOf(runs[1..], key));
      }
      AppendEmpty(ValuesOf(runs[1..], key));
    } else {
      Cons(run, runs);
    }
  }

  /** Grouping keeps every row of a key, in order. */
  lemma {:induction false} RunsKeepRows<V>(rows: seq<Row<V>>, key: string)
    ensures ValuesOf(Runs(rows), key) == Filter(rows, key)
  {
    if rows != [] {
      RunsKeepRows(rows[1..], key);
      GlueValues(Run(rows[0].key, [rows[0].value]), Runs(rows[1..]), key);
    }
  }

  lemma {:induction false} AllRunsKeepRows<V>(conns: seq<seq<Row<V>>>, conn: nat, key: string)
    requires conn <= |conns|
    ensures ValuesOf(AllRuns(conns, conn), key) == Filter(AllRows(conns, conn), key)
    decreases |conns| - conn
  {
    if conn < |conns| {
      AllRunsKeepRows(conns, conn + 1, key);
      RunsKeepRows(conns[conn], key);
      ValuesOfAppend(Runs(conns[conn]), AllRuns(conns, conn + 1), key);
      FilterAppend(conns[conn], AllRows(conns, conn + 1), key);
    }
  }

  lemma KeysTail<V>(runs: seq<Run<V>>)
    requires runs != []
    ensures Keys(runs) == {runs[0].key} + Keys(runs[1..])
  {
    assert forall i :: 1 <= i < |runs| ==> runs[i] == runs[1..][i - 1];
    assert forall i :: 0 <= i < |runs[1..]| ==> runs[1..][i] == runs[i + 1];
  }

  lemma {:induction false} NoSuchKey<V>(runs: seq<Run<V>>, key: string)
    requires key !in Keys(runs)
    ensures ValuesOf(runs, key) == []
  {
    if runs != [] {
      KeysTail(runs);
      NoSuchKey(runs[1..], key);
    }
  }

  lemma {:induction false} ErrorsGrow<V>(st: Loaded<V>, conn: nat, runs: seq<Run<V>>)
    ensures st.errors <= InsertRuns(st, conn, runs).errors
    decreases |runs|
  {
    if runs != [] {
      ErrorsGrow(Insert(st, conn, runs[0]), conn, runs[1..]);
    }
  }

  /** Inserting runs reports nothing exactly when their keys are new and distinct. */
  lemma {:induction false} InsertRunsErrors<V>(st: Loaded<V>, conn: nat, runs: seq<Run<V>>)
    ensures var after := InsertRuns(st, conn, runs);
            (after.errors == st.errors <==> DistinctKeys(runs) && Keys(runs) !! st.index.Keys) &&
            (after.errors == st.errors ==>
              after.index.Keys == st.index.Keys + Keys(runs) &&
              (forall k :: k in st.index ==> after.index[k] == st.index[k]) &&
              (forall k :: k in Keys(runs) ==> after.index[k] == ValuesOf(runs, k)))
    decreases |runs|
  {
    if runs != [] {
      var st' := Insert(st, conn, runs[0]);
      KeysTail(runs);
      InsertRunsErrors(st', conn, runs[1..]);
      ErrorsGrow(st', conn, runs[1..]);
      if runs[0].key !in st.index && InsertRuns(st', conn, runs[1..]).errors == st.errors {
        NoSuchKey(runs[1..], runs[0].key);
        AppendEmpty(runs[0].values);
        forall k | k in Keys(runs[1..]) ensures k != runs[0].key && ValuesOf(runs, k) == ValuesOf(runs[1..], k) {
          AppendEmpty(ValuesOf(runs[1..], k));
        }
      }
    } else {
      assert Keys(runs) == {};
    }
  }

  lemma {:induction false} DistinctAppend<V>(a: seq<Run<V>>, b: seq<Run<V>>)
    ensures Keys(a + b) == Keys(a) + Keys(b)
    ensures DistinctKeys(a + b) <==> DistinctKeys(a) && DistinctKeys(b) && Keys(a) !! Keys(b)
  {
    if a == [] {
      AppendEmpty(b);
      assert Keys(a) == {};
    } else {
      assert (a + b)[1..] == a[1..] + b;
      DistinctAppend(a[1..], b);
      KeysTail(a);
      KeysTail(a + b);
    }
  }

  lemma {:induction false} LoadErrorsGrow<V>(st: Loaded<V>, conns: seq<seq<Row<V>>>, conn: nat)
    requires conn <= |conns|
    ensures st.errors <= LoadFrom(st, conns, conn).errors
    decreases |conns| - conn
  {
    if conn < |conns| {
      ErrorsGrow(st, conn, Runs(conns[conn]));
      LoadErrorsGrow(InsertRuns(st, conn, Runs(conns[conn])), conns, conn + 1);
    }
  }

  lemma PrefixChain<T>(a: seq<T>, b: seq<T>, c: seq<T>)
    requires a <= b <= c
    ensures c == a <==> b == a && c == b
  {
  }

  lemma {:induction false} LoadErrors<V>(st: Loaded<V>, conns: seq<seq<Row<V>>>, conn: nat)
    requires conn <= |conns|
    ensures var after, runs := LoadFrom(st, conns, conn), AllRuns(conns, conn);
            (after.errors == st.errors <==> DistinctKeys(runs) && Keys(runs) !! st.index.Keys) &&
            (after.errors == st.errors ==>
              after.index.Keys == st.index.Keys + Keys(runs) &&
              (forall k :: k in st.index ==> after.index[k] == st.index[k]) &&
              (forall k :: k in Keys(runs) ==> after.index[k] == ValuesOf(runs, k)))
    decreases |conns| - conn
  {
    if conn < |conns| {
      var here, rest := Runs(conns[conn]), AllRuns(conns, conn + 1);
      var st' := InsertRuns(st, conn, here);
      hide InsertRuns, Keys, DistinctKeys, Runs;
      InsertRunsErrors(st, conn, here);
      ErrorsGrow(st, conn, here);
      LoadErrors(st', conns, conn + 1);
      LoadErrorsGrow(st', conns, conn + 1);
      DistinctAppend(here, rest);
      PrefixChain(st.errors, st'.errors, LoadFrom(st', conns, conn + 1).errors);
      if st'.errors == st.errors && Keys(here) !! Keys(rest) {
        forall k | k in Keys(here) + Keys(rest)
          ensures ValuesOf(here + rest, k) == if k in Keys(here) then ValuesOf(here, k) else ValuesOf(rest, k)
        {
          ValuesOfSplit(here, rest, k);
        }
      }
    } else {
      assert Keys(AllRuns(conns, conn)) == {};
    }
  }

  lemma ValuesOfSplit<V>(a: seq<Run<V>>, b: seq<Run<V>>, key: string)
    requires Keys(a) !! Keys(b)
    ensures ValuesOf(a + b, key) == if key in Keys(a) then ValuesOf(a, key) else ValuesOf(b, key)
  {
    ValuesOfAppend(a, b, key);
    hide Keys;
    if key in Keys(a) {
      NoSuchKey(b, key);
      AppendEmpty(ValuesOf(a, key));
    } else {
      NoSuchKey(a, key);
      AppendEmpty(ValuesOf(b, key));
    }
  }

  // ----------------------------------------------------------- exactly when

  function RowKeys<V>(rows: seq<Row<V>>): set<string> {
    set i | 0 <= i < |rows| :: rows[i].key
  }

  /** Equal keys stand next to each other. */
  predicate Contiguous<V>(rows: seq<Row<V>>) {
    forall i, j, l :: 0 <= i < j < l < |rows| && rows[i].key == rows[l].key ==> rows[j].key == rows[i].key
  }

  lemma RowKeysTail<V>(rows: seq<Row<V>>)
    requires rows != []
    ensures RowKeys(rows) == {rows[0].key} + RowKeys(rows[1..])
  {
    assert forall i :: 1 <= i < |rows| ==> rows[i] == rows[1..][i - 1];
    assert forall i :: 0 <= i < |rows[1..]| ==> rows[1..][i] == rows[i + 1];
  }

  lemma ContiguousTail<V>(rows: seq<Row<V>>)
    requires |rows| > 1
    ensures Contiguous(rows) <==>
            Contiguous(rows[1..]) && (rows[0].key == rows[1].key || rows[0].key !in RowKeys(rows[1..]))
  {
    var tail := rows[1..];
    assert forall i :: 1 <= i < |rows| ==> rows[i] == tail[i - 1];
    if Contiguous(rows) {
      forall i, j, l | 0 <= i < j < l < |tail| && tail[i].key == tail[l].key ensures tail[j].key == tail[i].key {
        assert rows[i + 1].key == rows[l + 1].key && rows[j + 1] == tail[j];
      }
      if rows[0].key != rows[1].key {
        forall l | 0 <= l < |tail| ensures tail[l].key != rows[0].key {
          assert tail[l] == rows[l + 1];
        }
      }
    } else {
      var i, j, l :| 0 <= i < j < l < |rows| && rows[i].key == rows[l].key && rows[j].key != rows[i].key;
      assert rows[l].key == tail[l - 1].key && rows[j].key == tail[j - 1].key;
      if i > 0 {
        assert rows[i].key == tail[i - 1].key;
      } else if rows[0].key == rows[1].key && j > 1 {
        assert tail[0].key == tail[l - 1].key;
      }
    }
  }

  lemma GlueKeys<V>(run: Run<V>, runs: seq<Run<V>>)
    ensures Keys(Glue(run, runs)) == {run.key} + Keys(runs)
    ensures Glue(run, runs) != [] && Glue(run, runs)[0].key == run.key
    ensures DistinctKeys(Glue(run, runs)) <==>
            DistinctKeys(runs) && (run.key !in Keys(runs) || (runs != [] && runs[0].key == run.key))
  {
    if runs != [] {
      KeysTail(runs);
    }
    KeysTail(Glue(run, runs));
    if runs != [] && runs[0].key == run.key {
      Cons(Run(run.key, run.values + runs[0].values), runs[1..]);
    } else {
      Cons(run, runs);
    }
  }

  /** A connection's runs have distinct keys exactly when equal keys are contiguous. */
  lemma {:induction false} DistinctMeansContiguous<V>(rows: seq<Row<V>>)
    ensures Keys(Runs(rows)) == RowKeys(rows)
    ensures rows != [] ==> Runs(rows) != [] && Runs(rows)[0].key == rows[0].key
    ensures DistinctKeys(Runs(rows)) <==> Contiguous(rows)
  {
    if rows == [] {
      assert Keys(Runs(rows)) == {} == RowKeys(rows);
    } else {
      DistinctMeansContiguous(rows[1..]);
      RowKeysTail(rows);
      GlueKeys(Run(rows[0].key, [rows[0].value]), Runs(rows[1..]));
      hide Keys, RowKeys, Glue, DistinctKeys;
      if |rows| > 1 {
        ContiguousTail(rows);
        assert rows[1..][0] == rows[1];
        hide Contiguous;
      } else {
        assert Runs(rows[1..]) == [];
        NoRuns<V>();
      }
    }
  }

  lemma NoRuns<V>()
    ensures DistinctKeys<V>([]) && Keys<V>([]) == {}
  {
  }

  /** Every connection is contiguous, and no two define the same key. */
  predicate OneRunPerKey<V>(conns: seq<seq<Row<V>>>, conn: nat)
    requires conn <= |conns|
    decreases |conns| - conn
  {
    conn < |conns| ==>
      Contiguous(conns[conn]) && RowKeys(conns[conn]) !! RowKeys(AllRows(conns, conn + 1)) &&
      OneRunPerKey(conns, conn + 1)
  }

  lemma RowKeysAppend<V>(a: seq<Row<V>>, b: seq<Row<V>>)
    ensures RowKeys(a + b) == RowKeys(a) + RowKeys(b)
  {
    assert forall i :: 0 <= i < |a| ==> (a + b)[i] == a[i];
    assert forall i :: 0 <= i < |b| ==> (a + b)[|a| + i] == b[i];
  }

  lemma {:induction false} DistinctMeansOneRun<V>(conns: seq<seq<Row<V>>>, conn: nat)
    requires conn <= |conns|
    ensures Keys(AllRuns(conns, conn)) == RowKeys(AllRows(conns, conn))
    ensures DistinctKeys(AllRuns(conns, conn)) <==> OneRunPerKey(conns, conn)
    decreases |conns| - conn
  {
    hide Keys, RowKeys, Contiguous, DistinctKeys;
    if conn < |conns| {
      DistinctMeansOneRun(conns, conn + 1);
      DistinctMeansContiguous(conns[conn]);
      DistinctAppend(Runs(conns[conn]), AllRuns(conns, conn + 1));
      RowKeysAppend(conns[conn], AllRows(conns, conn + 1));
    } else {
      NoRuns<V>();
      NoRows<V>();
    }
  }

  lemma NoRows<V>()
    ensures RowKeys<V>([]) == {}
  {
  }

  /**
   * Grouping refines filtering by key: loading reports no error exactly when every connection
   * keeps equal keys together and no two connections share one; then each key maps to exactly
   * its rows, in order.
   */
  lemma GroupingRefinesFilter<V>(conns: seq<seq<Row<V>>>)
    ensures var out := LoadFrom(Loaded(map[], []), conns, 0);
            (out.errors == [] <==> OneRunPerKey(conns, 0)) &&
            (out.errors == [] ==>
              out.index.Keys == RowKeys(AllRows(conns, 0)) &&
              forall k :: k in out.index ==> out.index[k] == Filter(AllRows(conns, 0), k))
  {
    var out: Loaded<V> := LoadFrom(Loaded(map[], []), conns, 0);
    LoadErrors(Loaded(map[], []), conns, 0);
    DistinctMeansOneRun(conns, 0);
    hide LoadFrom, AllRuns, AllRows, Keys, RowKeys, OneRunPerKey, DistinctKeys;
    if out.errors == [] {
      forall k | k in out.index ensures out.index[k] == Filter(AllRows(conns, 0), k) {
        AllRunsKeepRows(conns, 0, k);
      }
    }
  }

  // ------------------------------------------------- the first connection

  lemma {:induction false} ErrorsOfRuns<V>(st: Loaded<V>, conn: nat, runs: seq<Run<V>>)
    ensures forall e :: e in InsertRuns(st, conn, runs).errors ==> e in st.errors || e.0 == conn
    decreases |runs|
  {
    if runs != [] {
      ErrorsOfRuns(Insert(st, conn, runs[0]), conn, runs[1..]);
    }
  }

  lemma {:induction false} ErrorsOfConnections<V>(st: Loaded<V>, conns: seq<seq<Row<V>>>, conn: nat)
    requires conn <= |conns|
    ensures forall e :: e in LoadFrom(st, conns, conn).errors ==> e in st.errors || e.0 >= conn
    decreases |conns| - conn
  {
    hide Runs;
    if conn < |conns| {
      ErrorsOfRuns(st, conn, Runs(conns[conn]));
      ErrorsOfConnections(InsertRuns(st, conn, Runs(conns[conn])), conns, conn + 1);
    }
  }

  /**
   * The source asserts that the first connection redefines nothing. It does, exactly when its
   * rows do not keep equal keys together.
   */
  lemma FirstConnectionRedefines<V>(conns: seq<seq<Row<V>>>)
    ensures (exists key :: (0, key) in LoadFrom(Loaded(map[], []), conns, 0).errors) <==>
            conns != [] && !Contiguous(conns[0])
  {
    var start: Loaded<V> := Loaded(map[], []);
    if conns != [] {
      var st := InsertRuns(start, 0, Runs(conns[0]));
      ErrorsOfRuns(start, 0, Runs(conns[0]));
      InsertRunsErrors(start, 0, Runs(conns[0]));
      DistinctMeansContiguous(conns[0]);
      ErrorsOfConnections(st, conns, 1);
      LoadErrorsGrow(st, conns, 1);
      hide InsertRuns, Runs, Contiguous, DistinctKeys, Keys, RowKeys;
      assert LoadFrom(start, conns, 0) == LoadFrom(st, conns, 1);
      hide LoadFrom;
      FirstErrors(st.errors, LoadFrom(st, conns, 1).errors);
    }
  }

  lemma FirstErrors(first: seq<(nat, string)>, all: seq<(nat, string)>)
    requires first <= all && forall e :: e in first ==> e.0 == 0
    requires forall e :: e in all ==> e in first || e.0 >= 1
    ensures (exists key :: (0, key) in all) <==> first != []
  {
    if first != [] {
      assert first[0] == all[0] && first[0] in first;
      assert (0, first[0].1) in all;
    }
  }
}
