/** What the loaders of grouped rows keep and report for any rows: the first stretch of a key, and every later one. */
module FirstRuns {
  import opened Common
  import opened RowRuns

  /** How many maximal stretches of rows with the key there are: a stretch is counted at its last row. */
  function Stretches<V>(rows: seq<Row<V>>, key: string): nat {
    if rows == [] then 0
    else Stretches(rows[1..], key) + if rows[0].key == key && (|rows| == 1 || rows[1].key != key) then 1 else 0
  }

  /** The records of the rows in front that have the key. */
  function Leading<V>(rows: seq<Row<V>>, key: string): seq<V> {
    if rows == [] || rows[0].key != key then [] else [rows[0].value] + Leading(rows[1..], key)
  }

  /** The records of the first stretch. */
  function FirstStretch<V>(rows: seq<Row<V>>, key: string): seq<V> {
    if rows == [] then [] else if rows[0].key == key then Leading(rows, key) else FirstStretch(rows[1..], key)
  }

  /** The same of the runs. */
  function Times<V>(runs: seq<Run<V>>, key: string): nat {
    if runs == [] then 0 else Times(runs[1..], key) + if runs[0].key == key then 1 else 0
  }

  function HeadValues<V>(runs: seq<Run<V>>, key: string): seq<V> {
    if runs == [] || runs[0].key != key then [] else runs[0].values
  }

  function FirstValues<V>(runs: seq<Run<V>>, key: string): seq<V> {
    if runs == [] then [] else if runs[0].key == key then runs[0].values else FirstValues(runs[1..], key)
  }

  predicate Starts<V>(runs: seq<Run<V>>, key: string) {
    runs != [] && runs[0].key == key
  }

  lemma GlueFacts<V>(run: Run<V>, runs: seq<Run<V>>, key: string)
    ensures var glued := Glue(run, runs);
            Times(glued, key) == Times(runs, key) + (if run.key == key && !Starts(runs, key) then 1 else 0) &&
            HeadValues(glued, key) == (if run.key == key then run.values + HeadValues(runs, key) else []) &&
            FirstValues(glued, key) ==
            if run.key == key then run.values + HeadValues(runs, key) else FirstValues(runs, key)
  {
    AppendEmpty(run.values);
    if runs != [] && runs[0].key == run.key {
      Cons(Run(run.key, run.values + runs[0].values), runs[1..]);
    } else {
      Cons(run, runs);
    }
  }

  lemma {:induction false} RunsFacts<V>(rows: seq<Row<V>>, key: string)
    ensures Starts(Runs(rows), key) <==> rows != [] && rows[0].key == key
    ensures Times(Runs(rows), key) == Stretches(rows, key)
    ensures HeadValues(Runs(rows), key) == Leading(rows, key)
    ensures FirstValues(Runs(rows), key) == FirstStretch(rows, key)
  {
    if rows != [] {
      RunsFacts(rows[1..], key);
      GlueFacts(Run(rows[0].key, [rows[0].value]), Runs(rows[1..]), key);
      GlueStarts(Run(rows[0].key, [rows[0].value]), Runs(rows[1..]), key);
      hide Glue, Times, HeadValues, FirstValues;
    }
  }

  lemma GlueStarts<V>(run: Run<V>, runs: seq<Run<V>>, key: string)
    ensures Starts(Glue(run, runs), key) <==> run.key == key
  {
  }

  /** How often an error is reported. */
  function Reported(errors: seq<(nat, string)>, error: (nat, string)): nat {
    multiset(errors)[error]
  }

  lemma ReportedOneMore(errors: seq<(nat, string)>, last: (nat, string), error: (nat, string))
    ensures Reported(errors + [last], error) == Reported(errors, error) + if last == error then 1 else 0
  {
  }

  /** All stretches but the one that is kept. */
  function Repeated(times: nat, known: bool): nat {
    if known || times == 0 then times else times - 1
  }

  lemma {:induction false} InsertedRuns<V>(st: Loaded<V>, conn: nat, runs: seq<Run<V>>, key: string, at: nat)
    ensures var after := InsertRuns(st, conn, runs);
            (key in after.index <==> key in st.index || Times(runs, key) > 0) &&
            (key in after.index ==>
              after.index[key] == if key in st.index then st.index[key] else FirstValues(runs, key)) &&
            Reported(after.errors, (at, key)) ==
            Reported(st.errors, (at, key)) + if at == conn then Repeated(Times(runs, key), key in st.index) else 0
    decreases |runs|
  {
    if runs != [] {
      var st' := Insert(st, conn, runs[0]);
      InsertedRuns(st', conn, runs[1..], key, at);
      ReportedOneMore(st.errors, (conn, runs[0].key), (at, key));
      hide Reported;
    }
  }

  /** No row of the connections from `conn` up to `last` has the key. */
  predicate NoneBefore<V>(conns: seq<seq<Row<V>>>, conn: nat, last: nat, key: string)
    requires last <= |conns|
  {
    forall b :: conn <= b < last ==> Stretches(conns[b], key) == 0
  }

  lemma {:induction false} LoadedFrom<V>(st: Loaded<V>, conns: seq<seq<Row<V>>>, conn: nat, key: string, at: nat)
    requires conn <= |conns| && at < |conns|
    ensures var after, times := LoadFrom(st, conns, conn), Stretches(conns[at], key);
            (key in st.index ==> key in after.index && after.index[key] == st.index[key]) &&
            (conn <= at && key !in st.index && times > 0 && NoneBefore(conns, conn, at, key) ==>
              key in after.index && after.index[key] == FirstStretch(conns[at], key)) &&
            Reported(after.errors, (at, key)) ==
            Reported(st.errors, (at, key)) +
            if conn <= at then Repeated(times, key in st.index || !NoneBefore(conns, conn, at, key)) else 0
    decreases |conns| - conn
  {
    if conn < |conns| {
      var st' := InsertRuns(st, conn, Runs(conns[conn]));
      InsertedRuns(st, conn, Runs(conns[conn]), key, at);
      RunsFacts(conns[conn], key);
      LoadedFrom(st', conns, conn + 1, key, at);
      hide Reported, Stretches, FirstStretch, Times, FirstValues, InsertRuns, Runs;
      if conn < at {
        assert NoneBefore(conns, conn, at, key) <==>
               Stretches(conns[conn], key) == 0 && NoneBefore(conns, conn + 1, at, key);
      }
    }
  }

  /** The records of a key are those of its first stretch, in the first connection that has it. */
  lemma FirstStretchIsKept<V>(conns: seq<seq<Row<V>>>, at: nat, key: string)
    requires at < |conns| && Stretches(conns[at], key) > 0
    requires forall b :: 0 <= b < at ==> Stretches(conns[b], key) == 0
    ensures var index := LoadFrom(Loaded(map[], []), conns, 0).index;
            key in index && index[key] == FirstStretch(conns[at], key)
  {
    LoadedFrom(Loaded(map[], []), conns, 0, key, at);
    hide LoadFrom, Stretches, FirstStretch, Reported;
  }

  /**
   * Every other stretch is reported once, with its connection: as often as the connection has
   * stretches of the key, less the first one of all.
   */
  lemma RepetitionsAreReported<V>(conns: seq<seq<Row<V>>>, at: nat, key: string)
    requires at < |conns|
    ensures var errors, times := LoadFrom(Loaded(map[], []), conns, 0).errors, Stretches(conns[at], key);
            multiset(errors)[(at, key)] ==
            if times > 0 && forall b :: 0 <= b < at ==> Stretches(conns[b], key) == 0 then times - 1 else times
  {
    LoadedFrom(Loaded(map[], []), conns, 0, key, at);
    hide LoadFrom, Stretches, FirstStretch;
  }
}
