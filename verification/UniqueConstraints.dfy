/**
 * The UNIQUE constraints of a table: the constraint names listed by its columns are turned
 * into a map from constraint to columns, and emitted in sorted order.
 */
module UniqueConstraints {
  import opened Common
  import opened CreateTable
  import opened DdlRun
  import opened Names
  import opened RowRuns
  import opened SortedNames

  /** The map groups the pairs by constraint name. */
  ghost predicate Groups(m: map<string, seq<string>>, pairs: seq<Row<string>>) {
    m.Keys == RowKeys(pairs) && forall name :: name in m ==> m[name] == Filter(pairs, name)
  }

  lemma RowKeysSnoc(pairs: seq<Row<string>>, pair: Row<string>)
    ensures RowKeys(pairs + [pair]) == RowKeys(pairs) + {pair.key}
  {
    RowKeysAppend(pairs, [pair]);
    assert RowKeys([pair]) == {pair.key} by {
      assert [pair][0] == pair;
    }
  }

  lemma FilterSnoc(pairs: seq<Row<string>>, pair: Row<string>, name: string)
    ensures Filter(pairs + [pair], name) ==
            if pair.key == name then Filter(pairs, name) + [pair.value] else Filter(pairs, name)
  {
    FilterAppend(pairs, [pair], name);
    assert Filter([pair], name) == if pair.key == name then [pair.value] else [] by {
      assert [pair][1..] == [];
    }
    AppendEmpty(Filter(pairs, name));
  }

  lemma {:induction false} FilterMissing(pairs: seq<Row<string>>, name: string)
    ensures Filter(pairs, name) == [] <==> name !in RowKeys(pairs)
  {
    if pairs == [] {
      NoRows<string>();
    } else {
      FilterMissing(pairs[1..], name);
      RowKeysTail(pairs);
    }
  }

  /** One more pair, added to the columns of its constraint or as a new one. */
  lemma GroupOneMore(m: map<string, seq<string>>, pairs: seq<Row<string>>, pair: Row<string>)
    requires Groups(m, pairs)
    ensures Groups(m[pair.key := if pair.key in m then m[pair.key] + [pair.value] else [pair.value]], pairs + [pair])
  {
    RowKeysSnoc(pairs, pair);
    var m' := m[pair.key := if pair.key in m then m[pair.key] + [pair.value] else [pair.value]];
    forall name | name in m' ensures m'[name] == Filter(pairs + [pair], name) {
      FilterSnoc(pairs, pair, name);
      FilterMissing(pairs, name);
      AppendEmpty([pair.value]);
    }
  }

  // -------------------------------------------------------- names, each once

  lemma {:induction false} PairNamesContents(pairs: seq<Row<string>>)
    ensures NoRepeats(PairNames(pairs))
    ensures forall name :: name in PairNames(pairs) <==> name in RowKeys(pairs)
  {
    if pairs == [] {
      NoRows<string>();
    } else {
      var init, last := pairs[..|pairs| - 1], pairs[|pairs| - 1];
      PairNamesContents(init);
      assert pairs == init + [last];
      RowKeysSnoc(init, last);
    }
  }

  lemma {:induction false} NoRepeatsCounts(names: seq<string>, name: string)
    requires NoRepeats(names)
    ensures multiset(names)[name] == if name in names then 1 else 0
  {
    if names != [] {
      Uncons(names);
      assert NoRepeats(names[1..]) && names[0] !in names[1..];
      NoRepeatsCounts(names[1..], name);
    }
  }

  /** Two lists of the same names without repeats are permutations of each other. */
  lemma SameNames(a: seq<string>, b: seq<string>)
    requires NoRepeats(a) && NoRepeats(b) && forall name :: name in a <==> name in b
    ensures multiset(a) == multiset(b)
  {
    forall name ensures multiset(a)[name] == multiset(b)[name] {
      NoRepeatsCounts(a, name);
      NoRepeatsCounts(b, name);
    }
  }

  /** There is only one sorted order. */
  lemma {:induction false} SortedUnique(a: seq<string>, b: seq<string>)
    requires Sorted(a) && Sorted(b) && multiset(a) == multiset(b)
    ensures a == b
  {
    if a == [] {
      assert |multiset(a)| == 0 && |multiset(b)| == |b|;
    } else {
      assert a[0] in multiset(b);
      assert b != [] && b[0] in multiset(a);
      SortedSplit(a);
      SortedSplit(b);
      FirstIsLeast(a, b[0]);
      FirstIsLeast(b, a[0]);
      LeqAntisym(a[0], b[0]);
      Uncons(a);
      Uncons(b);
      assert multiset(a[1..]) == multiset(a) - multiset{a[0]};
      assert multiset(b[1..]) == multiset(b) - multiset{b[0]};
      SortedUnique(a[1..], b[1..]);
    }
  }

  lemma FirstIsLeast(names: seq<string>, name: string)
    requires Sorted(names) && name in multiset(names)
    ensures names != [] && Leq(names[0], name)
  {
    assert name in names;
    var i :| 0 <= i < |names| && names[i] == name;
    LeqRefl(name);
    assert i > 0 ==> Leq(names[0], names[i]);
  }

  /** However the keys are listed, sorting gives the same order. */
  lemma SortIgnoresOrder(a: seq<string>, b: seq<string>)
    requires NoRepeats(a) && NoRepeats(b) && forall name :: name in a <==> name in b
    ensures Sort(a) == Sort(b)
  {
    SameNames(a, b);
    SortIsSort(a);
    SortIsSort(b);
    SortedUnique(Sort(a), Sort(b));
  }

  /** `sort_uq_constraint_names`: the keys in whatever order the container gives them, sorted. */
  method SortUniqueNames(m: map<string, seq<string>>, ghost pairs: seq<Row<string>>) returns (names: seq<string>)
    requires Groups(m, pairs)
    ensures names == Sort(PairNames(pairs))
    ensures forall name :: name in names ==> name in m
  {
    var left: set<string> := m.Keys;
    names := [];
    while left != {}
      invariant left <= m.Keys && NoRepeats(names)
      invariant forall name :: name in names <==> name in m && name !in left
      decreases left
    {
      var name :| name in left;
      RepeatsSnoc(names, name);
      names := names + [name];
      left := left - {name};
    }
    PairNamesContents(pairs);
    SortIgnoresOrder(names, PairNames(pairs));
    SortIsSort(names);
    SameMembers(names, Sort(names));
    names := Sort(names);
  }

  lemma RepeatsSnoc(names: seq<string>, name: string)
    requires NoRepeats(names) && name !in names
    ensures NoRepeats(names + [name])
  {
  }

  lemma SameMembers(a: seq<string>, b: seq<string>)
    requires multiset(a) == multiset(b)
    ensures forall name :: name in a <==> name in b
  {
    forall name ensures name in a <==> name in b {
      assert name in multiset(a) <==> name in multiset(b);
    }
  }

  // -------------------------------------------------------------- the inverse

  /** No column lists a constraint twice. */
  predicate ListedOnce(meta: Meta, stname: string, columns: seq<Column>) {
    forall i :: 0 <= i < |columns| ==> var key := StcnameOf(stname, columns[i].cname); key in meta.uniques ==>
      NoRepeats(meta.uniques[key])
  }

  /** A column is visible and lists the constraint. */
  predicate Lists(meta: Meta, rejected: set<string>, stname: string, cname: string, name: string) {
    var key := StcnameOf(stname, cname);
    key !in rejected && key in meta.uniques && name in meta.uniques[key]
  }

  /** The visible columns that list a constraint, in table order. */
  function Listing(meta: Meta, rejected: set<string>, stname: string, columns: seq<Column>, name: string): seq<string> {
    if columns == [] then []
    else
      var last := columns[|columns| - 1].cname;
      Listing(meta, rejected, stname, columns[..|columns| - 1], name) +
      if Lists(meta, rejected, stname, last, name) then [last] else []
  }

  lemma {:induction false} FilterPairs(names: seq<string>, cname: string, name: string)
    requires NoRepeats(names)
    ensures Filter(PairsOf(names, cname), name) == if name in names then [cname] else []
  {
    if names == [] {
    } else {
      var init, last := names[..|names| - 1], names[|names| - 1];
      assert names == init + [last];
      assert PairsOf(names, cname) == PairsOf(init, cname) + [Row(last, cname)];
      FilterPairs(init, cname, name);
      FilterSnoc(PairsOf(init, cname), Row(last, cname), name);
      if name == last {
        assert name !in init;
        AppendEmpty([cname]);
      }
    }
  }

  /** A constraint's columns are exactly the visible ones that list it, in table order, each once. */
  lemma {:induction false} FilterIsListing(meta: Meta, rejected: set<string>, stname: string,
      columns: seq<Column>, name: string)
    requires ListedOnce(meta, stname, columns)
    ensures Filter(UniquePairs(meta, rejected, stname, columns), name) == Listing(meta, rejected, stname, columns, name)
  {
    if columns != [] {
      var init, last := columns[..|columns| - 1], columns[|columns| - 1];
      FilterIsListing(meta, rejected, stname, init, name);
      FilterAppend(UniquePairs(meta, rejected, stname, init), ColumnPairs(meta, rejected, stname, last.cname), name);
      var key := StcnameOf(stname, last.cname);
      if key in meta.uniques {
        FilterPairs(meta.uniques[key], last.cname, name);
      }
      AppendEmpty(Listing(meta, rejected, stname, init, name));
    }
  }

  lemma {:induction false} StatementsByName(stname: string, pairs: seq<Row<string>>, names: seq<string>, i: nat)
    ensures |AddUniques(stname, pairs, names)| == |names|
    ensures i < |names| ==> AddUniques(stname, pairs, names)[i] == AddUnique(stname, Filter(pairs, names[i]), names[i])
    decreases |names|
  {
    if names != [] {
      StatementsByName(stname, pairs, names[..|names| - 1], i);
    }
  }

  /**
   * Emission inverts the map from columns to constraints: the statements are in strictly
   * sorted order of distinct names, the i-th one lists exactly the visible columns that list
   * its name, in table order, and every name listed by a visible column has a statement.
   */
  lemma UniquesInvert(meta: Meta, rejected: set<string>, stname: string, columns: seq<Column>)
    returns (names: seq<string>)
    requires ListedOnce(meta, stname, columns)
    ensures Sorted(names) && NoRepeats(names)
    ensures forall name :: name in names <==> Listing(meta, rejected, stname, columns, name) != []
    ensures var stmts := UniquesOf(meta, rejected, stname, columns);
            |stmts| == |names| &&
            forall i :: 0 <= i < |names| ==>
              stmts[i] == AddUnique(stname, Listing(meta, rejected, stname, columns, names[i]), names[i])
  {
    var pairs := UniquePairs(meta, rejected, stname, columns);
    names := Sort(PairNames(pairs));
    PairNamesContents(pairs);
    SortIsSort(PairNames(pairs));
    PermutationKeepsDistinct(PairNames(pairs), names);
    SameMembers(PairNames(pairs), names);
    forall name ensures name in names <==> Listing(meta, rejected, stname, columns, name) != [] {
      FilterMissing(pairs, name);
      FilterIsListing(meta, rejected, stname, columns, name);
    }
    StatementsByName(stname, pairs, names, 0);
    forall i | 0 <= i < |names|
      ensures AddUniques(stname, pairs, names)[i] ==
              AddUnique(stname, Listing(meta, rejected, stname, columns, names[i]), names[i])
    {
      StatementsByName(stname, pairs, names, i);
      FilterIsListing(meta, rejected, stname, columns, names[i]);
    }
  }

  lemma PermutationKeepsDistinct(a: seq<string>, b: seq<string>)
    requires NoRepeats(a) && multiset(a) == multiset(b)
    ensures NoRepeats(b)
  {
    forall i, j | 0 <= i < j < |b| ensures b[i] != b[j] {
      if b[i] == b[j] {
        TwiceIn(b, i, j);
        NoRepeatsCounts(a, b[i]);
        assert false;
      }
    }
  }

  lemma TwiceIn(names: seq<string>, i: nat, j: nat)
    requires i < j < |names| && names[i] == names[j]
    ensures multiset(names)[names[i]] >= 2
  {
    assert names == names[..j] + names[j..];
    assert names[..j][i] == names[i] && names[j..][0] == names[j];
    assert names[i] in multiset(names[..j]) && names[i] in multiset(names[j..]);
    assert multiset(names) == multiset(names[..j]) + multiset(names[j..]);
  }
}
