/** Names in the order of std::string: sorting, and the tables of a schema as one run. */
module SortedNames {
  import opened Common
  import opened Names

  /** Lexicographic order, character by character. */
  predicate Leq(a: string, b: string) {
    a == "" || (b != "" && (a[0] < b[0] || (a[0] == b[0] && Leq(a[1..], b[1..]))))
  }

  lemma {:induction false} LeqRefl(a: string)
    ensures Leq(a, a)
  {
    if a != "" {
      LeqRefl(a[1..]);
    }
  }

  lemma {:induction false} LeqTotal(a: string, b: string)
    ensures Leq(a, b) || Leq(b, a)
  {
    if a != "" && b != "" {
      LeqTotal(a[1..], b[1..]);
    }
  }

  lemma {:induction false} LeqTrans(a: string, b: string, c: string)
    requires Leq(a, b) && Leq(b, c)
    ensures Leq(a, c)
  {
    if a != "" && a[0] == b[0] == c[0] {
      LeqTrans(a[1..], b[1..], c[1..]);
    }
  }

  lemma {:induction false} LeqAntisym(a: string, b: string)
    requires Leq(a, b) && Leq(b, a)
    ensures a == b
  {
    if a != "" && b != "" {
      LeqAntisym(a[1..], b[1..]);
      Uncons(a);
      Uncons(b);
    }
  }

  /** Names compare at the first character in which they differ, and a name goes before its extensions. */
  lemma {:induction false} OrderIsLexicographic(a: string, b: string)
    ensures Leq(a, b) <==>
            exists n :: 0 <= n <= |a| && n <= |b| && a[..n] == b[..n] && (n == |a| || (n < |b| && a[n] < b[n]))
  {
    if a == "" {
      assert a[..0] == b[..0];
    } else if b != "" && a[0] == b[0] {
      OrderIsLexicographic(a[1..], b[1..]);
      if Leq(a, b) {
        var n :| 0 <= n <= |a[1..]| && n <= |b[1..]| && a[1..][..n] == b[1..][..n] &&
          (n == |a[1..]| || (n < |b[1..]| && a[1..][n] < b[1..][n]));
        assert a[..n + 1] == [a[0]] + a[1..][..n] && b[..n + 1] == [b[0]] + b[1..][..n];
      }
      if n :| 0 <= n <= |a| && n <= |b| && a[..n] == b[..n] && (n == |a| || (n < |b| && a[n] < b[n])) {
        assert n > 0;
        assert a[1..][..n - 1] == a[..n][1..] && b[1..][..n - 1] == b[..n][1..];
      }
    } else {
      assert a[..0] == b[..0];
      OrderByFirst(a, b);
    }
  }

  lemma OrderByFirst(a: string, b: string)
    requires a != "" && (b == "" || a[0] != b[0])
    ensures forall n :: 0 <= n <= |a| && n <= |b| && a[..n] == b[..n] ==> n == 0
  {
    forall n | 0 < n <= |a| && n <= |b| ensures a[..n] != b[..n] {
      assert a[..n][0] == a[0] && b[..n][0] == b[0];
    }
  }

  /** The names with a given prefix form an interval. */
  lemma {:induction false} PrefixInterval(prefix: string, a: string, b: string, c: string)
    requires Leq(a, b) && Leq(b, c) && prefix <= a && prefix <= c
    ensures prefix <= b
  {
    if prefix != "" {
      assert a[0] == prefix[0] == c[0];
      PrefixInterval(prefix[1..], a[1..], b[1..], c[1..]);
      Uncons(b);
      Uncons(prefix);
    }
  }

  // ----------------------------------------------------------------- sorting

  predicate Sorted(names: seq<string>) {
    forall i, j :: 0 <= i < j < |names| ==> Leq(names[i], names[j])
  }

  function Insert(name: string, names: seq<string>): seq<string> {
    if names == [] || Leq(name, names[0]) then [name] + names else [names[0]] + Insert(name, names[1..])
  }

  /** std::sort of a vector of names. */
  function Sort(names: seq<string>): seq<string> {
    if names == [] then [] else Insert(names[0], Sort(names[1..]))
  }

  lemma {:induction false} InsertContents(name: string, names: seq<string>)
    ensures multiset(Insert(name, names)) == multiset([name]) + multiset(names)
  {
    if names != [] && !Leq(name, names[0]) {
      InsertContents(name, names[1..]);
      Uncons(names);
    }
  }

  lemma {:induction false} SortContents(names: seq<string>)
    ensures multiset(Sort(names)) == multiset(names)
  {
    if names != [] {
      SortContents(names[1..]);
      InsertContents(names[0], Sort(names[1..]));
      Uncons(names);
    }
  }

  predicate Below(name: string, names: seq<string>) {
    forall i :: 0 <= i < |names| ==> Leq(name, names[i])
  }

  lemma SortedCons(name: string, names: seq<string>)
    ensures Sorted([name] + names) <==> Below(name, names) && Sorted(names)
  {
    var all := [name] + names;
    assert forall i :: 0 <= i < |names| ==> all[i + 1] == names[i];
    if Sorted(all) {
      forall i | 0 <= i < |names| ensures Leq(name, names[i]) {
        assert Leq(all[0], all[i + 1]);
      }
      forall i, j | 0 <= i < j < |names| ensures Leq(names[i], names[j]) {
        assert Leq(all[i + 1], all[j + 1]);
      }
    }
    hide Leq;
    if Below(name, names) && Sorted(names) {
      forall i, j | 0 <= i < j < |all| ensures Leq(all[i], all[j]) {
        assert all[j] == names[j - 1];
        if i > 0 {
          assert all[i] == names[i - 1];
        }
      }
    }
  }

  lemma SortedSplit(names: seq<string>)
    requires names != []
    ensures Sorted(names) <==> Below(names[0], names[1..]) && Sorted(names[1..])
  {
    Uncons(names);
    hide Sorted, Below;
    SortedCons(names[0], names[1..]);
  }

  lemma {:induction false} InsertSorted(name: string, names: seq<string>)
    requires Sorted(names)
    ensures Sorted(Insert(name, names))
    ensures forall bound :: Below(bound, Insert(name, names)) <==> Leq(bound, name) && Below(bound, names)
  {
    if names == [] {
      BelowCons(name, names);
    } else {
      BelowSplit(names);
      SortedSplit(names);
      if Leq(name, names[0]) {
        BelowTrans(name, names[0], names[1..]);
        BelowCons(name, names);
        hide Sorted, Below, Leq;
        SortedCons(name, names);
      } else {
        LeqTotal(name, names[0]);
        hide Sorted, Below, Leq;
        InsertSorted(name, names[1..]);
        BelowCons(names[0], Insert(name, names[1..]));
        SortedCons(names[0], Insert(name, names[1..]));
      }
    }
  }

  lemma BelowCons(name: string, names: seq<string>)
    ensures forall bound :: Below(bound, [name] + names) <==> Leq(bound, name) && Below(bound, names)
  {
    var all := [name] + names;
    assert all[0] == name && forall i :: 0 <= i < |names| ==> all[i + 1] == names[i];
    forall bound ensures Below(bound, all) <==> Leq(bound, name) && Below(bound, names) {
      hide Leq;
      if Below(bound, all) {
        forall i | 0 <= i < |names| ensures Leq(bound, names[i]) {
          assert Leq(bound, all[i + 1]);
        }
        assert Leq(bound, all[0]);
      }
    }
  }

  lemma BelowSplit(names: seq<string>)
    requires names != []
    ensures forall bound :: Below(bound, names) <==> Leq(bound, names[0]) && Below(bound, names[1..])
  {
    Uncons(names);
    BelowCons(names[0], names[1..]);
  }

  lemma BelowTrans(name: string, middle: string, names: seq<string>)
    requires Leq(name, middle) && Below(middle, names)
    ensures Below(name, names)
  {
    forall i | 0 <= i < |names| ensures Leq(name, names[i]) {
      LeqTrans(name, middle, names[i]);
    }
  }

  lemma {:induction false} SortSorts(names: seq<string>)
    ensures Sorted(Sort(names))
  {
    if names != [] {
      SortSorts(names[1..]);
      InsertSorted(names[0], Sort(names[1..]));
    }
  }

  /** Sorting loses and repeats nothing, and puts the names in order. */
  lemma SortIsSort(names: seq<string>)
    ensures Sorted(Sort(names)) && multiset(Sort(names)) == multiset(names)
  {
    SortSorts(names);
    SortContents(names);
  }

  // ------------------------------------------------------------- schema runs

  lemma SchemaPrefix(stname: string)
    requires IsStname(stname)
    ensures SchemaName(stname) + "." <= stname && '.' !in SchemaName(stname)
  {
    StnameParts(stname);
    assert SchemaName(stname) + "." <= SchemaName(stname) + "." + TableName(stname);
  }

  lemma PrefixIsSchema(schema: string, stname: string)
    requires schema + "." <= stname && '.' !in schema
    ensures SchemaName(stname) == schema
  {
    assert stname[|schema|] == (schema + ".")[|schema|];
    assert stname[..|schema|] == (schema + ".")[..|schema|] == schema;
    FirstDotBound(stname, |schema|);
    hide FirstDot;
  }

  /** In sorted order everything between two tables of a schema is a table of that schema. */
  lemma SchemaIsContiguous(a: string, b: string, c: string)
    requires IsStname(a) && IsStname(b) && IsStname(c)
    requires Leq(a, b) && Leq(b, c) && SchemaName(a) == SchemaName(c)
    ensures SchemaName(b) == SchemaName(a)
  {
    SchemaPrefix(a);
    SchemaPrefix(c);
    PrefixInterval(SchemaName(a) + ".", a, b, c);
    PrefixIsSchema(SchemaName(a), b);
  }
}
