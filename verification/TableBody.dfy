/** What the body of a CREATE TABLE statement consists of once its comments are dropped. */
module TableBody {
  import opened Common
  import opened CreateTable

  /** The items that are not comments. */
  function Kept(items: seq<Item>): seq<Item> {
    if items == [] then []
    else
      var last := items[|items| - 1];
      Kept(items[..|items| - 1]) + if last.CommentItem? then [] else [last]
  }

  lemma KeptSnoc(items: seq<Item>, item: Item)
    ensures Kept(items + [item]) == Kept(items) + if item.CommentItem? then [] else [item]
  {
    assert (items + [item])[..|items|] == items;
  }

  /** One comma between consecutive items. */
  function Interleave(items: seq<Item>): seq<Item> {
    if items == [] then []
    else if |items| == 1 then items
    else Interleave(items[..|items| - 1]) + [Comma, items[|items| - 1]]
  }

  lemma InterleaveSnoc(items: seq<Item>, item: Item)
    ensures Interleave(items + [item]) == Interleave(items) + (if items == [] then [] else [Comma]) + [item]
  {
    assert (items + [item])[..|items|] == items;
  }

  /** The accepted columns, in table order. */
  function AcceptedItems(columns: seq<Column>): seq<Item> {
    if columns == [] then []
    else
      var last := columns[|columns| - 1];
      AcceptedItems(columns[..|columns| - 1]) + if last.outcome.Accepted? then [ColumnItem(last.outcome.text)] else []
  }

  lemma {:induction false} AnyAcceptedItem(columns: seq<Column>)
    ensures AcceptedItems(columns) != [] <==> AnyAccepted(columns)
  {
    if columns != [] {
      var init, last := columns[..|columns| - 1], columns[|columns| - 1];
      AnyAcceptedItem(init);
      AcceptedSnoc(init, last);
      assert columns == init + [last];
    }
  }

  /** A comma has been written and nothing followed it yet. */
  function Pending(columns: seq<Column>): seq<Item> {
    if AnyAccepted(columns) && !LastAccepted(columns) then [Comma] else []
  }

  lemma {:induction false} KeptItems(stname: string, columns: seq<Column>)
    ensures Kept(Items(stname, columns)) == Interleave(AcceptedItems(columns)) + Pending(columns)
  {
    if columns != [] {
      var init, last := columns[..|columns| - 1], columns[|columns| - 1];
      KeptItems(stname, init);
      assert columns == init + [last];
      ItemsSnoc(stname, init, last);
      KeptSeparated(stname, init, ItemOf(stname, last));
      AcceptedSnoc(init, last);
      AnyAcceptedItem(init);
      InterleaveSnoc(AcceptedItems(init), ItemOf(stname, last));
      hide Items, Interleave, AnyAccepted;
      AppendEmpty(AcceptedItems(init));
      AppendEmpty(Interleave(AcceptedItems(init)));
    }
  }

  /** The item after the columns so far: with those still open, exactly one comma goes before it. */
  lemma KeptSeparated(stname: string, columns: seq<Column>, item: Item)
    requires Kept(Items(stname, columns)) == Interleave(AcceptedItems(columns)) + Pending(columns)
    ensures Kept(Items(stname, columns) + Separator(columns) + [item]) ==
            Interleave(AcceptedItems(columns)) + (if AnyAccepted(columns) then [Comma] else []) +
            if item.CommentItem? then [] else [item]
  {
    var items := Items(stname, columns);
    KeptSnoc(items + Separator(columns), item);
    assert LastAccepted(columns) ==> AnyAccepted(columns);
    if LastAccepted(columns) {
      KeptSnoc(items, Comma);
    } else {
      AppendEmpty(items);
    }
    hide Items, Interleave, AnyAccepted, Kept;
    AppendEmpty(Interleave(AcceptedItems(columns)));
  }

  function PkItemsOnly(pk: seq<string>): seq<Item> {
    if pk == [] then [] else [PkItem(pk)]
  }

  lemma KeptBody(stname: string, columns: seq<Column>, pk: seq<string>)
    ensures Kept(Items(stname, columns) + PkItems(columns, pk)) ==
            Interleave(AcceptedItems(columns) + PkItemsOnly(pk)) + if pk == [] then Pending(columns) else []
  {
    KeptItems(stname, columns);
    AnyAcceptedItem(columns);
    var items := Items(stname, columns);
    if pk == [] {
      AppendEmpty(items);
      AppendEmpty(AcceptedItems(columns));
    } else {
      KeptSeparated(stname, columns, PkItem(pk));
      AppendAssoc(items, Separator(columns), [PkItem(pk)]);
      InterleaveSnoc(AcceptedItems(columns), PkItem(pk));
      hide Items, Interleave, AnyAccepted, Kept;
      AppendEmpty(Interleave(AcceptedItems(columns) + PkItemsOnly(pk)));
    }
  }

  /** The statement would end in a comma. */
  predicate DanglingComma(columns: seq<Column>, pk: seq<string>) {
    AnyAccepted(columns) && !LastAccepted(columns) && pk == []
  }

  /**
   * Without its comments the body is the accepted columns in order and then the key, with
   * exactly one comma between consecutive items, if and only if it is not the case that an
   * accepted column is followed by rejected ones only and there is no key.
   */
  lemma BodyIsWellFormed(stname: string, columns: seq<Column>, pk: seq<string>)
    ensures Kept(Items(stname, columns) + PkItems(columns, pk)) == Interleave(AcceptedItems(columns) + PkItemsOnly(pk))
            <==> !DanglingComma(columns, pk)
  {
    KeptBody(stname, columns, pk);
    hide Kept, Items, PkItems, AcceptedItems, AnyAccepted, LastAccepted, Interleave, PkItemsOnly;
    AppendEmpty(Interleave(AcceptedItems(columns) + PkItemsOnly(pk)));
  }

  lemma AcceptedItemsSnoc(columns: seq<Column>, column: Column)
    ensures AcceptedItems(columns + [column]) ==
            AcceptedItems(columns) + if column.outcome.Accepted? then [ColumnItem(column.outcome.text)] else []
  {
    assert (columns + [column])[..|columns|] == columns;
  }

  /** An accepted column and a rejected one behind it, without a key: the comma stays. */
  lemma CommaBeforeRejected(stname: string, text: string, typeName: string)
    ensures var columns := [Column("a", Accepted(text), []), Column("b", Rejected(typeName), [])];
            DanglingComma(columns, []) &&
            Kept(Items(stname, columns) + PkItems(columns, [])) == [ColumnItem(text), Comma]
  {
    var kept, dropped := Column("a", Accepted(text), []), Column("b", Rejected(typeName), []);
    var columns := [kept, dropped];
    KeptBody(stname, columns, []);
    assert columns[0].outcome.Accepted? && columns == [kept] + [dropped] && [] + [kept] == [kept];
    AcceptedItemsSnoc([], kept);
    AcceptedItemsSnoc([kept], dropped);
    assert Interleave([ColumnItem(text)]) == [ColumnItem(text)] && Pending(columns) == [Comma];
    assert AcceptedItems([]) == [];
    hide Kept, Items, PkItems, AcceptedItems, Interleave, AnyAccepted, LastAccepted;
    AppendEmpty([ColumnItem(text)]);
  }

  // ------------------------------------------------------------ the key shrinks

  /** The names that are not among the rejected ones, in order. */
  function Without(names: seq<string>, rejected: seq<string>): seq<string> {
    if names == [] then [] else (if names[0] in rejected then [] else [names[0]]) + Without(names[1..], rejected)
  }

  lemma {:induction false} WithoutContents(names: seq<string>, rejected: seq<string>)
    ensures forall n :: n in Without(names, rejected) <==> n in names && n !in rejected
    ensures NoRepeats(names) ==> NoRepeats(Without(names, rejected))
  {
    if names != [] {
      WithoutContents(names[1..], rejected);
      Uncons(names);
      var rest := Without(names[1..], rejected);
      if NoRepeats(names) {
        DistinctTail(names);
        if names[0] !in rejected {
          DistinctCons(names[0], rest);
        } else {
          AppendEmpty(rest);
        }
      }
    }
  }

  lemma DistinctTail(names: seq<string>)
    requires names != [] && NoRepeats(names)
    ensures NoRepeats(names[1..]) && names[0] !in names[1..]
  {
  }

  lemma DistinctCons(name: string, rest: seq<string>)
    requires name !in rest && NoRepeats(rest)
    ensures NoRepeats([name] + rest)
  {
  }

  /** Erasing the first occurrence from distinct names erases the name. */
  lemma {:induction false} RemoveOne(names: seq<string>, rejected: seq<string>, name: string)
    requires NoRepeats(names)
    ensures RemoveFirst(Without(names, rejected), name) == Without(names, rejected + [name])
  {
    if names != [] {
      var rest := Without(names[1..], rejected);
      DistinctTail(names);
      RemoveOne(names[1..], rejected, name);
      assert forall n :: n in rejected + [name] <==> n in rejected || n == name;
      hide NoRepeats;
      if names[0] in rejected {
        AppendEmpty(rest);
        AppendEmpty(Without(names[1..], rejected + [name]));
      } else {
        Cons(names[0], rest);
        if names[0] == name {
          AppendEmpty(rest);
          NothingToErase(names[1..], rejected, name);
        }
      }
    }
  }

  lemma {:induction false} NothingToErase(names: seq<string>, rejected: seq<string>, name: string)
    requires name !in names
    ensures Without(names, rejected + [name]) == Without(names, rejected)
  {
    if names != [] {
      assert name != names[0];
      NothingToErase(names[1..], rejected, name);
      assert names[0] in rejected + [name] <==> names[0] in rejected;
    }
  }

  /** The key that is emitted is the table's key without its rejected columns, in order. */
  lemma {:induction false} PkWithoutRejected(pk: seq<string>, columns: seq<Column>)
    requires NoRepeats(pk)
    ensures RemainingPk(pk, columns) == Without(pk, RejectedNames(columns))
  {
    if columns == [] {
      NothingRejected(pk);
    } else {
      var init, last := columns[..|columns| - 1], columns[|columns| - 1];
      PkWithoutRejected(pk, init);
      RemoveOne(pk, RejectedNames(init), last.cname);
      AppendEmpty(RejectedNames(init));
      hide Without, RemoveFirst, NoRepeats;
    }
  }

  lemma {:induction false} NothingRejected(pk: seq<string>)
    ensures Without(pk, []) == pk
  {
    if pk != [] {
      NothingRejected(pk[1..]);
      Uncons(pk);
    }
  }
}
