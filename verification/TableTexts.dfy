/** The whole text of a CREATE TABLE, written out from its columns. */
module TableTexts {
  import opened Common
  import opened CreateTable
  import opened Names

  /** What stands in a table for a column: its own text, or a comment with its key and its type. */
  function ColumnText(stname: string, column: Column): string {
    match column.outcome
    case Accepted(text) => text
    case Rejected(typeName) =>
      "/* column " + stname + "." + column.cname + ": data type " + typeName + " rejected! */" + "\n"
  }

  /** The columns from the first to the last, with a comma and a new line behind each accepted one but the last. */
  function BodyText(stname: string, columns: seq<Column>): string {
    if columns == [] then ""
    else
      ColumnText(stname, columns[0]) +
      ((if columns[0].outcome.Accepted? && |columns| > 1 then ",\n" else "") + BodyText(stname, columns[1..]))
  }

  /** Names with a comma between. */
  function Commas(names: seq<string>): string {
    if names == [] then "" else names[0] + if |names| == 1 then "" else "," + Commas(names[1..])
  }

  /** What is behind the columns: the key, if there is one, behind a comma if a column stands directly before it. */
  function PrimaryKeyText(columns: seq<Column>, pk: seq<string>): string {
    if pk == [] then ""
    else
      (if columns != [] && columns[|columns| - 1].outcome.Accepted? then ",\n" else "") +
      ("PRIMARY KEY(" + Commas(pk) + ")\n")
  }

  lemma {:induction false} JoinIsCommas(names: seq<string>)
    ensures Join(names, ",") == Commas(names)
  {
    if |names| == 1 {
      AppendEmpty(names[0]);
    } else if |names| > 1 {
      JoinIsCommas(names[1..]);
      AppendAssoc(names[0], ",", Commas(names[1..]));
    }
  }

  lemma ItemText(stname: string, column: Column)
    requires IsStname(stname) && IsCname(column.cname)
    ensures Render(ItemOf(stname, column)) == ColumnText(stname, column)
  {
    KeyText(stname, column.cname);
    hide IsStname, IsCname, StcnameOf;
    if column.outcome.Rejected? {
      var typeName := column.outcome.typeName;
      AppendAssoc("/* column ", stname + ".", column.cname);
      AppendAssoc("/* column ", stname, ".");
    }
  }

  lemma CommaText(columns: seq<Column>)
    ensures RenderAll(Separator(columns)) ==
            if columns != [] && columns[|columns| - 1].outcome.Accepted? then ",\n" else ""
  {
    RenderOne(Comma);
  }

  lemma ThreeTexts(a: string, b: string, c: string, d: string, e: string)
    ensures a + (b + (c + d + e)) == (a + (b + c)) + d + e
  {
  }

  lemma {:induction false} BodySnoc(stname: string, columns: seq<Column>, last: Column)
    ensures BodyText(stname, columns + [last]) ==
            BodyText(stname, columns) +
            (if columns != [] && columns[|columns| - 1].outcome.Accepted? then ",\n" else "") + ColumnText(stname, last)
  {
    hide ColumnText;
    var all := columns + [last];
    if columns == [] {
      assert all == [last] && all[1..] == [];
      AppendEmpty(ColumnText(stname, last));
    } else {
      var first, rest := columns[0], columns[1..];
      assert all[0] == first && all[1..] == rest + [last];
      BodySnoc(stname, rest, last);
      if rest == [] {
        AppendEmpty(ColumnText(stname, first));
      }
      var comma := if first.outcome.Accepted? then ",\n" else "";
      hide BodyText;
      ThreeTexts(ColumnText(stname, first), comma, BodyText(stname, rest),
                 if rest != [] && rest[|rest| - 1].outcome.Accepted? then ",\n" else "", ColumnText(stname, last));
    }
  }

  lemma {:induction false} BodyIs(stname: string, columns: seq<Column>)
    requires IsStname(stname) && forall i :: 0 <= i < |columns| ==> IsCname(columns[i].cname)
    ensures RenderAll(Items(stname, columns)) == BodyText(stname, columns)
  {
    if columns != [] {
      var init, last := columns[..|columns| - 1], columns[|columns| - 1];
      BodyIs(stname, init);
      Unsnoc(columns);
      hide BodyText, IsStname, IsCname, Render, ItemOf;
      BodySnoc(stname, init, last);
      ItemText(stname, last);
      CommaText(init);
      RenderOne(ItemOf(stname, last));
      RenderAppend(Items(stname, init), Separator(init));
      RenderAppend(Items(stname, init) + Separator(init), [ItemOf(stname, last)]);
    }
  }

  lemma KeyIs(columns: seq<Column>, pk: seq<string>)
    ensures RenderAll(PkItems(columns, pk)) == PrimaryKeyText(columns, pk)
  {
    if pk != [] {
      JoinIsCommas(pk);
      RenderOne(PkItem(pk));
      CommaText(columns);
      RenderAppend(Separator(columns), [PkItem(pk)]);
      hide RenderAll, Commas, Join;
    }
  }

  lemma TextIs(stname: string, columns: seq<Column>, pk: seq<string>, body: string, key: string)
    requires RenderAll(Items(stname, columns)) == body && RenderAll(PkItems(columns, pk)) == key
    ensures TableText(stname, columns, pk) == "\nCREATE TABLE " + stname + "(" + (body + key) + ");\n"
  {
    RenderAppend(Items(stname, columns), PkItems(columns, pk));
    hide RenderAll, Items, PkItems;
  }

  /**
   * A table is written as its columns, each with its own text or a rejection comment, and its key;
   * when no column is accepted, every line of this is a comment.
   */
  lemma TableIsWritten(stname: string, columns: seq<Column>, pk: seq<string>)
    requires IsStname(stname) && forall i :: 0 <= i < |columns| ==> IsCname(columns[i].cname)
    ensures var text := "\nCREATE TABLE " + stname + "(" + (BodyText(stname, columns) + PrimaryKeyText(columns, pk)) +
                        ");\n";
            TableOutput(stname, columns, pk) ==
            if exists i :: 0 <= i < |columns| && columns[i].outcome.Accepted? then text
            else CommentOut(text, 0) + ("-- table " + stname + " emptied!\n")
  {
    BodyIs(stname, columns);
    KeyIs(columns, pk);
    TextIs(stname, columns, pk, BodyText(stname, columns), PrimaryKeyText(columns, pk));
    hide IsStname, IsCname, RenderAll, Items, PkItems, BodyText, PrimaryKeyText, TableText, CommentOut;
  }

  // ------------------------------------------------------------ lines as comments

  /** Lines, each with its end. */
  function Ended(lines: seq<string>): string {
    if lines == [] then "" else lines[0] + "\n" + Ended(lines[1..])
  }

  /** Two dashes and a blank in front of every line that is not empty. */
  function Dashed(lines: seq<string>): seq<string> {
    if lines == [] then [] else [if lines[0] == "" then "" else "-- " + lines[0]] + Dashed(lines[1..])
  }

  lemma {:induction false} NewlineAt(s: string, from: nat, line: string, rest: string)
    requires from <= |s| && s[from..] == line + "\n" + rest
    requires forall i :: 0 <= i < |line| ==> line[i] != '\n'
    ensures FindNewline(s, from) == from + |line|
    decreases |line|
  {
    if line == "" {
      assert s[from..][0] == '\n';
    } else {
      assert s[from..][0] == line[0];
      assert s[from + 1..] == s[from..][1..] == line[1..] + "\n" + rest;
      NewlineAt(s, from + 1, line[1..], rest);
    }
  }

  lemma DashedLine(line: string)
    ensures CommentedLine(line) == (if line == "" then "" else "-- " + line) + "\n"
  {
    AppendEmpty("\n");
  }

  lemma CutLine(s: string, from: nat, line: string, rest: string)
    requires from <= |s| && s[from..] == line + "\n" + rest
    ensures from + |line| < |s| && s[from..from + |line|] == line && s[from + |line| + 1..] == rest
  {
    assert s[from..][..|line|] == line && s[from..][|line| + 1..] == rest;
    assert s[from..from + |line|] == s[from..][..|line|];
    assert s[from + |line| + 1..] == s[from..][|line| + 1..];
  }

  lemma LinesSplit(lines: seq<string>)
    requires lines != []
    ensures Ended(lines) == lines[0] + "\n" + Ended(lines[1..])
    ensures Ended(Dashed(lines)) == (if lines[0] == "" then "" else "-- " + lines[0]) + "\n" + Ended(Dashed(lines[1..]))
  {
    Cons(if lines[0] == "" then "" else "-- " + lines[0], Dashed(lines[1..]));
  }

  lemma NothingToComment(s: string, from: nat)
    requires from <= |s| && s[from..] == Ended([])
    ensures CommentOut(s, from) == Ended(Dashed([])) == ""
  {
  }

  lemma {:induction false} CommentedFrom(s: string, from: nat, lines: seq<string>)
    requires from <= |s| && s[from..] == Ended(lines)
    requires forall i, j :: 0 <= i < |lines| && 0 <= j < |lines[i]| ==> lines[i][j] != '\n'
    ensures CommentOut(s, from) == Ended(Dashed(lines))
    decreases |lines|
  {
    hide *;
    if lines == [] {
      NothingToComment(s, from);
    } else {
      var line, rest := lines[0], lines[1..];
      LinesSplit(lines);
      NewlineAt(s, from, line, Ended(rest));
      CutLine(s, from, line, Ended(rest));
      CommentOutStep(s, from);
      assert forall i :: 0 <= i < |rest| ==> rest[i] == lines[i + 1];
      CommentedFrom(s, from + |line| + 1, rest);
      DashedLine(line);
    }
  }

  /** Every line of a text becomes a comment, and an empty one stays empty. */
  lemma LinesAreCommented(lines: seq<string>)
    requires forall i, j :: 0 <= i < |lines| && 0 <= j < |lines[i]| ==> lines[i][j] != '\n'
    ensures CommentOut(Ended(lines), 0) == Ended(Dashed(lines))
  {
    hide *;
    TakeAll(Ended(lines));
    CommentedFrom(Ended(lines), 0, lines);
  }

  lemma LinesCons(line: string, lines: seq<string>)
    ensures Ended([line] + lines) == line + "\n" + Ended(lines)
    ensures Dashed([line] + lines) == [if line == "" then "" else "-- " + line] + Dashed(lines)
  {
    Cons(line, lines);
  }

  lemma ThreeLines(a: string, b: string, c: string)
    ensures Ended([a, b, c]) == a + "\n" + (b + "\n" + (c + "\n"))
    ensures a == "" && b != "" && c != "" ==> Dashed([a, b, c]) == ["", "-- " + b, "-- " + c]
  {
    assert Ended([]) == "" && Dashed([]) == [];
    hide *;
    LinesCons(c, []);
    LinesCons(b, [c]);
    LinesCons(a, [b, c]);
    AppendEmpty([c]);
    AppendEmpty(c + "\n");
    assert [b] + [c] == [b, c] && [a] + [b, c] == [a, b, c];
    AppendEmpty(["-- " + c]);
    assert ["-- " + b] + ["-- " + c] == ["-- " + b, "-- " + c];
    assert [""] + ["-- " + b, "-- " + c] == ["", "-- " + b, "-- " + c];
  }

  lemma Regrouped(start: string, stname: string, comment: string, end: string)
    ensures "\n" + ((start + stname + "(" + comment) + "\n" + end) ==
            "\n" + start + stname + "(" + (comment + "\n") + end
  {
  }

  /** The lines of a table that lost its only column. */
  lemma EmptiedLines(stname: string, comment: string)
    ensures var lines := ["", "CREATE TABLE " + stname + "(" + comment, ");"];
            Ended(lines) == "\nCREATE TABLE " + stname + "(" + (comment + "\n") + ");\n" &&
            Ended(Dashed(lines)) == "\n-- CREATE TABLE " + stname + "(" + (comment + "\n") + "-- );\n"
  {
    Constants();
    hide *;
    var second := "CREATE TABLE " + stname + "(" + comment;
    assert second != "";
    ThreeLines("", second, ");");
    ThreeLines("", "-- " + second, "-- );");
    AppendEmpty("\n");
    Regrouped("CREATE TABLE ", stname, comment, ");\n");
    Regrouped("-- CREATE TABLE ", stname, comment, "-- );\n");
    AppendAssoc("-- ", "CREATE TABLE " + stname + "(", comment);
    AppendAssoc("-- ", "CREATE TABLE " + stname, "(");
    AppendAssoc("-- ", "CREATE TABLE ", stname);
  }

  lemma Constants()
    ensures "\n" + "CREATE TABLE " == "\nCREATE TABLE " && "\n" + "-- CREATE TABLE " == "\n-- CREATE TABLE "
    ensures "-- " + "CREATE TABLE " == "-- CREATE TABLE " && "-- " + ");" == "-- );"
    ensures ");" + "\n" == ");\n" && "-- );" + "\n" == "-- );\n"
  {
  }

  /** A table whose only column is rejected: three commented lines, and a note. */
  lemma EmptiedTable(stname: string, cname: string, typeName: string, msgs: seq<string>)
    requires IsStname(stname) && IsCname(cname) && '\n' !in typeName
    ensures TableOutput(stname, [Column(cname, Rejected(typeName), msgs)], []) ==
            "\n-- CREATE TABLE " + stname + "(" +
            ("/* column " + stname + "." + cname + ": data type " + typeName + " rejected! */" + "\n") + "-- );\n" +
            ("-- table " + stname + " emptied!\n")
  {
    var column := Column(cname, Rejected(typeName), msgs);
    var comment := "/* column " + stname + "." + cname + ": data type " + typeName + " rejected! */";
    var lines := ["", "CREATE TABLE " + stname + "(" + comment, ");"];
    assert [column][1..] == [] && BodyText(stname, [column]) == comment + "\n";
    AppendEmpty(comment + "\n");
    OneLined(stname, cname, typeName);
    assert PrimaryKeyText([column], []) == "" && [column][0].outcome.Rejected?;
    hide *;
    TableIsWritten(stname, [column], []);
    EmptiedLines(stname, comment);
    LinesAreCommented(lines);
  }

  lemma OneLined(stname: string, cname: string, typeName: string)
    requires IsStname(stname) && IsCname(cname) && '\n' !in typeName
    ensures var comment := "/* column " + stname + "." + cname + ": data type " + typeName + " rejected! */";
            var lines := ["", "CREATE TABLE " + stname + "(" + comment, ");"];
            forall i, j :: 0 <= i < |lines| && 0 <= j < |lines[i]| ==> lines[i][j] != '\n'
  {
    assert '\n' !in stname && '\n' !in cname;
    hide IsStname, IsCname;
    assert '\n' !in "/* column " + stname;
    assert '\n' !in "/* column " + stname + "." + cname;
  }
}
