/**
 * The line recorded with a message is the line of the position where the output shows the
 * column: its text, or the comment about its rejection. Tables that keep a column, emptied
 * tables that are written again as comments, and the lines of a file behind its header.
 */
module LineNumbers {
  import opened Common
  import opened CreateTable
  import opened Ochain

  function FirstLine(s: string): (line: string)
    ensures '\n' !in line && line <= s
  {
    s[..FindNewline(s, 0)]
  }

  /** The text stands at a position of the body, and that position is on the 1-based line `lineno`. */
  predicate BeginsAt(body: string, lineno: nat, text: string, pos: nat) {
    pos <= |body| && lineno == 1 + CountNewlines(body[..pos]) && text <= body[pos..]
  }

  /** Text in front moves the place by its length and its newlines; text behind does not matter. */
  lemma Embed(before: string, body: string, after: string, lineno: nat, text: string, pos: nat)
    requires BeginsAt(body, lineno, text, pos)
    ensures BeginsAt(before + body + after, lineno + CountNewlines(before), text, |before| + pos)
  {
    hide CountNewlines;
    EmbedParts(before, body, after, lineno, text, pos);
  }

  lemma EmbedParts(before: string, body: string, after: string, lineno: nat, text: string, pos: nat)
    requires pos <= |body| && lineno == 1 + CountNewlines(body[..pos]) && text <= body[pos..]
    ensures BeginsAt(before + body + after, lineno + CountNewlines(before), text, |before| + pos)
  {
    hide *;
    CountAppend(before, body[..pos]);
    CutMiddle(before, body, after, pos);
    PrefixStays(text, body[pos..], after);
    BeginsWith(before + body + after, lineno + CountNewlines(before), text, |before| + pos, before + body[..pos],
               body[pos..] + after);
  }

  lemma BeginsWith(body: string, lineno: nat, text: string, pos: nat, front: string, back: string)
    requires pos <= |body| && body[..pos] == front && body[pos..] == back
    requires lineno == 1 + CountNewlines(front) && text <= back
    ensures BeginsAt(body, lineno, text, pos)
  {
    hide CountNewlines;
  }

  lemma PrefixStays(text: string, a: string, b: string)
    requires text <= a
    ensures text <= a + b
  {
  }

  // ------------------------------------------------------------- kept tables

  /** Where a column's item stands in the table text: right behind the text before it. */
  lemma ItemPlace(stname: string, columns: seq<Column>, k: nat) returns (rest: string)
    requires k < |columns|
    ensures RenderAll(Items(stname, columns)) ==
            RenderAll(Items(stname, columns[..k]) + Separator(columns[..k])) + Render(ItemOf(stname, columns[k])) + rest
    decreases |columns|
  {
    hide *;
    var init, last := columns[..|columns| - 1], columns[|columns| - 1];
    var lastItem := ItemOf(stname, last);
    Unsnoc(columns);
    ItemsSnoc(stname, init, last);
    RenderAppend(Items(stname, init) + Separator(init), [lastItem]);
    RenderOne(lastItem);
    if k == |columns| - 1 {
      rest := "";
      AppendEmpty(RenderAll(Items(stname, init) + Separator(init)) + Render(lastItem));
    } else {
      assert init[..k] == columns[..k];
      var part := ItemPlace(stname, init, k);
      RenderAppend(Items(stname, init), Separator(init));
      rest := part + RenderAll(Separator(init)) + Render(lastItem);
      Nest(RenderAll(Items(stname, columns[..k]) + Separator(columns[..k])) + Render(ItemOf(stname, columns[k])),
           part, RenderAll(Separator(init)), Render(lastItem));
    }
  }

  lemma Nest(a: string, b: string, c: string, d: string)
    ensures a + b + c + d == a + (b + c + d)
  {
  }

  /** The table text around a column's item. */
  lemma TextPlace(stname: string, columns: seq<Column>, pk: seq<string>, k: nat) returns (rest: string)
    requires k < |columns|
    ensures TableText(stname, columns, pk) ==
            TextBefore(stname, columns[..k]) + Render(ItemOf(stname, columns[k])) + rest
  {
    var part := ItemPlace(stname, columns, k);
    RenderAppend(Items(stname, columns), PkItems(columns, pk));
    rest := part + RenderAll(PkItems(columns, pk)) + ");\n";
    var items := RenderAll(Items(stname, columns[..k]) + Separator(columns[..k]));
    assert TextBefore(stname, columns[..k]) == Header(stname) + items;
    hide *;
    Regroup(Header(stname), items, Render(ItemOf(stname, columns[k])), part, RenderAll(PkItems(columns, pk)), ");\n");
  }

  lemma Regroup(a: string, b: string, c: string, d: string, e: string, f: string)
    ensures a + (b + c + d + e) + f == a + b + c + (d + e + f)
  {
  }

  lemma LineInText(stname: string, columns: seq<Column>, pk: seq<string>, k: nat)
    requires k < |columns|
    ensures BeginsAt(TableText(stname, columns, pk), LineAfter(0, stname, columns[..k]),
                     Render(ItemOf(stname, columns[k])),
                     |TextBefore(stname, columns[..k])|)
  {
    hide *;
    var rest := TextPlace(stname, columns, pk, k);
    LineOfBefore(stname, columns[..k]);
    BeginsBetween(TextBefore(stname, columns[..k]), Render(ItemOf(stname, columns[k])), rest);
  }

  lemma LineOfBefore(stname: string, columns: seq<Column>)
    ensures LineAfter(0, stname, columns) == 1 + CountNewlines(TextBefore(stname, columns))
  {
  }

  lemma BeginsBetween(before: string, text: string, after: string)
    ensures BeginsAt(before + text + after, 1 + CountNewlines(before), text, |before|)
  {
    hide *;
    CutMiddle(before, text, after, 0);
    TakeNone(text);
    AppendEmpty(before);
    TakeAll(text);
    BeginsWith(before + text + after, 1 + CountNewlines(before), text, |before|, before, text + after);
  }

  // ---------------------------------------------------------- emptied tables

  lemma NoNewlines(s: string)
    requires '\n' !in s
    ensures CountNewlines(s) == 0
  {
  }

  lemma LineCount(line: string)
    requires '\n' !in line
    ensures CountNewlines(CommentedLine(line)) == 1 == CountNewlines(line + "\n")
  {
    NoNewlines(line);
    CountAppend(line, "\n");
    CountAppend("-- " + line, "\n");
    NoNewlines("-- " + line);
    assert CountNewlines("\n") == 1 by {
      assert "\n"[..0] == "";
    }
  }

  /**
   * Where a position on a non-empty line stands once the lines from `from` on are commented
   * out: behind the comments made of the earlier lines, and the mark of its own.
   */
  function CommentedPos(s: string, from: nat, pos: nat): nat
    requires from <= |s| && from <= pos
    decreases |s| - from
  {
    var end := FindNewline(s, from);
    if pos <= end || end == |s| then |"-- "| + pos - from
    else |CommentedLine(s[from..end])| + CommentedPos(s, end + 1, pos)
  }

  lemma CommentedPosStep(s: string, from: nat, pos: nat)
    requires from <= pos <= |s|
    ensures var end := FindNewline(s, from);
            CommentedPos(s, from, pos) ==
            if pos <= end then |"-- " + s[from..pos]| else |CommentedLine(s[from..end])| + CommentedPos(s, end + 1, pos)
  {
    hide CommentedLine;
  }

  /** A text on one line is found on the same line of the commented-out text. */
  lemma {:induction false} CommentedKeepsLines(s: string, from: nat, pos: nat, line: string)
    requires from <= pos <= |s| && line != "" && '\n' !in line
    requires line + "\n" <= s[pos..]
    ensures BeginsAt(CommentOut(s, from), 1 + CountNewlines(s[from..pos]), line, CommentedPos(s, from, pos))
    decreases |s| - from
  {
    hide *;
    var end := FindNewline(s, from);
    NewlineBehind(s, pos, line);
    CommentOutStep(s, from);
    CommentedPosStep(s, from, pos);
    if pos <= end {
      LineStart(s, from, pos, end, line, CommentOut(s, end + 1));
    } else {
      CommentedKeepsLines(s, end + 1, pos, line);
      LineBefore(s, from, end, pos);
      EmbedAfter(CommentedLine(s[from..end]), CommentOut(s, end + 1), 1 + CountNewlines(s[end + 1..pos]), line,
                 CommentedPos(s, end + 1, pos));
    }
  }

  lemma NewlineBehind(s: string, pos: nat, line: string)
    requires pos <= |s| && line + "\n" <= s[pos..]
    ensures pos + |line| < |s| && s[pos + |line|] == '\n'
  {
    assert s[pos..][|line|] == '\n';
  }

  lemma EmbedAfter(before: string, body: string, lineno: nat, text: string, pos: nat)
    requires BeginsAt(body, lineno, text, pos)
    ensures BeginsAt(before + body, lineno + CountNewlines(before), text, |before| + pos)
  {
    hide *;
    Embed(before, body, "", lineno, text, pos);
    AppendEmpty(before + body);
  }

  lemma LineBefore(s: string, from: nat, end: nat, pos: nat)
    requires from <= end < pos <= |s| && '\n' !in s[from..end] && s[end] == '\n'
    ensures CountNewlines(s[from..pos]) == 1 + CountNewlines(s[end + 1..pos])
    ensures CountNewlines(CommentedLine(s[from..end])) == 1
  {
    assert s[from..pos] == (s[from..end] + "\n") + s[end + 1..pos];
    hide CountNewlines, CommentedLine;
    LineCount(s[from..end]);
    CountAppend(s[from..end] + "\n", s[end + 1..pos]);
  }

  lemma LineStart(s: string, from: nat, pos: nat, end: nat, line: string, rest: string)
    requires from <= pos <= end < |s| && end == FindNewline(s, from) && line != "" && '\n' !in line
    requires line + "\n" <= s[pos..]
    ensures BeginsAt(CommentedLine(s[from..end]) + rest, 1 + CountNewlines(s[from..pos]), line, |"-- " + s[from..pos]|)
  {
    LineIs(s, pos, end, line);
    NoNewlines(s[from..pos]);
    assert s[from..end] != "" && s[from..end] == s[from..pos] + line;
    assert CommentedLine(s[from..end]) == "-- " + s[from..end] + "\n";
    var before := "-- " + s[from..pos];
    NoNewlines(before);
    hide *;
    Commented(s[from..pos], line, rest);
    BeginsBetween(before, line, "\n" + rest);
  }

  lemma LineIs(s: string, pos: nat, end: nat, line: string)
    requires pos <= end < |s| && s[end] == '\n' && '\n' !in s[pos..end] && '\n' !in line && line + "\n" <= s[pos..]
    ensures s[pos..end] == line
  {
    var tail := s[pos..];
    assert tail[|line|] == '\n' && tail[end - pos] == '\n';
    assert tail[..|line|] == line && tail[..end - pos] == s[pos..end];
  }

  lemma Commented(start: string, line: string, rest: string)
    ensures "-- " + (start + line) + "\n" + rest == ("-- " + start) + line + ("\n" + rest)
  {
  }

  /** The first line of a rejection comment, in the text of an emptied table. */
  lemma LineInEmptied(stname: string, columns: seq<Column>, pk: seq<string>, k: nat)
    requires k < |columns| && columns[k].outcome.Rejected?
    ensures BeginsAt(CommentOut(TableText(stname, columns, pk), 0), LineAfter(0, stname, columns[..k]),
                     FirstLine(Render(ItemOf(stname, columns[k]))),
                     CommentedPos(TableText(stname, columns, pk), 0, |TextBefore(stname, columns[..k])|))
  {
    hide *;
    var rest := TextPlace(stname, columns, pk, k);
    LineOfBefore(stname, columns[..k]);
    CommentEnds(stname, columns[k]);
    var item := Render(ItemOf(stname, columns[k]));
    CommentedItem(TableText(stname, columns, pk), TextBefore(stname, columns[..k]), item, rest, FirstLine(item));
  }

  lemma CommentEnds(stname: string, column: Column)
    requires column.outcome.Rejected?
    ensures var item := Render(ItemOf(stname, column));
            FirstLine(item) != "" && FirstLine(item) + "\n" <= item
  {
    var item := Render(ItemOf(stname, column));
    assert item[0] == '/' && item[|item| - 1] == '\n';
    hide Render, ItemOf;
    var end := FindNewline(item, 0);
    assert item[..end + 1] == FirstLine(item) + "\n";
  }

  lemma CommentedItem(text: string, before: string, item: string, rest: string, line: string)
    requires text == before + item + rest && line != "" && '\n' !in line && line + "\n" <= item
    ensures BeginsAt(CommentOut(text, 0), 1 + CountNewlines(before), line, CommentedPos(text, 0, |before|))
  {
    hide *;
    Middle(text, before, item, rest, line);
    CommentedBehind(text, before, line);
  }

  lemma CommentedBehind(text: string, before: string, line: string)
    requires |before| <= |text| && text[0..|before|] == before
    requires line != "" && '\n' !in line && line + "\n" <= text[|before|..]
    ensures BeginsAt(CommentOut(text, 0), 1 + CountNewlines(before), line, CommentedPos(text, 0, |before|))
  {
    hide *;
    CommentedKeepsLines(text, 0, |before|, line);
  }

  lemma Middle(text: string, before: string, item: string, rest: string, line: string)
    requires text == before + item + rest && line + "\n" <= item
    ensures |before| <= |text| && text[0..|before|] == before && line + "\n" <= text[|before|..]
  {
    hide *;
    CutMiddle(before, item, rest, 0);
    TakeNone(item);
    AppendEmpty(before);
    TakeAll(item);
    FromStart(text, |before|);
    PrefixStays(line + "\n", item, rest);
  }

  lemma FromStart(text: string, n: nat)
    requires n <= |text|
    ensures text[0..n] == text[..n]
  {
  }

  /** What a table's output shows of a column: all of its item, or the first line as a comment. */
  function Shown(stname: string, columns: seq<Column>, k: nat): string
    requires k < |columns|
  {
    var item := Render(ItemOf(stname, columns[k]));
    if AnyAccepted(columns) then item else FirstLine(item)
  }

  /** Where the table's output shows it: behind the text of the columns before it. */
  function Place(stname: string, columns: seq<Column>, pk: seq<string>, k: nat): nat
    requires k < |columns|
  {
    var pos := |TextBefore(stname, columns[..k])|;
    if AnyAccepted(columns) then pos else CommentedPos(TableText(stname, columns, pk), 0, pos)
  }

  lemma OutputOf(stname: string, columns: seq<Column>, pk: seq<string>)
    ensures var text := TableText(stname, columns, pk);
            TableOutput(stname, columns, pk) ==
            if AnyAccepted(columns) then text else CommentOut(text, 0) + EmptiedNote(stname)
  {
  }

  lemma LineFrom(lines: nat, stname: string, columns: seq<Column>)
    ensures LineAfter(lines, stname, columns) == LineAfter(0, stname, columns) + lines
  {
  }

  lemma AllRejected(columns: seq<Column>, k: nat)
    requires k < |columns| && !AnyAccepted(columns)
    ensures columns[k].outcome.Rejected?
  {
  }

  lemma WhatIsShown(stname: string, columns: seq<Column>, pk: seq<string>, k: nat)
    requires k < |columns|
    ensures var item, pos := Render(ItemOf(stname, columns[k])), |TextBefore(stname, columns[..k])|;
            if AnyAccepted(columns) then Shown(stname, columns, k) == item && Place(stname, columns, pk, k) == pos
            else
              Shown(stname, columns, k) == FirstLine(item) &&
              Place(stname, columns, pk, k) == CommentedPos(TableText(stname, columns, pk), 0, pos)
  {
  }

  /**
   * Whatever was written before and after the table, the line recorded for a column is the
   * line of the place where the output shows that column: its text or the comment about its
   * rejection, also when the table was emptied and written again as comments.
   */
  lemma LinesAreTrue(before: string, stname: string, columns: seq<Column>, pk: seq<string>, after: string, k: nat)
    requires k < |columns|
    ensures BeginsAt(before + TableOutput(stname, columns, pk) + after,
                     LineAfter(CountNewlines(before), stname, columns[..k]),
                     Shown(stname, columns, k), |before| + Place(stname, columns, pk, k))
  {
    hide *;
    LineFrom(CountNewlines(before), stname, columns[..k]);
    OutputOf(stname, columns, pk);
    WhatIsShown(stname, columns, pk, k);
    var text, lineno := TableText(stname, columns, pk), LineAfter(0, stname, columns[..k]);
    if AnyAccepted(columns) {
      LineInText(stname, columns, pk, k);
      Embed(before, text, after, lineno, Shown(stname, columns, k), Place(stname, columns, pk, k));
    } else {
      AllRejected(columns, k);
      LineInEmptied(stname, columns, pk, k);
      EmbedEmptied(before, CommentOut(text, 0), EmptiedNote(stname), after, lineno, Shown(stname, columns, k),
                   Place(stname, columns, pk, k));
    }
  }

  lemma EmbedEmptied(before: string, body: string, note: string, after: string, lineno: nat, text: string, pos: nat)
    requires BeginsAt(body, lineno, text, pos)
    ensures BeginsAt(before + (body + note) + after, lineno + CountNewlines(before), text, |before| + pos)
  {
    hide *;
    AppendAssoc(before, body, note);
    AppendAssoc(before + body, note, after);
    Embed(before, body, note + after, lineno, text, pos);
  }

  /**
   * A message of one of a table's columns, carrying the line where that column is shown in a
   * body whose table output starts at `start`.
   */
  predicate Located(body: string, start: nat, stname: string, columns: seq<Column>, pk: seq<string>, msg: Msg) {
    exists k :: 0 <= k < |columns| && LocatedAt(body, start, stname, columns, pk, msg, k)
  }

  predicate LocatedAt(body: string, start: nat, stname: string, columns: seq<Column>, pk: seq<string>, msg: Msg, k: nat)
    requires k < |columns|
  {
    msg.stname == stname && msg.cname == columns[k].cname && msg.text in columns[k].msgs &&
    BeginsAt(body, msg.lineno, Shown(stname, columns, k), start + Place(stname, columns, pk, k))
  }

  /** Which column a recorded message belongs to. */
  lemma {:induction false} MessageOf(lines: nat, stname: string, columns: seq<Column>, i: nat) returns (k: nat)
    requires i < |Messages(lines, stname, columns)|
    ensures k < |columns|
    ensures var msg := Messages(lines, stname, columns)[i];
            msg.lineno == LineAfter(lines, stname, columns[..k]) && msg.stname == stname &&
            msg.cname == columns[k].cname && msg.text in columns[k].msgs
    decreases |columns|
  {
    hide *;
    NoMessage(lines, stname);
    assert columns != [];
    var init, last := columns[..|columns| - 1], columns[|columns| - 1];
    var before, own := Messages(lines, stname, init), ColumnMsgs(LineAfter(lines, stname, init), stname, last);
    MessagesSnoc(lines, stname, columns);
    if i < |before| {
      k := MessageOf(lines, stname, init, i);
      TakeInit(columns, k);
    } else {
      k := |columns| - 1;
    }
  }

  lemma NoMessage(lines: nat, stname: string)
    ensures Messages(lines, stname, []) == []
  {
  }

  lemma MessagesSnoc(lines: nat, stname: string, columns: seq<Column>)
    requires columns != []
    ensures var init := columns[..|columns| - 1];
            Messages(lines, stname, columns) ==
            Messages(lines, stname, init) + ColumnMsgs(LineAfter(lines, stname, init), stname, columns[|columns| - 1])
  {
    hide LineAfter, ColumnMsgs;
  }

  lemma TakeInit<T>(a: seq<T>, k: nat)
    requires k < |a| - 1
    ensures a[..|a| - 1][..k] == a[..k] && a[..|a| - 1][k] == a[k]
  {
  }

  /** Every message recorded while a table is written is true of whatever the output becomes. */
  lemma MessagesLocated(before: string, stname: string, columns: seq<Column>, pk: seq<string>, after: string, i: nat)
    requires i < |Messages(CountNewlines(before), stname, columns)|
    ensures Located(before + TableOutput(stname, columns, pk) + after, |before|, stname, columns, pk,
                    Messages(CountNewlines(before), stname, columns)[i])
  {
    hide BeginsAt, Messages, LineAfter, TableOutput, Shown, Place, CountNewlines;
    var k := MessageOf(CountNewlines(before), stname, columns, i);
    LinesAreTrue(before, stname, columns, pk, after, k);
    var body, msg := before + TableOutput(stname, columns, pk) + after,
      Messages(CountNewlines(before), stname, columns)[i];
    assert LocatedAt(body, |before|, stname, columns, pk, msg, k);
  }

  // ---------------------------------------------------------- the file header

  function SourceLines(filepaths: seq<string>): string {
    if filepaths == [] then ""
    else SourceLines(filepaths[..|filepaths| - 1]) + "-- " + filepaths[|filepaths| - 1] + "\n"
  }

  function HeaderText(intro: string, filepaths: seq<string>): string {
    "-- " + intro + "\n" + SourceLines(filepaths) + "\n"
  }

  /** `write_target_ddl_header`: one line of introduction, one per source, an empty one. */
  method WriteHeader(intro: string, filepaths: seq<string>) returns (header: string, offset: nat)
    ensures header == HeaderText(intro, filepaths) && offset == |filepaths| + 2
  {
    header, offset := "-- " + intro + "\n", 1;
    ghost var first := header;
    hide *;
    NoSources(first, filepaths);
    for i := 0 to |filepaths|
      invariant header == first + SourceLines(filepaths[..i]) && offset == 1 + i
    {
      OneSource(first, filepaths, i);
      header := header + ("-- " + filepaths[i] + "\n");
      offset := offset + 1;
    }
    TakeAll(filepaths);
    HeaderIs(intro, filepaths);
    header, offset := header + "\n", offset + 1;
  }

  lemma NoSources(first: string, filepaths: seq<string>)
    ensures first == first + SourceLines(filepaths[..0])
  {
    AppendEmpty(first);
  }

  lemma OneSource(first: string, filepaths: seq<string>, i: nat)
    requires i < |filepaths|
    ensures first + SourceLines(filepaths[..i]) + ("-- " + filepaths[i] + "\n") ==
            first + SourceLines(filepaths[..i + 1])
  {
    TakeSnoc(filepaths, i);
    SourceLinesSnoc(filepaths[..i], filepaths[i]);
    hide SourceLines;
    AppendAssoc(first, SourceLines(filepaths[..i]), "-- " + filepaths[i] + "\n");
  }

  lemma SourceLinesSnoc(filepaths: seq<string>, filepath: string)
    ensures SourceLines(filepaths + [filepath]) == SourceLines(filepaths) + ("-- " + filepath + "\n")
  {
    assert (filepaths + [filepath])[..|filepaths|] == filepaths;
  }

  lemma HeaderIs(intro: string, filepaths: seq<string>)
    ensures HeaderText(intro, filepaths) == "-- " + intro + "\n" + SourceLines(filepaths) + "\n"
  {
  }

  predicate OneLiners(texts: seq<string>) {
    forall i :: 0 <= i < |texts| ==> '\n' !in texts[i]
  }

  lemma {:induction false} OneLine(s: string)
    ensures CountNewlines(s) == 0 <==> '\n' !in s
  {
    if s != "" {
      OneLine(s[..|s| - 1]);
      assert s == s[..|s| - 1] + [s[|s| - 1]];
    }
  }

  lemma MarkedLine(text: string)
    ensures CountNewlines("-- " + text + "\n") == 1 + CountNewlines(text)
  {
    assert CountNewlines("-- ") == 0 by {
      OneLine("-- ");
    }
    assert CountNewlines("\n") == 1 by {
      assert "\n"[..0] == "";
    }
    hide CountNewlines;
    CountAppend("-- ", text);
    CountAppend("-- " + text, "\n");
  }

  lemma {:induction false} SourceLinesCount(filepaths: seq<string>)
    ensures CountNewlines(SourceLines(filepaths)) >= |filepaths|
    ensures CountNewlines(SourceLines(filepaths)) == |filepaths| <==> OneLiners(filepaths)
  {
    if filepaths != [] {
      var init, last := filepaths[..|filepaths| - 1], filepaths[|filepaths| - 1];
      assert filepaths == init + [last];
      SourceLinesSnoc(init, last);
      SourceLinesCount(init);
      MarkedLine(last);
      OneLine(last);
      hide CountNewlines, SourceLines;
      CountAppend(SourceLines(init), "-- " + last + "\n");
      assert OneLiners(filepaths) <==> OneLiners(init) && '\n' !in last;
    }
  }

  lemma HeaderCount(intro: string, filepaths: seq<string>)
    ensures CountNewlines(HeaderText(intro, filepaths)) ==
            2 + CountNewlines(intro) + CountNewlines(SourceLines(filepaths))
  {
    HeaderIs(intro, filepaths);
    MarkedLine(intro);
    assert CountNewlines("\n") == 1 by {
      assert "\n"[..0] == "";
    }
    hide CountNewlines, SourceLines, HeaderText;
    CountAppend("-- " + intro + "\n", SourceLines(filepaths));
    CountAppend("-- " + intro + "\n" + SourceLines(filepaths), "\n");
  }

  /** The offset is the number of lines of the header exactly when no path and no introduction has a newline. */
  lemma OffsetCountsHeader(intro: string, filepaths: seq<string>)
    ensures |filepaths| + 2 == CountNewlines(HeaderText(intro, filepaths)) <==> '\n' !in intro && OneLiners(filepaths)
  {
    HeaderCount(intro, filepaths);
    SourceLinesCount(filepaths);
    OneLine(intro);
    hide CountNewlines, HeaderText, SourceLines, OneLiners;
  }

  /** Adding the header count to a message's line gives its line in the file. */
  lemma FileLine(intro: string, filepaths: seq<string>, body: string, lineno: nat, text: string, pos: nat)
    requires '\n' !in intro && OneLiners(filepaths) && BeginsAt(body, lineno, text, pos)
    ensures BeginsAt(HeaderText(intro, filepaths) + body, |filepaths| + 2 + lineno, text,
                     |HeaderText(intro, filepaths)| + pos)
  {
    hide *;
    OffsetCountsHeader(intro, filepaths);
    EmbedAfter(HeaderText(intro, filepaths), body, lineno, text, pos);
  }
}
