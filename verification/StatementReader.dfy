/** The text of a statement, written out, and a reader that gets the statement back from it. */
module StatementReader {
  import opened Common
  import opened CreateTable
  import opened DdlRun
  import opened Names
  import Quoting

  // ------------------------------------------------------------------ texts

  lemma OwnParts(stname: string, cname: string)
    requires IsStname(stname) && IsCname(cname)
    ensures StnameOf(StcnameOf(stname, cname)) == stname && ColumnName(StcnameOf(stname, cname)) == cname
  {
    KeyRoundTrip(stname, cname);
    KeyText(stname, cname);
    LastDotOf(stname, cname);
    CutBetween(stname + ".", cname);
    NoDots(cname);
    hide *;
    assert LastDot(stname + "." + cname) == |stname|;
    AfterDot(stname + "." + cname, |stname|);
  }

  lemma NoDots(cname: string)
    requires IsCname(cname)
    ensures '.' !in cname
  {
  }

  lemma AfterDot(s: string, n: nat)
    requires n < |s| && LastDot(s) == n
    ensures ColumnName(s) == s[n + 1..]
  {
    hide LastDot;
  }

  lemma ForeignKeyIs(stcname: string, ref: string)
    ensures RenderStmt(AddForeignKey(stcname, ref)) ==
            "ALTER TABLE " + StnameOf(stcname) + " ADD FOREIGN KEY(" + ColumnName(stcname) + ") REFERENCES " +
            StnameOf(ref) + "(" + ColumnName(ref) + ");\n"
  {
    hide StnameOf, ColumnName;
  }

  /** A foreign key is added to its own table and column and refers to its target's. */
  lemma ForeignKeyText(table: string, column: string, target: string, targetColumn: string)
    requires IsStname(table) && IsCname(column) && IsStname(target) && IsCname(targetColumn)
    ensures RenderStmt(AddForeignKey(StcnameOf(table, column), StcnameOf(target, targetColumn))) ==
            "ALTER TABLE " + table + " ADD FOREIGN KEY(" + column + ") REFERENCES " + target + "(" + targetColumn +
            ");\n"
  {
    hide *;
    OwnParts(table, column);
    OwnParts(target, targetColumn);
    ForeignKeyIs(StcnameOf(table, column), StcnameOf(target, targetColumn));
  }

  lemma CheckIs(stcname: string, name: string, clause: string)
    ensures RenderStmt(AddCheck(stcname, name, clause)) ==
            "ALTER TABLE " + StnameOf(stcname) + " ADD CONSTRAINT " + name + " CHECK(" + Quoting.Escape(clause, '\'') +
            ");\n"
  {
    hide StnameOf, Quoting.Escape;
  }

  /** A CHECK is added to its column's table, with its clause behind its name; single quotes get a backslash. */
  lemma CheckText(table: string, column: string, name: string, clause: string)
    requires IsStname(table) && IsCname(column)
    ensures RenderStmt(AddCheck(StcnameOf(table, column), name, clause)) ==
            "ALTER TABLE " + table + " ADD CONSTRAINT " + name + " CHECK(" + Quoting.Escape(clause, '\'') + ");\n"
    ensures '\'' !in clause ==> Quoting.Escape(clause, '\'') == clause
  {
    hide *;
    OwnParts(table, column);
    CheckIs(StcnameOf(table, column), name, clause);
    if '\'' !in clause {
      Quoting.EscapePlain(clause, '\'');
    }
  }

  lemma UniqueIs(table: string, cnames: seq<string>, name: string)
    ensures RenderStmt(AddUnique(table, cnames, name)) ==
            "ALTER TABLE " + table + " ADD CONSTRAINT " + name + " UNIQUE(" + Join(cnames, ",") + ");\n"
  {
    hide Join;
  }

  lemma SchemaIs(schema: string)
    ensures RenderStmt(CreateSchema(schema)) == "CREATE SCHEMA " + schema + ";\n"
  {
  }

  // ------------------------------------------------------------------ the reader

  /** What a statement's text says. */
  datatype Sentence =
    | NewSchema(schema: string)
    | Check(table: string, name: string, clause: string)
    | Unique(table: string, columns: seq<string>, name: string)
    | ForeignKey(table: string, column: string, target: string, targetColumn: string)

  /** The text up to a character, and the rest from it on. */
  function Word(s: string, c: char): (r: (string, string)) {
    if s == "" || s[0] == c then ("", s)
    else
      var (word, rest) := Word(s[1..], c);
      ([s[0]] + word, rest)
  }

  function Behind(s: string, prefix: string): Option<string> {
    if prefix <= s then Some(s[|prefix|..]) else None
  }

  function Before(s: string, suffix: string): Option<string> {
    if |suffix| <= |s| && s[|s| - |suffix|..] == suffix then Some(s[..|s| - |suffix|]) else None
  }

  function Columns(s: string): seq<string>
    decreases |s|
  {
    var (word, rest) := Word(s, ',');
    if |rest| == 0 || |rest| > |s| then [word] else [word] + Columns(rest[1..])
  }

  function ReadForeignKey(table: string, s: string): Option<Sentence> {
    var (column, refers) := Word(s, ')');
    match Behind(refers, ") REFERENCES ")
    case None => None
    case Some(target) =>
      var (targetTable, list) := Word(target, '(');
      match Behind(list, "(")
      case None => None
      case Some(inside) =>
        var (targetColumn, end) := Word(inside, ')');
        if end == ");\n" then Some(ForeignKey(table, column, targetTable, targetColumn)) else None
  }

  function ReadConstraint(table: string, s: string): Option<Sentence> {
    var (name, kind) := Word(s, ' ');
    match Behind(kind, " UNIQUE(")
    case Some(list) =>
      var (columns, end) := Word(list, ')');
      if end == ");\n" then Some(Unique(table, Columns(columns), name)) else None
    case None =>
      match Behind(kind, " CHECK(")
      case None => None
      case Some(clause) =>
        match Before(clause, ");\n")
        case None => None
        case Some(quoted) => Some(Check(table, name, Quoting.Unescape(quoted)))
  }

  function ReadAlter(s: string): Option<Sentence> {
    var (table, change) := Word(s, ' ');
    match Behind(change, " ADD FOREIGN KEY(")
    case Some(key) => ReadForeignKey(table, key)
    case None =>
      match Behind(change, " ADD CONSTRAINT ")
      case Some(constraint) => ReadConstraint(table, constraint)
      case None => None
  }

  function Read(text: string): Option<Sentence> {
    match Behind(text, "ALTER TABLE ")
    case Some(change) => ReadAlter(change)
    case None =>
      match Behind(text, "CREATE SCHEMA ")
      case None => None
      case Some(schema) =>
        match Before(schema, ";\n")
        case None => None
        case Some(name) => Some(NewSchema(name))
  }

  // ------------------------------------------------------------------ reading back

  lemma {:induction false} WordIs(word: string, c: char, rest: string)
    requires c !in word && rest != "" && rest[0] == c
    ensures Word(word + rest, c) == (word, rest)
  {
    if word == "" {
      AppendEmpty(rest);
    } else {
      assert (word + rest)[0] == word[0] && (word + rest)[1..] == word[1..] + rest;
      assert forall x :: x in word[1..] ==> x in word;
      WordIs(word[1..], c, rest);
      Uncons(word);
    }
  }

  lemma {:induction false} LastWordIs(word: string, c: char)
    requires c !in word
    ensures Word(word, c) == (word, "")
  {
    if word != "" {
      assert forall x :: x in word[1..] ==> x in word;
      LastWordIs(word[1..], c);
      Uncons(word);
    }
  }

  lemma BehindIs(prefix: string, rest: string)
    ensures Behind(prefix + rest, prefix) == Some(rest)
  {
    CutBetween(prefix, rest);
  }

  lemma BeforeIs(text: string, suffix: string)
    ensures Before(text + suffix, suffix) == Some(text)
  {
    CutBetween(text, suffix);
  }

  /** The characters that the reader stops at are in no name. */
  lemma NoSeparators(name: string)
    requires IsStname(name) || IsCname(name)
    ensures ' ' !in name && '(' !in name && ')' !in name && ',' !in name
  {
  }

  lemma NinePieces(a: string, b: string, c: string, d: string, e: string, f: string, g: string, h: string, i: string)
    ensures a + b + c + d + e + f + g + h + i == a + (b + (c + (d + (e + (f + (g + (h + i)))))))
  {
    hide *;
    AppendAssoc(a, b, c + (d + (e + (f + (g + (h + i))))));
    AppendAssoc(a + b, c, d + (e + (f + (g + (h + i)))));
    AppendAssoc(a + b + c, d, e + (f + (g + (h + i))));
    AppendAssoc(a + b + c + d, e, f + (g + (h + i)));
    AppendAssoc(a + b + c + d + e, f, g + (h + i));
    AppendAssoc(a + b + c + d + e + f, g, h + i);
    AppendAssoc(a + b + c + d + e + f + g, h, i);
  }

  lemma SevenPieces(a: string, b: string, c: string, d: string, e: string, f: string, g: string)
    ensures a + b + c + d + e + f + g == a + (b + (c + (d + (e + (f + g)))))
  {
    hide *;
    AppendAssoc(a, b, c + (d + (e + (f + g))));
    AppendAssoc(a + b, c, d + (e + (f + g)));
    AppendAssoc(a + b + c, d, e + (f + g));
    AppendAssoc(a + b + c + d, e, f + g);
    AppendAssoc(a + b + c + d + e, f, g);
  }

  lemma Starts(prefix: string, rest: string)
    requires prefix != ""
    ensures prefix + rest != "" && (prefix + rest)[0] == prefix[0]
  {
  }

  lemma ReadIsAlter(change: string)
    ensures Read("ALTER TABLE " + change) == ReadAlter(change)
  {
    BehindIs("ALTER TABLE ", change);
    hide ReadAlter, Behind, Before;
  }

  lemma AlterIsKey(table: string, key: string)
    requires ' ' !in table
    ensures ReadAlter(table + (" ADD FOREIGN KEY(" + key)) == ReadForeignKey(table, key)
  {
    Starts(" ADD FOREIGN KEY(", key);
    WordIs(table, ' ', " ADD FOREIGN KEY(" + key);
    BehindIs(" ADD FOREIGN KEY(", key);
    hide Word, Behind, ReadForeignKey, ReadConstraint;
  }

  lemma NoKeyStarts(constraint: string)
    ensures Behind(" ADD CONSTRAINT " + constraint, " ADD FOREIGN KEY(") == None
  {
    var change := " ADD CONSTRAINT " + constraint;
    assert change[5] == 'C' && " ADD FOREIGN KEY("[5] == 'F';
  }

  lemma AlterCases(table: string, change: string, constraint: string, s: string)
    requires Word(s, ' ') == (table, change)
    requires Behind(change, " ADD FOREIGN KEY(") == None && Behind(change, " ADD CONSTRAINT ") == Some(constraint)
    ensures ReadAlter(s) == ReadConstraint(table, constraint)
  {
    hide Word, Behind, ReadForeignKey, ReadConstraint;
  }

  lemma AlterIsConstraint(table: string, constraint: string)
    requires ' ' !in table
    ensures ReadAlter(table + (" ADD CONSTRAINT " + constraint)) == ReadConstraint(table, constraint)
  {
    hide *;
    var change := " ADD CONSTRAINT " + constraint;
    Starts(" ADD CONSTRAINT ", constraint);
    WordIs(table, ' ', change);
    BehindIs(" ADD CONSTRAINT ", constraint);
    NoKeyStarts(constraint);
    AlterCases(table, change, constraint, table + change);
  }

  lemma KeyIsRead(table: string, column: string, target: string, targetColumn: string)
    requires ')' !in column && '(' !in target && ')' !in targetColumn
    ensures ReadForeignKey(table, column + (") REFERENCES " + (target + ("(" + (targetColumn + ");\n"))))) ==
            Some(ForeignKey(table, column, target, targetColumn))
  {
    var inside := targetColumn + ");\n";
    var refers := target + ("(" + inside);
    Starts(") REFERENCES ", refers);
    Starts("(", inside);
    WordIs(column, ')', ") REFERENCES " + refers);
    BehindIs(") REFERENCES ", refers);
    WordIs(target, '(', "(" + inside);
    BehindIs("(", inside);
    WordIs(targetColumn, ')', ");\n");
    hide Word, Behind;
  }

  /** A foreign key's text gives back its table and column and its target's. */
  lemma ReadsForeignKey(table: string, column: string, target: string, targetColumn: string)
    requires IsStname(table) && IsCname(column) && IsStname(target) && IsCname(targetColumn)
    ensures Read(RenderStmt(AddForeignKey(StcnameOf(table, column), StcnameOf(target, targetColumn)))) ==
            Some(ForeignKey(table, column, target, targetColumn))
  {
    hide *;
    ForeignKeyText(table, column, target, targetColumn);
    NoSeparators(table);
    NoSeparators(column);
    NoSeparators(target);
    NoSeparators(targetColumn);
    NinePieces("ALTER TABLE ", table, " ADD FOREIGN KEY(", column, ") REFERENCES ", target, "(", targetColumn, ");\n");
    var key := column + (") REFERENCES " + (target + ("(" + (targetColumn + ");\n"))));
    ReadIsAlter(table + (" ADD FOREIGN KEY(" + key));
    AlterIsKey(table, key);
    KeyIsRead(table, column, target, targetColumn);
  }

  lemma CheckIsRead(table: string, name: string, clause: string)
    requires ' ' !in name
    ensures ReadConstraint(table, name + (" CHECK(" + (clause + ");\n"))) ==
            Some(Check(table, name, Quoting.Unescape(clause)))
  {
    var kind := " CHECK(" + (clause + ");\n");
    Starts(" CHECK(", clause + ");\n");
    WordIs(name, ' ', kind);
    BehindIs(" CHECK(", clause + ");\n");
    BeforeIs(clause, ");\n");
    assert kind[1] == 'C' && " UNIQUE("[1] == 'U';
    assert Behind(kind, " UNIQUE(") == None;
    hide Word, Behind, Before, Quoting.Unescape;
  }

  /** A CHECK's text gives back its table, its name and its clause, if the clause has no backslash. */
  lemma ReadsCheck(table: string, column: string, name: string, clause: string)
    requires IsStname(table) && IsCname(column) && ' ' !in name && '\\' !in clause
    ensures Read(RenderStmt(AddCheck(StcnameOf(table, column), name, clause))) == Some(Check(table, name, clause))
  {
    Quoting.QuotingRoundTrip(clause, '\'');
    assert Quoting.Unescape(Quoting.Escape(clause, '\'')) == clause;
    hide *;
    CheckText(table, column, name, clause);
    NoSeparators(table);
    var quoted := Quoting.Escape(clause, '\'');
    SevenPieces("ALTER TABLE ", table, " ADD CONSTRAINT ", name, " CHECK(", quoted, ");\n");
    var constraint := name + (" CHECK(" + (quoted + ");\n"));
    ReadIsAlter(table + (" ADD CONSTRAINT " + constraint));
    AlterIsConstraint(table, constraint);
    CheckIsRead(table, name, quoted);
  }

  lemma {:induction false} ColumnsAre(cnames: seq<string>)
    requires cnames != [] && forall i :: 0 <= i < |cnames| ==> ',' !in cnames[i]
    ensures Columns(Join(cnames, ",")) == cnames
  {
    if |cnames| == 1 {
      LastWordIs(cnames[0], ',');
    } else {
      var rest := Join(cnames[1..], ",");
      ColumnsAre(cnames[1..]);
      AppendAssoc(cnames[0], ",", rest);
      Starts(",", rest);
      WordIs(cnames[0], ',', "," + rest);
      CutBetween(",", rest);
      hide Word, Join;
      Uncons(cnames);
    }
  }

  lemma {:induction false} NoClose(cnames: seq<string>)
    requires forall i :: 0 <= i < |cnames| ==> ')' !in cnames[i]
    ensures ')' !in Join(cnames, ",")
  {
    if |cnames| > 1 {
      NoClose(cnames[1..]);
    }
  }

  lemma UniqueIsRead(table: string, name: string, list: string)
    requires ' ' !in name && ')' !in list
    ensures ReadConstraint(table, name + (" UNIQUE(" + (list + ");\n"))) ==
            Some(Unique(table, Columns(list), name))
  {
    Starts(" UNIQUE(", list + ");\n");
    WordIs(name, ' ', " UNIQUE(" + (list + ");\n"));
    BehindIs(" UNIQUE(", list + ");\n");
    WordIs(list, ')', ");\n");
    hide Word, Behind, Columns;
  }

  /** A UNIQUE's text gives back its table, its name and its columns in order. */
  lemma ReadsUnique(table: string, cnames: seq<string>, name: string)
    requires IsStname(table) && ' ' !in name && cnames != []
    requires forall i :: 0 <= i < |cnames| ==> IsCname(cnames[i])
    ensures Read(RenderStmt(AddUnique(table, cnames, name))) == Some(Unique(table, cnames, name))
  {
    hide *;
    forall i | 0 <= i < |cnames| ensures ',' !in cnames[i] && ')' !in cnames[i] {
      NoSeparators(cnames[i]);
    }
    UniqueIs(table, cnames, name);
    NoSeparators(table);
    ColumnsAre(cnames);
    NoClose(cnames);
    var list := Join(cnames, ",");
    SevenPieces("ALTER TABLE ", table, " ADD CONSTRAINT ", name, " UNIQUE(", list, ");\n");
    var constraint := name + (" UNIQUE(" + (list + ");\n"));
    ReadIsAlter(table + (" ADD CONSTRAINT " + constraint));
    AlterIsConstraint(table, constraint);
    UniqueIsRead(table, name, list);
  }

  /** A CREATE SCHEMA's text gives back the schema. */
  lemma ReadsSchema(schema: string)
    ensures Read(RenderStmt(CreateSchema(schema))) == Some(NewSchema(schema))
  {
    var text := "CREATE SCHEMA " + (schema + ";\n");
    AppendAssoc("CREATE SCHEMA ", schema, ";\n");
    BehindIs("CREATE SCHEMA ", schema + ";\n");
    BeforeIs(schema, ";\n");
    assert text[0] == 'C' && "ALTER TABLE "[0] == 'A';
    assert Behind(text, "ALTER TABLE ") == None;
    hide Behind, Before, ReadAlter;
  }
}
