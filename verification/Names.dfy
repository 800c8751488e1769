/**
 * Normalised DDL names: column names, `schema.table` names and `schema.table.column` names,
 * all plain strings, composed and split at their dots.
 */
module Names {
  import opened Common

  predicate IsNameChar(c: char) { IsAlnum(c) || c == '_' || c == '.' }

  /** What normalisation accepts: a leading letter, name characters, no two dots in a row. */
  predicate Acceptable(s: string) {
    s != "" && IsAlpha(s[0]) &&
    (forall i :: 0 <= i < |s| ==> IsNameChar(s[i])) &&
    (forall i :: 0 < i < |s| && s[i] == '.' ==> s[i - 1] != '.')
  }

  function Lower(s: string): (l: string)
    ensures |l| == |s| && forall i :: 0 <= i < |s| ==> l[i] == LowerChar(s[i])
  {
    seq(|s|, i requires 0 <= i < |s| => LowerChar(s[i]))
  }

  /** The lower-case name, or the empty text that stands for a rejected one. */
  function Normalize(s: string): string {
    if Acceptable(s) then Lower(s) else ""
  }

  /** `normalize_ddl_name`, character by character. */
  method NormalizeDdlName(ddlName: string) returns (name: string)
    ensures name == Normalize(ddlName)
  {
    if ddlName == "" || !IsAlpha(ddlName[0]) {
      return "";
    }
    name := "";
    var prevDot := true;
    for i := 0 to |ddlName|
      invariant |name| == i && forall k :: 0 <= k < i ==> name[k] == LowerChar(ddlName[k])
      invariant forall k :: 0 <= k < i ==> IsNameChar(ddlName[k])
      invariant forall k :: 0 < k < i && ddlName[k] == '.' ==> ddlName[k - 1] != '.'
      invariant i > 0 ==> (prevDot <==> ddlName[i - 1] == '.')
    {
      var c := ddlName[i];
      if 'A' <= c <= 'Z' {
        c := LowerChar(c);
      } else if !IsAlnum(c) && c != '_' {
        if c != '.' || prevDot {
          return "";
        }
      }
      name := name + [c];
      prevDot := c == '.';
    }
    assert name == Lower(ddlName);
  }

  /** A name that normalisation leaves alone. */
  predicate IsNormal(s: string) {
    Acceptable(s) && forall i :: 0 <= i < |s| ==> LowerChar(s[i]) == s[i]
  }

  lemma NormalIsFixed(s: string)
    ensures IsNormal(s) ==> Normalize(s) == s
    ensures Normalize(s) != "" ==> IsNormal(Normalize(s))
  {
    if IsNormal(s) {
      assert Lower(s) == s;
    }
  }

  // --------------------------------------------------------------- splitting

  /** Position of the first dot; the length when there is none. */
  function FirstDot(s: string): (pos: nat)
    ensures pos <= |s|
    ensures '.' !in s[..pos]
    ensures pos < |s| ==> s[pos] == '.'
  {
    if s == "" || s[0] == '.' then 0
    else
      assert forall i :: 1 <= i <= 1 + FirstDot(s[1..]) ==> s[..i] == [s[0]] + s[1..][..i - 1];
      1 + FirstDot(s[1..])
  }

  /** Position of the last dot; the length when there is none. */
  function LastDot(s: string): (pos: nat)
    ensures pos <= |s|
    ensures pos < |s| ==> s[pos] == '.' && '.' !in s[pos + 1..]
    ensures pos == |s| ==> '.' !in s
  {
    if '.' !in s then |s|
    else if s[|s| - 1] == '.' then |s| - 1
    else
      assert s == s[..|s| - 1] + [s[|s| - 1]];
      var pos := LastDot(s[..|s| - 1]);
      assert s[pos + 1..] == s[..|s| - 1][pos + 1..] + [s[|s| - 1]];
      pos
  }

  function SchemaName(name: string): string {
    name[..FirstDot(name)]
  }

  /** The table of a `schema.table` name; the whole name when there is no dot. */
  function TableName(stname: string): string {
    var dot := FirstDot(stname);
    if dot == |stname| then stname else stname[dot + 1..]
  }

  function ColumnName(stcname: string): string {
    var dot := LastDot(stcname);
    if dot == |stcname| then stcname else stcname[dot + 1..]
  }

  /** The table of a `schema.table.column` name: between the first and the last dot. */
  function ColumnTableName(stcname: string): string {
    var first, last := FirstDot(stcname), LastDot(stcname);
    if first == |stcname| then stcname
    else if last <= first then stcname[first + 1..]
    else stcname[first + 1..last]
  }

  function MakeStname(schema: string, table: string): string {
    Normalize(schema + "." + table)
  }

  function MakeStcname(schema: string, table: string, column: string): string {
    Normalize(schema + "." + table + "." + column)
  }

  /** A column of a table. */
  function StcnameOf(stname: string, column: string): string {
    MakeStcname(SchemaName(stname), TableName(stname), column)
  }

  function StnameOf(stcname: string): string {
    MakeStname(SchemaName(stcname), ColumnTableName(stcname))
  }

  function CnameOf(stcname: string): string {
    Normalize(ColumnName(stcname))
  }

  lemma {:induction false} FirstDotBound(s: string, i: nat)
    requires i < |s| && s[i] == '.'
    ensures FirstDot(s) <= i
  {
    if i > 0 && s[0] != '.' {
      FirstDotBound(s[1..], i - 1);
    }
  }

  lemma {:induction false} LastDotBound(s: string, i: nat)
    requires i < |s| && s[i] == '.'
    ensures i <= LastDot(s) < |s|
  {
    if i < |s| - 1 && s[|s| - 1] != '.' {
      var init := s[..|s| - 1];
      assert init[i] == '.';
      LastDotBound(init, i);
    }
  }

  lemma FirstDotOf(a: string, b: string)
    ensures FirstDot(a + "." + b) == |a| <==> '.' !in a
    ensures FirstDot(a + "." + b) <= |a|
  {
    var s := a + "." + b;
    var pos := FirstDot(s);
    FirstDotBound(s, |a|);
    assert s[..|a|] == a;
    if pos < |a| {
      assert a[pos] == '.';
    }
  }

  lemma LastDotAt(s: string, n: nat)
    requires n < |s| && s[n] == '.'
    ensures LastDot(s) == n <==> '.' !in s[n + 1..]
    ensures n <= LastDot(s) < |s|
  {
    LastDotBound(s, n);
    hide LastDot;
    var pos := LastDot(s);
    if pos > n {
      assert s[n + 1..][pos - n - 1] == '.';
    }
  }

  lemma LastDotOf(a: string, b: string)
    ensures LastDot(a + "." + b) == |a| <==> '.' !in b
    ensures |a| <= LastDot(a + "." + b) < |a| + 1 + |b|
  {
    hide LastDot;
    var s := a + "." + b;
    assert s[|a| + 1..] == b;
    LastDotAt(s, |a|);
  }

  /**
   * Splitting a table name gives back the parts it was composed of exactly when the schema
   * has no dot; the table may have some.
   */
  lemma StnameRoundTrip(schema: string, table: string)
    requires IsNormal(schema + "." + table)
    ensures var name := MakeStname(schema, table);
            SchemaName(name) == schema && TableName(name) == table <==> '.' !in schema
  {
    var name := schema + "." + table;
    NormalIsFixed(name);
    FirstDotOf(schema, table);
    assert name[|schema|] == '.';
    if FirstDot(name) == |schema| {
      assert name[..|schema|] == schema && name[|schema| + 1..] == table;
    } else {
      assert |SchemaName(name)| == FirstDot(name);
    }
  }

  lemma ThreeParts(schema: string, table: string, column: string)
    ensures var name := schema + "." + table + "." + column;
            name == schema + "." + (table + "." + column) &&
            name[..|schema|] == schema &&
            name[|schema| + 1..|schema| + 1 + |table|] == table &&
            name[|schema| + 1 + |table| + 1..] == column
  {
  }

  /**
   * Splitting a column name gives back its parts exactly when neither the schema nor the
   * column has a dot.
   */
  lemma StcnameRoundTrip(schema: string, table: string, column: string)
    requires IsNormal(schema + "." + table + "." + column)
    ensures var name := MakeStcname(schema, table, column);
            SchemaName(name) == schema && ColumnTableName(name) == table && ColumnName(name) == column
            <==> '.' !in schema && '.' !in column
  {
    var name := schema + "." + table + "." + column;
    NormalIsFixed(name);
    ThreeParts(schema, table, column);
    FirstDotOf(schema, table + "." + column);
    LastDotOf(schema + "." + table, column);
    hide FirstDot, LastDot, IsNormal, Normalize;
    assert |SchemaName(name)| == FirstDot(name);
    assert |ColumnName(name)| == |name| - LastDot(name) - 1;
    if '.' !in schema && '.' !in column {
      assert SchemaName(name) == schema && ColumnName(name) == column;
    }
  }

  // --------------------------------------------------------------- keys

  /**
   * A table name as the loaders produce it from a schema and a table that normalisation
   * accepts. Any other becomes the empty text instead, and is not one.
   */
  predicate IsStname(name: string) {
    IsNormal(name) && '.' in name && name[|name| - 1] != '.'
  }

  /**
   * A column name as the loaders produce it from an undotted column: normalised, or the empty
   * text for one that normalisation rejects, with a blank in it for example.
   */
  predicate IsCname(name: string) {
    name == "" || (IsNormal(name) && '.' !in name)
  }

  lemma NormalConcat(stname: string, column: string)
    requires IsStname(stname) && IsCname(column)
    ensures IsNormal(stname + "." + column)
  {
    var name := stname + "." + column;
    assert forall k :: 0 <= k < |column| ==> column[k] != '.';
    assert forall k :: 0 <= k < |column| ==> name[|stname| + 1 + k] == column[k];
  }

  lemma StnameParts(stname: string)
    requires IsStname(stname)
    ensures stname == SchemaName(stname) + "." + TableName(stname)
    ensures '.' !in SchemaName(stname)
  {
    assert FirstDot(stname) < |stname|;
    hide FirstDot, IsNormal;
    SplitAround(stname, FirstDot(stname));
  }

  /** Keys split back: the owner table and the column of a composed key are the ones it was made of. */
  lemma KeyRoundTrip(stname: string, column: string)
    requires IsStname(stname) && IsCname(column)
    ensures StnameOf(StcnameOf(stname, column)) == stname
    ensures CnameOf(StcnameOf(stname, column)) == column
  {
    NormalConcat(stname, column);
    StnameParts(stname);
    NormalIsFixed(stname);
    NormalIsFixed(column);
    StcnameRoundTrip(SchemaName(stname), TableName(stname), column);
    hide IsNormal, SchemaName, TableName, Normalize, ColumnTableName, ColumnName;
  }

  /** The key of a column is the two names with a dot between. */
  lemma KeyText(stname: string, column: string)
    requires IsStname(stname) && IsCname(column)
    ensures StcnameOf(stname, column) == stname + "." + column
  {
    NormalConcat(stname, column);
    StnameParts(stname);
    NormalIsFixed(stname + "." + column);
    hide IsStname, IsCname, IsNormal, SchemaName, TableName, Normalize;
  }

  /** The columns of a table without a name share a key, which no column of a named table has. */
  lemma UnnamedKey(column: string, stname: string, other: string)
    requires IsStname(stname) && IsCname(other)
    ensures StcnameOf("", column) == "" != StcnameOf(stname, other)
  {
    KeyText(stname, other);
    hide FirstDot;
  }
}
