/** Result values, the error kinds the text code throws, and the ASCII character classes it tests. */
module Common {
  datatype Option<+T> = None | Some(value: T)

  datatype Result<+T> = Ok(value: T) | Err(error: Error)

  datatype Error =
    | UnterminatedEscape
    | UnterminatedQuote
    | UnterminatedBlockComment
    | RejectedText
    | MissingOpen
    | MissingClose
    | EmptyArg
    | LeadingZero
    | EmptyNumber
    | BadNumber           // lexical_cast<unsigned int> out of range
    | BadRange
    | NumberExceedsArgCount
    | UnsetPlaceholder    // a placeholder record read before any field is assigned
    | ArgOutOfBounds      // an argument index past the end of the argument vector
    | ArgCountMismatch

  const MAX_UINT: nat := 0xFFFF_FFFF

  predicate IsAlpha(c: char) { 'a' <= c <= 'z' || 'A' <= c <= 'Z' }

  predicate IsDigit(c: char) { '0' <= c <= '9' }

  predicate IsAlnum(c: char) { IsAlpha(c) || IsDigit(c) }

  predicate IsBlank(c: char) { c == ' ' || c == '\t' }

  predicate IsQuote(c: char) { c == '\'' || c == '"' }

  function UpperChar(c: char): char {
    if 'a' <= c <= 'z' then c - 'a' + 'A' else c
  }

  function LowerChar(c: char): char {
    if 'A' <= c <= 'Z' then c - 'A' + 'a' else c
  }

  function Upper(s: string): (u: string)
    ensures |u| == |s| && forall i :: 0 <= i < |s| ==> u[i] == UpperChar(s[i])
  {
    seq(|s|, i requires 0 <= i < |s| => UpperChar(s[i]))
  }

  /** Concatenation of a sequence of texts. */
  function Cat(parts: seq<string>): string {
    if parts == [] then "" else parts[0] + Cat(parts[1..])
  }

  lemma {:induction false} CatAppend(a: seq<string>, b: seq<string>)
    ensures Cat(a + b) == Cat(a) + Cat(b)
  {
    if a == [] {
      assert a + b == b;
    } else {
      assert (a + b)[1..] == a[1..] + b;
      CatAppend(a[1..], b);
    }
  }

  predicate NoRepeats(names: seq<string>) {
    forall i, j :: 0 <= i < j < |names| ==> names[i] != names[j]
  }

  lemma AppendAssoc<T>(a: seq<T>, b: seq<T>, c: seq<T>)
    ensures a + (b + c) == (a + b) + c
  {
  }

  lemma AppendEmpty<T>(a: seq<T>)
    ensures a + [] == a && [] + a == a
  {
  }

  lemma TakeAll<T>(a: seq<T>)
    ensures a[..|a|] == a && a[0..] == a
  {
  }

  lemma SplitAt<T>(a: seq<T>, n: nat)
    requires n <= |a|
    ensures a == a[..n] + a[n..]
  {
  }

  lemma SplitAround<T>(a: seq<T>, n: nat)
    requires n < |a|
    ensures a == a[..n] + [a[n]] + a[n + 1..]
  {
  }

  /** The two sides of a cut inside the second of three texts. */
  lemma CutMiddle<T>(a: seq<T>, b: seq<T>, c: seq<T>, n: nat)
    requires n <= |b|
    ensures (a + b + c)[..|a| + n] == a + b[..n] && (a + b + c)[|a| + n..] == b[n..] + c
  {
  }

  lemma CutBetween<T>(a: seq<T>, b: seq<T>)
    ensures (a + b)[..|a|] == a && (a + b)[|a|..] == b
  {
  }

  lemma TakeSnoc<T>(a: seq<T>, i: nat)
    requires i < |a|
    ensures a[..i + 1] == a[..i] + [a[i]]
  {
  }

  lemma TakeNone<T>(a: seq<T>)
    ensures a[..0] == []
  {
  }

  lemma Uncons<T>(a: seq<T>)
    requires a != []
    ensures a == [a[0]] + a[1..]
  {
  }

  lemma Unsnoc<T>(a: seq<T>)
    requires a != []
    ensures a == a[..|a| - 1] + [a[|a| - 1]]
  {
  }

  lemma Cons<T>(x: T, a: seq<T>)
    ensures ([x] + a)[0] == x && ([x] + a)[1..] == a
  {
  }

  /** The texts with a separator between consecutive ones. */
  function Join(parts: seq<string>, sep: string): string {
    if parts == [] then ""
    else if |parts| == 1 then parts[0]
    else parts[0] + sep + Join(parts[1..], sep)
  }

  lemma {:induction false} JoinSnoc(parts: seq<string>, last: string, sep: string)
    requires parts != []
    ensures Join(parts + [last], sep) == Join(parts, sep) + sep + last
  {
    if |parts| > 1 {
      assert (parts + [last])[1..] == parts[1..] + [last];
      JoinSnoc(parts[1..], last, sep);
    }
  }

  /** Drop the first n characters, then m more. */
  lemma DropDrop<T>(s: seq<T>, n: nat, m: nat)
    requires n + m <= |s|
    ensures s[n..][m..] == s[n + m..]
  {
  }

  /** boost::trim_if with is_blank. */
  function TrimLeft(s: string): (t: string)
    ensures |t| <= |s| && t == s[|s| - |t|..]
    ensures t != "" ==> !IsBlank(t[0])
  {
    if s != "" && IsBlank(s[0]) then TrimLeft(s[1..]) else s
  }

  function TrimRight(s: string): (t: string)
    ensures t <= s
    ensures t != "" ==> !IsBlank(t[|t| - 1])
  {
    if s != "" && IsBlank(s[|s| - 1]) then TrimRight(s[..|s| - 1]) else s
  }

  function Trim(s: string): (t: string)
    ensures t != "" ==> !IsBlank(t[0]) && !IsBlank(t[|t| - 1])
  {
    TrimRight(TrimLeft(s))
  }

  /** A text that trimming leaves alone and that is not empty. */
  predicate Solid(s: string) {
    s != "" && !IsBlank(s[0]) && !IsBlank(s[|s| - 1])
  }

  /** Parts of a text: single blanks, and solid pieces. */
  predicate BlankOrSolid(parts: seq<string>) {
    forall i :: 0 <= i < |parts| ==> IsBlankPart(parts[i]) || Solid(parts[i])
  }

  predicate IsBlankPart(s: string) { |s| == 1 && IsBlank(s[0]) }

  function TrimLeftParts(parts: seq<string>): (r: seq<string>)
    ensures |r| <= |parts| && r == parts[|parts| - |r|..]
    ensures r != [] ==> !IsBlankPart(r[0])
  {
    if parts != [] && IsBlankPart(parts[0]) then TrimLeftParts(parts[1..]) else parts
  }

  function TrimRightParts(parts: seq<string>): (r: seq<string>)
    ensures r <= parts
    ensures r != [] ==> !IsBlankPart(r[|r| - 1])
  {
    if parts != [] && IsBlankPart(parts[|parts| - 1]) then TrimRightParts(parts[..|parts| - 1]) else parts
  }

  lemma {:induction false} TrimLeftCat(parts: seq<string>)
    requires BlankOrSolid(parts)
    ensures TrimLeft(Cat(parts)) == Cat(TrimLeftParts(parts))
  {
    if parts != [] && IsBlankPart(parts[0]) {
      assert Cat(parts)[1..] == Cat(parts[1..]);
      TrimLeftCat(parts[1..]);
    }
  }

  lemma {:induction false} TrimRightCat(parts: seq<string>)
    requires BlankOrSolid(parts)
    ensures TrimRight(Cat(parts)) == Cat(TrimRightParts(parts))
  {
    if parts != [] {
      var init, last := parts[..|parts| - 1], parts[|parts| - 1];
      assert parts == init + [last];
      CatAppend(init, [last]);
      assert Cat([last]) == last;
      if IsBlankPart(last) {
        assert Cat(parts)[..|Cat(parts)| - 1] == Cat(init);
        TrimRightCat(init);
      }
    }
  }

  /** Trimming a text trims its list of parts: no blank inside a solid part is lost. */
  lemma TrimCat(parts: seq<string>)
    requires BlankOrSolid(parts)
    ensures Trim(Cat(parts)) == Cat(TrimRightParts(TrimLeftParts(parts)))
    ensures Trim(Cat(parts)) == "" <==> TrimRightParts(TrimLeftParts(parts)) == []
  {
    TrimLeftCat(parts);
    TrimRightCat(TrimLeftParts(parts));
    var kept := TrimRightParts(TrimLeftParts(parts));
    if kept != [] {
      assert kept[0] == TrimLeftParts(parts)[0];
    }
  }

  lemma TrimSolid(s: string)
    requires Solid(s)
    ensures Trim(s) == s
  {
  }
}
