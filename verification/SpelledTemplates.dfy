/** Templates with their placeholders spelled out: what rewriting them gives. */
module SpelledTemplates {
  import opened Common
  import opened MacroArgs
  import opened SpelledNumbers
  import opened TextProcessor
  import Placeholders

  /** The given number of placeholders from `$first` on, with a comma and a blank between. */
  function Numbers(first: nat, count: nat): string
    decreases count
  {
    if count == 0 then "" else "$" + Spell(first) + if count == 1 then "" else ", " + Numbers(first + 1, count - 1)
  }

  /** `($1, $2, ..., $n)` */
  function AllOf(n: nat): string {
    "(" + Numbers(1, n) + ")"
  }

  // ------------------------------------------------------------------ the walk

  /** The next segment of a template, with the state in front of it and behind it. */
  lemma WalkOn(role: Role, seg: string, rest: string, kind: Kind, st: State, next: State)
    requires seg != "" && NextMatch(MatcherOf(role), seg + rest) == Ok(Match(|seg|, kind))
    requires st.depth > 0 ==> st.tokens != []
    requires ProcessSeg(role, Seg(seg, kind), st) == Ok(More(next))
    ensures Walk(role, seg + rest, st) == Shift(|seg|, Walk(role, rest, next))
  {
    CutBetween(seg, rest);
    hide NextMatch, ProcessSeg;
  }

  lemma WalkFails(role: Role, s: string, st: State, e: Error)
    requires s != "" && (st.depth > 0 ==> st.tokens != [])
    requires NextMatch(MatcherOf(role), s) == Err(e)
    ensures Walk(role, s, st) == Err(e)
  {
    hide NextMatch, ProcessSeg;
  }

  lemma WalkStops(role: Role, seg: string, rest: string, kind: Kind, st: State, e: Error)
    requires seg != "" && NextMatch(MatcherOf(role), seg + rest) == Ok(Match(|seg|, kind))
    requires st.depth > 0 ==> st.tokens != []
    requires ProcessSeg(role, Seg(seg, kind), st) == Err(e)
    ensures Walk(role, seg + rest, st) == Err(e)
  {
    CutBetween(seg, rest);
    hide NextMatch, ProcessSeg;
  }

  lemma WalkEnds(role: Role, seg: string, rest: string, st: State, tokens: seq<string>)
    requires seg != "" && NextMatch(MatcherOf(role), seg + rest) == Ok(Match(|seg|, Plain))
    requires st.depth > 0 ==> st.tokens != []
    requires ProcessSeg(role, Seg(seg, Plain), st) == Ok(Done(tokens))
    ensures Walk(role, seg + rest, st) == Ok(Tokenized(|seg|, tokens))
  {
    CutBetween(seg, rest);
    hide NextMatch, ProcessSeg;
  }

  lemma Shifts(n: nat, r: Result<Tokenized>)
    ensures r.Ok? ==> Shift(n, r) == Ok(Tokenized(n + r.value.len, r.value.tokens))
    ensures r.Err? ==> Shift(n, r) == r
  {
  }

  // ------------------------------------------------------------------ single steps

  lemma PlainNext(role: Role, c: char, rest: string)
    requires !role.ArgumentList? && (c == '(' || c == ')' || c == ',' || c == ' ')
    ensures NextMatch(MatcherOf(role), [c] + rest) == Ok(Match(1, Plain))
  {
    var s := [c] + rest;
    RejectionIsOpener(s);
    assert s[0] == c && (|s| >= 2 ==> s[..2][0] == c);
  }

  lemma OpenStep(role: Role)
    ensures ProcessSeg(role, Seg("(", Plain), State(0, [])) == Ok(More(State(1, [""])))
  {
  }

  lemma LastOf(done: seq<string>, token: string, other: string)
    ensures Last(done + [token]) == token && SetLast(done + [token], other) == done + [other]
  {
  }

  lemma GrowStep(role: Role, seg: Seg, done: seq<string>, token: string, text: string)
    requires seg.text != "" && !IsChar(seg, '(') && !IsChar(seg, ')') && !IsChar(seg, ',')
    requires Output(role, seg) == Ok(text)
    ensures ProcessSeg(role, seg, State(1, done + [token])) == Ok(More(State(1, done + [token + text])))
  {
    LastOf(done, token, token + text);
    hide Output, Last, SetLast;
  }

  lemma FailStep(role: Role, seg: Seg, done: seq<string>, token: string, e: Error)
    requires seg.text != "" && !IsChar(seg, '(') && !IsChar(seg, ')') && !IsChar(seg, ',')
    requires Output(role, seg) == Err(e)
    ensures ProcessSeg(role, seg, State(1, done + [token])) == Err(e)
  {
    hide Output;
  }

  lemma BlankStep(role: Role, done: seq<string>, token: string)
    ensures ProcessSeg(role, Seg(" ", Plain), State(1, done + [token])) == Ok(More(State(1, done + [token + " "])))
  {
    LastOf(done, token, token + " ");
    hide Last, SetLast;
  }

  lemma MatchedIsNoChar(slice: string)
    ensures !IsChar(Seg(slice, Matched), '(') && !IsChar(Seg(slice, Matched), ')') && !IsChar(Seg(slice, Matched), ',')
  {
  }

  lemma CommaStep(role: Role, done: seq<string>, token: string)
    requires Trim(token) != ""
    ensures ProcessSeg(role, Seg(",", Plain), State(1, done + [token])) ==
            Ok(More(State(1, done + [Trim(token)] + [""])))
  {
    LastOf(done, token, Trim(token));
    hide Trim, Last, SetLast;
  }

  lemma CloseStep(role: Role, done: seq<string>, token: string)
    requires Trim(token) != ""
    ensures ProcessSeg(role, Seg(")", Plain), State(1, done + [token])) == Ok(Done(done + [Trim(token)]))
  {
    LastOf(done, token, Trim(token));
    hide Trim, Last, SetLast;
  }

  /** A text with no blank at either end is trimmed to itself, also behind a blank. */
  lemma SolidText(text: string)
    requires text != "" && text[0] != ' ' && text[0] != '\t'
    requires text[|text| - 1] != ' ' && text[|text| - 1] != '\t'
    ensures Trim(text) == text && Trim(" " + text) == text
  {
    TrimSolid(text);
    assert (" " + text)[0] == ' ' && (" " + text)[1..] == text;
    assert TrimLeft(" " + text) == TrimLeft(text);
  }

  // ------------------------------------------------------------------ all arguments

  lemma OneNumber(role: Role, k: nat, rest: string)
    requires role.TemplateRewrite? && 0 < k <= |role.args| && k <= role.argCount && k <= 0xFFFF_FFFF
    requires rest != "" && (rest[0] == ',' || rest[0] == ')')
    ensures var slice := "$" + Spell(k);
            NextMatch(MatcherOf(role), slice + rest) == Ok(Match(|slice|, Matched)) &&
            Output(role, Seg(slice, Matched)) == Ok(role.args[k - 1])
  {
    var slice := "$" + Spell(k);
    assert slice[0] == '$' && |slice| == 1 + |Spell(k)|;
    assert rest[0] < '-' && rest[0] < '0' && rest[0] < '\\';
    hide *;
    ParsesOne(k, rest);
    MatchedPlaceholder(role, slice, rest, k, k);
    ListedOne(role.args, k);
  }

  lemma ListedOne(args: seq<string>, k: nat)
    requires 0 < k <= |args|
    ensures Listed(args[k - 1..k]) == args[k - 1]
  {
  }

  lemma NumbersSplit(first: nat, count: nat)
    requires count > 0
    ensures count == 1 ==> Numbers(first, count) + ")" == "$" + Spell(first) + ")"
    ensures count > 1 ==> Numbers(first, count) + ")" ==
                          "$" + Spell(first) + ("," + (" " + (Numbers(first + 1, count - 1) + ")")))
    ensures |Numbers(first, count)| ==
            1 + |Spell(first)| + if count == 1 then 0 else 2 + |Numbers(first + 1, count - 1)|
  {
    hide Spell;
    if count == 1 {
      AppendEmpty("$" + Spell(first));
    } else {
      assert ", " == "," + " ";
      FourParts("$" + Spell(first), ",", " ", Numbers(first + 1, count - 1), ")");
    }
  }

  lemma FourParts(a: string, b: string, c: string, d: string, e: string)
    ensures a + ((b + c) + d) + e == a + (b + (c + (d + e)))
  {
  }

  lemma TakeTo(args: seq<string>, k: nat)
    requires 0 < k <= |args|
    ensures args[..k] == args[..k - 1] + [args[k - 1]] && args[..|args|] == args
  {
  }

  /** From the k-th placeholder on, with the arguments before it done and at most a blank read. */
  lemma {:induction false} WalkNumbers(role: Role, k: nat, blank: string)
    requires role.TemplateRewrite? && role.argCount == |role.args| && 0 < k <= |role.args| <= 0xFFFF_FFFF
    requires blank == "" || blank == " "
    requires forall i :: 0 <= i < |role.args| ==>
               role.args[i] != "" && role.args[i][0] != ' ' && role.args[i][0] != '\t' &&
               role.args[i][|role.args[i]| - 1] != ' ' && role.args[i][|role.args[i]| - 1] != '\t'
    ensures var template := Numbers(k, |role.args| - k + 1);
            Walk(role, template + ")", State(1, role.args[..k - 1] + [blank])) ==
            Ok(Tokenized(|template| + 1, role.args))
    decreases |role.args| - k
  {
    hide *;
    var args, count, done, arg := role.args, |role.args| - k + 1, role.args[..k - 1], role.args[k - 1];
    var slice, more := "$" + Spell(k), Numbers(k + 1, if count > 1 then count - 1 else 0) + ")";
    var rest := if count == 1 then ")" else "," + (" " + more);
    NumbersSplit(k, count);
    assert slice != "" && rest[0] == if count == 1 then ')' else ',';
    OneNumber(role, k, rest);
    MatchedIsNoChar(slice);
    GrowStep(role, Seg(slice, Matched), done, blank, arg);
    WalkOn(role, slice, rest, Matched, State(1, done + [blank]), State(1, done + [blank + arg]));
    SolidText(arg);
    AppendEmpty(arg);
    TakeTo(args, k);
    if count == 1 {
      PlainNext(role, ')', "");
      CloseStep(role, done, blank + arg);
      AppendEmpty(")");
      WalkEnds(role, ")", "", State(1, done + [blank + arg]), args);
    } else {
      PlainNext(role, ',', " " + more);
      CommaStep(role, done, blank + arg);
      WalkOn(role, ",", " " + more, Plain, State(1, done + [blank + arg]), State(1, args[..k] + [""]));
      PlainNext(role, ' ', more);
      BlankStep(role, args[..k], "");
      AppendEmpty(" ");
      WalkOn(role, " ", more, Plain, State(1, args[..k] + [""]), State(1, args[..k] + [" "]));
      WalkNumbers(role, k + 1, " ");
      Shifts(1, Walk(role, more, State(1, args[..k] + [" "])));
      Shifts(1, Walk(role, " " + more, State(1, args[..k] + [""])));
    }
    Shifts(|slice|, Walk(role, rest, State(1, done + [blank + arg])));
  }

  lemma OpensTemplate(role: Role, inside: string)
    requires !role.ArgumentList?
    ensures Tokenize(role, "(" + inside) == Shift(1, Walk(role, inside, State(1, [""])))
  {
    hide *;
    PlainNext(role, '(', inside);
    OpenStep(role);
    TokenizeIs(role, "(" + inside);
    WalkOn(role, "(", inside, Plain, State(0, []), State(1, [""]));
  }

  lemma TokenizeIs(role: Role, text: string)
    ensures Tokenize(role, text) == Walk(role, text, State(0, []))
  {
    hide Walk;
  }

  lemma CloseEmpty(role: Role)
    ensures ProcessSeg(role, Seg(")", Plain), State(1, [""])) == Ok(Done([]))
  {
  }

  lemma AllOfIs(n: nat)
    ensures AllOf(n) == "(" + (Numbers(1, n) + ")") && |AllOf(n)| == |Numbers(1, n)| + 2
    ensures Numbers(1, 0) == ""
  {
    hide Spell;
    AppendAssoc("(", Numbers(1, n), ")");
  }

  /** The template `($1, $2, ..., $n)` gives the arguments back, each in its place. */
  lemma AllArguments(args: seq<string>)
    requires |args| <= 0xFFFF_FFFF
    requires forall i :: 0 <= i < |args| ==>
               args[i] != "" && args[i][0] != ' ' && args[i][0] != '\t' &&
               args[i][|args[i]| - 1] != ' ' && args[i][|args[i]| - 1] != '\t'
    ensures Tokenize(TemplateRewrite(|args|, args), AllOf(|args|)) == Ok(Tokenized(|AllOf(|args|)|, args))
  {
    hide *;
    var role, n := TemplateRewrite(|args|, args), |args|;
    AllOfIs(n);
    OpensTemplate(role, Numbers(1, n) + ")");
    AppendEmpty([""]);
    if n == 0 {
      PlainNext(role, ')', "");
      CloseEmpty(role);
      AppendEmpty(")");
      WalkEnds(role, ")", "", State(1, [""]), []);
    } else {
      TakeNone(args);
      WalkNumbers(role, 1, "");
    }
    Shifts(1, Walk(role, Numbers(1, n) + ")", State(1, [""])));
  }

  // ------------------------------------------------------------------ one placeholder

  lemma OnlyPlaceholder(role: Role, slice: string, value: string)
    requires role.TemplateRewrite? && slice != ""
    requires NextMatch(MatcherOf(role), slice + ")") == Ok(Match(|slice|, Matched))
    requires Output(role, Seg(slice, Matched)) == Ok(value)
    requires value != "" && value[0] != ' ' && value[0] != '\t' &&
             value[|value| - 1] != ' ' && value[|value| - 1] != '\t'
    ensures Tokenize(role, "(" + (slice + ")")) == Ok(Tokenized(|slice| + 2, [value]))
  {
    hide *;
    OpensTemplate(role, slice + ")");
    MatchedIsNoChar(slice);
    GrowStep(role, Seg(slice, Matched), [], "", value);
    AppendEmpty([""]);
    AppendEmpty(value);
    AppendEmpty([value]);
    WalkOn(role, slice, ")", Matched, State(1, [""]), State(1, [value]));
    PlainNext(role, ')', "");
    SolidText(value);
    CloseStep(role, [], value);
    AppendEmpty(")");
    WalkEnds(role, ")", "", State(1, [value]), [value]);
    Shifts(|slice|, Walk(role, ")", State(1, [value])));
    Shifts(1, Walk(role, slice + ")", State(1, [""])));
  }

  lemma OnlyFailure(role: Role, slice: string, e: Error)
    requires role.TemplateRewrite? && slice != ""
    requires NextMatch(MatcherOf(role), slice + ")") == Ok(Match(|slice|, Matched))
    requires Output(role, Seg(slice, Matched)) == Err(e)
    ensures Tokenize(role, "(" + (slice + ")")) == Err(e)
  {
    hide *;
    OpensTemplate(role, slice + ")");
    MatchedIsNoChar(slice);
    FailStep(role, Seg(slice, Matched), [], "", e);
    AppendEmpty([""]);
    WalkStops(role, slice, ")", Matched, State(1, [""]), e);
    Shifts(1, Walk(role, slice + ")", State(1, [""])));
  }

  lemma OnlyNext(role: Role, s: string, e: Error)
    requires !role.ArgumentList? && s != "" && NextMatch(MatcherOf(role), s) == Err(e)
    ensures Tokenize(role, "(" + s) == Err(e)
  {
    hide *;
    OpensTemplate(role, s);
    WalkFails(role, s, State(1, [""]), e);
    Shifts(1, Walk(role, s, State(1, [""])));
  }

  /** `($k)` gives the k-th argument, and is an error when the rule or the call has no such argument. */
  lemma OneArgument(argCount: nat, args: seq<string>, k: nat)
    requires 0 < k <= 0xFFFF_FFFF
    requires k <= |args| ==>
               var arg := args[k - 1];
               arg != "" && arg[0] != ' ' && arg[0] != '\t' && arg[|arg| - 1] != ' ' && arg[|arg| - 1] != '\t'
    ensures var template := "(" + ("$" + Spell(k) + ")");
            Tokenize(TemplateRewrite(argCount, args), template) ==
            if k > argCount then Err(NumberExceedsArgCount)
            else if k > |args| then Err(ArgOutOfBounds)
            else Ok(Tokenized(|template|, [args[k - 1]]))
  {
    var slice, role := "$" + Spell(k), TemplateRewrite(argCount, args);
    assert slice[0] == '$' && |slice| == 1 + |Spell(k)| && |"(" + (slice + ")")| == |slice| + 2;
    hide *;
    ParsesOne(k, ")");
    MatchedPlaceholder(role, slice, ")", k, k);
    if k > argCount {
      OnlyNext(role, slice + ")", NumberExceedsArgCount);
    } else if k > |args| {
      OnlyFailure(role, slice, ArgOutOfBounds);
    } else {
      ListedOne(args, k);
      OnlyPlaceholder(role, slice, args[k - 1]);
    }
  }

  lemma {:induction false} ListedSolid(texts: seq<string>)
    requires texts != []
    requires forall i :: 0 <= i < |texts| ==>
               texts[i] != "" && texts[i][0] != ' ' && texts[i][0] != '\t' &&
               texts[i][|texts[i]| - 1] != ' ' && texts[i][|texts[i]| - 1] != '\t'
    ensures var all := Listed(texts);
            all != "" && all[0] != ' ' && all[0] != '\t' && all[|all| - 1] != ' ' && all[|all| - 1] != '\t'
  {
    if |texts| > 1 {
      ListedSolid(texts[1..]);
    }
  }

  lemma RangeLength(k: nat, m: nat)
    ensures var slice := "$" + Spell(k) + "-" + Spell(m);
            slice[0] == '$' && |slice| == 2 + |Spell(k)| + |Spell(m)| && |"(" + (slice + ")")| == |slice| + 2
    ensures var slice := "$" + Spell(k) + "-";
            slice[0] == '$' && |slice| == 2 + |Spell(k)| && |"(" + (slice + ")")| == |slice| + 2
  {
    hide Spell;
  }

  /** `($k-m)` gives the arguments from the k-th to the m-th, with a comma and a blank between. */
  lemma RangeOfArguments(argCount: nat, args: seq<string>, k: nat, m: nat)
    requires 0 < k <= 0xFFFF_FFFF && 0 < m <= 0xFFFF_FFFF
    requires forall i :: 0 <= i < |args| ==>
               args[i] != "" && args[i][0] != ' ' && args[i][0] != '\t' &&
               args[i][|args[i]| - 1] != ' ' && args[i][|args[i]| - 1] != '\t'
    ensures var template := "(" + ("$" + Spell(k) + "-" + Spell(m) + ")");
            Tokenize(TemplateRewrite(argCount, args), template) ==
            if m <= k then Err(BadRange)
            else if m > argCount then Err(NumberExceedsArgCount)
            else if m > |args| then Err(ArgOutOfBounds)
            else Ok(Tokenized(|template|, [Listed(args[k - 1..m])]))
  {
    var slice, role := "$" + Spell(k) + "-" + Spell(m), TemplateRewrite(argCount, args);
    RangeLength(k, m);
    hide *;
    ParsesRange(k, m, ")");
    if m <= k {
      FailsToParse(role, slice + ")", BadRange);
      OnlyNext(role, slice + ")", BadRange);
    } else {
      MatchedPlaceholder(role, slice, ")", k, m);
      if m > argCount {
        OnlyNext(role, slice + ")", NumberExceedsArgCount);
      } else if m > |args| {
        OnlyFailure(role, slice, ArgOutOfBounds);
      } else {
        ListedSolid(args[k - 1..m]);
        OnlyPlaceholder(role, slice, Listed(args[k - 1..m]));
      }
    }
  }

  lemma FailsToParse(role: Role, s: string, e: Error)
    requires !role.ArgumentList? && s != "" && s[0] == '$' && Placeholders.Parse(s) == Err(e)
    ensures NextMatch(MatcherOf(role), s) == Err(e)
  {
    DollarIsMatched(role.argCount, s);
    hide NextMatch, Placeholders.Parse;
  }

  /** `($k-)` gives the k-th argument alone. */
  lemma OpenRange(argCount: nat, args: seq<string>, k: nat)
    requires 0 < k <= |args| && k <= argCount && k <= 0xFFFF_FFFF
    requires var arg := args[k - 1];
             arg != "" && arg[0] != ' ' && arg[0] != '\t' && arg[|arg| - 1] != ' ' && arg[|arg| - 1] != '\t'
    ensures var template := "(" + ("$" + Spell(k) + "-" + ")");
            Tokenize(TemplateRewrite(argCount, args), template) == Ok(Tokenized(|template|, [args[k - 1]]))
  {
    var slice, role := "$" + Spell(k) + "-", TemplateRewrite(argCount, args);
    RangeLength(k, 0);
    hide *;
    ParsesOpen(k, ")");
    MatchedPlaceholder(role, slice, ")", k, 0);
    ListedOne(args, k);
    OnlyPlaceholder(role, slice, args[k - 1]);
  }

  /** A number does not begin with a zero. */
  lemma ZeroIsAnError(role: Role, rest: string)
    requires !role.ArgumentList?
    ensures Tokenize(role, "(" + ("$0" + rest)) == Err(LeadingZero)
  {
    var s := "$0" + rest;
    assert s[0] == '$' && s[1..][0] == '0';
    assert Placeholders.Parse(s) == Err(LeadingZero);
    hide *;
    FailsToParse(role, s, LeadingZero);
    OnlyNext(role, s, LeadingZero);
  }

  // ------------------------------------------------------------------ separators

  lemma LetterNext(role: Role, c: char, rest: string)
    requires !role.ArgumentList? && ('0' <= c <= '9' || c == '-') && (rest == "" || rest[0] != '-')
    ensures NextMatch(MatcherOf(role), [c] + rest) == Ok(Match(1, Plain))
    ensures Output(role, Seg([c], Plain)) == Ok([c])
    ensures !IsChar(Seg([c], Plain), '(') && !IsChar(Seg([c], Plain), ')') && !IsChar(Seg([c], Plain), ',')
  {
    var s := [c] + rest;
    RejectionIsOpener(s);
    assert s[0] == c && (|s| >= 2 ==> s[..2][0] == c && s[..2][1] == rest[0]);
  }

  /** A placeholder and one more character. */
  lemma PlaceholderThenChar(role: Role, slice: string, value: string, c: char)
    requires role.TemplateRewrite? && slice != "" && ('0' <= c <= '9' || c == '-')
    requires NextMatch(MatcherOf(role), slice + ([c] + ")")) == Ok(Match(|slice|, Matched))
    requires Output(role, Seg(slice, Matched)) == Ok(value)
    requires value != "" && value[0] != ' ' && value[0] != '\t'
    ensures Tokenize(role, "(" + (slice + ([c] + ")"))) == Ok(Tokenized(|slice| + 3, [value + [c]]))
  {
    hide *;
    OpensTemplate(role, slice + ([c] + ")"));
    MatchedIsNoChar(slice);
    GrowStep(role, Seg(slice, Matched), [], "", value);
    AppendEmpty([""]);
    AppendEmpty(value);
    AppendEmpty([value]);
    WalkOn(role, slice, [c] + ")", Matched, State(1, [""]), State(1, [value]));
    LetterNext(role, c, ")");
    GrowStep(role, Seg([c], Plain), [], value, [c]);
    AppendEmpty([value + [c]]);
    WalkOn(role, [c], ")", Plain, State(1, [value]), State(1, [value + [c]]));
    PlainNext(role, ')', "");
    EndsAs(value, c);
    SolidText(value + [c]);
    CloseStep(role, [], value + [c]);
    AppendEmpty(")");
    WalkEnds(role, ")", "", State(1, [value + [c]]), [value + [c]]);
    Shifts(1, Walk(role, ")", State(1, [value + [c]])));
    Shifts(|slice|, Walk(role, [c] + ")", State(1, [value])));
    Shifts(1, Walk(role, slice + ([c] + ")"), State(1, [""])));
  }

  lemma EndsAs(value: string, c: char)
    requires value != ""
    ensures (value + [c])[0] == value[0] && (value + [c])[|value + [c]| - 1] == c
  {
  }

  lemma SeparatedLength(slice: string, c: char)
    ensures slice + ['\\', c] + ")" == slice + "\\" + ([c] + ")") && |slice + "\\"| == |slice| + 1
    ensures slice + (['\\', c] + ")") == slice + "\\" + ([c] + ")")
    ensures slice != "" ==> (slice + "\\")[0] == slice[0]
  {
  }

  lemma TemplateLength(slice: string, c: char)
    ensures |"(" + (slice + ([c] + ")"))| == |slice| + 3
  {
  }

  /** `$k\` before a digit or a dash: the backslash only ends the placeholder. */
  lemma SeparatedArgument(argCount: nat, args: seq<string>, k: nat, c: char)
    requires 0 < k <= |args| && k <= argCount && k <= 0xFFFF_FFFF && ('0' <= c <= '9' || c == '-')
    requires args[k - 1] != "" && args[k - 1][0] != ' ' && args[k - 1][0] != '\t'
    ensures var template := "(" + ("$" + Spell(k) + "\\" + ([c] + ")"));
            Tokenize(TemplateRewrite(argCount, args), template) == Ok(Tokenized(|template|, [args[k - 1] + [c]]))
  {
    var slice, role := "$" + Spell(k) + "\\", TemplateRewrite(argCount, args);
    assert slice[0] == '$' && |slice| == 2 + |Spell(k)| && |"(" + (slice + ([c] + ")"))| == |slice| + 3;
    hide *;
    SeparatedLength("$" + Spell(k), c);
    ParsesSeparated(k, c, ")");
    MatchedPlaceholder(role, slice, [c] + ")", k, k);
    ListedOne(args, k);
    PlaceholderThenChar(role, slice, args[k - 1], c);
  }

  /** The same behind a range, before a digit. */
  lemma SeparatedRange(argCount: nat, args: seq<string>, k: nat, m: nat, c: char)
    requires 0 < k < m <= |args| && m <= argCount && m <= 0xFFFF_FFFF && '0' <= c <= '9'
    requires forall i :: 0 <= i < |args| ==>
               args[i] != "" && args[i][0] != ' ' && args[i][0] != '\t' &&
               args[i][|args[i]| - 1] != ' ' && args[i][|args[i]| - 1] != '\t'
    ensures var template := "(" + ("$" + Spell(k) + "-" + Spell(m) + "\\" + ([c] + ")"));
            Tokenize(TemplateRewrite(argCount, args), template) ==
            Ok(Tokenized(|template|, [Listed(args[k - 1..m]) + [c]]))
  {
    var front, role := "$" + Spell(k) + "-" + Spell(m), TemplateRewrite(argCount, args);
    var slice := front + "\\";
    RangeLength(k, m);
    hide *;
    SeparatedLength(front, c);
    TemplateLength(slice, c);
    ParsesSeparatedRange(k, m, c, ")");
    MatchedPlaceholder(role, slice, [c] + ")", k, m);
    ListedSolid(args[k - 1..m]);
    PlaceholderThenChar(role, slice, Listed(args[k - 1..m]), c);
  }
}
