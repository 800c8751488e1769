/** Calls with plain arguments, from the text of the call to the text in its place. */
module PlainCalls {
  import opened ArgumentLists
  import opened ArgumentMeaning
  import opened Common
  import opened MacroArgs
  import opened MacroExpander
  import opened SpelledNumbers
  import opened TextProcessor
  import MacroConservation
  import MaskedText
  import SpelledTemplates
  import WholeNames

  // ------------------------------------------------------------ plain characters

  function PlainSegs(s: string): (segs: Piece)
    ensures |segs| == |s| && forall i :: 0 <= i < |s| ==> segs[i] == Seg([s[i]], Plain)
  {
    seq(|s|, i requires 0 <= i < |s| => Seg([s[i]], Plain))
  }

  lemma PlainSplit(s: string)
    requires s != ""
    ensures PlainSegs(s) == [Seg([s[0]], Plain)] + PlainSegs(s[1..])
  {
  }

  lemma PlainAppend(a: string, b: string)
    ensures PlainSegs(a + b) == PlainSegs(a) + PlainSegs(b)
  {
  }

  lemma {:induction false} PlainText(s: string)
    ensures Flat(PlainSegs(s)) == s
  {
    if s == "" {
      assert PlainSegs(s) == [] && Flat([]) == "";
    } else {
      PlainSplit(s);
      PlainText(s[1..]);
      FlatCons(Seg([s[0]], Plain), PlainSegs(s[1..]));
      hide Flat;
      Uncons(s);
    }
  }

  lemma {:induction false} PlainClean(s: string)
    requires forall i :: 0 <= i < |s| ==> s[i] != '\'' && s[i] != '"' && s[i] != '/' && s[i] != '-'
    ensures Clean(PlainSegs(s))
  {
    if s != "" {
      PlainSplit(s);
      PlainClean(s[1..]);
      Cons(Seg([s[0]], Plain), PlainSegs(s[1..]));
    }
  }

  lemma {:induction false} PlainNested(s: string, tail: Piece, d: nat)
    requires forall i :: 0 <= i < |s| ==> s[i] != '(' && s[i] != ')' && s[i] != ','
    ensures Nested(PlainSegs(s) + tail, d) <==> Nested(tail, d)
  {
    if s == "" {
      assert PlainSegs(s) == [];
      AppendEmpty(tail);
    } else {
      PlainSplit(s);
      PlainNested(s[1..], tail, d);
      AppendAssoc([Seg([s[0]], Plain)], PlainSegs(s[1..]), tail);
      Cons(Seg([s[0]], Plain), PlainSegs(s[1..]) + tail);
    }
  }

  lemma IsArgOf(s: string, piece: Piece)
    requires s != "" && s[0] != ' ' && s[0] != '\t' && s[|s| - 1] != ' ' && s[|s| - 1] != '\t'
    requires Clean(piece) && Nested(piece, 0) && Flat(piece) == s
    ensures IsArg(s)
  {
    hide Clean, Nested, Flat;
    assert IsArgPiece(s, piece);
  }

  /** A text without quotes, parentheses, commas, slashes and dashes, and with no blank at its ends. */
  lemma PlainIsArg(s: string)
    requires s != "" && s[0] != ' ' && s[0] != '\t' && s[|s| - 1] != ' ' && s[|s| - 1] != '\t'
    requires forall i :: 0 <= i < |s| ==>
               s[i] != '\'' && s[i] != '"' && s[i] != '(' && s[i] != ')' && s[i] != ',' && s[i] != '/' && s[i] != '-'
    ensures IsArg(s)
  {
    PlainText(s);
    PlainClean(s);
    PlainNested(s, [], 0);
    AppendEmpty(PlainSegs(s));
    assert Nested([], 0);
    hide *;
    IsArgOf(s, PlainSegs(s));
  }

  lemma AllPlain(args: seq<string>)
    requires forall i :: 0 <= i < |args| ==>
               args[i] != "" && args[i][0] != ' ' && args[i][0] != '\t' &&
               args[i][|args[i]| - 1] != ' ' && args[i][|args[i]| - 1] != '\t'
    requires forall i, j :: 0 <= i < |args| && 0 <= j < |args[i]| ==>
               args[i][j] != '\'' && args[i][j] != '"' && args[i][j] != '(' && args[i][j] != ')' &&
               args[i][j] != ',' && args[i][j] != '/' && args[i][j] != '-'
    ensures AllArgs(args)
  {
    hide IsArg;
    forall i | 0 <= i < |args| ensures IsArg(args[i]) {
      PlainIsArg(args[i]);
    }
  }

  // -------------------------------------------------------------- argument lists

  lemma PrintIsListed(args: seq<string>)
    ensures Print(args) == "(" + Listed(args) + ")" && |"(" + Listed(args) + ")"| == |Listed(args)| + 2
  {
    JoinIsListed(args);
    hide Join, Listed;
  }

  /** Arguments with a comma and a blank between are the arguments of the list in parentheses. */
  lemma PlainArguments(args: seq<string>)
    requires forall i :: 0 <= i < |args| ==>
               args[i] != "" && args[i][0] != ' ' && args[i][0] != '\t' &&
               args[i][|args[i]| - 1] != ' ' && args[i][|args[i]| - 1] != '\t'
    requires forall i, j :: 0 <= i < |args| && 0 <= j < |args[i]| ==>
               args[i][j] != '\'' && args[i][j] != '"' && args[i][j] != '(' && args[i][j] != ')' &&
               args[i][j] != ',' && args[i][j] != '/' && args[i][j] != '-'
    ensures var list := "(" + Listed(args) + ")";
            Tokenize(ArgumentList, list) == Ok(Tokenized(|list|, args))
  {
    hide *;
    AllPlain(args);
    PrintIsListed(args);
    PrintThenTokenize(args);
  }

  lemma PlainNext(role: Role, c: char, rest: string)
    requires c == '(' || c == ','
    ensures NextMatch(MatcherOf(role), [c] + rest) == Ok(Match(1, Plain))
  {
    var s := [c] + rest;
    RejectionIsOpener(s);
    assert s[0] == c && (|s| >= 2 ==> s[..2][0] == c);
  }

  lemma OpensList(role: Role, inside: string)
    ensures Tokenize(role, "(" + inside) == Shift(1, Walk(role, inside, State(1, [""])))
  {
    hide *;
    PlainNext(role, '(', inside);
    SpelledTemplates.OpenStep(role);
    SpelledTemplates.TokenizeIs(role, "(" + inside);
    SpelledTemplates.WalkOn(role, "(", inside, Plain, State(0, []), State(1, [""]));
  }

  lemma NothingBefore(role: Role)
    ensures ProcessSeg(role, Seg(",", Plain), State(1, [""])) == Err(EmptyArg)
  {
  }

  /** Nothing in front of a comma is an error, in lists and in templates. */
  lemma EmptyArgumentIsAnError(role: Role, rest: string)
    ensures Tokenize(role, "(" + ("," + rest)) == Err(EmptyArg)
  {
    hide *;
    OpensList(role, "," + rest);
    PlainNext(role, ',', rest);
    NothingBefore(role);
    SpelledTemplates.WalkStops(role, ",", rest, Plain, State(1, [""]), EmptyArg);
    SpelledTemplates.Shifts(1, Walk(role, "," + rest, State(1, [""])));
  }

  lemma OpenerNext(role: Role, rest: string)
    ensures NextMatch(MatcherOf(role), "--" + rest) == Err(RejectedText)
    ensures NextMatch(MatcherOf(role), "/*" + rest).Err?
  {
    var line, block := "--" + rest, "/*" + rest;
    assert line[..2] == "--" && block[..2] == "/*" && line[0] == '-' && "/*"[0] == '/';
    RejectionIsOpener(line);
    RejectionIsOpener(block);
    assert BlockCommentLength(line) == Ok(0);
  }

  /** A comment is an error, in lists and in templates. */
  lemma CommentIsAnError(role: Role, rest: string)
    ensures Tokenize(role, "(" + ("--" + rest)) == Err(RejectedText)
    ensures Tokenize(role, "(" + ("/*" + rest)).Err?
  {
    assert "--" + rest != "" && "/*" + rest != "";
    hide *;
    OpenerNext(role, rest);
    OpensList(role, "--" + rest);
    OpensList(role, "/*" + rest);
    SpelledTemplates.WalkFails(role, "--" + rest, State(1, [""]), RejectedText);
    SpelledTemplates.WalkFails(role, "/*" + rest, State(1, [""]), NextMatch(MatcherOf(role), "/*" + rest).error);
    SpelledTemplates.Shifts(1, Walk(role, "--" + rest, State(1, [""])));
    SpelledTemplates.Shifts(1, Walk(role, "/*" + rest, State(1, [""])));
  }

  lemma NestedCall(f: string, a: string, b: string)
    requires forall i :: 0 <= i < |f| ==> f[i] != '(' && f[i] != ')' && f[i] != ','
    requires forall i :: 0 <= i < |a| ==> a[i] != '(' && a[i] != ')' && a[i] != ','
    requires forall i :: 0 <= i < |b| ==> b[i] != '(' && b[i] != ')' && b[i] != ','
    ensures Nested(PlainSegs(f + ("(" + (a + ("," + (b + ")"))))), 0)
  {
    var close, comma, open := b + ")", a + ("," + (b + ")")), "(" + (a + ("," + (b + ")")));
    CloseNested(b);
    PlainAppend(a, "," + close);
    PlainNested(a, PlainSegs("," + close), 1);
    PlainSplit("," + close);
    Cons(Seg(",", Plain), PlainSegs(close));
    assert ("," + close)[0] == ',' && ("," + close)[1..] == close;
    PlainSplit(open);
    Cons(Seg("(", Plain), PlainSegs(comma));
    assert open[0] == '(' && open[1..] == comma;
    PlainAppend(f, open);
    PlainNested(f, PlainSegs(open), 0);
  }

  lemma CloseNested(b: string)
    requires forall i :: 0 <= i < |b| ==> b[i] != '(' && b[i] != ')' && b[i] != ','
    ensures Nested(PlainSegs(b + ")"), 1)
  {
    PlainAppend(b, ")");
    PlainNested(b, PlainSegs(")"), 1);
    assert PlainSegs(")") == [Seg(")", Plain)] && PlainSegs(")")[1..] == [];
  }

  /** A call in an argument is part of it: a comma inside inner parentheses separates nothing. */
  lemma InnerCommaSeparatesNothing(f: string, a: string, b: string)
    requires f != "" && f[0] != ' ' && f[0] != '\t'
    requires forall i :: 0 <= i < |f| ==>
               f[i] != '\'' && f[i] != '"' && f[i] != '(' && f[i] != ')' && f[i] != ',' && f[i] != '/' && f[i] != '-'
    requires forall i :: 0 <= i < |a| ==>
               a[i] != '\'' && a[i] != '"' && a[i] != '(' && a[i] != ')' && a[i] != ',' && a[i] != '/' && a[i] != '-'
    requires forall i :: 0 <= i < |b| ==>
               b[i] != '\'' && b[i] != '"' && b[i] != '(' && b[i] != ')' && b[i] != ',' && b[i] != '/' && b[i] != '-'
    ensures var inner := f + ("(" + (a + ("," + (b + ")"))));
            Tokenize(ArgumentList, "(" + inner + ")") == Ok(Tokenized(|inner| + 2, [inner]))
  {
    var inner := f + ("(" + (a + ("," + (b + ")"))));
    Unmasked(b, ")");
    Unmasked(",", b + ")");
    Unmasked(a, "," + (b + ")"));
    Unmasked("(", a + ("," + (b + ")")));
    Unmasked(f, "(" + (a + ("," + (b + ")"))));
    LastCloses(f, a, b);
    NestedCall(f, a, b);
    PlainClean(inner);
    PlainText(inner);
    hide *;
    IsArgOf(inner, PlainSegs(inner));
    MaskedText.OneIsPrinted(inner);
    MaskedText.OneArgument(inner);
    PrintThenTokenize([inner]);
  }

  lemma Unmasked(a: string, b: string)
    requires forall i :: 0 <= i < |a| ==> a[i] != '\'' && a[i] != '"' && a[i] != '/' && a[i] != '-'
    requires forall i :: 0 <= i < |b| ==> b[i] != '\'' && b[i] != '"' && b[i] != '/' && b[i] != '-'
    ensures var s := a + b;
            forall i :: 0 <= i < |s| ==> s[i] != '\'' && s[i] != '"' && s[i] != '/' && s[i] != '-'
  {
  }

  lemma LastCloses(f: string, a: string, b: string)
    ensures var inner := f + ("(" + (a + ("," + (b + ")"))));
            inner[|inner| - 1] == ')' && (f != "" ==> inner[0] == f[0])
  {
  }

  // ----------------------------------------------------------------------- calls

  /** A name of a rule that declares a list, with a parenthesis behind it. */
  lemma CallAdvances(rules: Rules, name: string, upper: string, behind: string)
    requires name != "" && ('a' <= name[0] <= 'z' || 'A' <= name[0] <= 'Z')
    requires forall i :: 0 <= i < |name| ==>
               'a' <= name[i] <= 'z' || 'A' <= name[i] <= 'Z' || '0' <= name[i] <= '9' || name[i] == '_'
    requires |upper| == |name|
    requires forall i :: 0 <= i < |name| ==>
               if 'a' <= name[i] <= 'z' then upper[i] as int == name[i] as int - 32 else upper[i] == name[i]
    requires upper in rules && rules[upper].macroArgs.Some? && behind != "" && behind[0] == '('
    ensures NextAdvance(rules, name + behind) ==
            match ExpandArgs(rules[upper].macroArgs.value, behind)
            case Err(e) => Err(e)
            case Ok(args) =>
              if args.argCount != rules[upper].macroArgs.value.argCount then Err(ArgCountMismatch)
              else Ok(Advance(|name| + args.len, rules[upper].rhs + args.text))
  {
    WholeNames.NameIsTaken(name, behind);
    WholeNames.UpperIs(name, upper);
    CutBetween(name, behind);
    assert (name + behind)[0] == name[0] && (name + behind)[|name|] == '(';
    hide NextMatch, Upper, ExpandArgs;
  }

  lemma ExpandsCall(rules: Rules, s: string, len: nat, text: string, rest: string)
    requires s != "" && len <= |s| && NextAdvance(rules, s) == Ok(Advance(len, text)) && s[len..] == rest
    ensures ExpandOnce(rules, s) ==
            match ExpandOnce(rules, rest)
            case Err(e) => Err(e)
            case Ok(t) => Ok(text + t)
  {
    hide NextAdvance;
  }

  lemma FailsToExpand(rules: Rules, s: string, e: Error)
    requires s != "" && NextAdvance(rules, s) == Err(e)
    ensures ExpandOnce(rules, s) == Err(e)
  {
    hide NextAdvance;
  }

  /** A list of plain arguments is read the same way in front of any text. */
  lemma ListIsRead(args: seq<string>, rest: string)
    requires forall i :: 0 <= i < |args| ==>
               args[i] != "" && args[i][0] != ' ' && args[i][0] != '\t' &&
               args[i][|args[i]| - 1] != ' ' && args[i][|args[i]| - 1] != '\t'
    requires forall i, j :: 0 <= i < |args| && 0 <= j < |args[i]| ==>
               args[i][j] != '\'' && args[i][j] != '"' && args[i][j] != '(' && args[i][j] != ')' &&
               args[i][j] != ',' && args[i][j] != '/' && args[i][j] != '-'
    ensures var list := "(" + Listed(args) + ")";
            Tokenize(ArgumentList, list + rest) == Ok(Tokenized(|list|, args))
  {
    hide *;
    var list := "(" + Listed(args) + ")";
    PlainArguments(args);
    MacroConservation.ArgumentsStandAlone(list, rest);
    TakeAll(list);
  }

  lemma ExpandsTo(rule: ArgsRule, s: string, len: nat, args: seq<string>)
    requires Tokenize(ArgumentList, s) == Ok(Tokenized(len, args)) && len <= |s|
    ensures ExpandArgs(rule, s) ==
            match RewriteArgs(rule, args)
            case Err(e) => Err(e)
            case Ok(text) => Ok(ArgsResult(len, |args|, text))
  {
    hide Tokenize, RewriteArgs;
  }

  lemma RewrittenBy(rule: ArgsRule, args: seq<string>, tokens: seq<string>, len: nat)
    requires rule.rewrite != ""
    requires Tokenize(TemplateRewrite(rule.argCount, args), rule.rewrite) == Ok(Tokenized(len, tokens))
    ensures RewriteArgs(rule, args) == Ok("(" + Listed(tokens) + ")")
  {
    PrintIsListed(tokens);
    hide Tokenize, Print;
  }

  lemma CallText(name: string, list: string, rest: string)
    requires list != "" && list[0] == '('
    ensures list + rest != "" && (list + rest)[0] == '(' && name + list + rest == name + (list + rest)
    ensures (name + (list + rest))[|name| + |list|..] == rest && |name| + |list| <= |name + (list + rest)|
  {
  }

  lemma ListOpens(args: seq<string>)
    ensures var list := "(" + Listed(args) + ")";
            list != "" && list[0] == '('
  {
  }

  /**
   * A call of a rule whose template is `($1, $2, ..., $n)`, with n plain arguments, becomes the
   * right-hand side with the same arguments.
   */
  lemma CallIsRewritten(rules: Rules, name: string, upper: string, args: seq<string>, rest: string)
    requires name != "" && ('a' <= name[0] <= 'z' || 'A' <= name[0] <= 'Z')
    requires forall i :: 0 <= i < |name| ==>
               'a' <= name[i] <= 'z' || 'A' <= name[i] <= 'Z' || '0' <= name[i] <= '9' || name[i] == '_'
    requires |upper| == |name|
    requires forall i :: 0 <= i < |name| ==>
               if 'a' <= name[i] <= 'z' then upper[i] as int == name[i] as int - 32 else upper[i] == name[i]
    requires |args| <= 0xFFFF_FFFF && upper in rules
    requires rules[upper].macroArgs == Some(ArgsRule(|args|, SpelledTemplates.AllOf(|args|)))
    requires forall i :: 0 <= i < |args| ==>
               args[i] != "" && args[i][0] != ' ' && args[i][0] != '\t' &&
               args[i][|args[i]| - 1] != ' ' && args[i][|args[i]| - 1] != '\t'
    requires forall i, j :: 0 <= i < |args| && 0 <= j < |args[i]| ==>
               args[i][j] != '\'' && args[i][j] != '"' && args[i][j] != '(' && args[i][j] != ')' &&
               args[i][j] != ',' && args[i][j] != '/' && args[i][j] != '-'
    ensures var list := "(" + Listed(args) + ")";
            ExpandOnce(rules, name + list + rest) ==
            match ExpandOnce(rules, rest)
            case Err(e) => Err(e)
            case Ok(t) => Ok(rules[upper].rhs + list + t)
  {
    hide *;
    var list, rule := "(" + Listed(args) + ")", rules[upper].macroArgs.value;
    ListOpens(args);
    CallText(name, list, rest);
    CallAdvances(rules, name, upper, list + rest);
    ListIsRead(args, rest);
    ExpandsTo(rule, list + rest, |list|, args);
    SpelledTemplates.AllArguments(args);
    SpelledTemplates.AllOfIs(|args|);
    RewrittenBy(rule, args, args, |rule.rewrite|);
    ExpandsCall(rules, name + (list + rest), |name| + |list|, rules[upper].rhs + list, rest);
  }

  /** Without a template the list is dropped, if it has the declared length; otherwise it is an error. */
  lemma CallIsDropped(rules: Rules, name: string, upper: string, argCount: nat, args: seq<string>, rest: string)
    requires name != "" && ('a' <= name[0] <= 'z' || 'A' <= name[0] <= 'Z')
    requires forall i :: 0 <= i < |name| ==>
               'a' <= name[i] <= 'z' || 'A' <= name[i] <= 'Z' || '0' <= name[i] <= '9' || name[i] == '_'
    requires |upper| == |name|
    requires forall i :: 0 <= i < |name| ==>
               if 'a' <= name[i] <= 'z' then upper[i] as int == name[i] as int - 32 else upper[i] == name[i]
    requires upper in rules && rules[upper].macroArgs == Some(ArgsRule(argCount, ""))
    requires forall i :: 0 <= i < |args| ==>
               args[i] != "" && args[i][0] != ' ' && args[i][0] != '\t' &&
               args[i][|args[i]| - 1] != ' ' && args[i][|args[i]| - 1] != '\t'
    requires forall i, j :: 0 <= i < |args| && 0 <= j < |args[i]| ==>
               args[i][j] != '\'' && args[i][j] != '"' && args[i][j] != '(' && args[i][j] != ')' &&
               args[i][j] != ',' && args[i][j] != '/' && args[i][j] != '-'
    ensures var list := "(" + Listed(args) + ")";
            ExpandOnce(rules, name + list + rest) ==
            if |args| != argCount then Err(ArgCountMismatch)
            else
              match ExpandOnce(rules, rest)
              case Err(e) => Err(e)
              case Ok(t) => Ok(rules[upper].rhs + t)
  {
    hide *;
    var list, rule := "(" + Listed(args) + ")", rules[upper].macroArgs.value;
    ListOpens(args);
    CallText(name, list, rest);
    CallAdvances(rules, name, upper, list + rest);
    ListIsRead(args, rest);
    ExpandsTo(rule, list + rest, |list|, args);
    NoTemplate(rule, args);
    AppendEmpty(rules[upper].rhs);
    if |args| != argCount {
      FailsToExpand(rules, name + (list + rest), ArgCountMismatch);
    } else {
      ExpandsCall(rules, name + (list + rest), |name| + |list|, rules[upper].rhs, rest);
    }
  }

  lemma NoTemplate(rule: ArgsRule, args: seq<string>)
    requires rule.rewrite == ""
    ensures RewriteArgs(rule, args) == Ok("")
  {
  }
}
