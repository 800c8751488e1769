/** Argument lists and templates in characters: what is trimmed, and what is an error of which kind. */
module ListTexts {
  import opened Common
  import opened MacroArgs
  import opened SpelledTemplates
  import opened TextProcessor
  import MaskedText
  import Placeholders
  import PlainCalls

  // -------------------------------------------------------------------- blanks

  lemma {:induction false} BlanksInFront(front: string, s: string)
    requires forall i :: 0 <= i < |front| ==> front[i] == ' ' || front[i] == '\t'
    requires s != "" && s[0] != ' ' && s[0] != '\t'
    ensures TrimLeft(front + s) == s
  {
    if front == "" {
      AppendEmpty(s);
    } else {
      assert (front + s)[0] == front[0] && (front + s)[1..] == front[1..] + s;
      BlanksInFront(front[1..], s);
    }
  }

  lemma CutLast(s: string, back: string)
    requires back != ""
    ensures var t := s + back; t[|t| - 1] == back[|back| - 1] && t[..|t| - 1] == s + back[..|back| - 1]
  {
  }

  lemma {:induction false} BlanksBehind(s: string, back: string)
    requires forall i :: 0 <= i < |back| ==> back[i] == ' ' || back[i] == '\t'
    requires s != "" && s[|s| - 1] != ' ' && s[|s| - 1] != '\t'
    ensures TrimRight(s + back) == s
  {
    if back == "" {
      AppendEmpty(s);
    } else {
      var n := |back| - 1;
      CutLast(s, back);
      BlanksBehind(s, back[..n]);
    }
  }

  lemma BlanksAround(front: string, s: string, back: string)
    requires forall i :: 0 <= i < |front| ==> front[i] == ' ' || front[i] == '\t'
    requires forall i :: 0 <= i < |back| ==> back[i] == ' ' || back[i] == '\t'
    requires s != "" && s[0] != ' ' && s[0] != '\t' && s[|s| - 1] != ' ' && s[|s| - 1] != '\t'
    ensures Trim(front + (s + back)) == s
  {
    assert (s + back)[0] == s[0];
    BlanksInFront(front, s + back);
    BlanksBehind(s, back);
    hide TrimLeft, TrimRight;
  }

  // ----------------------------------------------------------- plain characters

  lemma PlainChar(c: char, rest: string)
    requires c != '\'' && c != '"' && c != '/' && c != '-'
    ensures NextMatch(NoMatches, [c] + rest) == Ok(Match(1, Plain))
  {
    var s := [c] + rest;
    RejectionIsOpener(s);
    assert s[0] == c && (|s| >= 2 ==> s[..2][0] == c);
  }

  lemma PlainStep(c: char, token: string)
    requires c != '(' && c != ')' && c != ','
    ensures ProcessSeg(ArgumentList, Seg([c], Plain), State(1, [token])) == Ok(More(State(1, [token + [c]])))
  {
    hide SetLast, Last, Trim;
    assert Last([token]) == token && SetLast([token], token + [c]) == [token + [c]] by {
      AppendEmpty([token]);
      AppendEmpty([token + [c]]);
      LastOf([], token, token + [c]);
    }
  }

  /** A text without quotes, parentheses, commas, slashes and dashes goes into the argument. */
  lemma {:induction false} WalkPlain(s: string, rest: string, token: string)
    requires forall i :: 0 <= i < |s| ==>
               s[i] != '\'' && s[i] != '"' && s[i] != '(' && s[i] != ')' && s[i] != ',' && s[i] != '/' && s[i] != '-'
    ensures Walk(ArgumentList, s + rest, State(1, [token])) ==
            Shift(|s|, Walk(ArgumentList, rest, State(1, [token + s])))
    decreases |s|
  {
    hide *;
    if s == "" {
      AppendEmpty(rest);
      AppendEmpty(token);
      NoShift(Walk(ArgumentList, rest, State(1, [token])));
    } else {
      var c, tail := s[0], s[1..];
      Uncons(s);
      AppendAssoc([c], tail, rest);
      AppendAssoc(token, [c], tail);
      PlainChar(c, tail + rest);
      PlainStep(c, token);
      MatchesNothing();
      WalkOn(ArgumentList, [c], tail + rest, Plain, State(1, [token]), State(1, [token + [c]]));
      WalkPlain(tail, rest, token + [c]);
      ShiftTwice(1, |tail|, Walk(ArgumentList, rest, State(1, [token + s])));
    }
  }

  lemma MatchesNothing()
    ensures MatcherOf(ArgumentList) == NoMatches
  {
  }

  lemma NoShift(r: Result<Tokenized>)
    ensures Shift(0, r) == r
  {
  }

  lemma ShiftTwice(n: nat, m: nat, r: Result<Tokenized>)
    ensures Shift(n, Shift(m, r)) == Shift(n + m, r)
  {
  }

  lemma Closes(token: string)
    requires Trim(token) != ""
    ensures Walk(ArgumentList, ")", State(1, [token])) == Ok(Tokenized(1, [Trim(token)]))
  {
    hide *;
    PlainChar(')', "");
    MatchesNothing();
    CloseStep(ArgumentList, [], token);
    AppendEmpty([token]);
    AppendEmpty([Trim(token)]);
    AppendEmpty(")");
    WalkEnds(ArgumentList, ")", "", State(1, [token]), [Trim(token)]);
  }

  lemma IsTrimmed(inside: string, s: string)
    requires Trim(inside) == s != ""
    requires forall i :: 0 <= i < |inside| ==>
               inside[i] != '\'' && inside[i] != '"' && inside[i] != '(' && inside[i] != ')' && inside[i] != ',' &&
               inside[i] != '/' && inside[i] != '-'
    ensures Tokenize(ArgumentList, "(" + (inside + ")")) == Ok(Tokenized(|inside| + 2, [s]))
  {
    hide *;
    PlainCalls.OpensList(ArgumentList, inside + ")");
    WalkPlain(inside, ")", "");
    AppendEmpty(inside);
    Closes(inside);
    Shifts(|inside|, Walk(ArgumentList, ")", State(1, [inside])));
    Shifts(1, Walk(ArgumentList, inside + ")", State(1, [""])));
  }

  /** Blanks and tabs around an argument do not belong to it, and nothing else is taken away. */
  lemma BlanksAreTrimmed(front: string, s: string, back: string)
    requires forall i :: 0 <= i < |front| ==> front[i] == ' ' || front[i] == '\t'
    requires forall i :: 0 <= i < |back| ==> back[i] == ' ' || back[i] == '\t'
    requires s != "" && s[0] != ' ' && s[0] != '\t' && s[|s| - 1] != ' ' && s[|s| - 1] != '\t'
    requires forall i :: 0 <= i < |s| ==>
               s[i] != '\'' && s[i] != '"' && s[i] != '(' && s[i] != ')' && s[i] != ',' && s[i] != '/' && s[i] != '-'
    ensures var inside := front + (s + back);
            Tokenize(ArgumentList, "(" + (inside + ")")) == Ok(Tokenized(|inside| + 2, [s]))
  {
    hide *;
    PlainAround(front, s, back);
    BlanksAround(front, s, back);
    IsTrimmed(front + (s + back), s);
  }

  lemma PlainAround(front: string, s: string, back: string)
    requires forall i :: 0 <= i < |front| ==> front[i] == ' ' || front[i] == '\t'
    requires forall i :: 0 <= i < |back| ==> back[i] == ' ' || back[i] == '\t'
    requires forall i :: 0 <= i < |s| ==>
               s[i] != '\'' && s[i] != '"' && s[i] != '(' && s[i] != ')' && s[i] != ',' && s[i] != '/' && s[i] != '-'
    ensures var t := front + (s + back);
            forall i :: 0 <= i < |t| ==>
              t[i] != '\'' && t[i] != '"' && t[i] != '(' && t[i] != ')' && t[i] != ',' && t[i] != '/' && t[i] != '-'
  {
  }

  // -------------------------------------------------------------------- errors

  lemma EndOfText(role: Role, st: State)
    requires st.depth > 0 ==> st.tokens != []
    ensures Walk(role, "", st) == Err(MissingClose)
  {
  }

  /** A list whose parenthesis is not closed is an error. */
  lemma OpenListIsAnError(s: string)
    requires forall i :: 0 <= i < |s| ==>
               s[i] != '\'' && s[i] != '"' && s[i] != '(' && s[i] != ')' && s[i] != ',' && s[i] != '/' && s[i] != '-'
    ensures Tokenize(ArgumentList, "(" + s) == Err(MissingClose)
  {
    hide *;
    PlainCalls.OpensList(ArgumentList, s);
    WalkPlain(s, "", "");
    AppendEmpty(s);
    EndOfText(ArgumentList, State(1, [s]));
    Shifts(|s|, Walk(ArgumentList, "", State(1, [s])));
    Shifts(1, Walk(ArgumentList, s, State(1, [""])));
  }

  lemma NotOpened(role: Role, c: char)
    requires c != '('
    ensures ProcessSeg(role, Seg([c], Plain), State(0, [])) == Err(MissingOpen)
  {
  }

  lemma LettersNext(role: Role, c: char, rest: string)
    requires 'a' <= c <= 'z' || 'A' <= c <= 'Z' || '0' <= c <= '9' || c == ' ' || c == ',' || c == ')'
    ensures NextMatch(MatcherOf(role), [c] + rest) == Ok(Match(1, Plain))
  {
    var s := [c] + rest;
    RejectionIsOpener(s);
    assert s[0] == c && (|s| >= 2 ==> s[..2][0] == c);
  }

  /** A list or a template starts with its parenthesis: no blank stands before it. */
  lemma NoListIsAnError(role: Role, c: char, rest: string)
    requires 'a' <= c <= 'z' || 'A' <= c <= 'Z' || '0' <= c <= '9' || c == ' ' || c == ',' || c == ')'
    ensures Tokenize(role, [c] + rest) == Err(MissingOpen)
  {
    hide *;
    LettersNext(role, c, rest);
    NotOpened(role, c);
    TokenizeIs(role, [c] + rest);
    WalkStops(role, [c], rest, Plain, State(0, []), MissingOpen);
  }

  lemma {:induction false} CloserFound(a: string, b: string)
    requires forall i :: 0 <= i < |a| ==> a[i] != '*'
    ensures CloserEnd(a + ("*/" + b)) == Ok(|a| + 2)
  {
    var s := a + ("*/" + b);
    if a == "" {
      AppendEmpty("*/" + b);
      assert s == "*/" + b && s[..2] == "*/";
    } else {
      assert s[0] == a[0] && s[..2][0] == a[0] && s[1..] == a[1..] + ("*/" + b);
      CloserFound(a[1..], b);
    }
  }

  lemma {:induction false} NoCloser(a: string)
    requires forall i :: 0 < i < |a| ==> a[i - 1] != '*' || a[i] != '/'
    ensures CloserEnd(a) == Err(UnterminatedBlockComment)
  {
    if |a| >= 2 {
      assert a[..2] != "*/" by {
        assert a[..2][0] == a[0] && a[..2][1] == a[1];
      }
      NoCloser(a[1..]);
    }
  }

  lemma BlockNext(role: Role, a: string)
    ensures NextMatch(MatcherOf(role), "/*" + a) ==
            match CloserEnd(a)
            case Err(e) => Err(e)
            case Ok(_) => Err(RejectedText)
  {
    var s := "/*" + a;
    assert s[..2] == "/*" && s[2..] == a;
    hide CloserEnd;
  }

  lemma BlockIsAnError(role: Role, a: string, e: Error)
    requires match CloserEnd(a) case Err(other) => e == other case Ok(_) => e == RejectedText
    ensures Tokenize(role, "(" + ("/*" + a)) == Err(e)
  {
    assert "/*" + a != "";
    hide *;
    BlockNext(role, a);
    PlainCalls.OpensList(role, "/*" + a);
    WalkFails(role, "/*" + a, State(1, [""]), e);
    Shifts(1, Walk(role, "/*" + a, State(1, [""])));
  }

  /** A comment that a star and a slash close is rejected; one that they do not close is an error of its own. */
  lemma BlockCommentIsAnError(role: Role, a: string, b: string)
    ensures (forall i :: 0 <= i < |a| ==> a[i] != '*') ==>
              Tokenize(role, "(" + ("/*" + (a + ("*/" + b)))) == Err(RejectedText)
    ensures (forall i :: 0 < i < |a| ==> a[i - 1] != '*' || a[i] != '/') ==>
              Tokenize(role, "(" + ("/*" + a)) == Err(UnterminatedBlockComment)
  {
    hide *;
    if forall i :: 0 <= i < |a| ==> a[i] != '*' {
      CloserFound(a, b);
      BlockIsAnError(role, a + ("*/" + b), RejectedText);
    }
    if forall i :: 0 < i < |a| ==> a[i - 1] != '*' || a[i] != '/' {
      NoCloser(a);
      BlockIsAnError(role, a, UnterminatedBlockComment);
    }
  }

  lemma {:induction false} LineEndAt(t: string, rest: string)
    requires forall i :: 0 <= i < |t| ==> t[i] != '\n'
    ensures LineEnd(t) == |t| && LineEnd(t + ("\n" + rest)) == |t| + 1
  {
    var s := t + ("\n" + rest);
    if t != "" {
      assert s[0] == t[0] && s[1..] == t[1..] + ("\n" + rest);
      LineEndAt(t[1..], rest);
    } else {
      assert s[0] == '\n';
    }
  }

  /** A comment behind two dashes goes to the end of its line, and a bracketed one to its first closer. */
  lemma CommentLengths(t: string, a: string, rest: string)
    requires forall i :: 0 <= i < |t| ==> t[i] != '\n'
    requires forall i :: 0 <= i < |a| ==> a[i] != '*'
    ensures LineCommentLength("--" + t) == |t| + 2
    ensures LineCommentLength("--" + (t + ("\n" + rest))) == |t| + 3
    ensures BlockCommentLength("/*" + (a + ("*/" + rest))) == Ok(|a| + 4)
  {
    hide *;
    LineEndAt(t, rest);
    CloserFound(a, rest);
    OpenedLine(t);
    OpenedLine(t + ("\n" + rest));
    OpenedBlock(a + ("*/" + rest));
    MaskedText.Added(2, |a| + 2);
  }

  lemma OpenedLine(t: string)
    ensures LineCommentLength("--" + t) == 2 + LineEnd(t)
  {
    var s := "--" + t;
    assert s[..2] == "--" && s[2..] == t;
  }

  lemma OpenedBlock(t: string)
    ensures BlockCommentLength("/*" + t) == Plus(2, CloserEnd(t))
  {
    var s := "/*" + t;
    assert s[..2] == "/*" && s[2..] == t;
  }

  lemma EscapeNext(role: Role, rest: string)
    requires role.TemplateRewrite?
    ensures NextMatch(MatcherOf(role), "\\" + ("$" + rest)) == Ok(Match(1, Matched))
    ensures Output(role, Seg("\\", Matched)) == Err(UnsetPlaceholder)
  {
    var s := "\\" + ("$" + rest);
    assert s[0] == '\\' && s[1] == '$' && s[..2] == "\\$";
    RejectionIsOpener(s);
    Placeholders.EscapeMatchesBackslashOnly(s, role.argCount);
    hide Placeholders.MatchLength;
  }

  /** A dollar sign behind a backslash is no placeholder but an error. */
  lemma EscapeIsAnError(role: Role, rest: string)
    requires role.TemplateRewrite?
    ensures Tokenize(role, "(" + ("\\" + ("$" + rest))) == Err(UnsetPlaceholder)
  {
    hide *;
    EscapeNext(role, rest);
    MatchedIsNoChar("\\");
    FailStep(role, Seg("\\", Matched), [], "", UnsetPlaceholder);
    AppendEmpty([""]);
    PlainCalls.OpensList(role, "\\" + ("$" + rest));
    WalkStops(role, "\\", "$" + rest, Matched, State(1, [""]), UnsetPlaceholder);
    Shifts(1, Walk(role, "\\" + ("$" + rest), State(1, [""])));
  }

  /** A dollar sign without a number is an error. */
  lemma NoNumberIsAnError(role: Role, rest: string)
    requires !role.ArgumentList? && (rest == "" || rest[0] < '0' || '9' < rest[0])
    ensures Tokenize(role, "(" + ("$" + rest)) == Err(EmptyNumber)
  {
    var s := "$" + rest;
    assert s[0] == '$' && s[1..] == rest;
    assert Placeholders.Parse(s) == Err(EmptyNumber);
    hide *;
    FailsToParse(role, s, EmptyNumber);
    OnlyNext(role, s, EmptyNumber);
  }
}
