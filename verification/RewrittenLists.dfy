/** Tokenising a rewritten argument list again, as the next pass of the expander does. */
module RewrittenLists {
  import opened ArgumentLists
  import opened ArgumentMeaning
  import opened Common
  import opened ExpandedPieces
  import opened LooseLists
  import opened MacroArgs
  import opened Templates
  import opened TextProcessor
  import Placeholders

  // ------------------------------------------------------------- the whole list

  predicate OutputsAll(role: Role, pieces: seq<Piece>)
    requires AllNonEmpty(pieces)
  {
    forall i :: 0 <= i < |pieces| ==> AllOutput(role, pieces[i])
  }

  /** The pieces of a template, trimmed and expanded. */
  ghost function Expanded(role: Role, pieces: seq<Piece>): (parts: seq<Piece>)
    requires role.TemplateRewrite? && AllArgs(role.args)
    ensures |parts| == |pieces| && forall i :: 0 <= i < |pieces| ==> parts[i] == Expand(role, TrimSegs(pieces[i]))
  {
    seq(|pieces|, i requires 0 <= i < |pieces| => Expand(role, TrimSegs(pieces[i])))
  }

  /** The segments of each token of a rewritten list. */
  ghost function PartsOf(argCount: nat, template: string, args: seq<string>): seq<Piece>
    requires AllArgs(args)
  {
    var pieces := PiecesOf(argCount, template);
    if |pieces| == 1 && TrimSegs(pieces[0]) == [] then [] else Expanded(TemplateRewrite(argCount, args), pieces)
  }

  lemma TrimmedOutputs(role: Role, piece: Piece)
    requires NonEmptySegs(piece) && AllOutput(role, piece)
    ensures NonEmptySegs(TrimSegs(piece)) && AllOutput(role, TrimSegs(piece))
  {
    var left := TrimLeftSegs(piece);
    hide Output, TrimLeftSegs, TrimRightSegs;
    assert forall i :: 0 <= i < |left| ==> left[i] == piece[|piece| - |left| + i];
    assert forall i :: 0 <= i < |TrimSegs(piece)| ==> TrimSegs(piece)[i] == left[i];
  }

  lemma PartIs(role: Role, piece: Piece)
    requires role.TemplateRewrite? && AllArgs(role.args) && Shaped(role.argCount, piece, 0)
    requires NonEmptySegs(piece) && AllOutput(role, piece) && TrimSegs(piece) != []
    ensures Loose(Expand(role, TrimSegs(piece))) && Flat(Expand(role, TrimSegs(piece))) == Rendered(role, piece)
  {
    hide *;
    TrimShaped(role.argCount, piece);
    TrimmedOutputs(role, piece);
    RenderedIs(role, piece);
    TrimIs(piece);
    TrimmedEnd(TrimLeftSegs(piece));
    ExpandedText(role, TrimSegs(piece), 0);
    ExpandedGrows(role, TrimSegs(piece), 0, false);
    GrownIsLoose(Expand(role, TrimSegs(piece)));
  }

  lemma RenderedIs(role: Role, piece: Piece)
    requires NonEmptySegs(piece)
    ensures NonEmptySegs(TrimSegs(piece)) && Rendered(role, piece) == Cat(Outputs(role, TrimSegs(piece)))
  {
    hide NonEmptySegs, TrimSegs, Outputs;
    NonEmptyTrimmed(piece);
  }

  lemma GrownIsLoose(segs: Piece)
    ensures Grown(segs, 0, false) <==> Loose(segs)
  {
    hide AllOk, Balanced, Inked;
  }

  lemma {:induction false} RenderedAt(role: Role, pieces: seq<Piece>, i: nat)
    requires AllNonEmpty(pieces) && i < |pieces|
    ensures |RenderedList(role, pieces)| == |pieces| && RenderedList(role, pieces)[i] == Rendered(role, pieces[i])
    decreases |pieces|
  {
    hide NonEmptySegs, Rendered;
    if |pieces| > 1 {
      RenderedAt(role, pieces[1..], if i == 0 then 0 else i - 1);
    }
  }

  lemma PieceAt(role: Role, pieces: seq<Piece>, i: nat)
    requires role.TemplateRewrite? && AllShaped(role.argCount, pieces) && i < |pieces|
    requires AllNonEmpty(pieces) && OutputsAll(role, pieces) && !AnyBlank(pieces)
    ensures Shaped(role.argCount, pieces[i], 0) && NonEmptySegs(pieces[i]) && AllOutput(role, pieces[i])
    ensures TrimSegs(pieces[i]) != []
  {
    hide Shaped, NonEmptySegs, AllOutput, TrimSegs;
  }

  lemma PartAt(role: Role, pieces: seq<Piece>, i: nat)
    requires role.TemplateRewrite? && AllArgs(role.args) && AllShaped(role.argCount, pieces)
    requires AllNonEmpty(pieces) && OutputsAll(role, pieces) && !AnyBlank(pieces) && i < |pieces|
    ensures |RenderedList(role, pieces)| == |pieces|
    ensures Loose(Expanded(role, pieces)[i]) && Flat(Expanded(role, pieces)[i]) == RenderedList(role, pieces)[i]
  {
    hide *;
    PieceAt(role, pieces, i);
    PartIs(role, pieces[i]);
    RenderedAt(role, pieces, i);
  }

  lemma PartsAre(role: Role, pieces: seq<Piece>)
    requires role.TemplateRewrite? && AllArgs(role.args) && AllShaped(role.argCount, pieces)
    requires AllNonEmpty(pieces) && OutputsAll(role, pieces) && !AnyBlank(pieces)
    ensures AllLoose(Expanded(role, pieces)) && Flats(Expanded(role, pieces)) == RenderedList(role, pieces)
  {
    var parts := Expanded(role, pieces);
    if pieces == [] {
    } else {
      PartAt(role, pieces, 0);
      hide AllShaped, AllNonEmpty, OutputsAll, AnyBlank, AllArgs, Expand, Loose, TrimSegs, Flat, RenderedList, Expanded;
      forall i | 0 <= i < |pieces| ensures Loose(parts[i]) && Flat(parts[i]) == RenderedList(role, pieces)[i] {
        PartAt(role, pieces, i);
      }
    }
  }

  /** The tokens that the printed parts are read back as, if no comment opens. */
  lemma PrintedAgain(parts: seq<Piece>)
    requires AllLoose(parts)
    ensures var segs, text := JoinPieces(parts), Print(Flats(parts));
            text == "(" + Flat(segs) + ")" &&
            if OpenerMeets(segs) then Tokenize(ArgumentList, text).Err?
            else Tokenize(ArgumentList, text) == Ok(Tokenized(|text|, CutTokens(parts)))
  {
    hide *;
    var segs := JoinPieces(parts);
    JoinedText(parts);
    PrintIs(Flats(parts));
    if parts == [] {
      NoParts(parts);
      TokenizeLoose(segs);
    } else {
      JoinedIsLoose(parts);
      LooseIs(segs);
      TokenizeLoose(segs);
      JoinedTokens(parts);
      TopTokens(segs);
    }
  }

  lemma PrintIs(tokens: seq<string>)
    ensures Print(tokens) == "(" + Join(tokens, ", ") + ")"
  {
    hide Join;
  }

  lemma NoParts(parts: seq<Piece>)
    requires parts == []
    ensures JoinPieces(parts) == [] && AllOk([]) && Balanced([], 0) && !OpenerMeets([]) && CutTokens(parts) == []
    ensures TokensOf(Top([], 0)[0], Top([], 0)[1..]) == []
  {
    NoText();
    assert Token([]) == "";
  }

  lemma LooseIs(segs: Piece)
    requires Loose(segs)
    ensures AllOk(segs) && Balanced(segs, 0) && Inked(segs, 0, false)
  {
  }

  lemma TopTokens(segs: Piece)
    requires AllOk(segs) && Inked(segs, 0, false)
    ensures TokensOf(Top(segs, 0)[0], Top(segs, 0)[1..]) == TokenList(Top(segs, 0))
  {
    InkFills(segs, 0, false);
    hide Inked, Token, Top, NoneBlank;
    Uncons(Top(segs, 0));
    TokensCons(Top(segs, 0)[0], Top(segs, 0)[1..]);
  }

  lemma ArgsAreSolid(args: seq<string>)
    requires AllArgs(args)
    ensures AllSolid(args)
  {
    hide Solid;
  }

  lemma OutputsOfRewrite(argCount: nat, template: string, args: seq<string>)
    requires AllArgs(args) && Tokenize(TemplateRewrite(argCount, args), template).Ok?
    ensures var pieces, role := PiecesOf(argCount, template), TemplateRewrite(argCount, args);
            AllNonEmpty(pieces) && OutputsAll(role, pieces) && AllShaped(argCount, pieces) &&
            Ok(Tokenize(role, template).value.tokens) == TemplateTokens(role, pieces)
  {
    hide *;
    ArgsAreSolid(args);
    RewritingIsSubstitution(argCount, template, args);
    TokenizeTemplate(TemplateRewrite(argCount, args), template);
    PiecesShaped(argCount, template);
    OutputsAllIs(TemplateRewrite(argCount, args), PiecesOf(argCount, template));
  }

  lemma OutputsAllIs(role: Role, pieces: seq<Piece>)
    requires AllNonEmpty(pieces)
    ensures OutputsAll(role, pieces) <==> forall i :: 0 <= i < |pieces| ==> AllOutput(role, pieces[i])
  {
    hide AllOutput;
  }

  lemma TokensAre(role: Role, pieces: seq<Piece>)
    requires AllNonEmpty(pieces) && TemplateTokens(role, pieces).Ok?
    ensures TemplateTokens(role, pieces).value ==
            if |pieces| == 1 && TrimSegs(pieces[0]) == [] then [] else RenderedList(role, pieces)
    ensures !(|pieces| == 1 && TrimSegs(pieces[0]) == []) ==> !AnyBlank(pieces)
  {
    hide TrimSegs, RenderedList, AnyBlank;
  }

  lemma NoLoose()
    ensures AllLoose([]) && Flats([]) == []
  {
  }

  /**
   * The list that a call is rewritten to, read again. Where two outputs meet in a comment
   * opener it is an error; otherwise all of it is an argument list, and its arguments are the
   * rewritten tokens, each cut at the commas that a range brings in outside parentheses.
   */
  lemma RewrittenAgain(argCount: nat, template: string, args: seq<string>)
    requires AllArgs(args) && Tokenize(TemplateRewrite(argCount, args), template).Ok?
    ensures var parts := PartsOf(argCount, template, args);
            var text := Print(Tokenize(TemplateRewrite(argCount, args), template).value.tokens);
            Tokenize(TemplateRewrite(argCount, args), template).value.tokens == Flats(parts) &&
            text == "(" + Flat(JoinPieces(parts)) + ")" &&
            if OpenerMeets(JoinPieces(parts)) then Tokenize(ArgumentList, text).Err?
            else Tokenize(ArgumentList, text) == Ok(Tokenized(|text|, CutTokens(parts)))
  {
    var parts := PartsOf(argCount, template, args);
    var role, pieces := TemplateRewrite(argCount, args), PiecesOf(argCount, template);
    hide *;
    OutputsOfRewrite(argCount, template, args);
    TokensAre(role, pieces);
    PartsIs(argCount, template, args);
    NoLoose();
    if !(|pieces| == 1 && TrimSegs(pieces[0]) == []) {
      PartsAre(role, pieces);
    }
    PrintedAgain(parts);
  }

  lemma PartsIs(argCount: nat, template: string, args: seq<string>)
    requires AllArgs(args)
    ensures var pieces := PiecesOf(argCount, template);
            PartsOf(argCount, template, args) ==
            if |pieces| == 1 && TrimSegs(pieces[0]) == [] then [] else Expanded(TemplateRewrite(argCount, args), pieces)
  {
    hide PiecesOf, TrimSegs, AllArgs;
  }

  /** Arguments that a range brings in outside parentheses come back one by one. */
  lemma RangeComesApart(args: seq<string>)
    requires AllArgs(args) && args != []
    ensures TokenList(Top(JoinPieces(ArgPieces(args)), 0)) == args
  {
    hide *;
    ArgPiecesLoose(args);
    SomePieces(args);
    JoinedTokens(ArgPieces(args));
    ArgsCut(args);
  }

  lemma SomePieces(args: seq<string>)
    requires AllArgs(args) && args != []
    ensures ArgPieces(args) != []
  {
    hide AllArgs;
  }

  lemma {:induction false} ArgsCut(args: seq<string>)
    requires AllArgs(args)
    ensures CutTokens(ArgPieces(args)) == args
  {
    hide IsArg, Top, TokenList;
    if args != [] {
      ArgIsLoose(args[0]);
      ArgsCut(args[1..]);
      assert ArgPieces(args)[1..] == ArgPieces(args[1..]);
    }
  }

  // ------------------------------------------------------------------ at an input

  lemma TemplateNext(role: Role, s: string, c: char)
    requires role == TemplateRewrite(1, ["-x"])
    requires (s == "(-$1)" && c == '(') || (s == "-$1)" && c == '-') || (s == ")" && c == ')')
    ensures NextMatch(MatcherOf(role), s) == Ok(Match(1, Plain)) && s[..1] == [c]
  {
    RejectionIsOpener(s);
    assert |s| > 1 ==> s[..2] == [s[0], s[1]];
  }

  lemma TemplatePlaceholder(role: Role)
    requires role == TemplateRewrite(1, ["-x"])
    ensures NextMatch(MatcherOf(role), "$1)") == Ok(Match(2, Matched)) && "$1)"[..2] == "$1"
    ensures Output(role, Seg("$1", Matched)) == Ok("-x")
  {
    ParsesFirst();
    RejectionIsOpener("$1)");
    hide Placeholders.Parse;
    assert ["-x"][0..1] == ["-x"];
  }

  lemma ParsesFirst()
    ensures Placeholders.Parse("$1)") == Ok(Placeholders.Parsed(2, Placeholders.Range(1, 1)))
    ensures Placeholders.Parse("$1") == Ok(Placeholders.Parsed(2, Placeholders.Range(1, 1)))
  {
    assert Placeholders.DigitRun("1)") == 1 && Placeholders.Decimal("1") == 1;
    assert Placeholders.DigitRun("1") == 1;
    assert "$1)"[1..] == "1)" && "$1"[1..] == "1" && "1)"[..1] == "1" && "1"[..1] == "1";
    assert "$1)"[2..] == ")" && "$1"[2..] == "";
  }

  lemma AppendLast(role: Role, seg: Seg, token: string, text: string)
    requires seg.text != "" && !IsChar(seg, ')') && !IsChar(seg, ',') && !IsChar(seg, '(')
    requires Output(role, seg) == Ok(text)
    ensures ProcessSeg(role, seg, State(1, [token])) == Ok(More(State(1, [token + text])))
  {
    hide Output;
    assert Last([token]) == token && SetLast([token], token + text) == [token + text];
  }

  lemma CloseOne(role: Role, token: string)
    requires Solid(token)
    ensures ProcessSeg(role, Seg(")", Plain), State(1, [token])) == Ok(Done([token]))
  {
    TrimSolid(token);
    assert Last([token]) == token && SetLast([token], token) == [token];
    hide Trim;
  }

  lemma WalkClosing(role: Role, token: string)
    requires role == TemplateRewrite(1, ["-x"]) && Solid(token)
    ensures Walk(role, ")", State(1, [token])) == Ok(Tokenized(1, [token]))
  {
    TemplateNext(role, ")", ')');
    CloseOne(role, token);
    hide NextMatch, ProcessSeg, Solid;
  }

  lemma WalkMore(role: Role, s: string, m: Match, st: State, next: State)
    requires s != "" && NextMatch(MatcherOf(role), s) == Ok(m)
    requires st.depth > 0 ==> st.tokens != []
    requires ProcessSeg(role, Seg(s[..m.len], m.kind), st) == Ok(More(next))
    ensures Walk(role, s, st) == Shift(m.len, Walk(role, s[m.len..], next))
  {
    hide NextMatch, ProcessSeg;
  }

  lemma Shifted(n: nat, t: Tokenized)
    ensures Shift(n, Ok(t)) == Ok(Tokenized(n + t.len, t.tokens))
  {
  }

  lemma NoBracket()
    ensures forall c :: c == '(' || c == ')' || c == ',' ==>
              !IsChar(Seg("$1", Matched), c) && !IsChar(Seg("-", Plain), c)
    ensures "$1)"[2..] == ")" && "-$1)"[1..] == "$1)" && "-" + "-x" == "--x" && "" + "-" == "-" && Solid("--x")
  {
  }

  lemma WalkValue(role: Role)
    requires role == TemplateRewrite(1, ["-x"])
    ensures Walk(role, "$1)", State(1, ["-"])) == Ok(Tokenized(3, ["--x"]))
  {
    hide *;
    NoBracket();
    TemplatePlaceholder(role);
    AppendLast(role, Seg("$1", Matched), "-", "-x");
    WalkClosing(role, "--x");
    WalkMore(role, "$1)", Match(2, Matched), State(1, ["-"]), State(1, ["--x"]));
    Shifted(2, Tokenized(1, ["--x"]));
  }

  lemma OutputOfPlain(role: Role, seg: Seg)
    requires seg.kind == Plain && seg.text != ""
    ensures Output(role, seg) == Ok(seg.text)
  {
  }

  lemma WalkDash(role: Role)
    requires role == TemplateRewrite(1, ["-x"])
    ensures Walk(role, "-$1)", State(1, [""])) == Ok(Tokenized(4, ["--x"]))
  {
    hide *;
    NoBracket();
    TemplateNext(role, "-$1)", '-');
    OutputOfPlain(role, Seg("-", Plain));
    AppendLast(role, Seg("-", Plain), "", "-");
    WalkValue(role);
    WalkMore(role, "-$1)", Match(1, Plain), State(1, [""]), State(1, ["-"]));
    Shifted(1, Tokenized(3, ["--x"]));
  }

  lemma TemplateWalk(role: Role)
    requires role == TemplateRewrite(1, ["-x"])
    ensures Tokenize(role, "(-$1)") == Ok(Tokenized(5, ["--x"]))
  {
    assert "(-$1)"[1..] == "-$1)";
    TemplateNext(role, "(-$1)", '(');
    assert ProcessSeg(role, Seg("(", Plain), State(0, [])) == Ok(More(State(1, [""])));
    WalkDash(role);
    hide NextMatch, ProcessSeg;
  }

  lemma DashIsArg()
    ensures AllArgs(["-x"])
  {
    var piece := [Seg("-", Plain), Seg("x", Plain)];
    assert piece[1..] == [Seg("x", Plain)] && piece[1..][1..] == [];
    assert SegOk(piece[0]) && SegOk(piece[1]) && Clean(piece[1..]);
    assert Texts(piece) == ["-", "x"] && ["-", "x"][1..] == ["x"] && ["x"][1..] == [];
    assert "-" + ("x" + "") == "-x";
    assert IsArgPiece("-x", piece);
  }

  lemma CommentInPrint()
    ensures Print(["--x"]) == "(--x)" && Split(NoMatches, "--x)", 1).Err? && "(--x)"[1..] == "--x)"
  {
    assert "--x)"[..2] == "--";
    RejectionIsOpener("--x)");
    assert "(" + "--x" + ")" == "(--x)";
  }

  /** A valid argument and a validated template whose rewritten list opens a comment. */
  lemma RewrittenIntoComment()
    ensures Tokenize(ArgumentList, "(-x)") == Ok(Tokenized(4, ["-x"]))
    ensures Tokenize(TemplateRewrite(1, ["-x"]), "(-$1)") == Ok(Tokenized(5, ["--x"]))
    ensures Print(["--x"]) == "(--x)" && Tokenize(ArgumentList, "(--x)").Err?
  {
    hide *;
    DashIsArg();
    PrintThenTokenize(["-x"]);
    DashPrint();
    TemplateWalk(TemplateRewrite(1, ["-x"]));
    CommentInPrint();
    SplitFails("(--x)");
  }

  lemma DashPrint()
    ensures Print(["-x"]) == "(-x)" && |"(-x)"| == 4
  {
    assert "(" + "-x" + ")" == "(-x)";
  }
}
