/**
 * The language of argument lists, independently of the scan loop, and the round trip
 * between printing a list of arguments and tokenising it.
 */
module ArgumentMeaning {
  import opened Common
  import opened TextProcessor
  import opened MacroArgs
  import opened ArgumentLists

  // --------------------------------------------------- outputs of a piece

  function OutText(role: Role, seg: Seg): string
    requires seg.text != ""
  {
    match Output(role, seg)
    case Ok(text) => text
    case Err(_) => ""
  }

  function Outputs(role: Role, piece: Piece): (outs: seq<string>)
    requires NonEmptySegs(piece)
    ensures |outs| == |piece| && forall i :: 0 <= i < |piece| ==> outs[i] == OutText(role, piece[i])
  {
    seq(|piece|, i requires 0 <= i < |piece| => OutText(role, piece[i]))
  }

  /** Every segment of the piece has an output. */
  predicate AllOutput(role: Role, piece: Piece)
    requires NonEmptySegs(piece)
  {
    forall i :: 0 <= i < |piece| ==> Output(role, piece[i]).Ok?
  }

  lemma {:induction false} PieceOutputIsCat(role: Role, piece: Piece)
    requires NonEmptySegs(piece)
    ensures PieceOutput(role, piece).Ok? <==> AllOutput(role, piece)
    ensures AllOutput(role, piece) ==> PieceOutput(role, piece) == Ok(Cat(Outputs(role, piece)))
  {
    hide Output;
    if piece != [] {
      PieceOutputIsCat(role, piece[1..]);
      assert Outputs(role, piece) == [OutText(role, piece[0])] + Outputs(role, piece[1..]);
      assert AllOutput(role, piece) <==> Output(role, piece[0]).Ok? && AllOutput(role, piece[1..]) by {
        assert forall i :: 0 <= i < |piece[1..]| ==> piece[1..][i] == piece[i + 1];
        assert forall i :: 1 <= i < |piece| ==> piece[i] == piece[1..][i - 1];
      }
    }
  }

  // --------------------------------------------------- trimming a piece

  function TrimLeftSegs(piece: Piece): (r: Piece)
    ensures |r| <= |piece| && r == piece[|piece| - |r|..]
  {
    if piece != [] && IsBlankPart(piece[0].text) then TrimLeftSegs(piece[1..]) else piece
  }

  function TrimRightSegs(piece: Piece): (r: Piece)
    ensures r <= piece
  {
    if piece != [] && IsBlankPart(piece[|piece| - 1].text) then TrimRightSegs(piece[..|piece| - 1]) else piece
  }

  /** The piece without its leading and trailing blanks. */
  function TrimSegs(piece: Piece): Piece {
    TrimRightSegs(TrimLeftSegs(piece))
  }

  /** A blank segment is output as it is; every other one becomes a solid text. */
  predicate KeepsBlanks(role: Role, piece: Piece)
    requires NonEmptySegs(piece)
  {
    forall i :: 0 <= i < |piece| ==>
      if IsBlankPart(piece[i].text) then OutText(role, piece[i]) == piece[i].text else Solid(OutText(role, piece[i]))
  }

  lemma OutputsTail(role: Role, piece: Piece)
    requires piece != [] && NonEmptySegs(piece)
    ensures NonEmptySegs(piece[1..])
    ensures Outputs(role, piece)[1..] == Outputs(role, piece[1..])
    ensures KeepsBlanks(role, piece) ==> KeepsBlanks(role, piece[1..])
  {
    hide OutText, Solid, IsBlankPart;
    assert forall i :: 0 <= i < |piece[1..]| ==> piece[1..][i] == piece[i + 1];
  }

  lemma OutputsInit(role: Role, piece: Piece)
    requires piece != [] && NonEmptySegs(piece)
    ensures var init := piece[..|piece| - 1];
            NonEmptySegs(init) && Outputs(role, piece)[..|piece| - 1] == Outputs(role, init) &&
            (KeepsBlanks(role, piece) ==> KeepsBlanks(role, init))
  {
    hide OutText, Solid, IsBlankPart;
  }

  /** The output is a blank part exactly when the segment is. */
  lemma BlankOutput(role: Role, piece: Piece, i: nat)
    requires NonEmptySegs(piece) && KeepsBlanks(role, piece) && i < |piece|
    ensures IsBlankPart(Outputs(role, piece)[i]) <==> IsBlankPart(piece[i].text)
  {
    hide OutText;
  }

  lemma {:induction false} TrimLeftOutputs(role: Role, piece: Piece)
    requires NonEmptySegs(piece) && KeepsBlanks(role, piece)
    ensures TrimLeftParts(Outputs(role, piece)) == Outputs(role, TrimLeftSegs(piece))
  {
    hide NonEmptySegs, KeepsBlanks, Outputs, IsBlankPart;
    if piece != [] {
      OutputsTail(role, piece);
      BlankOutput(role, piece, 0);
      if IsBlankPart(piece[0].text) {
        TrimLeftOutputs(role, piece[1..]);
      }
    }
  }

  lemma {:induction false} TrimRightOutputs(role: Role, piece: Piece)
    requires NonEmptySegs(piece) && KeepsBlanks(role, piece)
    ensures TrimRightParts(Outputs(role, piece)) == Outputs(role, TrimRightSegs(piece))
  {
    hide NonEmptySegs, KeepsBlanks, Outputs, IsBlankPart;
    if piece != [] {
      OutputsInit(role, piece);
      BlankOutput(role, piece, |piece| - 1);
      if IsBlankPart(piece[|piece| - 1].text) {
        TrimRightOutputs(role, piece[..|piece| - 1]);
      }
    }
  }

  lemma KeepsBlanksLeft(role: Role, piece: Piece)
    requires NonEmptySegs(piece) && KeepsBlanks(role, piece)
    ensures NonEmptySegs(TrimLeftSegs(piece)) && KeepsBlanks(role, TrimLeftSegs(piece))
  {
    hide *;
    KeepsBlanksSuffix(role, piece, |piece| - |TrimLeftSegs(piece)|);
  }

  lemma KeepsBlanksSuffix(role: Role, piece: Piece, n: nat)
    requires n <= |piece| && NonEmptySegs(piece) && KeepsBlanks(role, piece)
    ensures NonEmptySegs(piece[n..]) && KeepsBlanks(role, piece[n..])
  {
    hide OutText, Solid, IsBlankPart;
    assert forall i :: 0 <= i < |piece| - n ==> piece[n..][i] == piece[n + i];
  }

  lemma TrimRightNonEmpty(piece: Piece)
    requires NonEmptySegs(piece)
    ensures NonEmptySegs(TrimRightSegs(piece))
  {
  }

  lemma OutputsBlankOrSolid(role: Role, piece: Piece)
    requires NonEmptySegs(piece) && KeepsBlanks(role, piece)
    ensures BlankOrSolid(Outputs(role, piece))
  {
    hide OutText, Solid, IsBlankPart;
  }

  /** Trimming the text a piece produces is producing the text of the trimmed piece. */
  lemma TrimOutput(role: Role, piece: Piece)
    requires NonEmptySegs(piece) && KeepsBlanks(role, piece)
    ensures NonEmptySegs(TrimSegs(piece))
    ensures Trim(Cat(Outputs(role, piece))) == Cat(Outputs(role, TrimSegs(piece)))
    ensures Trim(Cat(Outputs(role, piece))) == "" <==> TrimSegs(piece) == []
  {
    hide NonEmptySegs, KeepsBlanks, Trim, Cat, TrimLeftSegs, TrimRightSegs, TrimLeftParts, TrimRightParts, OutText,
      BlankOrSolid;
    var left := TrimLeftSegs(piece);
    KeepsBlanksLeft(role, piece);
    TrimRightNonEmpty(left);
    OutputsBlankOrSolid(role, piece);
    TrimLeftOutputs(role, piece);
    TrimRightOutputs(role, left);
    TrimCat(Outputs(role, piece));
  }

  // --------------------------------------------------- trimmed pieces stay clean

  lemma {:induction false} TrimLeftWellFormed(piece: Piece, d: nat)
    requires Clean(piece) && Nested(piece, d)
    ensures Clean(TrimLeftSegs(piece)) && Nested(TrimLeftSegs(piece), d)
  {
    if piece != [] && IsBlankPart(piece[0].text) {
      assert !IsQuote(piece[0].text[0]);
      TrimLeftWellFormed(piece[1..], d);
    }
  }

  lemma {:induction false} DropLastWellFormed(piece: Piece, d: nat)
    requires Clean(piece) && Nested(piece, d)
    requires piece != [] && IsBlankPart(piece[|piece| - 1].text)
    ensures Clean(piece[..|piece| - 1]) && Nested(piece[..|piece| - 1], d)
  {
    var init := piece[..|piece| - 1];
    if |piece| == 1 {
      assert SegOk(piece[0]) && !IsQuote(piece[0].text[0]);
      assert piece[1..] == [];
    } else {
      assert init[1..] == piece[1..][..|piece| - 2];
      assert init[0] == piece[0] && (|piece| > 2 ==> init[1] == piece[1]);
      DropLastWellFormed(piece[1..], NextDepth(d + 1, piece[0]) - 1);
    }
  }

  lemma {:induction false} TrimRightWellFormed(piece: Piece, d: nat)
    requires Clean(piece) && Nested(piece, d)
    ensures Clean(TrimRightSegs(piece)) && Nested(TrimRightSegs(piece), d)
  {
    if piece != [] && IsBlankPart(piece[|piece| - 1].text) {
      DropLastWellFormed(piece, d);
      TrimRightWellFormed(piece[..|piece| - 1], d);
    }
  }

  lemma {:induction false} CleanSegs(piece: Piece)
    requires Clean(piece)
    ensures forall i :: 0 <= i < |piece| ==> SegOk(piece[i])
    ensures NonEmptySegs(piece)
  {
    if piece != [] {
      CleanSegs(piece[1..]);
      assert forall i :: 1 <= i < |piece| ==> piece[i] == piece[1..][i - 1];
    }
  }

  /** Without placeholders every segment stands for its own text. */
  lemma ArgumentOutputs(piece: Piece)
    requires Clean(piece)
    ensures NonEmptySegs(piece) && AllOutput(ArgumentList, piece)
    ensures Outputs(ArgumentList, piece) == Texts(piece)
    ensures KeepsBlanks(ArgumentList, piece)
  {
    CleanSegs(piece);
    forall i | 0 <= i < |piece| && !IsBlankPart(piece[i].text)
      ensures Solid(OutText(ArgumentList, piece[i]))
    {
      assert SegOk(piece[i]);
    }
  }

  // --------------------------------------------------- the language

  function Token(piece: Piece): string {
    Trim(Flat(piece))
  }

  function TokenList(pieces: seq<Piece>): seq<string> {
    if pieces == [] then [] else [Token(pieces[0])] + TokenList(pieces[1..])
  }

  predicate NoneBlank(pieces: seq<Piece>) {
    pieces != [] ==> Token(pieces[0]) != "" && NoneBlank(pieces[1..])
  }

  /** Only a list of one blank piece may have a blank piece: it is the empty list. */
  function TokensOf(head: Piece, rest: seq<Piece>): seq<string> {
    if rest == [] && Token(head) == "" then [] else [Token(head)] + TokenList(rest)
  }

  predicate Filled(head: Piece, rest: seq<Piece>) {
    rest == [] || (Token(head) != "" && NoneBlank(rest))
  }

  /** The first `len` characters are an argument list with these pieces. */
  predicate IsArgumentList(text: string, len: nat, head: Piece, rest: seq<Piece>) {
    len <= |text| && text[..len] == "(" + ArgsText(head, rest) && WellFormed(head, rest, 0) && Filled(head, rest)
  }

  lemma ArgumentPiece(piece: Piece)
    requires Clean(piece)
    ensures NonEmptySegs(piece) && PieceOutput(ArgumentList, piece) == Ok(Flat(piece))
  {
    ArgumentOutputs(piece);
    PieceOutputIsCat(ArgumentList, piece);
  }

  lemma NonEmptyOfWellFormed(head: Piece, rest: seq<Piece>, d: nat)
    requires WellFormed(head, rest, d)
    ensures NonEmptyPieces(head, rest)
  {
    CleanSegs(head);
    forall i | 0 <= i < |rest| ensures NonEmptySegs(rest[i]) {
      CleanSegs(rest[i]);
    }
  }

  lemma FinishStep(role: Role, done: seq<string>, head: Piece, rest: seq<Piece>, text: string)
    requires NonEmptyPieces(head, rest) && PieceOutput(role, head) == Ok(text)
    ensures rest != [] ==> NonEmptyPieces(rest[0], rest[1..])
    ensures Finish(role, done, "", head, rest) ==
            if rest == [] then
              if Trim(text) != "" then Ok(done + [Trim(text)]) else if done != [] then Err(EmptyArg) else Ok([])
            else if Trim(text) == "" then Err(EmptyArg)
            else Finish(role, done + [Trim(text)], "", rest[0], rest[1..])
  {
    hide Trim, PieceOutput;
    assert "" + text == text;
  }

  lemma WellFormedRest(head: Piece, rest: seq<Piece>, d: nat)
    requires WellFormed(head, rest, d)
    ensures Clean(head) && NonEmptyPieces(head, rest)
    ensures rest != [] ==> WellFormed(rest[0], rest[1..], 0)
  {
    NonEmptyOfWellFormed(head, rest, d);
  }

  lemma {:induction false} FinishArguments(done: seq<string>, head: Piece, rest: seq<Piece>)
    requires WellFormed(head, rest, 0)
    ensures NonEmptyPieces(head, rest)
    ensures Finish(ArgumentList, done, "", head, rest) ==
            if done == [] && rest == [] && Token(head) == "" then Ok([])
            else if Token(head) == "" || !NoneBlank(rest) then Err(EmptyArg)
            else Ok(done + ([Token(head)] + TokenList(rest)))
    decreases |rest|
  {
    WellFormedRest(head, rest, 0);
    ArgumentPiece(head);
    FinishStep(ArgumentList, done, head, rest, Flat(head));
    assert Token(head) == Trim(Flat(head));
    hide WellFormed, Clean, Flat, Trim, NonEmptyPieces, PieceOutput, Finish, Token;
    var more := done + [Token(head)];
    AppendAssoc(done, [Token(head)], TokenList(rest));
    AppendEmpty(more);
    if rest != [] {
      FinishArguments(more, rest[0], rest[1..]);
    }
  }

  /**
   * What is accepted, how much is consumed, and the tokens: a list of balanced pieces with
   * closed quotes and no comment opener, separated by commas, up to the first matching
   * parenthesis; the tokens are the trimmed pieces.
   */
  lemma TokeniserMeaning(text: string, len: nat, tokens: seq<string>)
    ensures Tokenize(ArgumentList, text) == Ok(Tokenized(len, tokens)) <==>
            exists head, rest :: IsArgumentList(text, len, head, rest) && tokens == TokensOf(head, rest)
  {
    if Tokenize(ArgumentList, text) == Ok(Tokenized(len, tokens)) {
      ArgumentPieces(text);
    }
    if exists head, rest :: IsArgumentList(text, len, head, rest) && tokens == TokensOf(head, rest) {
      var head, rest :| IsArgumentList(text, len, head, rest) && tokens == TokensOf(head, rest);
      hide *;
      AcceptArguments(text, len, head, rest);
    }
  }

  /** The pieces of an accepted text are those of the split behind its parenthesis. */
  lemma ArgumentPieces(text: string)
    requires Tokenize(ArgumentList, text).Ok?
    ensures text != "" && Split(NoMatches, text[1..], 1).Ok?
    ensures var p, result := Split(NoMatches, text[1..], 1).value, Tokenize(ArgumentList, text).value;
            IsArgumentList(text, result.len, p.head, p.rest) && result.tokens == TokensOf(p.head, p.rest)
  {
    hide Tokenize, Finish, WellFormed, ArgsText, Split, Token;
    TokenizeIsSplit(ArgumentList, text);
    var s := text[1..];
    SplitSound(s, 1);
    var p := Split(NoMatches, s, 1).value;
    FinishArguments([], p.head, p.rest);
    assert text[..1 + p.len] == "(" + s[..p.len];
  }

  lemma AcceptArguments(text: string, len: nat, head: Piece, rest: seq<Piece>)
    requires IsArgumentList(text, len, head, rest)
    ensures Tokenize(ArgumentList, text) == Ok(Tokenized(len, TokensOf(head, rest)))
  {
    hide Tokenize, Finish, WellFormed, ArgsText, Split, Token;
    var s, t := text[1..], text[len..];
    assert text[0] == text[..len][0];
    assert s == ArgsText(head, rest) + t by {
      assert text == text[..len] + t;
    }
    SplitComplete(head, rest, 0, t);
    TokenizeIsSplit(ArgumentList, text);
    FinishArguments([], head, rest);
    assert [] + ([Token(head)] + TokenList(rest)) == [Token(head)] + TokenList(rest);
  }

  // --------------------------------------------------- round trip

  /** How a rewritten argument list is printed. */
  function Print(tokens: seq<string>): string {
    "(" + Join(tokens, ", ") + ")"
  }

  ghost predicate IsArgPiece(token: string, piece: Piece) {
    Clean(piece) && Nested(piece, 0) && Flat(piece) == token
  }

  /** A token that can be an argument: solid, balanced, quotes closed, no comment opener. */
  ghost predicate IsArg(token: string) {
    Solid(token) && exists piece :: IsArgPiece(token, piece)
  }

  ghost predicate AllArgs(tokens: seq<string>) {
    forall i :: 0 <= i < |tokens| ==> IsArg(tokens[i])
  }

  lemma TrimIsArg(piece: Piece)
    requires Clean(piece) && Nested(piece, 0)
    ensures Token(piece) != "" ==> IsArg(Token(piece))
  {
    if Token(piece) != "" {
      ArgumentOutputs(piece);
      TrimOutput(ArgumentList, piece);
      TrimLeftWellFormed(piece, 0);
      TrimRightWellFormed(TrimLeftSegs(piece), 0);
      ArgumentOutputs(TrimSegs(piece));
      assert IsArgPiece(Token(piece), TrimSegs(piece));
    }
  }

  lemma {:induction false} RestAreArgs(rest: seq<Piece>)
    requires forall i :: 0 <= i < |rest| ==> Clean(rest[i]) && Nested(rest[i], 0)
    requires NoneBlank(rest)
    ensures AllArgs(TokenList(rest))
  {
    hide Clean, Nested, Token, IsArg;
    if rest != [] {
      TrimIsArg(rest[0]);
      RestAreArgs(rest[1..]);
    }
  }

  lemma AcceptedTokensAreArgs(text: string)
    requires Tokenize(ArgumentList, text).Ok?
    ensures AllArgs(Tokenize(ArgumentList, text).value.tokens)
  {
    hide Tokenize, Split, ArgsText, Clean, Nested, NoneBlank, Token, IsArg;
    ArgumentPieces(text);
    var head, rest := Split(NoMatches, text[1..], 1).value.head, Split(NoMatches, text[1..], 1).value.rest;
    if TokensOf(head, rest) != [] {
      TrimIsArg(head);
      if rest != [] {
        RestAreArgs(rest);
      }
      assert TokensOf(head, rest)[1..] == TokenList(rest);
    }
  }

  ghost function PieceOf(token: string): (piece: Piece)
    requires IsArg(token)
    ensures IsArgPiece(token, piece)
  {
    var piece :| IsArgPiece(token, piece); piece
  }

  const SPACE: Seg := Seg(" ", Plain)

  /** The pieces of the arguments after the first, each behind the printed blank. */
  ghost function Spaced(tokens: seq<string>): seq<Piece>
    requires AllArgs(tokens)
  {
    if tokens == [] then [] else [[SPACE] + PieceOf(tokens[0])] + Spaced(tokens[1..])
  }

  lemma SpacedPiece(token: string)
    requires IsArg(token)
    ensures var piece := [SPACE] + PieceOf(token);
            Clean(piece) && Nested(piece, 0) && Flat(piece) == " " + token && Trim(" " + token) == token
  {
    var piece := PieceOf(token);
    FlatCons(SPACE, piece);
    assert ([SPACE] + piece)[1..] == piece;
    assert (" " + token)[1..] == token;
    TrimSolid(token);
    assert TrimLeft(" " + token) == TrimLeft(token);
  }

  lemma {:induction false} SpacedText(head: Piece, tokens: seq<string>)
    requires AllArgs(tokens)
    ensures ArgsText(head, Spaced(tokens)) == Flat(head) + Cat(Commas(tokens)) + ")"
    decreases |tokens|
  {
    if tokens == [] {
      hide Flat;
      AppendEmpty(Flat(head));
    } else {
      SpacedText([SPACE] + PieceOf(tokens[0]), tokens[1..]);
      SpacedPiece(tokens[0]);
      SpacedCons(head, tokens);
      CommasCons(tokens);
      hide *;
      Regroup(Flat(head), ",", " " + tokens[0], Cat(Commas(tokens[1..])), ")");
    }
  }

  lemma SpacedCons(head: Piece, tokens: seq<string>)
    requires AllArgs(tokens) && tokens != []
    ensures ArgsText(head, Spaced(tokens)) ==
            Flat(head) + ("," + ArgsText([SPACE] + PieceOf(tokens[0]), Spaced(tokens[1..])))
  {
    hide Flat, PieceOf, IsArg;
    Cons([SPACE] + PieceOf(tokens[0]), Spaced(tokens[1..]));
  }

  lemma CommasCons(tokens: seq<string>)
    requires tokens != []
    ensures Cat(Commas(tokens)) == ("," + (" " + tokens[0])) + Cat(Commas(tokens[1..]))
  {
    var first, rest := ", " + tokens[0], Commas(tokens[1..]);
    assert Commas(tokens) == [first] + rest;
    CommaBlank();
    hide *;
    CatCons(first, rest);
    AppendAssoc(",", " ", tokens[0]);
  }

  lemma CommaBlank()
    ensures "," + " " == ", "
  {
  }

  lemma CatCons(first: string, rest: seq<string>)
    ensures Cat([first] + rest) == first + Cat(rest)
  {
    Cons(first, rest);
  }

  lemma Regroup(a: string, b: string, c: string, d: string, e: string)
    ensures a + (b + (c + d + e)) == a + ((b + c) + d) + e
  {
  }

  /** Each text behind a printed separator. */
  function Commas(tokens: seq<string>): seq<string> {
    if tokens == [] then [] else [", " + tokens[0]] + Commas(tokens[1..])
  }

  lemma {:induction false} JoinIsCommas(tokens: seq<string>)
    requires tokens != []
    ensures Join(tokens, ", ") == tokens[0] + Cat(Commas(tokens[1..]))
  {
    if |tokens| > 1 {
      JoinIsCommas(tokens[1..]);
    }
  }

  lemma {:induction false} SpacedTokens(tokens: seq<string>)
    requires AllArgs(tokens)
    ensures TokenList(Spaced(tokens)) == tokens && NoneBlank(Spaced(tokens))
    ensures forall i :: 0 <= i < |Spaced(tokens)| ==> Clean(Spaced(tokens)[i]) && Nested(Spaced(tokens)[i], 0)
  {
    hide Clean, Nested, Flat, Trim;
    if tokens != [] {
      SpacedPiece(tokens[0]);
      SpacedTokens(tokens[1..]);
    }
  }

  /** The pieces of a printed list of arguments. */
  lemma PrintedPieces(tokens: seq<string>)
    requires AllArgs(tokens) && tokens != []
    ensures AllArgs(tokens[1..])
    ensures IsArgumentList(Print(tokens), |Print(tokens)|, PieceOf(tokens[0]), Spaced(tokens[1..]))
    ensures TokensOf(PieceOf(tokens[0]), Spaced(tokens[1..])) == tokens
  {
    var head, rest := PieceOf(tokens[0]), Spaced(tokens[1..]);
    FirstToken(tokens[0]);
    SpacedText(head, tokens[1..]);
    JoinIsCommas(tokens);
    SpacedTokens(tokens[1..]);
    hide Clean, Nested, Flat, Trim, ArgsText, TokenList, NoneBlank, Token, IsArg, Solid, Join, Spaced, Commas, Cat;
    AppendAssoc("(", tokens[0] + Cat(Commas(tokens[1..])), ")");
    TakeAll(Print(tokens));
    Uncons(tokens);
  }

  lemma FirstToken(token: string)
    requires IsArg(token)
    ensures var piece := PieceOf(token);
            Clean(piece) && Nested(piece, 0) && Flat(piece) == token && Token(piece) == token != ""
  {
    TrimSolid(token);
  }

  /** Printing arguments and tokenising the text gives them back and consumes all of it. */
  lemma PrintThenTokenize(tokens: seq<string>)
    requires AllArgs(tokens)
    ensures Tokenize(ArgumentList, Print(tokens)) == Ok(Tokenized(|Print(tokens)|, tokens))
  {
    var text := Print(tokens);
    if tokens == [] {
      ArgsTextEmpty([]);
      assert Token([]) == "";
      assert text == "()" && text[..2] == text;
      hide Tokenize, ArgsText, Token;
      AcceptArguments(text, 2, [], []);
    } else {
      PrintedPieces(tokens);
      hide *;
      AcceptArguments(text, |text|, PieceOf(tokens[0]), Spaced(tokens[1..]));
    }
  }

  /** For every accepted text, printing its tokens and tokenising again returns the same tokens. */
  lemma RoundTrip(text: string)
    requires Tokenize(ArgumentList, text).Ok?
    ensures var tokens := Tokenize(ArgumentList, text).value.tokens;
            Tokenize(ArgumentList, Print(tokens)) == Ok(Tokenized(|Print(tokens)|, tokens))
  {
    AcceptedTokensAreArgs(text);
    PrintThenTokenize(Tokenize(ArgumentList, text).value.tokens);
  }
}
