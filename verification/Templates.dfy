/**
 * Rewrite templates: the index-driven, in-place rewriter is simultaneous substitution,
 * and the dry run made when preferences are loaded decides whether it can fail.
 */
module Templates {
  import opened Common
  import opened TextProcessor
  import opened MacroArgs
  import opened ArgumentLists
  import opened ArgumentMeaning
  import opened Placeholders

  /** A placeholder slice whose indices the matcher has checked against the argument count. */
  predicate IsPlaceholder(slice: string, argCount: nat) {
    Solid(slice) && slice[0] == '$' &&
    match Parse(slice)
    case Err(_) => false
    case Ok(parsed) =>
      parsed.placeholder.Range? && parsed.placeholder.number <= argCount && parsed.placeholder.rangeEnd <= argCount
  }

  /** The backslash that the matcher takes in front of a dollar sign. */
  predicate IsEscape(seg: Seg) {
    seg.kind == Matched && seg.text == "\\"
  }

  /** What a template scan can produce. */
  predicate TemplateSeg(argCount: nat, seg: Seg) {
    match seg.kind
    case Masked => IsQuoted(seg.text)
    case Matched => IsEscape(seg) || IsPlaceholder(seg.text, argCount)
    case Plain => |seg.text| == 1
  }

  predicate TemplatePiece(argCount: nat, piece: Piece) {
    forall i :: 0 <= i < |piece| ==> TemplateSeg(argCount, piece[i])
  }

  predicate TemplatePieces(argCount: nat, pieces: seq<Piece>) {
    forall i :: 0 <= i < |pieces| ==> TemplatePiece(argCount, pieces[i])
  }

  lemma NextTemplateSeg(argCount: nat, s: string)
    requires s != "" && NextMatch(PlaceholderMatcher(argCount), s).Ok?
    ensures var m := NextMatch(PlaceholderMatcher(argCount), s).value;
            TemplateSeg(argCount, Seg(s[..m.len], m.kind))
  {
    hide Parse, Rejection, QuoteLength, IsQuoted;
    var m := NextMatch(PlaceholderMatcher(argCount), s).value;
    if m.kind == Masked {
      QuoteLocal(s, "");
    } else if m.kind == Matched && s[0] == '$' {
      ReparseSlice(s);
      LastChar(s);
    }
  }

  lemma TemplateCons(argCount: nat, seg: Seg, piece: Piece)
    ensures TemplatePiece(argCount, [seg] + piece) <==> TemplateSeg(argCount, seg) && TemplatePiece(argCount, piece)
  {
    hide TemplateSeg;
    var all := [seg] + piece;
    assert all[0] == seg && forall i :: 0 <= i < |piece| ==> all[i + 1] == piece[i];
  }

  lemma TemplatePiecesCons(argCount: nat, piece: Piece, pieces: seq<Piece>)
    ensures TemplatePieces(argCount, [piece] + pieces) <==>
            TemplatePiece(argCount, piece) && TemplatePieces(argCount, pieces)
  {
    hide TemplatePiece;
    var all := [piece] + pieces;
    assert all[0] == piece && forall i :: 0 <= i < |pieces| ==> all[i + 1] == pieces[i];
  }

  lemma {:induction false} SplitTemplate(argCount: nat, s: string, depth: nat)
    requires depth > 0 && Split(PlaceholderMatcher(argCount), s, depth).Ok?
    ensures var p := Split(PlaceholderMatcher(argCount), s, depth).value;
            TemplatePiece(argCount, p.head) && TemplatePieces(argCount, p.rest)
    decreases |s|
  {
    hide NextMatch, TemplatePiece, TemplatePieces, TemplateSeg;
    var app := PlaceholderMatcher(argCount);
    var m := NextMatch(app, s).value;
    var seg := Seg(s[..m.len], m.kind);
    NextTemplateSeg(argCount, s);
    NoSegs(argCount);
    if depth == 1 && IsChar(seg, ')') {
    } else if depth == 1 && IsChar(seg, ',') {
      SplitTemplate(argCount, s[1..], 1);
      var p := Split(app, s[1..], 1).value;
      TemplatePiecesCons(argCount, p.head, p.rest);
    } else {
      SplitTemplate(argCount, s[m.len..], NextDepth(depth, seg));
      TemplateCons(argCount, seg, Split(app, s[m.len..], NextDepth(depth, seg)).value.head);
    }
  }

  lemma NoSegs(argCount: nat)
    ensures TemplatePiece(argCount, []) && TemplatePieces(argCount, [])
  {
  }

  // ------------------------------------------------ what a finished template is

  predicate AllNonEmpty(pieces: seq<Piece>) {
    forall i :: 0 <= i < |pieces| ==> NonEmptySegs(pieces[i])
  }

  /** Every segment of every piece has an output, and outputs keep blanks. */
  predicate Renders(role: Role, pieces: seq<Piece>)
    requires AllNonEmpty(pieces)
  {
    forall i :: 0 <= i < |pieces| ==> AllOutput(role, pieces[i]) && KeepsBlanks(role, pieces[i])
  }

  /** The largest argument number a placeholder slice uses. */
  function LastIndex(slice: string): nat
    requires slice != ""
  {
    match Parse(slice)
    case Ok(Parsed(_, Range(n, e))) => if e > n then e else n
    case _ => 0
  }

  /** With `count` arguments supplied, the segment has no value: an escape, or an index too large. */
  predicate Unrenderable(count: nat, seg: Seg) {
    seg.kind == Matched && seg.text != "" && (IsEscape(seg) || LastIndex(seg.text) > count)
  }

  predicate HasUnrenderable(count: nat, pieces: seq<Piece>) {
    exists i, j :: 0 <= i < |pieces| && 0 <= j < |pieces[i]| && Unrenderable(count, pieces[i][j])
  }

  predicate HasEscape(pieces: seq<Piece>) {
    exists i, j :: 0 <= i < |pieces| && 0 <= j < |pieces[i]| && IsEscape(pieces[i][j])
  }

  predicate AnyBlank(pieces: seq<Piece>) {
    exists i :: 0 <= i < |pieces| && TrimSegs(pieces[i]) == []
  }

  lemma {:induction false} NonEmptyTrimmed(piece: Piece)
    requires NonEmptySegs(piece)
    ensures NonEmptySegs(TrimSegs(piece))
  {
    TrimIs(piece);
    hide *;
    SuffixNonEmpty(piece, |piece| - |TrimLeftSegs(piece)|);
    TrimRightNonEmpty(TrimLeftSegs(piece));
  }

  lemma TrimIs(piece: Piece)
    ensures TrimSegs(piece) == TrimRightSegs(TrimLeftSegs(piece))
  {
  }

  lemma SuffixNonEmpty(piece: Piece, n: nat)
    requires n <= |piece| && NonEmptySegs(piece)
    ensures NonEmptySegs(piece[n..])
  {
  }

  /** A trimmed piece with every segment replaced by its output, all at once. */
  function Rendered(role: Role, piece: Piece): string
    requires NonEmptySegs(piece)
  {
    NonEmptyTrimmed(piece);
    Cat(Outputs(role, TrimSegs(piece)))
  }

  function RenderedList(role: Role, pieces: seq<Piece>): seq<string>
    requires AllNonEmpty(pieces)
  {
    if pieces == [] then [] else [Rendered(role, pieces[0])] + RenderedList(role, pieces[1..])
  }

  lemma PiecesTail(role: Role, pieces: seq<Piece>)
    requires pieces != [] && AllNonEmpty(pieces)
    ensures AllNonEmpty(pieces[1..])
    ensures RenderedList(role, pieces) == [Rendered(role, pieces[0])] + RenderedList(role, pieces[1..])
    ensures AnyBlank(pieces) <==> TrimSegs(pieces[0]) == [] || AnyBlank(pieces[1..])
    ensures Renders(role, pieces) <==>
            AllOutput(role, pieces[0]) && KeepsBlanks(role, pieces[0]) && Renders(role, pieces[1..])
  {
    hide NonEmptySegs, Rendered, AllOutput, KeepsBlanks, TrimSegs;
    assert forall i :: 1 <= i < |pieces| ==> pieces[i] == pieces[1..][i - 1];
    assert forall i :: 0 <= i < |pieces[1..]| ==> pieces[1..][i] == pieces[i + 1];
  }

  lemma RenderedToken(role: Role, piece: Piece)
    requires NonEmptySegs(piece) && AllOutput(role, piece) && KeepsBlanks(role, piece)
    ensures PieceOutput(role, piece).Ok?
    ensures Trim(PieceOutput(role, piece).value) == Rendered(role, piece)
    ensures Trim(PieceOutput(role, piece).value) == "" <==> TrimSegs(piece) == []
  {
    PieceOutputIsCat(role, piece);
    TrimOutput(role, piece);
  }

  /** A template that finishes has an output for every segment. */
  lemma {:induction false} FinishedOutputs(role: Role, done: seq<string>, prefix: string, head: Piece, rest: seq<Piece>)
    requires NonEmptyPieces(head, rest) && Finish(role, done, prefix, head, rest).Ok?
    ensures AllOutput(role, head) && forall i :: 0 <= i < |rest| ==> AllOutput(role, rest[i])
    decreases |rest|
  {
    hide Trim, AllOutput;
    PieceOutputIsCat(role, head);
    if rest != [] {
      FinishedOutputs(role, done + [Trim(prefix + PieceOutput(role, head).value)], "", rest[0], rest[1..]);
      assert forall i :: 1 <= i < |rest| ==> rest[i] == rest[1..][i - 1];
    }
  }

  /** When every segment has an output, the tokens are the rendered pieces. */
  lemma {:induction false} FinishRenders(role: Role, done: seq<string>, head: Piece, rest: seq<Piece>)
    requires NonEmptyPieces(head, rest) && AllNonEmpty([head] + rest) && Renders(role, [head] + rest)
    ensures Finish(role, done, "", head, rest) ==
            if done == [] && rest == [] && TrimSegs(head) == [] then Ok([])
            else if AnyBlank([head] + rest) then Err(EmptyArg)
            else Ok(done + RenderedList(role, [head] + rest))
    decreases |rest|
  {
    Cons(head, rest);
    PiecesTail(role, [head] + rest);
    hide NonEmptySegs, AllOutput, KeepsBlanks;
    RenderedToken(role, head);
    FinishStep(role, done, head, rest, PieceOutput(role, head).value);
    hide Renders, AnyBlank, Rendered, TrimSegs, Trim, PieceOutput, Finish, RenderedList, AllNonEmpty, NonEmptyPieces;
    var more := done + [Rendered(role, head)];
    AppendAssoc(done, [Rendered(role, head)], RenderedList(role, rest));
    if rest == [] {
      NothingBlank();
      AppendEmpty(more);
    } else {
      Uncons(rest);
      FinishRenders(role, more, rest[0], rest[1..]);
    }
  }

  lemma NothingBlank()
    ensures !AnyBlank([])
  {
  }

  // ------------------------------------------------ outputs of template segments

  predicate AllSolid(args: seq<string>) {
    forall i :: 0 <= i < |args| ==> Solid(args[i])
  }

  lemma {:induction false} JoinSolid(args: seq<string>)
    requires args != [] && AllSolid(args)
    ensures Solid(Join(args, ", "))
  {
    if |args| > 1 {
      JoinSolid(args[1..]);
    }
  }

  /** A checked placeholder has a value exactly when its arguments are there; the escape never has one. */
  lemma TemplateOutput(argCount: nat, args: seq<string>, seg: Seg)
    requires TemplateSeg(argCount, seg) && AllSolid(args)
    ensures seg.text != ""
    ensures Output(TemplateRewrite(argCount, args), seg).Ok? <==> !Unrenderable(|args|, seg)
    ensures !Unrenderable(|args|, seg) ==>
              var text := OutText(TemplateRewrite(argCount, args), seg);
              if IsBlankPart(seg.text) then text == seg.text else Solid(text)
  {
    if seg.kind == Matched && !Unrenderable(|args|, seg) {
      var Range(n, e) := Parse(seg.text).value.placeholder;
      JoinSolid(args[n - 1..LastIndex(seg.text)]);
    } else if seg.kind == Masked {
      assert Solid(seg.text);
    }
  }

  lemma CheckOutput(argCount: nat, seg: Seg)
    requires TemplateSeg(argCount, seg)
    ensures seg.text != "" && Output(TemplateCheck(argCount), seg) == Ok(seg.text)
    ensures IsBlankPart(seg.text) || Solid(seg.text)
  {
    if seg.kind == Masked {
      assert Solid(seg.text);
    }
  }

  lemma TemplateNonEmpty(argCount: nat, pieces: seq<Piece>)
    requires TemplatePieces(argCount, pieces)
    ensures AllNonEmpty(pieces)
  {
    forall i, j | 0 <= i < |pieces| && 0 <= j < |pieces[i]| ensures pieces[i][j].text != "" {
      CheckOutput(argCount, pieces[i][j]);
    }
  }

  lemma CheckRenders(argCount: nat, pieces: seq<Piece>)
    requires TemplatePieces(argCount, pieces) && AllNonEmpty(pieces)
    ensures Renders(TemplateCheck(argCount), pieces)
  {
    hide TemplateSeg, Solid, IsBlankPart;
    forall i, j | 0 <= i < |pieces| && 0 <= j < |pieces[i]|
      ensures Output(TemplateCheck(argCount), pieces[i][j]) == Ok(pieces[i][j].text)
      ensures IsBlankPart(pieces[i][j].text) || Solid(pieces[i][j].text)
    {
      CheckOutput(argCount, pieces[i][j]);
    }
  }

  lemma RewriteRenders(argCount: nat, args: seq<string>, pieces: seq<Piece>)
    requires TemplatePieces(argCount, pieces) && AllNonEmpty(pieces) && AllSolid(args)
    ensures Renders(TemplateRewrite(argCount, args), pieces) <==> !HasUnrenderable(|args|, pieces)
    ensures HasUnrenderable(|args|, pieces) ==>
            exists i :: 0 <= i < |pieces| && !AllOutput(TemplateRewrite(argCount, args), pieces[i])
  {
    var role := TemplateRewrite(argCount, args);
    forall i, j | 0 <= i < |pieces| && 0 <= j < |pieces[i]|
      ensures Output(role, pieces[i][j]).Ok? <==> !Unrenderable(|args|, pieces[i][j])
      ensures !Unrenderable(|args|, pieces[i][j]) ==>
                if IsBlankPart(pieces[i][j].text) then OutText(role, pieces[i][j]) == pieces[i][j].text
                else Solid(OutText(role, pieces[i][j]))
    {
      TemplateOutput(argCount, args, pieces[i][j]);
    }
    hide TemplateSeg, Solid, IsBlankPart, Output, OutText, Unrenderable;
    if HasUnrenderable(|args|, pieces) {
      var i, j :| 0 <= i < |pieces| && 0 <= j < |pieces[i]| && Unrenderable(|args|, pieces[i][j]);
      assert !AllOutput(role, pieces[i]);
    }
  }

  // ------------------------------------------------------------ main results

  /** The segments of a template, one piece per top-level argument. */
  function PiecesOf(argCount: nat, template: string): seq<Piece> {
    match SplitText(TemplateCheck(argCount), template)
    case Ok(p) => [p.head] + p.rest
    case Err(_) => []
  }

  /** The tokens a template yields under a role, read off its pieces. */
  function TemplateTokens(role: Role, pieces: seq<Piece>): Result<seq<string>>
    requires AllNonEmpty(pieces)
  {
    if |pieces| == 1 && TrimSegs(pieces[0]) == [] then Ok([])
    else if AnyBlank(pieces) then Err(EmptyArg)
    else Ok(RenderedList(role, pieces))
  }

  /** The pieces of a template are the same under every template role. */
  lemma SplitIsPieces(role: Role, template: string)
    requires !role.ArgumentList?
    ensures match SplitText(role, template)
            case Ok(p) =>
              PiecesOf(role.argCount, template) == [p.head] + p.rest &&
              TemplatePiece(role.argCount, p.head) && TemplatePieces(role.argCount, p.rest)
            case Err(_) => PiecesOf(role.argCount, template) == []
  {
    hide Split, TemplatePiece, TemplatePieces;
    if SplitText(role, template).Ok? {
      SplitTemplate(role.argCount, template[1..], 1);
    }
  }

  lemma AreTemplatePieces(role: Role, template: string)
    requires !role.ArgumentList?
    ensures TemplatePieces(role.argCount, PiecesOf(role.argCount, template)) &&
            AllNonEmpty(PiecesOf(role.argCount, template))
  {
    hide *;
    SplitIsPieces(role, template);
    NoSegs(role.argCount);
    if SplitText(role, template).Ok? {
      TemplatePiecesCons(role.argCount, SplitText(role, template).value.head, SplitText(role, template).value.rest);
    }
    TemplateNonEmpty(role.argCount, PiecesOf(role.argCount, template));
  }

  /** Under a role that renders every piece, finishing the split yields the tokens read off the pieces. */
  lemma FinishIsTokens(role: Role, head: Piece, rest: seq<Piece>)
    requires NonEmptyPieces(head, rest) && AllNonEmpty([head] + rest) && Renders(role, [head] + rest)
    ensures Finish(role, [], "", head, rest) == TemplateTokens(role, [head] + rest)
  {
    FinishRenders(role, [], head, rest);
    AppendEmpty(RenderedList(role, [head] + rest));
    hide Finish, TrimSegs, RenderedList, AnyBlank, NonEmptyPieces, AllNonEmpty, Renders;
  }

  lemma FinishHasOutputs(role: Role, head: Piece, rest: seq<Piece>)
    requires NonEmptyPieces(head, rest) && Finish(role, [], "", head, rest).Ok?
    ensures var pieces := [head] + rest;
            forall i :: 0 <= i < |pieces| ==> AllOutput(role, pieces[i])
  {
    hide AllOutput, Finish, NonEmptyPieces;
    FinishedOutputs(role, [], "", head, rest);
  }

  lemma TokenizeTemplate(role: Role, template: string)
    requires !role.ArgumentList?
    ensures var pieces := PiecesOf(role.argCount, template);
            TemplatePieces(role.argCount, pieces) && AllNonEmpty(pieces) &&
            (SplitText(role, template).Ok? && Renders(role, pieces) ==>
              (Tokenize(role, template).Ok? <==> TemplateTokens(role, pieces).Ok?) &&
              (Tokenize(role, template).Ok? ==>
               Tokenize(role, template).value.tokens == TemplateTokens(role, pieces).value)) &&
            (Tokenize(role, template).Ok? ==> SplitText(role, template).Ok? && forall i :: 0 <= i < |pieces| ==>
             AllOutput(role, pieces[i]))
  {
    hide *;
    TokenizeIsSplit(role, template);
    SplitIsPieces(role, template);
    AreTemplatePieces(role, template);
    if SplitText(role, template).Ok? {
      var p := SplitText(role, template).value;
      if Renders(role, [p.head] + p.rest) {
        FinishIsTokens(role, p.head, p.rest);
      }
      if Tokenize(role, template).Ok? {
        FinishHasOutputs(role, p.head, p.rest);
      }
    }
  }

  lemma TemplateEmptiness(role: Role, role': Role, pieces: seq<Piece>)
    requires AllNonEmpty(pieces)
    ensures TemplateTokens(role, pieces).Ok? <==> TemplateTokens(role', pieces).Ok?
  {
  }

  /**
   * The dry run decides everything but the values: a rewrite succeeds exactly when the
   * template passes validation and no placeholder is an escape or asks for an argument
   * that was not supplied.
   */
  lemma RewriteSucceeds(argCount: nat, template: string, args: seq<string>)
    requires AllSolid(args)
    ensures Tokenize(TemplateRewrite(argCount, args), template).Ok? <==>
            Tokenize(TemplateCheck(argCount), template).Ok? && !HasUnrenderable(|args|, PiecesOf(argCount, template))
  {
    var check, rewrite := TemplateCheck(argCount), TemplateRewrite(argCount, args);
    hide Tokenize, TemplateTokens, Renders, HasUnrenderable, TemplatePieces, AllNonEmpty, AllOutput, Split;
    TokenizeTemplate(check, template);
    TokenizeTemplate(rewrite, template);
    var pieces := PiecesOf(argCount, template);
    CheckRenders(argCount, pieces);
    RewriteRenders(argCount, args, pieces);
    TemplateEmptiness(check, rewrite, pieces);
    assert SplitText(check, template) == SplitText(rewrite, template);
  }

  /**
   * Load-time validation is sufficient: with exactly as many arguments as declared, a
   * validated template can only fail on an escaped dollar sign.
   */
  lemma ValidationIsSufficient(argCount: nat, template: string, args: seq<string>)
    requires AllSolid(args) && |args| == argCount
    requires Tokenize(TemplateCheck(argCount), template).Ok?
    ensures Tokenize(TemplateRewrite(argCount, args), template).Ok? <==> !HasEscape(PiecesOf(argCount, template))
  {
    hide *;
    RewriteSucceeds(argCount, template, args);
    TokenizeTemplate(TemplateCheck(argCount), template);
    OnlyEscapesFail(argCount, PiecesOf(argCount, template));
  }

  /** A checked placeholder is within the declared count, so only escapes have no value. */
  lemma OnlyEscapesFail(argCount: nat, pieces: seq<Piece>)
    requires TemplatePieces(argCount, pieces)
    ensures HasUnrenderable(argCount, pieces) <==> HasEscape(pieces)
  {
    hide Unrenderable, IsEscape, TemplateSeg;
    forall i, j | 0 <= i < |pieces| && 0 <= j < |pieces[i]|
      ensures Unrenderable(argCount, pieces[i][j]) <==> IsEscape(pieces[i][j])
    {
      assert TemplateSeg(argCount, pieces[i][j]);
      OnlyEscapeFails(argCount, pieces[i][j]);
    }
  }

  lemma OnlyEscapeFails(argCount: nat, seg: Seg)
    requires TemplateSeg(argCount, seg)
    ensures Unrenderable(argCount, seg) <==> IsEscape(seg)
  {
  }

  /** Rewriting is simultaneous substitution into the trimmed top-level tokens of the template. */
  lemma RewritingIsSubstitution(argCount: nat, template: string, args: seq<string>)
    requires AllSolid(args)
    requires Tokenize(TemplateRewrite(argCount, args), template).Ok?
    ensures var pieces := PiecesOf(argCount, template);
            AllNonEmpty(pieces) && Tokenize(TemplateCheck(argCount), template).Ok? &&
            Ok(Tokenize(TemplateCheck(argCount), template).value.tokens) ==
            TemplateTokens(TemplateCheck(argCount), pieces) &&
            Ok(Tokenize(TemplateRewrite(argCount, args), template).value.tokens) ==
            TemplateTokens(TemplateRewrite(argCount, args), pieces)
  {
    var check, rewrite := TemplateCheck(argCount), TemplateRewrite(argCount, args);
    RewriteSucceeds(argCount, template, args);
    TokenizeTemplate(check, template);
    TokenizeTemplate(rewrite, template);
    var pieces := PiecesOf(argCount, template);
    CheckRenders(argCount, pieces);
    RewriteRenders(argCount, args, pieces);
    hide Tokenize, TemplateTokens, Renders, HasUnrenderable, TemplatePieces, AllNonEmpty, AllOutput;
  }

  /** The text the dry run gives for a piece is the piece itself, trimmed. */
  lemma CheckedIsFlat(argCount: nat, piece: Piece)
    requires TemplatePiece(argCount, piece) && NonEmptySegs(piece)
    ensures Rendered(TemplateCheck(argCount), piece) == Flat(TrimSegs(piece)) == Trim(Flat(piece))
  {
    var role := TemplateCheck(argCount);
    NonEmptyTrimmed(piece);
    assert Outputs(role, piece) == Texts(piece);
    assert Outputs(role, TrimSegs(piece)) == Texts(TrimSegs(piece));
    forall i | 0 <= i < |piece| ensures IsBlankPart(piece[i].text) || Solid(piece[i].text) {
      CheckOutput(argCount, piece[i]);
    }
    TrimOutput(role, piece);
  }

  /** The text has a backslash directly before a dollar sign. */
  predicate HasEscapedDollar(s: string) {
    exists i :: 0 <= i < |s| - 1 && s[i] == '\\' && s[i + 1] == '$'
  }

  lemma EscapedDollarSuffix(s: string, n: nat)
    requires n <= |s|
    ensures HasEscapedDollar(s[n..]) ==> HasEscapedDollar(s)
  {
    if HasEscapedDollar(s[n..]) {
      var i :| 0 <= i < |s[n..]| - 1 && s[n..][i] == '\\' && s[n..][i + 1] == '$';
      assert s[n + i] == '\\' && s[n + i + 1] == '$';
    }
  }

  lemma {:induction false} SplitEscapes(argCount: nat, s: string, depth: nat)
    requires depth > 0 && Split(PlaceholderMatcher(argCount), s, depth).Ok?
    requires !HasEscapedDollar(s)
    ensures var p := Split(PlaceholderMatcher(argCount), s, depth).value;
            !HasEscape([p.head]) && !HasEscape(p.rest)
    decreases |s|
  {
    var app := PlaceholderMatcher(argCount);
    var m := NextMatch(app, s).value;
    var seg := Seg(s[..m.len], m.kind);
    assert !IsEscape(seg);
    hide NextMatch, HasEscapedDollar, IsEscape;
    if depth == 1 && IsChar(seg, ')') {
    } else if depth == 1 && IsChar(seg, ',') {
      EscapedDollarSuffix(s, 1);
      SplitEscapes(argCount, s[1..], 1);
      var p := Split(app, s[1..], 1).value;
      EscapeFree(p.head, p.rest);
    } else {
      EscapedDollarSuffix(s, m.len);
      SplitEscapes(argCount, s[m.len..], NextDepth(depth, seg));
      EscapeFreeSeg(seg, Split(app, s[m.len..], NextDepth(depth, seg)).value.head);
    }
  }

  lemma EscapeFree(head: Piece, rest: seq<Piece>)
    ensures HasEscape([head] + rest) <==> HasEscape([head]) || HasEscape(rest)
  {
    hide IsEscape;
    var all := [head] + rest;
    assert all[0] == head == [head][0] && forall i :: 0 <= i < |rest| ==> all[i + 1] == rest[i];
    if HasEscape(all) {
      var i, j :| 0 <= i < |all| && 0 <= j < |all[i]| && IsEscape(all[i][j]);
      assert i > 0 ==> all[i] == rest[i - 1];
    }
  }

  lemma EscapeFreeSeg(seg: Seg, piece: Piece)
    requires !IsEscape(seg) && !HasEscape([piece])
    ensures !HasEscape([[seg] + piece])
  {
    hide IsEscape;
    var more := [seg] + piece;
    assert [piece][0] == piece && [more][0] == more;
    assert forall j :: 1 <= j < |more| ==> more[j] == piece[j - 1];
  }

  /** A validated template without `\$` anywhere never fails on a call with the declared argument count. */
  lemma PlainTemplateNeverFails(argCount: nat, template: string, args: seq<string>)
    requires AllSolid(args) && |args| == argCount
    requires Tokenize(TemplateCheck(argCount), template).Ok?
    requires !HasEscapedDollar(template)
    ensures Tokenize(TemplateRewrite(argCount, args), template).Ok?
  {
    ValidationIsSufficient(argCount, template, args);
    TokenizeIsSplit(TemplateCheck(argCount), template);
    hide Tokenize;
    EscapedDollarSuffix(template, 1);
    SplitEscapes(argCount, template[1..], 1);
    var p := Split(PlaceholderMatcher(argCount), template[1..], 1).value;
    EscapeFree(p.head, p.rest);
  }
}
