/**
 * Tokenising the text of any balanced segments, with commas and comment openers anywhere: the
 * tokeniser cuts it at the commas outside parentheses, unless two segments that stand side by
 * side open a comment. Pieces joined with the printed separator give the tokens of the pieces,
 * one after the other.
 */
module LooseLists {
  import opened ArgumentLists
  import opened ArgumentMeaning
  import opened Common
  import opened MacroArgs
  import opened TextProcessor

  const COMMA: Seg := Seg(",", Plain)

  predicate AllOk(segs: Piece) {
    forall i :: 0 <= i < |segs| ==> SegOk(segs[i])
  }

  /** Parentheses outside quotes balance, starting `d` deep. */
  predicate Balanced(segs: Piece, d: nat) {
    if segs == [] then d == 0
    else (IsChar(segs[0], ')') ==> d > 0) && Balanced(segs[1..], NextDepth(d, segs[0]))
  }

  /** The segments cut at the commas outside parentheses. */
  function Top(segs: Piece, d: nat): (r: seq<Piece>)
    ensures r != []
  {
    if segs == [] then [[]]
    else if d == 0 && IsChar(segs[0], ',') then [[]] + Top(segs[1..], 0)
    else
      var r := Top(segs[1..], NextDepth(d, segs[0]));
      [[segs[0]] + r[0]] + r[1..]
  }

  /** Two single characters that stand side by side open a comment. */
  predicate OpenerMeets(segs: Piece) {
    exists i :: 0 <= i < |segs| - 1 && MeetsAt(segs, i)
  }

  predicate MeetsAt(segs: Piece, i: nat)
    requires i < |segs| - 1
  {
    segs[i].kind == Plain && segs[i].text != "" && segs[i + 1].text != "" &&
    Opener(segs[i].text[0], segs[i + 1].text[0])
  }

  lemma OkCons(seg: Seg, segs: Piece)
    ensures AllOk([seg] + segs) <==> SegOk(seg) && AllOk(segs)
  {
    hide SegOk;
    Cons(seg, segs);
    assert forall i :: 0 <= i < |segs| ==> ([seg] + segs)[i + 1] == segs[i];
  }

  lemma OkAppend(a: Piece, b: Piece)
    ensures AllOk(a + b) <==> AllOk(a) && AllOk(b)
  {
    hide SegOk;
    assert forall i :: 0 <= i < |a| ==> (a + b)[i] == a[i];
    assert forall i :: 0 <= i < |b| ==> (a + b)[|a| + i] == b[i];
  }

  lemma MeetsShift(seg: Seg, segs: Piece, i: nat)
    requires i < |segs| - 1
    ensures MeetsAt([seg] + segs, i + 1) <==> MeetsAt(segs, i)
  {
    hide Opener;
    assert ([seg] + segs)[i + 1] == segs[i] && ([seg] + segs)[i + 2] == segs[i + 1];
  }

  lemma MeetsFirst(seg: Seg, segs: Piece)
    requires SegOk(seg) && AllOk(segs)
    ensures Apart(seg, segs) <==> (segs == [] || !MeetsAt([seg] + segs, 0))
  {
    hide Opener;
    if segs != [] {
      assert SegOk(segs[0]) && ([seg] + segs)[0] == seg && ([seg] + segs)[1] == segs[0];
    }
  }

  lemma MeetsCons(seg: Seg, segs: Piece)
    requires SegOk(seg) && AllOk(segs)
    ensures seg.text != ""
    ensures OpenerMeets([seg] + segs) <==> !Apart(seg, segs) || OpenerMeets(segs)
  {
    var all := [seg] + segs;
    SegNotEmpty(seg);
    MeetsFirst(seg, segs);
    hide SegOk, Apart, MeetsAt, AllOk;
    if OpenerMeets(all) {
      var i :| 0 <= i < |all| - 1 && MeetsAt(all, i);
      if i > 0 {
        MeetsShift(seg, segs, i - 1);
      }
    }
    if OpenerMeets(segs) {
      var i :| 0 <= i < |segs| - 1 && MeetsAt(segs, i);
      MeetsShift(seg, segs, i);
    }
  }

  lemma {:induction false} CleanExactlyWhen(segs: Piece)
    requires AllOk(segs)
    ensures Clean(segs) <==> !OpenerMeets(segs)
  {
    if segs != [] {
      var seg, tail := segs[0], segs[1..];
      Uncons(segs);
      OkCons(seg, tail);
      MeetsCons(seg, tail);
      hide SegOk, OpenerMeets, Apart;
      CleanExactlyWhen(tail);
    }
  }

  // ------------------------------------------------------------------ the split

  /** The character behind a segment. */
  lemma NextChar(segs: Piece)
    requires AllOk(segs)
    ensures (Flat(segs) + ")")[0] == if segs == [] then ')' else segs[0].text[0]
    ensures segs != [] ==> segs[0].text != ""
  {
    if segs != [] {
      Uncons(segs);
      FlatCons(segs[0], segs[1..]);
      assert SegOk(segs[0]);
    }
  }

  /** A comment opener stops the scanner. */
  lemma OpenerStops(seg: Seg, t: string, d: nat)
    requires SegOk(seg) && seg.kind == Plain && t != "" && Opener(seg.text[0], t[0]) && d > 0
    ensures Split(NoMatches, seg.text + t, d).Err?
  {
    var s := seg.text + t;
    assert s[..2] == [s[0], s[1]];
    RejectionIsOpener(s);
  }

  lemma ApartNext(seg: Seg, segs: Piece)
    requires SegOk(seg) && AllOk(segs)
    ensures Apart(seg, segs) <==> (seg.kind == Plain ==> !Opener(seg.text[0], (Flat(segs) + ")")[0]))
  {
    NextChar(segs);
  }

  lemma DepthDown(seg: Seg, d: nat)
    requires IsChar(seg, ')') ==> d > 0
    ensures NextDepth(d + 1, seg) == NextDepth(d, seg) + 1
  {
  }

  /** The split of balanced segments: at the commas outside parentheses, unless two segments open a comment. */
  predicate SplitsAtTop(segs: Piece, d: nat) {
    var r := Split(NoMatches, Flat(segs) + ")", d + 1);
    if Clean(segs) then r == Ok(Pieces(|Flat(segs)| + 1, Top(segs, d)[0], Top(segs, d)[1..])) else r.Err?
  }

  lemma SplitsIs(segs: Piece, d: nat)
    ensures SplitsAtTop(segs, d) <==>
            var r := Split(NoMatches, Flat(segs) + ")", d + 1);
            if Clean(segs) then r == Ok(Pieces(|Flat(segs)| + 1, Top(segs, d)[0], Top(segs, d)[1..])) else r.Err?
  {
    hide Split, Flat, Clean, Top;
  }

  lemma {:induction false} SplitLoose(segs: Piece, d: nat)
    requires AllOk(segs) && Balanced(segs, d)
    ensures SplitsAtTop(segs, d)
  {
    if segs == [] {
      SplitNothing();
    } else {
      Uncons(segs);
      OkCons(segs[0], segs[1..]);
      hide SplitsAtTop, SegOk, NextDepth, IsChar, AllOk;
      SplitLoose(segs[1..], NextDepth(d, segs[0]));
      SplitLooseSeg(segs[0], segs[1..], d);
    }
  }

  lemma NoText()
    ensures Flat([]) == "" && Clean([]) && Flat([]) + ")" == ")" && ")" + "" == ")"
    ensures Top([], 0)[0] == [] && Top([], 0)[1..] == []
  {
  }

  lemma SplitNothing()
    ensures SplitsAtTop([], 0)
  {
    hide *;
    NoText();
    SplitClose("");
    SplitsIs([], 0);
  }

  lemma CleanCons(seg: Seg, tail: Piece)
    requires SegOk(seg)
    ensures seg.text != "" && (Clean([seg] + tail) <==> Clean(tail) && Apart(seg, tail))
  {
    Cons(seg, tail);
  }

  lemma PrependedSeg(seg: Seg, r: Result<Pieces>)
    ensures r.Err? ==> PrependSeg(seg, r).Err? && PrependPiece(r).Err?
    ensures r.Ok? ==> PrependSeg(seg, r) == Ok(Pieces(|seg.text| + r.value.len, [seg] + r.value.head, r.value.rest))
    ensures r.Ok? ==> PrependPiece(r) == Ok(Pieces(1 + r.value.len, [], [r.value.head] + r.value.rest))
  {
  }

  lemma SplitLooseSeg(seg: Seg, tail: Piece, d: nat)
    requires SegOk(seg) && AllOk(tail) && (IsChar(seg, ')') ==> d > 0) && SplitsAtTop(tail, NextDepth(d, seg))
    ensures SplitsAtTop([seg] + tail, d)
  {
    hide *;
    var t := Flat(tail) + ")";
    FlatCons(seg, tail);
    AppendAssoc(seg.text, Flat(tail), ")");
    CleanCons(seg, tail);
    ApartNext(seg, tail);
    DepthDown(seg, d);
    OneChar(seg);
    SplitsIs(tail, NextDepth(d, seg));
    SplitsIs([seg] + tail, d);
    if Apart(seg, tail) {
      NextOfSeg(seg, t);
      SplitStep(NoMatches, seg, t, d + 1);
      PrependedSeg(seg, Split(NoMatches, t, NextDepth(d + 1, seg)));
      SplitLooseStep(seg, tail, d);
      Uncons(Top(tail, NextDepth(d, seg)));
    } else {
      OpenerStops(seg, t, d + 1);
    }
  }

  lemma SplitLooseStep(seg: Seg, tail: Piece, d: nat)
    requires IsChar(seg, ')') ==> d > 0
    ensures d == 0 && IsChar(seg, ',') ==> NextDepth(d, seg) == 0 && |seg.text| == 1
    ensures var r := Top(tail, NextDepth(d, seg));
            Top([seg] + tail, d) == if d == 0 && IsChar(seg, ',') then [[]] + r else [[seg] + r[0]] + r[1..]
  {
    Cons(seg, tail);
  }

  // --------------------------------------------------------------- nothing blank

  /** Something stands between any two commas outside parentheses, and before and behind them. */
  predicate Inked(segs: Piece, d: nat, ink: bool) {
    if segs == [] then ink
    else if d == 0 && IsChar(segs[0], ',') then ink && Inked(segs[1..], 0, false)
    else Inked(segs[1..], NextDepth(d, segs[0]), ink || !IsBlankPart(segs[0].text))
  }

  lemma {:induction false} TrimIsEmpty(s: string)
    ensures Trim(s) == "" <==> forall i :: 0 <= i < |s| ==> IsBlank(s[i])
  {
    if s != "" && IsBlank(s[0]) {
      TrimIsEmpty(s[1..]);
      assert forall i :: 1 <= i < |s| ==> s[i] == s[1..][i - 1];
    } else if s != "" {
      NotTrimmed(s);
    }
  }

  lemma {:induction false} NotTrimmed(s: string)
    requires s != "" && !IsBlank(s[0])
    ensures TrimRight(s) != ""
  {
    if IsBlank(s[|s| - 1]) {
      NotTrimmed(s[..|s| - 1]);
    }
  }

  lemma TrimAppend(a: string, b: string)
    ensures Trim(a + b) == "" <==> Trim(a) == "" && Trim(b) == ""
  {
    TrimIsEmpty(a);
    TrimIsEmpty(b);
    TrimIsEmpty(a + b);
    hide Trim;
    assert forall i :: 0 <= i < |b| ==> b[i] == (a + b)[|a| + i];
    assert forall i :: 0 <= i < |a| ==> a[i] == (a + b)[i];
  }

  lemma TokenCons(seg: Seg, piece: Piece)
    requires SegOk(seg)
    ensures Token([seg] + piece) == "" <==> IsBlankPart(seg.text) && Token(piece) == ""
  {
    FlatCons(seg, piece);
    TrimAppend(seg.text, Flat(piece));
    TrimIsEmpty(seg.text);
    hide Trim;
    assert seg.kind == Masked ==> !IsBlank(seg.text[0]);
  }

  /** No piece between the commas is blank. */
  lemma {:induction false} InkFills(segs: Piece, d: nat, ink: bool)
    requires AllOk(segs) && Inked(segs, d, ink)
    ensures (ink || Token(Top(segs, d)[0]) != "") && NoneBlank(Top(segs, d)[1..])
  {
    if segs != [] {
      var seg, tail := segs[0], segs[1..];
      Uncons(segs);
      OkCons(seg, tail);
      hide Token, SegOk, IsBlankPart;
      if d == 0 && IsChar(seg, ',') {
        InkFills(tail, 0, false);
        Uncons(Top(tail, 0));
        assert ([[]] + Top(tail, 0))[1..] == Top(tail, 0);
      } else {
        InkFills(tail, NextDepth(d, seg), ink || !IsBlankPart(seg.text));
        TokenCons(seg, Top(tail, NextDepth(d, seg))[0]);
      }
    }
  }

  lemma {:induction false} MoreInk(segs: Piece, d: nat)
    requires Inked(segs, d, false)
    ensures Inked(segs, d, true)
  {
    if segs != [] {
      hide IsBlankPart;
      if !(d == 0 && IsChar(segs[0], ',')) && IsBlankPart(segs[0].text) {
        MoreInk(segs[1..], NextDepth(d, segs[0]));
      }
    }
  }

  lemma InkedCons(seg: Seg, segs: Piece, d: nat, ink: bool)
    ensures Inked([seg] + segs, d, ink) ==
            if d == 0 && IsChar(seg, ',') then ink && Inked(segs, 0, false)
            else Inked(segs, NextDepth(d, seg), ink || !IsBlankPart(seg.text))
  {
    Cons(seg, segs);
  }

  lemma BalancedCons(seg: Seg, segs: Piece, d: nat)
    ensures Balanced([seg] + segs, d) <==> (IsChar(seg, ')') ==> d > 0) && Balanced(segs, NextDepth(d, seg))
  {
    Cons(seg, segs);
  }

  lemma CommaHasInk(seg: Seg)
    ensures IsChar(seg, ',') ==> !IsBlankPart(seg.text) && forall d: nat :: NextDepth(d, seg) == d
  {
  }

  lemma DepthPlus(seg: Seg, d: nat, e: nat)
    requires IsChar(seg, ')') ==> e > 0
    ensures NextDepth(e + d, seg) == NextDepth(e, seg) + d
  {
  }

  /** Balanced segments in front of others, at any depth. */
  lemma {:induction false} InkedAppend(a: Piece, e: nat, ink: bool, b: Piece, d: nat)
    requires Balanced(a, e) && Inked(a, e, ink) && Inked(b, d, true)
    ensures Inked(a + b, e + d, ink)
  {
    if a == [] {
      AppendEmpty(b);
    } else {
      var seg, tail := a[0], a[1..];
      Uncons(a);
      AppendAssoc([seg], tail, b);
      hide Balanced, Inked, IsChar, NextDepth, IsBlankPart;
      BalancedCons(seg, tail, e);
      InkedCons(seg, tail, e, ink);
      InkedCons(seg, tail + b, e + d, ink);
      CommaHasInk(seg);
      DepthPlus(seg, d, e);
      if e == 0 && IsChar(seg, ',') {
        InkedAppend(tail, 0, false, b, d);
        if d > 0 {
          MoreInk(tail + b, d);
        }
      } else {
        InkedAppend(tail, NextDepth(e, seg), ink || !IsBlankPart(seg.text), b, d);
      }
    }
  }

  lemma {:induction false} BalancedAppend(a: Piece, e: nat, b: Piece, d: nat)
    requires Balanced(a, e) && Balanced(b, d)
    ensures Balanced(a + b, e + d)
  {
    if a == [] {
      AppendEmpty(b);
    } else {
      Uncons(a);
      AppendAssoc([a[0]], a[1..], b);
      hide Balanced, IsChar, NextDepth;
      BalancedCons(a[0], a[1..], e);
      BalancedCons(a[0], a[1..] + b, e + d);
      DepthPlus(a[0], d, e);
      BalancedAppend(a[1..], NextDepth(e, a[0]), b, d);
    }
  }

  // --------------------------------------------------------------- tokenising

  /**
   * The text of balanced segments is an argument list unless two of them open a comment where
   * they meet; its tokens are the trimmed pieces between the commas outside parentheses.
   */
  lemma TokenizeLoose(segs: Piece)
    requires AllOk(segs) && Balanced(segs, 0) && (segs == [] || Inked(segs, 0, false))
    ensures var text := "(" + Flat(segs) + ")";
            if OpenerMeets(segs) then Tokenize(ArgumentList, text).Err?
            else Tokenize(ArgumentList, text) == Ok(Tokenized(|text|, TokensOf(Top(segs, 0)[0], Top(segs, 0)[1..])))
  {
    var text := "(" + Flat(segs) + ")";
    SplitLoose(segs, 0);
    CleanExactlyWhen(segs);
    SplitsIs(segs, 0);
    FilledTop(segs);
    BehindOpen(Flat(segs));
    hide *;
    if OpenerMeets(segs) {
      SplitFails(text);
    } else {
      SplitAccepts(text, Top(segs, 0)[0], Top(segs, 0)[1..]);
    }
  }

  lemma BehindOpen(s: string)
    ensures var text := "(" + s + ")";
            text[0] == '(' && text[1..] == s + ")" && |text| == |s| + 2
  {
  }

  lemma FilledTop(segs: Piece)
    requires AllOk(segs) && (segs == [] || Inked(segs, 0, false))
    ensures Filled(Top(segs, 0)[0], Top(segs, 0)[1..])
  {
    if segs != [] {
      hide Inked, Token, NoneBlank, Top;
      InkFills(segs, 0, false);
    }
  }

  lemma SplitFails(text: string)
    requires text != "" && text[0] == '(' && Split(NoMatches, text[1..], 1).Err?
    ensures Tokenize(ArgumentList, text).Err?
  {
    hide Tokenize, Split;
    TokenizeIsSplit(ArgumentList, text);
  }

  lemma SplitAccepts(text: string, head: Piece, rest: seq<Piece>)
    requires text != "" && text[0] == '(' && Split(NoMatches, text[1..], 1) == Ok(Pieces(|text| - 1, head, rest))
    requires Filled(head, rest)
    ensures Tokenize(ArgumentList, text) == Ok(Tokenized(|text|, TokensOf(head, rest)))
  {
    hide Split;
    SplitSound(text[1..], 1);
    hide Tokenize, WellFormed, ArgsText, Filled;
    TakeAll(text[1..]);
    TakeAll(text);
    Uncons(text);
    assert [text[0]] == "(";
    AcceptArguments(text, |text|, head, rest);
  }

  // --------------------------------------------------------------- joined pieces

  /** Segments that are balanced, and have something between the commas outside parentheses. */
  predicate Loose(segs: Piece) {
    AllOk(segs) && Balanced(segs, 0) && Inked(segs, 0, false)
  }

  predicate AllLoose(pieces: seq<Piece>) {
    forall i :: 0 <= i < |pieces| ==> Loose(pieces[i])
  }

  /** Pieces behind one another, with the separator that the printer puts between them. */
  function JoinPieces(pieces: seq<Piece>): Piece {
    if pieces == [] then []
    else if |pieces| == 1 then pieces[0]
    else pieces[0] + ([COMMA, SPACE] + JoinPieces(pieces[1..]))
  }

  function Flats(pieces: seq<Piece>): (texts: seq<string>)
    ensures |texts| == |pieces| && forall i :: 0 <= i < |pieces| ==> texts[i] == Flat(pieces[i])
  {
    seq(|pieces|, i requires 0 <= i < |pieces| => Flat(pieces[i]))
  }

  lemma SeparatorText(segs: Piece)
    ensures Flat([COMMA, SPACE] + segs) == ", " + Flat(segs)
  {
    assert [COMMA, SPACE] + segs == [COMMA] + ([SPACE] + segs);
    FlatCons(COMMA, [SPACE] + segs);
    FlatCons(SPACE, segs);
    hide Flat;
    assert "," + (" " + Flat(segs)) == ", " + Flat(segs);
  }

  lemma {:induction false} JoinedText(pieces: seq<Piece>)
    ensures Flat(JoinPieces(pieces)) == Join(Flats(pieces), ", ")
  {
    if pieces == [] {
      NoText();
    } else if |pieces| > 1 {
      var rest := JoinPieces(pieces[1..]);
      JoinedText(pieces[1..]);
      FlatAppend(pieces[0], [COMMA, SPACE] + rest);
      SeparatorText(rest);
      assert Flats(pieces)[1..] == Flats(pieces[1..]);
      hide Flat;
      AppendAssoc(Flat(pieces[0]), ", ", Flat(rest));
    }
  }

  lemma Separated(segs: Piece)
    requires Loose(segs)
    ensures AllOk([COMMA, SPACE] + segs) && Balanced([COMMA, SPACE] + segs, 0) && Inked([COMMA, SPACE] + segs, 0, true)
  {
    assert [COMMA, SPACE] + segs == [COMMA] + ([SPACE] + segs);
    assert SegOk(COMMA) && SegOk(SPACE) && IsChar(COMMA, ',') && !IsChar(SPACE, ',') && IsBlankPart(SPACE.text);
    assert NextDepth(0, COMMA) == 0 && NextDepth(0, SPACE) == 0 && !IsChar(COMMA, ')') && !IsChar(SPACE, ')');
    hide AllOk, Balanced, Inked, SegOk, IsChar, NextDepth, IsBlankPart;
    OkCons(COMMA, [SPACE] + segs);
    OkCons(SPACE, segs);
    BalancedCons(COMMA, [SPACE] + segs, 0);
    BalancedCons(SPACE, segs, 0);
    InkedCons(COMMA, [SPACE] + segs, 0, true);
    InkedCons(SPACE, segs, 0, false);
  }

  lemma {:induction false} JoinedIsLoose(pieces: seq<Piece>)
    requires pieces != [] && AllLoose(pieces)
    ensures Loose(JoinPieces(pieces))
  {
    if |pieces| > 1 {
      var rest := JoinPieces(pieces[1..]);
      JoinedIsLoose(pieces[1..]);
      Separated(rest);
      assert Loose(pieces[0]);
      hide AllOk, Balanced, Inked;
      OkAppend(pieces[0], [COMMA, SPACE] + rest);
      BalancedAppend(pieces[0], 0, [COMMA, SPACE] + rest, 0);
      InkedAppend(pieces[0], 0, false, [COMMA, SPACE] + rest, 0);
    }
  }

  // ------------------------------------------------------------- its own tokens

  /** The tokens of the pieces, each cut again at its commas outside parentheses. */
  function CutTokens(pieces: seq<Piece>): seq<string> {
    if pieces == [] then [] else TokenList(Top(pieces[0], 0)) + CutTokens(pieces[1..])
  }

  lemma {:induction false} TopAppend(a: Piece, d: nat, b: Piece)
    requires Balanced(a, d)
    ensures Top(a + ([COMMA] + b), d) == Top(a, d) + Top(b, 0)
  {
    if a == [] {
      AppendEmpty([COMMA] + b);
      assert ([COMMA] + b)[0] == COMMA && ([COMMA] + b)[1..] == b;
    } else {
      var seg, tail := a[0], a[1..];
      Uncons(a);
      AppendAssoc([seg], tail, [COMMA] + b);
      hide Balanced, IsChar, NextDepth, Top;
      BalancedCons(seg, tail, d);
      SplitLooseStep(seg, tail, d);
      SplitLooseStep(seg, tail + ([COMMA] + b), d);
      TopAppend(tail, NextDepth(d, seg), b);
      hide *;
      ExtendFirst(seg, Top(tail, NextDepth(d, seg)), Top(b, 0));
    }
  }

  lemma ExtendFirst(seg: Seg, r: seq<Piece>, more: seq<Piece>)
    requires r != []
    ensures [[seg] + (r + more)[0]] + (r + more)[1..] == ([[seg] + r[0]] + r[1..]) + more
    ensures [[]] + (r + more) == ([[]] + r) + more
  {
  }

  lemma {:induction false} TokensAppend(a: seq<Piece>, b: seq<Piece>)
    ensures TokenList(a + b) == TokenList(a) + TokenList(b)
  {
    hide Token;
    if a == [] {
      AppendEmpty(b);
    } else {
      assert (a + b)[1..] == a[1..] + b;
      TokensAppend(a[1..], b);
      AppendAssoc([Token(a[0])], TokenList(a[1..]), TokenList(b));
    }
  }

  lemma BlankToken(piece: Piece)
    ensures Token([SPACE] + piece) == Token(piece)
  {
    FlatCons(SPACE, piece);
    hide Flat;
    assert (" " + Flat(piece))[1..] == Flat(piece);
    assert TrimLeft(" " + Flat(piece)) == TrimLeft(Flat(piece));
  }

  lemma TokensCons(piece: Piece, pieces: seq<Piece>)
    ensures TokenList([piece] + pieces) == [Token(piece)] + TokenList(pieces)
  {
    hide Token;
    Cons(piece, pieces);
  }

  lemma SpaceIsPlain()
    ensures !IsChar(SPACE, ',') && !IsChar(SPACE, ')') && NextDepth(0, SPACE) == 0
  {
  }

  /** A blank in front does not change the tokens. */
  lemma SpaceInFront(segs: Piece)
    ensures TokenList(Top([SPACE] + segs, 0)) == TokenList(Top(segs, 0))
  {
    hide *;
    var r := Top(segs, 0);
    SpaceIsPlain();
    SplitLooseStep(SPACE, segs, 0);
    BlankToken(r[0]);
    TokensCons([SPACE] + r[0], r[1..]);
    TokensCons(r[0], r[1..]);
    Uncons(r);
  }

  lemma CutCons(pieces: seq<Piece>)
    ensures pieces == [] ==> CutTokens(pieces) == []
    ensures pieces != [] ==> CutTokens(pieces) == TokenList(Top(pieces[0], 0)) + CutTokens(pieces[1..])
  {
    hide TokenList, Top;
  }

  lemma JoinCons(pieces: seq<Piece>)
    ensures |pieces| == 1 ==> JoinPieces(pieces) == pieces[0]
    ensures |pieces| > 1 ==> JoinPieces(pieces) == pieces[0] + ([COMMA] + ([SPACE] + JoinPieces(pieces[1..])))
  {
    if |pieces| > 1 {
      assert [COMMA, SPACE] + JoinPieces(pieces[1..]) == [COMMA] + ([SPACE] + JoinPieces(pieces[1..]));
    }
  }

  lemma LooseAt(pieces: seq<Piece>)
    requires pieces != [] && AllLoose(pieces)
    ensures Balanced(pieces[0], 0) && AllLoose(pieces[1..])
  {
    assert Loose(pieces[0]);
    hide AllOk, Balanced, Inked;
  }

  lemma {:induction false} JoinedTokens(pieces: seq<Piece>)
    requires pieces != [] && AllLoose(pieces)
    ensures TokenList(Top(JoinPieces(pieces), 0)) == CutTokens(pieces)
  {
    hide *;
    LooseAt(pieces);
    JoinCons(pieces);
    CutCons(pieces);
    CutCons(pieces[1..]);
    if |pieces| == 1 {
      AppendEmpty(TokenList(Top(pieces[0], 0)));
    } else {
      var rest := JoinPieces(pieces[1..]);
      JoinedTokens(pieces[1..]);
      TopAppend(pieces[0], 0, [SPACE] + rest);
      TokensAppend(Top(pieces[0], 0), Top([SPACE] + rest, 0));
      SpaceInFront(rest);
    }
  }
}
