/**
 * What the outputs of a template's segments are as segments: an argument is the segments it was
 * accepted with, a range those of its arguments with the printed separator between, and every
 * other segment itself. A piece of a template with these in place of its placeholders spells the
 * rewritten token, and is as balanced as the piece.
 */
module ExpandedPieces {
  import opened ArgumentLists
  import opened ArgumentMeaning
  import opened Common
  import opened LooseLists
  import opened MacroArgs
  import opened Templates
  import opened TextProcessor
  import Placeholders

  // ------------------------------------------------------------ values of segments

  lemma {:induction false} NestedInked(piece: Piece, d: nat, ink: bool)
    requires Nested(piece, d) && (ink || HasInk(piece))
    ensures Balanced(piece, d) && Inked(piece, d, ink)
  {
    if piece != [] {
      var seg, tail := piece[0], piece[1..];
      Uncons(piece);
      InkCons(seg, tail);
      NestedCons(seg, tail, d);
      hide Nested, HasInk, IsBlankPart, IsChar, NextDepth;
      NestedInked(tail, NextDepth(d, seg), ink || !IsBlankPart(seg.text));
    }
  }

  predicate HasInk(piece: Piece) {
    exists i :: 0 <= i < |piece| && !IsBlankPart(piece[i].text)
  }

  lemma InkCons(seg: Seg, piece: Piece)
    ensures HasInk([seg] + piece) <==> !IsBlankPart(seg.text) || HasInk(piece)
  {
    hide IsBlankPart;
    Cons(seg, piece);
    if HasInk(piece) {
      var i :| 0 <= i < |piece| && !IsBlankPart(piece[i].text);
      assert ([seg] + piece)[i + 1] == piece[i];
    }
    if HasInk([seg] + piece) && IsBlankPart(seg.text) {
      var i :| 0 <= i < |piece| + 1 && !IsBlankPart(([seg] + piece)[i].text);
      assert i > 0 && piece[i - 1] == ([seg] + piece)[i];
    }
    assert ([seg] + piece)[0] == seg;
  }

  lemma NestedCons(seg: Seg, tail: Piece, d: nat)
    ensures Nested([seg] + tail, d) <==>
            (IsChar(seg, ')') || IsChar(seg, ',') ==> d > 0) && Nested(tail, NextDepth(d, seg))
  {
    Cons(seg, tail);
  }

  lemma {:induction false} TokenHasInk(piece: Piece)
    requires AllOk(piece)
    ensures Token(piece) != "" ==> HasInk(piece)
  {
    if piece == [] {
      NoText();
    } else {
      Uncons(piece);
      OkCons(piece[0], piece[1..]);
      InkCons(piece[0], piece[1..]);
      TokenCons(piece[0], piece[1..]);
      hide HasInk, Token, SegOk, IsBlankPart;
      TokenHasInk(piece[1..]);
    }
  }

  lemma ArgIsLoose(token: string)
    requires IsArg(token)
    ensures Loose(PieceOf(token)) && Flat(PieceOf(token)) == token
    ensures TokenList(Top(PieceOf(token), 0)) == [token]
  {
    var piece := PieceOf(token);
    FirstToken(token);
    CleanSegs(piece);
    TokenHasInk(piece);
    NestedInked(piece, 0, false);
    NestedTop(piece, 0);
    hide Clean, Nested, Token, Flat, Balanced, Inked, SegOk, HasInk, Top;
    assert [piece][1..] == [];
  }

  /** Without a comma outside parentheses there is one piece. */
  lemma {:induction false} NestedTop(piece: Piece, d: nat)
    requires Nested(piece, d)
    ensures Top(piece, d) == [piece]
  {
    if piece != [] {
      Uncons(piece);
      NestedCons(piece[0], piece[1..], d);
      SplitLooseStep(piece[0], piece[1..], d);
      hide Nested, IsChar, NextDepth, Top;
      NestedTop(piece[1..], NextDepth(d, piece[0]));
    }
  }

  ghost function ArgPieces(args: seq<string>): (pieces: seq<Piece>)
    requires AllArgs(args)
    ensures |pieces| == |args| && forall i :: 0 <= i < |args| ==> pieces[i] == PieceOf(args[i])
  {
    seq(|args|, i requires 0 <= i < |args| => PieceOf(args[i]))
  }

  lemma ArgPiecesLoose(args: seq<string>)
    requires AllArgs(args)
    ensures AllLoose(ArgPieces(args)) && Flats(ArgPieces(args)) == args
  {
    hide Loose, Flat, IsArg;
    forall i | 0 <= i < |args| ensures Loose(ArgPieces(args)[i]) && Flat(ArgPieces(args)[i]) == args[i] {
      ArgIsLoose(args[i]);
    }
  }

  /** The segments of the text that a placeholder slice stands for. */
  ghost function ValueSegs(slice: string, args: seq<string>): Piece
    requires AllArgs(args) && slice != "" && Substitute(slice, args).Ok?
  {
    var Range(n, e) := Placeholders.Parse(slice).value.placeholder;
    ArgPiecesOf(args, n - 1, if e > n then e else n)
  }

  ghost function ArgPiecesOf(args: seq<string>, from: nat, to: nat): Piece
    requires AllArgs(args) && from < to <= |args|
  {
    JoinPieces(ArgPieces(args[from..to]))
  }

  lemma ArgsSlice(args: seq<string>, from: nat, to: nat)
    requires AllArgs(args) && from < to <= |args|
    ensures AllArgs(args[from..to])
    ensures Loose(ArgPiecesOf(args, from, to)) && Flat(ArgPiecesOf(args, from, to)) == Join(args[from..to], ", ")
  {
    hide IsArg, Loose, Flat;
    var some := args[from..to];
    ArgPiecesLoose(some);
    JoinedIsLoose(ArgPieces(some));
    JoinedText(ArgPieces(some));
  }

  lemma ValueIs(slice: string, args: seq<string>)
    requires AllArgs(args) && slice != "" && Substitute(slice, args).Ok?
    ensures Loose(ValueSegs(slice, args)) && Flat(ValueSegs(slice, args)) == Substitute(slice, args).value
  {
    hide IsArg, Loose, Flat, AllArgs, ArgPiecesOf, Placeholders.Parse;
    var Range(n, e) := Placeholders.Parse(slice).value.placeholder;
    ArgsSlice(args, n - 1, if e > n then e else n);
  }

  // ------------------------------------------------------------ template pieces

  /** A balanced piece of a template: single characters are no quotes. */
  predicate Shaped(argCount: nat, piece: Piece, d: nat) {
    Nested(piece, d) && forall i :: 0 <= i < |piece| ==> ShapedSeg(argCount, piece[i])
  }

  predicate ShapedSeg(argCount: nat, seg: Seg) {
    TemplateSeg(argCount, seg) && (seg.kind != Matched ==> SegOk(seg))
  }

  lemma ShapedCons(argCount: nat, seg: Seg, tail: Piece, d: nat)
    ensures Shaped(argCount, [seg] + tail, d) <==>
            ShapedSeg(argCount, seg) && (IsChar(seg, ')') || IsChar(seg, ',') ==> d > 0) &&
            Shaped(argCount, tail, NextDepth(d, seg))
  {
    NestedCons(seg, tail, d);
    hide Nested, ShapedSeg, IsChar, NextDepth;
    Cons(seg, tail);
    assert forall i :: 0 <= i < |tail| ==> ([seg] + tail)[i + 1] == tail[i];
  }

  lemma NextShaped(argCount: nat, s: string)
    requires s != "" && NextMatch(PlaceholderMatcher(argCount), s).Ok?
    ensures var m := NextMatch(PlaceholderMatcher(argCount), s).value;
            ShapedSeg(argCount, Seg(s[..m.len], m.kind))
  {
    NextTemplateSeg(argCount, s);
    hide Placeholders.Parse, Rejection, QuoteLength;
  }

  predicate AllShaped(argCount: nat, pieces: seq<Piece>) {
    forall i :: 0 <= i < |pieces| ==> Shaped(argCount, pieces[i], 0)
  }

  lemma AllShapedCons(argCount: nat, piece: Piece, pieces: seq<Piece>)
    ensures AllShaped(argCount, [piece] + pieces) <==> Shaped(argCount, piece, 0) && AllShaped(argCount, pieces)
  {
    hide Shaped;
    Cons(piece, pieces);
    assert forall i :: 0 <= i < |pieces| ==> ([piece] + pieces)[i + 1] == pieces[i];
  }

  lemma NoPieces(argCount: nat)
    ensures Shaped(argCount, [], 0) && AllShaped(argCount, [])
  {
  }

  lemma {:induction false} SplitShaped(argCount: nat, s: string, depth: nat)
    requires depth > 0 && Split(PlaceholderMatcher(argCount), s, depth).Ok?
    ensures var p := Split(PlaceholderMatcher(argCount), s, depth).value;
            Shaped(argCount, p.head, depth - 1) && AllShaped(argCount, p.rest)
    decreases |s|
  {
    hide NextMatch, Shaped, AllShaped, ShapedSeg;
    var app := PlaceholderMatcher(argCount);
    var m := NextMatch(app, s).value;
    var seg := Seg(s[..m.len], m.kind);
    NextShaped(argCount, s);
    NoPieces(argCount);
    if depth == 1 && IsChar(seg, ')') {
    } else if depth == 1 && IsChar(seg, ',') {
      SplitShaped(argCount, s[1..], 1);
      var p := Split(app, s[1..], 1).value;
      AllShapedCons(argCount, p.head, p.rest);
    } else {
      var more := NextDepth(depth, seg);
      SplitShaped(argCount, s[m.len..], more);
      ShapedCons(argCount, seg, Split(app, s[m.len..], more).value.head, depth - 1);
    }
  }

  lemma PiecesShaped(argCount: nat, template: string)
    ensures AllShaped(argCount, PiecesOf(argCount, template))
  {
    hide Shaped, AllShaped, Split;
    NoPieces(argCount);
    var role := TemplateCheck(argCount);
    if SplitText(role, template).Ok? {
      SplitShaped(argCount, template[1..], 1);
      AllShapedCons(argCount, SplitText(role, template).value.head, SplitText(role, template).value.rest);
    }
  }

  lemma BlankIsFlat(seg: Seg, d: nat)
    requires IsBlankPart(seg.text)
    ensures !IsChar(seg, ')') && !IsChar(seg, ',') && NextDepth(d, seg) == d
  {
  }

  lemma {:induction false} TrimLeftShaped(argCount: nat, piece: Piece)
    requires Shaped(argCount, piece, 0)
    ensures Shaped(argCount, TrimLeftSegs(piece), 0)
  {
    if piece != [] && IsBlankPart(piece[0].text) {
      Uncons(piece);
      ShapedCons(argCount, piece[0], piece[1..], 0);
      BlankIsFlat(piece[0], 0);
      hide Shaped, IsBlankPart, IsChar, NextDepth;
      TrimLeftShaped(argCount, piece[1..]);
    }
  }

  lemma {:induction false} DropBlankShaped(argCount: nat, piece: Piece, last: Seg, d: nat)
    requires IsBlankPart(last.text) && Shaped(argCount, piece + [last], d)
    ensures Shaped(argCount, piece, d)
  {
    if piece == [] {
      AppendEmpty([last]);
      ShapedCons(argCount, last, [], d);
      BlankIsFlat(last, d);
    } else {
      Uncons(piece);
      AppendAssoc([piece[0]], piece[1..], [last]);
      ShapedCons(argCount, piece[0], piece[1..] + [last], d);
      ShapedCons(argCount, piece[0], piece[1..], d);
      hide Shaped, IsBlankPart, IsChar, NextDepth, ShapedSeg;
      DropBlankShaped(argCount, piece[1..], last, NextDepth(d, piece[0]));
    }
  }

  lemma {:induction false} TrimRightShaped(argCount: nat, piece: Piece)
    requires Shaped(argCount, piece, 0)
    ensures Shaped(argCount, TrimRightSegs(piece), 0)
  {
    if piece != [] && IsBlankPart(piece[|piece| - 1].text) {
      Unsnoc(piece);
      hide Shaped, IsBlankPart;
      DropBlankShaped(argCount, piece[..|piece| - 1], piece[|piece| - 1], 0);
      TrimRightShaped(argCount, piece[..|piece| - 1]);
    }
  }

  lemma TrimShaped(argCount: nat, piece: Piece)
    requires Shaped(argCount, piece, 0)
    ensures Shaped(argCount, TrimSegs(piece), 0)
  {
    hide Shaped, TrimLeftSegs, TrimRightSegs;
    TrimLeftShaped(argCount, piece);
    TrimRightShaped(argCount, TrimLeftSegs(piece));
  }

  lemma {:induction false} TrimmedEnd(piece: Piece)
    ensures TrimRightSegs(piece) != [] ==> HasInk(TrimRightSegs(piece))
  {
    if piece != [] && IsBlankPart(piece[|piece| - 1].text) {
      TrimmedEnd(piece[..|piece| - 1]);
    }
  }

  // ------------------------------------------------------------------ expansion

  /** The segments of a template segment's output. */
  ghost function SegValue(role: Role, seg: Seg): Piece
    requires role.TemplateRewrite? && AllArgs(role.args)
  {
    if seg.kind == Matched && seg.text != "" && Substitute(seg.text, role.args).Ok? then ValueSegs(seg.text, role.args)
    else [seg]
  }

  /** A template piece with the segments of the values in place of its placeholders. */
  ghost function Expand(role: Role, piece: Piece): Piece
    requires role.TemplateRewrite? && AllArgs(role.args)
  {
    if piece == [] then [] else SegValue(role, piece[0]) + Expand(role, piece[1..])
  }

  lemma SegValueIs(role: Role, seg: Seg)
    requires role.TemplateRewrite? && AllArgs(role.args) && ShapedSeg(role.argCount, seg)
    requires seg.text != "" && Output(role, seg).Ok?
    ensures Flat(SegValue(role, seg)) == OutText(role, seg)
    ensures seg.kind == Matched ==> Loose(SegValue(role, seg))
    ensures seg.kind != Matched ==> SegValue(role, seg) == [seg] && SegOk(seg)
  {
    if seg.kind == Matched {
      assert seg.text[0] != '(';
      hide Placeholders.Parse, Loose, Flat, ValueSegs, AllArgs, Substitute;
      ValueIs(seg.text, role.args);
    } else {
      FlatCons(seg, []);
      NoText();
      hide Flat, AllArgs;
      AppendEmpty([seg]);
      AppendEmpty(seg.text);
    }
  }

  lemma NonEmptyCons(seg: Seg, tail: Piece)
    requires NonEmptySegs([seg] + tail)
    ensures seg.text != "" && NonEmptySegs(tail)
  {
    assert ([seg] + tail)[0] == seg;
    assert forall i :: 0 <= i < |tail| ==> ([seg] + tail)[i + 1] == tail[i];
  }

  lemma AllOutputCons(role: Role, seg: Seg, tail: Piece)
    requires NonEmptySegs([seg] + tail) && AllOutput(role, [seg] + tail)
    ensures seg.text != "" && NonEmptySegs(tail) && Output(role, seg).Ok? && AllOutput(role, tail)
  {
    NonEmptyCons(seg, tail);
    hide Output, NonEmptySegs;
    var all := [seg] + tail;
    assert all[0] == seg;
    forall i | 0 <= i < |tail| ensures tail[i].text != "" && Output(role, tail[i]).Ok? {
      assert all[i + 1] == tail[i];
    }
  }

  lemma OutputsCons(role: Role, seg: Seg, tail: Piece)
    requires NonEmptySegs([seg] + tail) && AllOutput(role, [seg] + tail)
    ensures seg.text != "" && NonEmptySegs(tail) && Output(role, seg).Ok? && AllOutput(role, tail)
    ensures Outputs(role, [seg] + tail) == [OutText(role, seg)] + Outputs(role, tail)
  {
    AllOutputCons(role, seg, tail);
    OutputsTail(role, [seg] + tail);
    hide Output, OutText, AllOutput, NonEmptySegs;
    Cons(seg, tail);
    Uncons(Outputs(role, [seg] + tail));
  }

  lemma {:induction false} ExpandedText(role: Role, piece: Piece, d: nat)
    requires role.TemplateRewrite? && AllArgs(role.args) && Shaped(role.argCount, piece, d)
    requires NonEmptySegs(piece) && AllOutput(role, piece)
    ensures Flat(Expand(role, piece)) == Cat(Outputs(role, piece))
  {
    if piece == [] {
      NoText();
    } else {
      var seg, tail := piece[0], piece[1..];
      Uncons(piece);
      ShapedCons(role.argCount, seg, tail, d);
      OutputsCons(role, seg, tail);
      assert Expand(role, piece) == SegValue(role, seg) + Expand(role, tail);
      hide *;
      ExpandedText(role, tail, NextDepth(d, seg));
      SegValueIs(role, seg);
      FlatAppend(SegValue(role, seg), Expand(role, tail));
      CatCons(OutText(role, seg), Outputs(role, tail));
    }
  }

  /** The segments of an expanded piece, which begins `d` deep. */
  predicate Grown(segs: Piece, d: nat, ink: bool) {
    AllOk(segs) && Balanced(segs, d) && Inked(segs, d, ink)
  }

  lemma GrownByLoose(a: Piece, segs: Piece, d: nat, ink: bool)
    requires Loose(a) && Grown(segs, d, true)
    ensures Grown(a + segs, d, ink)
  {
    hide AllOk, Balanced, Inked;
    OkAppend(a, segs);
    BalancedAppend(a, 0, segs, d);
    InkedAppend(a, 0, false, segs, d);
    if ink {
      MoreInk(a + segs, d);
    }
  }

  lemma GrownBySeg(seg: Seg, segs: Piece, d: nat, ink: bool)
    requires SegOk(seg) && (IsChar(seg, ')') || IsChar(seg, ',') ==> d > 0)
    requires Grown(segs, NextDepth(d, seg), ink || !IsBlankPart(seg.text))
    ensures Grown([seg] + segs, d, ink)
  {
    hide AllOk, Balanced, Inked, SegOk, NextDepth, IsChar, IsBlankPart;
    OkCons(seg, segs);
    BalancedCons(seg, segs, d);
    InkedCons(seg, segs, d, ink);
  }

  lemma MatchedIsInk(argCount: nat, seg: Seg, d: nat)
    requires ShapedSeg(argCount, seg) && seg.kind == Matched
    ensures !IsBlankPart(seg.text) && NextDepth(d, seg) == d
  {
    hide Placeholders.Parse;
  }

  lemma {:induction false} ExpandedGrows(role: Role, piece: Piece, d: nat, ink: bool)
    requires role.TemplateRewrite? && AllArgs(role.args) && Shaped(role.argCount, piece, d)
    requires NonEmptySegs(piece) && AllOutput(role, piece) && (ink || HasInk(piece))
    ensures Grown(Expand(role, piece), d, ink)
  {
    if piece == [] {
      NothingGrows(d);
    } else {
      var seg, tail := piece[0], piece[1..];
      Uncons(piece);
      ShapedCons(role.argCount, seg, tail, d);
      OutputsCons(role, seg, tail);
      InkCons(seg, tail);
      assert Expand(role, piece) == SegValue(role, seg) + Expand(role, tail);
      hide *;
      SegValueIs(role, seg);
      if seg.kind == Matched {
        MatchedIsInk(role.argCount, seg, d);
        ExpandedGrows(role, tail, d, true);
        GrownByLoose(SegValue(role, seg), Expand(role, tail), d, ink);
      } else {
        ExpandedGrows(role, tail, NextDepth(d, seg), ink || !IsBlankPart(seg.text));
        GrownBySeg(seg, Expand(role, tail), d, ink);
      }
    }
  }

  lemma NothingGrows(d: nat)
    ensures d == 0 ==> Grown([], d, true)
  {
  }
}
