/**
 * What the tokeniser means: its result is read off the scanned segments between the
 * parentheses, split at the commas of depth 1.
 */
module ArgumentLists {
  import opened Common
  import opened TextProcessor
  import opened MacroArgs

  type Piece = seq<Seg>

  // ------------------------------------------------------------- structure

  /** The segments of the first argument and of the others, and the length consumed. */
  datatype Pieces = Pieces(len: nat, head: Piece, rest: seq<Piece>)

  function PrependSeg(seg: Seg, r: Result<Pieces>): Result<Pieces> {
    match r
    case Err(e) => Err(e)
    case Ok(p) => Ok(Pieces(|seg.text| + p.len, [seg] + p.head, p.rest))
  }

  function PrependPiece(r: Result<Pieces>): Result<Pieces> {
    match r
    case Err(e) => Err(e)
    case Ok(p) => Ok(Pieces(1 + p.len, [], [p.head] + p.rest))
  }

  /** Scanning from inside the parentheses, with no trimming and no emptiness check. */
  function Split(app: AppMatcher, s: string, depth: nat): (r: Result<Pieces>)
    requires depth > 0
    ensures r.Ok? ==> r.value.len <= |s|
    decreases |s|
  {
    if s == "" then Err(MissingClose)
    else
      match NextMatch(app, s)
      case Err(e) => Err(e)
      case Ok(m) =>
        var seg := Seg(s[..m.len], m.kind);
        if depth == 1 && IsChar(seg, ')') then Ok(Pieces(1, [], []))
        else if depth == 1 && IsChar(seg, ',') then PrependPiece(Split(app, s[1..], 1))
        else PrependSeg(seg, Split(app, s[m.len..], NextDepth(depth, seg)))
  }

  /** One unfolding of the split, at a segment the scanner is known to find. */
  lemma SplitStep(app: AppMatcher, seg: Seg, t: string, depth: nat)
    requires depth > 0 && seg.text != ""
    requires NextMatch(app, seg.text + t) == Ok(Match(|seg.text|, seg.kind))
    ensures Split(app, seg.text + t, depth) ==
            if depth == 1 && IsChar(seg, ')') then Ok(Pieces(1, [], []))
            else if depth == 1 && IsChar(seg, ',') then PrependPiece(Split(app, t, 1))
            else PrependSeg(seg, Split(app, t, NextDepth(depth, seg)))
  {
    hide NextMatch;
    var s := seg.text + t;
    assert s[..|seg.text|] == seg.text && s[|seg.text|..] == t;
  }

  predicate NonEmptySegs(segs: Piece) {
    forall i :: 0 <= i < |segs| ==> segs[i].text != ""
  }

  predicate NonEmptyPieces(head: Piece, rest: seq<Piece>) {
    NonEmptySegs(head) && forall i :: 0 <= i < |rest| ==> NonEmptySegs(rest[i])
  }

  /** The text a segment list adds to its token. */
  function PieceOutput(role: Role, piece: Piece): (r: Result<string>)
    requires NonEmptySegs(piece)
  {
    if piece == [] then Ok("")
    else
      match Output(role, piece[0])
      case Err(e) => Err(e)
      case Ok(text) =>
        match PieceOutput(role, piece[1..])
        case Err(e) => Err(e)
        case Ok(rest) => Ok(text + rest)
  }

  /** The tokens a split gives: trimmed, none empty unless the whole list is blank. */
  function Finish(role: Role, done: seq<string>, prefix: string, head: Piece,
                  rest: seq<Piece>): (r: Result<seq<string>>)
    requires NonEmptyPieces(head, rest)
    decreases |rest|
  {
    match PieceOutput(role, head)
    case Err(e) => Err(e)
    case Ok(text) =>
      var token := Trim(prefix + text);
      if rest == [] then
        if token != "" then Ok(done + [token])
        else if done != [] then Err(EmptyArg)
        else Ok([])
      else if token == "" then Err(EmptyArg)
      else Finish(role, done + [token], "", rest[0], rest[1..])
  }

  lemma {:induction false} SplitNonEmpty(app: AppMatcher, s: string, depth: nat)
    requires depth > 0 && Split(app, s, depth).Ok?
    ensures NonEmptyPieces(Split(app, s, depth).value.head, Split(app, s, depth).value.rest)
    decreases |s|
  {
    hide NextMatch;
    var m := NextMatch(app, s).value;
    var seg := Seg(s[..m.len], m.kind);
    if depth == 1 && IsChar(seg, ')') {
    } else if depth == 1 && IsChar(seg, ',') {
      SplitNonEmpty(app, s[1..], 1);
    } else {
      SplitNonEmpty(app, s[m.len..], NextDepth(depth, seg));
    }
  }

  /** The in-place walk and the split agree on success, on the length and on the tokens. */
  lemma {:induction false} WalkIsSplit(role: Role, s: string, depth: nat, done: seq<string>, prefix: string)
    requires depth > 0
    ensures var walked := Walk(role, s, State(depth, done + [prefix]));
            var split := Split(MatcherOf(role), s, depth);
            (split.Ok? ==> NonEmptyPieces(split.value.head, split.value.rest)) &&
            (walked.Ok? <==> split.Ok? && Finish(role, done, prefix, split.value.head, split.value.rest).Ok?) &&
            (walked.Ok? ==>
              walked.value ==
              Tokenized(split.value.len, Finish(role, done, prefix, split.value.head, split.value.rest).value))
    decreases |s|
  {
    hide NextMatch, Trim;
    var app := MatcherOf(role);
    if Split(app, s, depth).Ok? {
      SplitNonEmpty(app, s, depth);
    }
    if s != "" && NextMatch(app, s).Ok? {
      var m := NextMatch(app, s).value;
      var seg := Seg(s[..m.len], m.kind);
      if depth == 1 && IsChar(seg, ')') {
        assert prefix + "" == prefix;
      } else if depth == 1 && IsChar(seg, ',') {
        assert prefix + "" == prefix;
        WalkIsSplit(role, s[1..], 1, done + [Trim(prefix)], "");
        if Split(app, s[1..], 1).Ok? {
          var p := Split(app, s[1..], 1).value;
          assert ([p.head] + p.rest)[1..] == p.rest;
        }
      } else if Output(role, seg).Ok? {
        var text := Output(role, seg).value;
        var depth' := NextDepth(depth, seg);
        WalkIsSplit(role, s[m.len..], depth', done, prefix + text);
        if Split(app, s[m.len..], depth').Ok? {
          var p := Split(app, s[m.len..], depth').value;
          FinishSeg(role, done, prefix, seg, text, p.head, p.rest);
        }
      }
    }
  }

  lemma FinishSeg(role: Role, done: seq<string>, prefix: string, seg: Seg, text: string, head: Piece, rest: seq<Piece>)
    requires NonEmptyPieces(head, rest) && seg.text != ""
    requires Output(role, seg) == Ok(text)
    ensures NonEmptyPieces([seg] + head, rest)
    ensures Finish(role, done, prefix, [seg] + head, rest) == Finish(role, done, prefix + text, head, rest)
  {
    hide Trim, Output;
    assert ([seg] + head)[1..] == head;
    var tail := PieceOutput(role, head);
    if tail.Ok? {
      assert prefix + (text + tail.value) == (prefix + text) + tail.value;
    }
  }

  /** The split of the whole text after its opening parenthesis. */
  function SplitText(role: Role, text: string): (r: Result<Pieces>)
    ensures r.Ok? ==> r.value.len <= |text|
  {
    if text == "" || text[0] != '(' then Err(MissingOpen)
    else
      match Split(MatcherOf(role), text[1..], 1)
      case Err(e) => Err(e)
      case Ok(p) => Ok(Pieces(1 + p.len, p.head, p.rest))
  }

  lemma TokenizeIsSplit(role: Role, text: string)
    ensures var split := SplitText(role, text);
            var result := Tokenize(role, text);
            (split.Ok? ==> NonEmptyPieces(split.value.head, split.value.rest)) &&
            (result.Ok? <==> split.Ok? && Finish(role, [], "", split.value.head, split.value.rest).Ok?) &&
            (result.Ok? ==>
              result.value ==
              Tokenized(split.value.len, Finish(role, [], "", split.value.head, split.value.rest).value))
  {
    if text != "" && text[0] == '(' {
      RejectionIsOpener(text);
      assert NextMatch(MatcherOf(role), text) == Ok(Match(1, Plain));
      WalkIsSplit(role, text[1..], 1, [], "");
      assert [] + [""] == [""];
    }
  }

  // --------------------------------------------------------------- meaning

  /** A segment the scanner takes whole when no application matcher is plugged in. */
  predicate SegOk(seg: Seg) {
    (seg.kind == Masked && IsQuoted(seg.text)) ||
    (seg.kind == Plain && |seg.text| == 1 && !IsQuote(seg.text[0]))
  }

  /** Two characters that open a comment. */
  predicate Opener(a: char, b: char) {
    (a == '/' && b == '*') || (a == '-' && b == '-')
  }

  /** Closed quotes and single characters, no two of which open a comment. */
  predicate Clean(segs: Piece) {
    if segs == [] then true
    else SegOk(segs[0]) && Clean(segs[1..]) && Apart(segs[0], segs[1..])
  }

  predicate Apart(seg: Seg, segs: Piece)
    requires seg.text != ""
  {
    segs != [] && seg.kind == Plain ==> segs[0].text != "" && !Opener(seg.text[0], segs[0].text[0])
  }

  /** Parentheses outside quotes balance, starting d deep, and every comma is inside some. */
  predicate Nested(segs: Piece, d: nat) {
    if segs == [] then d == 0
    else if IsChar(segs[0], '(') then Nested(segs[1..], d + 1)
    else if IsChar(segs[0], ')') then d > 0 && Nested(segs[1..], d - 1)
    else if IsChar(segs[0], ',') then d > 0 && Nested(segs[1..], d)
    else Nested(segs[1..], d)
  }

  /** The first piece starts `d` parentheses deep; the others at the top. */
  predicate WellFormed(head: Piece, rest: seq<Piece>, d: nat) {
    Clean(head) && Nested(head, d) && forall i :: 0 <= i < |rest| ==> Clean(rest[i]) && Nested(rest[i], 0)
  }

  /** The argument texts separated by commas, then the closing parenthesis. */
  function ArgsText(head: Piece, rest: seq<Piece>): (s: string)
    ensures s != ""
    decreases |rest|
  {
    Flat(head) + if rest == [] then ")" else "," + ArgsText(rest[0], rest[1..])
  }

  lemma ArgsTextCons(seg: Seg, head: Piece, rest: seq<Piece>)
    ensures ArgsText([seg] + head, rest) == seg.text + ArgsText(head, rest)
  {
    FlatCons(seg, head);
  }

  lemma ArgsTextEmpty(rest: seq<Piece>)
    ensures ArgsText([], rest) == if rest == [] then ")" else "," + ArgsText(rest[0], rest[1..])
  {
    assert Texts([]) == [];
  }

  lemma WellFormedEmpty(rest: seq<Piece>, d: nat)
    ensures WellFormed([], rest, d) <==> d == 0 && (rest != [] ==> WellFormed(rest[0], rest[1..], 0))
  {
    if rest != [] && WellFormed(rest[0], rest[1..], 0) {
      assert rest == [rest[0]] + rest[1..];
    }
  }

  lemma WellFormedCons(seg: Seg, head: Piece, rest: seq<Piece>, d: nat)
    requires IsChar(seg, ')') || IsChar(seg, ',') ==> d > 0
    requires SegOk(seg) && Apart(seg, head)
    ensures WellFormed([seg] + head, rest, d) <==> WellFormed(head, rest, NextDepth(d + 1, seg) - 1)
  {
    assert ([seg] + head)[1..] == head;
  }

  /** The first character of the text decides whether a segment may stand in front of it. */
  lemma {:induction false} ApartText(seg: Seg, head: Piece, rest: seq<Piece>, d: nat)
    requires SegOk(seg) && WellFormed(head, rest, d)
    ensures Apart(seg, head) <==> (seg.kind == Plain ==> !Opener(seg.text[0], ArgsText(head, rest)[0]))
  {
    if head != [] {
      assert [head[0]] + head[1..] == head;
      ArgsTextCons(head[0], head[1..], rest);
    }
  }

  /** The front segment of a scan without application matches. */
  lemma NextIsSegOk(s: string)
    requires s != "" && NextMatch(NoMatches, s).Ok?
    ensures var m := NextMatch(NoMatches, s).value;
            SegOk(Seg(s[..m.len], m.kind)) &&
            (m.kind == Plain && |s| > 1 ==> !Opener(s[0], s[1]))
  {
    RejectionIsOpener(s);
    if IsQuote(s[0]) {
      QuoteLocal(s, "");
    } else if |s| > 1 {
      assert s[..2] == [s[0], s[1]];
    }
  }

  /** The scanner recovers the front segment of a clean list followed by more text. */
  lemma NextOfSeg(seg: Seg, t: string)
    requires SegOk(seg)
    requires seg.kind == Plain && t != "" ==> !Opener(seg.text[0], t[0])
    ensures NextMatch(NoMatches, seg.text + t) == Ok(Match(|seg.text|, seg.kind))
  {
    var s := seg.text + t;
    RejectionIsOpener(s);
    if |s| >= 2 {
      assert s[..2] == [s[0], s[1]];
    }
    if seg.kind == Masked {
      QuoteLocal(seg.text, t);
      assert seg.text[..|seg.text|] == seg.text;
    }
  }

  /** Every successful split is a well-formed list of pieces, and its text is what was consumed. */
  lemma {:induction false} SplitSound(s: string, depth: nat)
    requires depth > 0 && Split(NoMatches, s, depth).Ok?
    ensures var p := Split(NoMatches, s, depth).value;
            WellFormed(p.head, p.rest, depth - 1) && s[..p.len] == ArgsText(p.head, p.rest)
    decreases |s|, 1
  {
    var m := NextMatch(NoMatches, s).value;
    var seg, t := Seg(s[..m.len], m.kind), s[m.len..];
    NextIsSegOk(s);
    assert s == seg.text + t;
    assert t != "" ==> s[m.len] == t[0];
    hide Split, WellFormed, ArgsText;
    SplitSoundStep(seg, t, depth);
  }

  lemma {:induction false} SplitSoundStep(seg: Seg, t: string, depth: nat)
    requires depth > 0 && SegOk(seg)
    requires seg.kind == Plain && t != "" ==> !Opener(seg.text[0], t[0])
    requires Split(NoMatches, seg.text + t, depth).Ok?
    ensures var p := Split(NoMatches, seg.text + t, depth).value;
            WellFormed(p.head, p.rest, depth - 1) && (seg.text + t)[..p.len] == ArgsText(p.head, p.rest)
    decreases |t|, 2
  {
    hide *;
    SegNotEmpty(seg);
    NextOfSeg(seg, t);
    SplitStep(NoMatches, seg, t, depth);
    OneChar(seg);
    if depth == 1 && IsChar(seg, ')') {
      ArgsTextEmpty([]);
      WellFormedEmpty([], 0);
      CutBetween(seg.text, t);
    } else if depth == 1 && IsChar(seg, ',') {
      PrependPieceOk(Split(NoMatches, t, 1));
      SplitSound(t, 1);
      SplitSoundComma(t, Split(NoMatches, t, 1).value);
    } else {
      NextDepthPositive(depth, seg);
      PrependSegOk(seg, Split(NoMatches, t, NextDepth(depth, seg)));
      SplitSound(t, NextDepth(depth, seg));
      SplitSoundSeg(seg, t, depth, Split(NoMatches, t, NextDepth(depth, seg)).value);
    }
  }

  lemma SegNotEmpty(seg: Seg)
    requires SegOk(seg)
    ensures seg.text != ""
  {
  }

  lemma PrependPieceOk(r: Result<Pieces>)
    ensures PrependPiece(r).Ok? ==>
            r.Ok? && PrependPiece(r).value == Pieces(1 + r.value.len, [], [r.value.head] + r.value.rest)
  {
  }

  lemma PrependSegOk(seg: Seg, r: Result<Pieces>)
    ensures PrependSeg(seg, r).Ok? ==>
            r.Ok? && PrependSeg(seg, r).value == Pieces(|seg.text| + r.value.len, [seg] + r.value.head, r.value.rest)
  {
  }

  lemma NextDepthPositive(depth: nat, seg: Seg)
    requires depth > 0 && !(depth == 1 && IsChar(seg, ')'))
    ensures NextDepth(depth, seg) > 0
  {
  }

  lemma OneChar(seg: Seg)
    ensures IsChar(seg, ')') ==> seg.text == ")"
    ensures IsChar(seg, ',') ==> seg.text == ","
  {
  }

  lemma SplitSoundComma(t: string, p: Pieces)
    requires WellFormed(p.head, p.rest, 0)
    requires p.len <= |t| && t[..p.len] == ArgsText(p.head, p.rest)
    ensures WellFormed([], [p.head] + p.rest, 0)
    ensures ("," + t)[..1 + p.len] == ArgsText([], [p.head] + p.rest)
  {
    ArgsTextEmpty([p.head] + p.rest);
    WellFormedEmpty([p.head] + p.rest, 0);
    hide WellFormed, ArgsText;
    assert ([p.head] + p.rest)[1..] == p.rest;
    assert ("," + t)[..1 + p.len] == "," + t[..p.len];
  }

  lemma SplitSoundSeg(seg: Seg, t: string, depth: nat, p: Pieces)
    requires depth > 0 && SegOk(seg)
    requires p.len <= |t| && (seg.kind == Plain && t != "" ==> !Opener(seg.text[0], t[0]))
    requires !(depth == 1 && (IsChar(seg, ')') || IsChar(seg, ',')))
    requires WellFormed(p.head, p.rest, NextDepth(depth, seg) - 1)
    requires t[..p.len] == ArgsText(p.head, p.rest)
    ensures WellFormed([seg] + p.head, p.rest, depth - 1)
    ensures (seg.text + t)[..|seg.text| + p.len] == ArgsText([seg] + p.head, p.rest)
  {
    hide WellFormed, Nested, Clean, ArgsText, Flat, Apart, Opener, SegOk;
    ArgsTextCons(seg, p.head, p.rest);
    assert (seg.text + t)[..|seg.text| + p.len] == seg.text + t[..p.len];
    assert t[0] == t[..p.len][0];
    ApartText(seg, p.head, p.rest, NextDepth(depth, seg) - 1);
    WellFormedCons(seg, p.head, p.rest, depth - 1);
  }

  /** Every well-formed list of pieces is recovered from its text, whatever follows. */
  lemma {:induction false} SplitComplete(head: Piece, rest: seq<Piece>, d: nat, t: string)
    requires WellFormed(head, rest, d)
    ensures Split(NoMatches, ArgsText(head, rest) + t, d + 1) == Ok(Pieces(|ArgsText(head, rest)|, head, rest))
    decreases |rest|, 1 + |head|, 1
  {
    if head == [] {
      SplitCompleteEmpty(rest, d, t);
    } else {
      assert Nested(head, d) && Clean(head);
      hide Split, ArgsText, WellFormed, Flat;
      assert head == [head[0]] + head[1..];
      SplitCompleteSeg(head[0], head[1..], rest, d, t);
    }
  }

  lemma {:induction false} SplitCompleteEmpty(rest: seq<Piece>, d: nat, t: string)
    requires WellFormed([], rest, d)
    ensures Split(NoMatches, ArgsText([], rest) + t, d + 1) == Ok(Pieces(|ArgsText([], rest)|, [], rest))
    decreases |rest|, 0
  {
    WellFormedEmpty(rest, d);
    ArgsTextEmpty(rest);
    hide WellFormed, ArgsText, Split;
    if rest == [] {
      SplitClose(t);
    } else {
      var t' := ArgsText(rest[0], rest[1..]) + t;
      SplitComplete(rest[0], rest[1..], 0, t);
      SplitComma(t');
      assert ArgsText([], rest) + t == "," + t';
      assert [rest[0]] + rest[1..] == rest;
    }
  }

  lemma {:induction false} SplitCompleteSeg(seg: Seg, tail: Piece, rest: seq<Piece>, d: nat, t: string)
    requires SegOk(seg) && Apart(seg, tail) && (IsChar(seg, ')') || IsChar(seg, ',') ==> d > 0)
    requires WellFormed([seg] + tail, rest, d)
    ensures Split(NoMatches, ArgsText([seg] + tail, rest) + t, d + 1) ==
            Ok(Pieces(|ArgsText([seg] + tail, rest)|, [seg] + tail, rest))
    decreases |rest|, 2 + |tail|, 0
  {
    hide WellFormed, Nested, Clean, ArgsText, Flat, Apart, Opener, SegOk, Split, NextMatch;
    var d' := NextDepth(d + 1, seg) - 1;
    var t' := ArgsText(tail, rest) + t;
    WellFormedCons(seg, tail, rest, d);
    ApartText(seg, tail, rest, d');
    ArgsTextCons(seg, tail, rest);
    assert ArgsText([seg] + tail, rest) + t == seg.text + t';
    NextOfSeg(seg, t');
    SplitStep(NoMatches, seg, t', d + 1);
    SplitComplete(tail, rest, d', t);
  }

  lemma SplitClose(t: string)
    ensures Split(NoMatches, ")" + t, 1) == Ok(Pieces(1, [], []))
  {
    NextOfSeg(Seg(")", Plain), t);
    SplitStep(NoMatches, Seg(")", Plain), t, 1);
  }

  lemma SplitComma(t: string)
    ensures Split(NoMatches, "," + t, 1) == PrependPiece(Split(NoMatches, t, 1))
  {
    NextOfSeg(Seg(",", Plain), t);
    SplitStep(NoMatches, Seg(",", Plain), t, 1);
  }
}
