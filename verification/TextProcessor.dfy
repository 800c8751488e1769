/**
 * The generic scanner: at each position it rejects comment openers, then tries the quotes,
 * then the application's own matcher, and otherwise takes one character.
 */
module TextProcessor {
  import opened Common
  import Placeholders

  /** The application matchers the macro code plugs into the scanner. */
  datatype AppMatcher = NoMatches | PlaceholderMatcher(argCount: nat) | IdentifierMatcher

  datatype Kind = Masked | Matched | Plain

  datatype Match = Match(len: nat, kind: Kind)

  // ---------------------------------------------------------------- quotes

  /** What follows an opening quote up to and including the closing one, by its length. */
  function QuoteTail(s: string, quote: char): (r: Result<nat>)
    ensures r.Ok? ==> 1 <= r.value <= |s| && s[r.value - 1] == quote
  {
    if s == "" then Err(UnterminatedQuote)
    else if s[0] == '\\' then
      if |s| == 1 then Err(UnterminatedEscape) else Plus(2, QuoteTail(s[2..], quote))
    else if s[0] == quote then Ok(1)
    else Plus(1, QuoteTail(s[1..], quote))
  }

  function Plus(n: nat, r: Result<nat>): Result<nat> {
    match r
    case Ok(v) => Ok(n + v)
    case Err(e) => Err(e)
  }

  /** The quote matcher: 0 when the text does not start with the quote. */
  function QuoteLength(s: string, quote: char): (r: Result<nat>)
    ensures r.Ok? ==> r.value <= |s|
    ensures r.Ok? && r.value > 0 <==> r.Ok? && s != "" && s[0] == quote
  {
    if s == "" || s[0] != quote then Ok(0) else Plus(1, QuoteTail(s[1..], quote))
  }

  /** One step of the quote loop, seen from the start of the text. */
  lemma QuoteTailStep(text: string, i: nat, quote: char)
    requires i < |text|
    ensures var here := Plus(i, QuoteTail(text[i..], quote));
            if text[i] == '\\' then
              here == if i + 1 == |text| then Err(UnterminatedEscape) else Plus(i + 2, QuoteTail(text[i + 2..], quote))
            else if text[i] == quote then here == Ok(i + 1)
            else here == Plus(i + 1, QuoteTail(text[i + 1..], quote))
  {
    assert text[i..][0] == text[i];
    assert text[i..][1..] == text[i + 1..];
    if i + 1 < |text| {
      assert text[i..][2..] == text[i + 2..];
    }
  }

  /** Where the quote loop starts, and what it reports at the end of the text. */
  lemma QuoteOpens(text: string, begin: nat, quote: char)
    requires begin <= |text|
    ensures Plus(begin, QuoteLength(text[begin..], quote)) ==
            if begin == |text| || text[begin] != quote then Ok(begin)
            else Plus(begin + 1, QuoteTail(text[begin + 1..], quote))
    ensures Plus(|text|, QuoteTail(text[|text|..], quote)) == Err(UnterminatedQuote)
  {
    if begin < |text| {
      assert text[begin..][0] == text[begin] && text[begin..][1..] == text[begin + 1..];
    }
  }

  method MatchQuote(text: string, begin: nat, quote: char) returns (r: Result<nat>)
    requires begin <= |text|
    requires quote != '\\'
    ensures r == Plus(begin, QuoteLength(text[begin..], quote))
  {
    hide *;
    QuoteOpens(text, begin, quote);
    if begin == |text| || text[begin] != quote {
      return Ok(begin);
    }
    var i := begin + 1;
    ghost var expected := Plus(begin, QuoteLength(text[begin..], quote));
    while i != |text|
      invariant begin < i <= |text|
      invariant expected == Plus(i, QuoteTail(text[i..], quote))
      decreases |text| - i
    {
      QuoteTailStep(text, i, quote);
      if text[i] == '\\' {
        i := i + 1;
        if i == |text| {
          return Err(UnterminatedEscape);
        }
      } else if text[i] == quote {
        return Ok(i + 1);
      }
      i := i + 1;
    }
    return Err(UnterminatedQuote);
  }

  // -------------------------------------------------------------- comments

  /** What follows a block comment opener up to and including the closer. */
  function CloserEnd(s: string): (r: Result<nat>)
    ensures r.Ok? ==> 2 <= r.value <= |s|
  {
    if |s| < 2 then Err(UnterminatedBlockComment)
    else if s[..2] == "*/" then Ok(2)
    else Plus(1, CloserEnd(s[1..]))
  }

  function BlockCommentLength(s: string): (r: Result<nat>)
    ensures r.Ok? ==> r.value <= |s|
  {
    if |s| < 2 || s[..2] != "/*" then Ok(0) else Plus(2, CloserEnd(s[2..]))
  }

  method MatchBlockComment(text: string, begin: nat) returns (r: Result<nat>)
    requires begin <= |text|
    ensures r == Plus(begin, BlockCommentLength(text[begin..]))
  {
    if |text| - begin < 2 || text[begin..begin + 2] != "/*" {
      assert |text| - begin >= 2 ==> text[begin..][..2] == text[begin..begin + 2];
      return Ok(begin);
    }
    assert text[begin..][..2] == text[begin..begin + 2];
    var i := begin + 2;
    assert text[begin..][2..] == text[i..];
    while 2 <= |text| - i
      invariant begin + 2 <= i <= |text|
      invariant Plus(begin, BlockCommentLength(text[begin..])) == Plus(i, CloserEnd(text[i..]))
    {
      assert text[i..][..2] == text[i..i + 2];
      if text[i..i + 2] == "*/" {
        return Ok(i + 2);
      }
      assert text[i..][1..] == text[i + 1..];
      i := i + 1;
    }
    return Err(UnterminatedBlockComment);
  }

  /** Up to and including the next line end, or to the end of the text. */
  function LineEnd(s: string): (n: nat)
    ensures n <= |s|
  {
    if s == "" then 0 else if s[0] == '\n' then 1 else 1 + LineEnd(s[1..])
  }

  function LineCommentLength(s: string): (n: nat)
    ensures n <= |s|
    ensures n > 0 <==> |s| >= 2 && s[..2] == "--"
  {
    if |s| < 2 || s[..2] != "--" then 0 else 2 + LineEnd(s[2..])
  }

  method MatchLineComment(text: string, begin: nat) returns (end: nat)
    requires begin <= |text|
    ensures end == begin + LineCommentLength(text[begin..])
  {
    if |text| - begin < 2 || text[begin..begin + 2] != "--" {
      assert |text| - begin >= 2 ==> text[begin..][..2] == text[begin..begin + 2];
      return begin;
    }
    assert text[begin..][..2] == text[begin..begin + 2];
    var i := begin + 2;
    assert text[begin..][2..] == text[i..];
    while i != |text|
      invariant begin + 2 <= i <= |text|
      invariant begin + LineCommentLength(text[begin..]) == i + LineEnd(text[i..])
      decreases |text| - i
    {
      if text[i] == '\n' {
        return i + 1;
      }
      assert text[i..][1..] == text[i + 1..];
      i := i + 1;
    }
    return |text|;
  }

  /** The reject matchers: any match, and an unterminated block comment, ends the scan. */
  function Rejection(s: string): Option<Error> {
    match BlockCommentLength(s)
    case Err(e) => Some(e)
    case Ok(n) => if n > 0 || LineCommentLength(s) > 0 then Some(RejectedText) else None
  }

  /** A scan position is rejected exactly when a comment opens there, closed or not. */
  lemma RejectionIsOpener(s: string)
    ensures Rejection(s).Some? <==> |s| >= 2 && (s[..2] == "/*" || s[..2] == "--")
  {
    if BlockCommentLength(s).Ok? && |s| >= 2 && s[..2] == "/*" {
      assert CloserEnd(s[2..]).Ok?;
    }
  }

  // ---------------------------------------------------- application matcher

  predicate IsIdentifierChar(c: char) { IsAlnum(c) || c == '_' }

  /** Length of the longest run of identifier characters at the front. */
  function IdentifierRun(s: string): (n: nat)
    ensures n <= |s|
    ensures forall i :: 0 <= i < n ==> IsIdentifierChar(s[i])
    ensures n < |s| ==> !IsIdentifierChar(s[n])
  {
    if s != "" && IsIdentifierChar(s[0]) then 1 + IdentifierRun(s[1..]) else 0
  }

  function IdentifierLength(s: string): (n: nat)
    ensures n <= |s|
    ensures n > 0 <==> s != "" && IsAlpha(s[0])
  {
    if s == "" || !IsAlpha(s[0]) then 0 else IdentifierRun(s)
  }

  method MatchIdentifier(text: string, begin: nat) returns (end: nat)
    requires begin <= |text|
    ensures end == begin + IdentifierLength(text[begin..])
  {
    if begin == |text| || !IsAlpha(text[begin]) {
      return begin;
    }
    ghost var s := text[begin..];
    end := begin + 1;
    while end != |text| && (IsAlnum(text[end]) || text[end] == '_')
      invariant begin < end <= |text|
      invariant forall i :: 0 <= i < end - begin ==> IsIdentifierChar(s[i])
      decreases |text| - end
    {
      end := end + 1;
    }
    assert end < |text| ==> s[end - begin] == text[end];
    assert IdentifierRun(s) == end - begin;
  }

  function AppLength(app: AppMatcher, s: string): (r: Result<nat>)
    requires s != ""
    ensures r.Ok? ==> r.value <= |s|
  {
    match app
    case NoMatches => Ok(0)
    case PlaceholderMatcher(argCount) => Placeholders.MatchLength(s, argCount)
    case IdentifierMatcher => Ok(IdentifierLength(s))
  }

  method MatchApp(app: AppMatcher, text: string, begin: nat) returns (r: Result<nat>)
    requires begin < |text|
    ensures r == Plus(begin, AppLength(app, text[begin..]))
  {
    match app {
      case NoMatches =>
        r := Ok(begin);
      case PlaceholderMatcher(argCount) =>
        var len := Placeholders.MatchPlaceholder(text, begin, argCount);
        r := Plus(begin, len);
      case IdentifierMatcher =>
        var end := MatchIdentifier(text, begin);
        r := Ok(end);
    }
  }

  // ------------------------------------------------------------- next match

  /** Only the identifier expander runs without reject matchers. */
  predicate Rejecting(app: AppMatcher) { !app.IdentifierMatcher? }

  /** The segment the scanner cuts off the front of a non-empty text: at least one character. */
  function NextMatch(app: AppMatcher, s: string): (r: Result<Match>)
    requires s != ""
    ensures r.Ok? ==> 1 <= r.value.len <= |s|
    ensures r.Ok? ==> (r.value.kind == Masked <==> IsQuote(s[0]))
    ensures r.Ok? && r.value.kind == Plain ==> r.value.len == 1
  {
    if Rejecting(app) && Rejection(s).Some? then Err(Rejection(s).value)
    else if IsQuote(s[0]) then
      match QuoteLength(s, s[0])
      case Err(e) => Err(e)
      case Ok(n) => Ok(Match(n, Masked))
    else
      match AppLength(app, s)
      case Err(e) => Err(e)
      case Ok(n) => Ok(if n > 0 then Match(n, Matched) else Match(1, Plain))
  }

  /** `match_mask`: the single-quote matcher, then the double-quote one. */
  method MatchMask(text: string, begin: nat) returns (r: Result<nat>)
    requires begin < |text|
    ensures r == if IsQuote(text[begin]) then Plus(begin, QuoteLength(text[begin..], text[begin])) else Ok(begin)
  {
    r := MatchQuote(text, begin, '\'');
    if r == Ok(begin) {
      r := MatchQuote(text, begin, '"');
    }
  }

  /** The part of `process_text`'s loop that finds the next segment. */
  method FindMatch(app: AppMatcher, text: string, begin: nat) returns (r: Result<Match>)
    requires begin < |text|
    ensures r == NextMatch(app, text[begin..])
  {
    hide QuoteLength, BlockCommentLength, LineCommentLength, AppLength;
    if Rejecting(app) {
      var block := MatchBlockComment(text, begin);
      if block.Err? {
        return Err(block.error);
      }
      if block.value != begin {
        return Err(RejectedText);
      }
      var line := MatchLineComment(text, begin);
      if line != begin {
        return Err(RejectedText);
      }
    }
    var mask := MatchMask(text, begin);
    if mask.Err? {
      return Err(mask.error);
    }
    if mask.value != begin {
      return Ok(Match(mask.value - begin, Masked));
    }
    var app' := MatchApp(app, text, begin);
    if app'.Err? {
      return Err(app'.error);
    }
    return Ok(if app'.value == begin then Match(1, Plain) else Match(app'.value - begin, Matched));
  }

  // --------------------------------------------------------------- segments

  datatype Seg = Seg(text: string, kind: Kind)

  function Texts(segs: seq<Seg>): (texts: seq<string>)
    ensures |texts| == |segs| && forall i :: 0 <= i < |segs| ==> texts[i] == segs[i].text
  {
    seq(|segs|, i requires 0 <= i < |segs| => segs[i].text)
  }

  function Flat(segs: seq<Seg>): string {
    Cat(Texts(segs))
  }

  lemma FlatCons(seg: Seg, segs: seq<Seg>)
    ensures Flat([seg] + segs) == seg.text + Flat(segs)
  {
    assert Texts([seg] + segs) == [seg.text] + Texts(segs);
  }

  lemma FlatAppend(a: seq<Seg>, b: seq<Seg>)
    ensures Flat(a + b) == Flat(a) + Flat(b)
  {
    assert Texts(a + b) == Texts(a) + Texts(b);
    CatAppend(Texts(a), Texts(b));
  }

  /** A quoted region that the quote matcher consumes whole. */
  predicate IsQuoted(s: string) {
    s != "" && IsQuote(s[0]) && QuoteLength(s, s[0]) == Ok(|s|)
  }

  /** The quote matcher never looks past the closing quote. */
  lemma {:induction false} QuoteTailLocal(s: string, t: string, quote: char)
    requires QuoteTail(s, quote).Ok?
    ensures QuoteTail(s[..QuoteTail(s, quote).value] + t, quote) == QuoteTail(s, quote)
  {
    var n := QuoteTail(s, quote).value;
    var u := s[..n] + t;
    if s[0] == '\\' {
      QuoteTailLocal(s[2..], t, quote);
      assert u[2..] == s[2..][..n - 2] + t;
    } else if s[0] != quote {
      QuoteTailLocal(s[1..], t, quote);
      assert u[1..] == s[1..][..n - 1] + t;
    }
  }

  /** A matched quote is a quoted region on its own, and followed by any other text. */
  lemma QuoteLocal(s: string, t: string)
    requires s != "" && IsQuote(s[0]) && QuoteLength(s, s[0]).Ok?
    ensures var n := QuoteLength(s, s[0]).value;
            IsQuoted(s[..n]) && QuoteLength(s[..n] + t, s[0]) == Ok(n)
  {
    var n := QuoteLength(s, s[0]).value;
    QuoteTailLocal(s[1..], t, s[0]);
    QuoteTailLocal(s[1..], "", s[0]);
    assert (s[..n] + t)[1..] == s[1..][..n - 1] + t;
    assert s[..n][1..] == s[1..][..n - 1] + "";
  }
}
