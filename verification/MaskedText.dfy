/** What quotes mask: the expander copies the text between them, and the tokeniser does not look into it. */
module MaskedText {
  import opened Common
  import opened MacroArgs
  import opened MacroExpander
  import opened TextProcessor
  import ArgumentLists
  import ArgumentMeaning

  // ------------------------------------------------------------------ the matcher

  lemma {:induction false} ClosesAtEnd(t: string, q: char, rest: string)
    requires forall i :: 0 <= i < |t| ==> t[i] != '\\' && t[i] != q
    requires q != '\\'
    ensures QuoteTail(t + [q] + rest, q) == Ok(|t| + 1)
  {
    var s := t + [q] + rest;
    if t != "" {
      assert s[0] == t[0] && s[1..] == t[1..] + [q] + rest;
      ClosesAtEnd(t[1..], q, rest);
    } else {
      assert s[0] == q;
    }
  }

  lemma {:induction false} SkipsEscape(a: string, q: char, rest: string)
    requires forall i :: 0 <= i < |a| ==> a[i] != '\\' && a[i] != q
    requires q != '\\'
    ensures QuoteTail(a + ['\\', q] + rest, q) == Plus(|a| + 2, QuoteTail(rest, q))
  {
    var s := a + ['\\', q] + rest;
    if a != "" {
      assert s[0] == a[0] && s[1..] == a[1..] + ['\\', q] + rest;
      SkipsEscape(a[1..], q, rest);
    } else {
      assert s[0] == '\\' && s[2..] == rest;
    }
  }

  lemma {:induction false} NeverCloses(t: string, q: char)
    requires forall i :: 0 <= i < |t| ==> t[i] != '\\' && t[i] != q
    ensures QuoteTail(t, q) == Err(UnterminatedQuote)
  {
    if t != "" {
      NeverCloses(t[1..], q);
    }
  }

  lemma {:induction false} EndsInEscape(t: string, q: char)
    requires forall i :: 0 <= i < |t| ==> t[i] != '\\' && t[i] != q
    ensures QuoteTail(t + ['\\'], q) == Err(UnterminatedEscape)
  {
    var s := t + ['\\'];
    if t != "" {
      assert s[0] == t[0] && s[1..] == t[1..] + ['\\'];
      EndsInEscape(t[1..], q);
    }
  }

  /** A region that the quote matcher takes whole is one segment for every matcher, in any text. */
  lemma MaskedSegment(app: AppMatcher, quoted: string, q: char, rest: string)
    requires q == '\'' || q == '"'
    requires quoted != "" && quoted[0] == q && QuoteLength(quoted, q) == Ok(|quoted|)
    ensures NextMatch(app, quoted + rest) == Ok(Match(|quoted|, Masked))
  {
    QuoteLocal(quoted, rest);
    TakeAll(quoted);
    RejectionIsOpener(quoted + rest);
    assert |quoted + rest| >= 2 ==> (quoted + rest)[..2][0] == q;
  }

  lemma QuotedWhole(t: string, q: char)
    requires forall i :: 0 <= i < |t| ==> t[i] != '\\' && t[i] != q
    requires q != '\\'
    ensures var quoted := [q] + t + [q];
            quoted[0] == q && |quoted| == |t| + 2 && QuoteLength(quoted, q) == Ok(|quoted|)
  {
    ClosesAtEnd(t, q, "");
    AppendEmpty(t + [q]);
    assert ([q] + t + [q])[1..] == t + [q];
  }

  lemma Regrouped(q: char, a: string, escape: string, b: string)
    ensures [q] + a + escape + b + [q] == [q] + (a + escape + (b + [q]))
    ensures |[q] + a + escape + b + [q]| == |a| + |escape| + |b| + 2
  {
  }

  lemma Opens(q: char, s: string)
    ensures ([q] + s)[0] == q && QuoteLength([q] + s, q) == Plus(1, QuoteTail(s, q))
  {
    assert ([q] + s)[1..] == s;
  }

  lemma Added(n: nat, m: nat)
    ensures Plus(n, Ok(m)) == Ok(n + m)
  {
  }

  lemma EscapedWhole(a: string, b: string, q: char)
    requires forall i :: 0 <= i < |a| ==> a[i] != '\\' && a[i] != q
    requires forall i :: 0 <= i < |b| ==> b[i] != '\\' && b[i] != q
    requires q != '\\'
    ensures var quoted := [q] + a + ['\\', q] + b + [q];
            quoted[0] == q && QuoteLength(quoted, q) == Ok(|quoted|)
  {
    hide *;
    ClosesAtEnd(b, q, "");
    AppendEmpty(b + [q]);
    SkipsEscape(a, q, b + [q]);
    Regrouped(q, a, ['\\', q], b);
    Opens(q, a + ['\\', q] + (b + [q]));
    Added(|a| + 2, |b| + 1);
    Added(1, |a| + |b| + 3);
  }

  // ----------------------------------------------------------------- the expander

  lemma NothingToExpand(rules: Rules)
    ensures ExpandOnce(rules, "") == Ok("")
  {
  }

  lemma CopiedSegment(rules: Rules, seg: string, rest: string, kind: Kind)
    requires seg != "" && !('a' <= seg[0] <= 'z') && !('A' <= seg[0] <= 'Z')
    requires NextMatch(IdentifierMatcher, seg + rest) == Ok(Match(|seg|, kind))
    ensures ExpandOnce(rules, seg + rest) ==
            match ExpandOnce(rules, rest)
            case Err(e) => Err(e)
            case Ok(t) => Ok(seg + t)
  {
    CutBetween(seg, rest);
    hide NextMatch;
    assert (seg + rest)[0] == seg[0];
    assert NextAdvance(rules, seg + rest) == Ok(Advance(|seg|, seg));
    hide NextAdvance;
  }

  /** A quoted text is left alone, whatever names stand in it, for single and for double quotes. */
  lemma QuotedIsKept(rules: Rules, t: string, q: char)
    requires q == '\'' || q == '"'
    requires forall i :: 0 <= i < |t| ==> t[i] != '\\' && t[i] != q
    ensures ExpandOnce(rules, [q] + t + [q]) == Ok([q] + t + [q])
  {
    var quoted := [q] + t + [q];
    QuotedWhole(t, q);
    MaskedSegment(IdentifierMatcher, quoted, q, "");
    AppendEmpty(quoted);
    hide *;
    NothingToExpand(rules);
    CopiedSegment(rules, quoted, "", Masked);
  }

  /** A quote behind a backslash does not end the quoted text. */
  lemma EscapedQuoteIsKept(rules: Rules, a: string, b: string, q: char)
    requires q == '\'' || q == '"'
    requires forall i :: 0 <= i < |a| ==> a[i] != '\\' && a[i] != q
    requires forall i :: 0 <= i < |b| ==> b[i] != '\\' && b[i] != q
    ensures var quoted := [q] + a + ['\\', q] + b + [q];
            ExpandOnce(rules, quoted) == Ok(quoted)
  {
    var quoted := [q] + a + ['\\', q] + b + [q];
    EscapedWhole(a, b, q);
    MaskedSegment(IdentifierMatcher, quoted, q, "");
    AppendEmpty(quoted);
    hide *;
    NothingToExpand(rules);
    CopiedSegment(rules, quoted, "", Masked);
  }

  /** A quote that is not closed is an error. */
  lemma OpenQuoteIsAnError(rules: Rules, t: string, q: char)
    requires q == '\'' || q == '"'
    requires forall i :: 0 <= i < |t| ==> t[i] != '\\' && t[i] != q
    ensures ExpandOnce(rules, [q] + t) == Err(UnterminatedQuote)
  {
    NeverCloses(t, q);
    assert ([q] + t)[1..] == t && ([q] + t)[0] == q;
  }

  /** A text that ends in a quote's backslash is an error of its own. */
  lemma OpenEscapeIsAnError(rules: Rules, t: string, q: char)
    requires q == '\'' || q == '"'
    requires forall i :: 0 <= i < |t| ==> t[i] != '\\' && t[i] != q
    ensures ExpandOnce(rules, [q] + (t + ['\\'])) == Err(UnterminatedEscape)
  {
    EndsInEscape(t, q);
    var s := [q] + (t + ['\\']);
    assert s[1..] == t + ['\\'] && s[0] == q;
  }

  /** No other character masks: everything but quotes and letters is copied alone. */
  lemma OtherIsCopied(rules: Rules, c: char, rest: string)
    requires c != '\'' && c != '"' && !('a' <= c <= 'z') && !('A' <= c <= 'Z')
    ensures ExpandOnce(rules, [c] + rest) ==
            match ExpandOnce(rules, rest)
            case Err(e) => Err(e)
            case Ok(t) => Ok([c] + t)
  {
    assert ([c] + rest)[0] == c;
    assert NextMatch(IdentifierMatcher, [c] + rest) == Ok(Match(1, Plain));
    hide *;
    CopiedSegment(rules, [c], rest, Plain);
  }

  // ---------------------------------------------------------------- the tokeniser

  lemma MaskedPiece(seg: Seg)
    requires ArgumentLists.SegOk(seg) && seg.kind == Masked
    ensures ArgumentLists.Clean([seg]) && ArgumentLists.Nested([seg], 0)
  {
    hide ArgumentLists.SegOk;
    assert [seg][1..] == [];
  }

  lemma OneSegText(seg: Seg)
    ensures Flat([seg]) == seg.text
  {
    FlatCons(seg, []);
    AppendEmpty([seg]);
    AppendEmpty(seg.text);
  }

  lemma QuotedPiece(quoted: string, q: char)
    requires q == '\'' || q == '"'
    requires quoted != "" && quoted[0] == q && QuoteLength(quoted, q) == Ok(|quoted|)
    requires quoted[|quoted| - 1] == q
    ensures ArgumentMeaning.IsArg(quoted)
  {
    var seg := Seg(quoted, Masked);
    hide QuoteLength;
    assert ArgumentLists.SegOk(seg) && Solid(quoted);
    MaskedPiece(seg);
    OneSegText(seg);
    hide ArgumentLists.Clean, ArgumentLists.Nested, ArgumentLists.SegOk, Flat, Solid, IsQuote;
    assert ArgumentMeaning.IsArgPiece(quoted, [seg]);
  }

  /** A quoted text is one argument, whatever commas, parentheses and comment openers stand in it. */
  lemma QuotedIsOneArgument(t: string, q: char)
    requires q == '\'' || q == '"'
    requires forall i :: 0 <= i < |t| ==> t[i] != '\\' && t[i] != q
    ensures var quoted := [q] + t + [q];
            Tokenize(ArgumentList, "(" + quoted + ")") == Ok(Tokenized(|t| + 4, [quoted]))
  {
    var quoted := [q] + t + [q];
    QuotedWhole(t, q);
    QuotedPiece(quoted, q);
    hide *;
    OneIsPrinted(quoted);
    OneArgument(quoted);
    ArgumentMeaning.PrintThenTokenize([quoted]);
  }

  lemma OneIsPrinted(token: string)
    ensures ArgumentMeaning.Print([token]) == "(" + token + ")" && |"(" + token + ")"| == |token| + 2
  {
  }

  lemma OneArgument(token: string)
    requires ArgumentMeaning.IsArg(token)
    ensures ArgumentMeaning.AllArgs([token])
  {
    hide ArgumentMeaning.IsArg;
  }
}
