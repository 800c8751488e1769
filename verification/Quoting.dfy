/** Escaping quotes in DDL text, and its inverse through the quote matcher. */
module Quoting {
  import opened Common
  import opened TextProcessor

  /** Every quote behind a backslash. */
  function Escape(s: string, quote: char): string {
    if s == "" then ""
    else (if s[0] == quote then ['\\', quote] else [s[0]]) + Escape(s[1..], quote)
  }

  /** Position of the first quote at or after `from`; the length when there is none. */
  function Find(s: string, quote: char, from: nat): (pos: nat)
    requires from <= |s|
    ensures from <= pos <= |s|
    ensures forall i :: from <= i < pos ==> s[i] != quote
    ensures pos < |s| ==> s[pos] == quote
    decreases |s| - from
  {
    if from == |s| || s[from] == quote then from else Find(s, quote, from + 1)
  }

  lemma {:induction false} EscapeAppend(a: string, b: string, quote: char)
    ensures Escape(a + b, quote) == Escape(a, quote) + Escape(b, quote)
  {
    if a == "" {
      AppendEmpty(b);
      AppendEmpty(Escape(b, quote));
    } else {
      assert (a + b)[1..] == a[1..] + b;
      EscapeAppend(a[1..], b, quote);
      AppendAssoc(if a[0] == quote then ['\\', quote] else [a[0]], Escape(a[1..], quote), Escape(b, quote));
    }
  }

  lemma {:induction false} EscapePlain(s: string, quote: char)
    requires quote !in s
    ensures Escape(s, quote) == s
  {
    if s != "" {
      assert s[0] in s;
      assert forall c :: c in s[1..] ==> c in s;
      EscapePlain(s[1..], quote);
      Uncons(s);
    }
  }

  /** The text up to and including the next quote, escaped. */
  lemma EscapeUpTo(s: string, quote: char, from: nat, pos: nat)
    requires from <= pos < |s| && s[pos] == quote && forall i :: from <= i < pos ==> s[i] != quote
    ensures Escape(s[from..], quote) == s[from..pos] + ['\\', quote] + Escape(s[pos + 1..], quote)
  {
    assert s[from..] == s[from..pos] + s[pos..];
    EscapeAppend(s[from..pos], s[pos..], quote);
    EscapePlain(s[from..pos], quote);
    assert s[pos..][1..] == s[pos + 1..];
    AppendAssoc(s[from..pos], ['\\', quote], Escape(s[pos + 1..], quote));
  }

  /** The text built so far: an escaped prefix, then the rest of the original. */
  ghost predicate Replacing(ddl: string, quote: char, text: string, done: string, from: nat) {
    from <= |ddl| && text == done + ddl[from..] && Escape(ddl, quote) == done + Escape(ddl[from..], quote)
  }

  lemma ReplaceQuote(ddl: string, quote: char, text: string, done: string, from: nat, pos: nat)
    returns (done': string, from': nat)
    requires Replacing(ddl, quote, text, done, from)
    requires |done| <= pos < |text| && text[pos] == quote && forall i :: |done| <= i < pos ==> text[i] != quote
    ensures Replacing(ddl, quote, text[..pos] + ['\\', quote] + text[pos + 1..], done', from')
    ensures |done'| == pos + 2 && from' > from
  {
    var at := from + pos - |done|;
    assert ddl[at] == text[pos] && forall i :: from <= i < at ==> ddl[i] == text[i - from + |done|];
    EscapeUpTo(ddl, quote, from, at);
    var more := ddl[from..at] + ['\\', quote];
    AppendAssoc(done, more, Escape(ddl[at + 1..], quote));
    done', from' := done + more, at + 1;
    assert text[..pos] + ['\\', quote] + text[pos + 1..] == done' + ddl[at + 1..];
  }

  lemma NothingLeft(ddl: string, quote: char, text: string, done: string, from: nat)
    requires Replacing(ddl, quote, text, done, from)
    requires |done| <= |text| && forall i :: |done| <= i < |text| ==> text[i] != quote
    ensures text == Escape(ddl, quote)
  {
    assert forall i :: 0 <= i < |ddl[from..]| ==> ddl[from..][i] == text[i + |done|];
    EscapePlain(ddl[from..], quote);
  }

  /** `make_quotable_ddl`: replaces in place, resuming the search after each replacement. */
  method MakeQuotable(ddl: string, quote: char) returns (quotable: string)
    requires quote != '\\'
    ensures quotable == Escape(ddl, quote)
  {
    var pos := Find(ddl, quote, 0);
    if pos == |ddl| {
      EscapePlain(ddl, quote);
      return ddl;
    }
    quotable := ddl;
    ghost var done, from := "", 0;
    TakeAll(ddl);
    AppendEmpty(ddl);
    AppendEmpty(Escape(ddl, quote));
    while pos != |quotable|
      invariant Replacing(ddl, quote, quotable, done, from)
      invariant |done| <= pos <= |quotable|
      invariant forall i :: |done| <= i < pos ==> quotable[i] != quote
      invariant pos < |quotable| ==> quotable[pos] == quote
      decreases |ddl| - from
    {
      done, from := ReplaceQuote(ddl, quote, quotable, done, from, pos);
      quotable := quotable[..pos] + ['\\', quote] + quotable[pos + 1..];
      pos := Find(quotable, quote, pos + 2);
    }
    NothingLeft(ddl, quote, quotable, done, from);
  }

  /** What the characters between two quotes stand for. */
  function Unescape(s: string): string {
    if s == "" then ""
    else if s[0] == '\\' && |s| > 1 then [s[1]] + Unescape(s[2..])
    else [s[0]] + Unescape(s[1..])
  }

  function Quoted(s: string, quote: char): string {
    [quote] + Escape(s, quote) + [quote]
  }

  /** The quote matcher takes the quoted text whole, and unescaping its inside gives the text back. */
  predicate RoundTrips(s: string, quote: char) {
    QuoteLength(Quoted(s, quote), quote) == Ok(|Quoted(s, quote)|) && Unescape(Escape(s, quote)) == s
  }

  predicate TailExact(s: string, quote: char) {
    QuoteTail(Escape(s, quote) + [quote], quote) == Ok(|Escape(s, quote)| + 1)
  }

  lemma QuotedTail(s: string, quote: char)
    ensures QuoteLength(Quoted(s, quote), quote) == Ok(|Quoted(s, quote)|) <==> TailExact(s, quote)
  {
    assert Quoted(s, quote)[1..] == Escape(s, quote) + [quote];
  }

  lemma {:induction false} BackslashFreeRoundTrips(s: string, quote: char)
    requires quote != '\\' && '\\' !in s
    ensures TailExact(s, quote) && Unescape(Escape(s, quote)) == s
  {
    if s == "" {
      AppendEmpty([quote]);
    } else {
      assert s[0] in s && forall c :: c in s[1..] ==> c in s;
      hide *;
      BackslashFreeRoundTrips(s[1..], quote);
      OneCharRoundTrips(s[0], s[1..], quote);
      Uncons(s);
    }
  }

  lemma OneCharRoundTrips(c: char, rest: string, quote: char)
    requires c != '\\' && quote != '\\' && TailExact(rest, quote) && Unescape(Escape(rest, quote)) == rest
    ensures TailExact([c] + rest, quote) && Unescape(Escape([c] + rest, quote)) == [c] + rest
  {
    hide *;
    EscapeCons(c, rest, quote);
    TailExactIs(rest, quote);
    TailExactIs([c] + rest, quote);
    var front := if c == quote then ['\\', quote] else [c];
    var tail := Escape(rest, quote);
    AppendAssoc(front, tail, [quote]);
    ReadFront(c, tail, quote);
    ReadFront(c, tail + [quote], quote);
    PlusOk(|front|, |tail| + 1);
  }

  lemma PlusOk(n: nat, m: nat)
    ensures Plus(n, Ok(m)) == Ok(n + m)
  {
  }

  lemma TailExactIs(s: string, quote: char)
    ensures TailExact(s, quote) <==> QuoteTail(Escape(s, quote) + [quote], quote) == Ok(|Escape(s, quote)| + 1)
  {
  }

  lemma EscapeCons(c: char, rest: string, quote: char)
    ensures Escape([c] + rest, quote) == (if c == quote then ['\\', quote] else [c]) + Escape(rest, quote)
  {
    CutBetween([c], rest);
  }

  /** The matcher and the unescaper each take an escaped character as one. */
  lemma ReadFront(c: char, tail: string, quote: char)
    requires c != '\\' && quote != '\\'
    ensures var front := if c == quote then ['\\', quote] else [c];
            QuoteTail(front + tail, quote) == Plus(|front|, QuoteTail(tail, quote)) &&
            Unescape(front + tail) == [c] + Unescape(tail)
  {
    CutBetween(if c == quote then ['\\', quote] else [c], tail);
  }

  /** Unescaping never gives more than the original, and loses a character at the first backslash. */
  lemma {:induction false} UnescapeIsNoLonger(s: string, quote: char)
    requires quote != '\\' && TailExact(s, quote)
    ensures |Unescape(Escape(s, quote))| <= |s|
    ensures '\\' in s ==> |Unescape(Escape(s, quote))| < |s|
  {
    if s != "" {
      var rest := Escape(s[1..], quote);
      if s[0] == quote {
        assert (['\\', quote] + rest)[2..] == rest;
        assert (['\\', quote] + rest + [quote])[2..] == rest + [quote];
        UnescapeIsNoLonger(s[1..], quote);
      } else if s[0] != '\\' {
        assert ([s[0]] + rest)[1..] == rest;
        assert ([s[0]] + rest + [quote])[1..] == rest + [quote];
        UnescapeIsNoLonger(s[1..], quote);
      } else {
        BackslashSwallows(s, quote);
        if |s| > 1 && s[1] != quote {
          UnescapeIsNoLonger(s[2..], quote);
        }
      }
    }
  }

  /** A backslash before a quote swallows the inserted backslash, and the quote ends the match early. */
  lemma BackslashBeforeQuote(s: string, quote: char)
    requires quote != '\\' && |s| > 1 && s[0] == '\\' && s[1] == quote
    ensures !TailExact(s, quote)
  {
    var e, rest := Escape(s, quote), Escape(s[2..], quote);
    assert s[1..][1..] == s[2..];
    assert Escape(s[1..], quote) == ['\\', quote] + rest;
    assert e == ['\\'] + Escape(s[1..], quote);
    var tail := [quote] + rest + [quote];
    assert (e + [quote])[2..] == tail && tail[0] == quote;
    assert QuoteTail(tail, quote) == Ok(1);
  }

  /** A leading backslash pairs with the next character; before a quote, or at the end, the match goes wrong. */
  lemma BackslashSwallows(s: string, quote: char)
    requires quote != '\\' && s != "" && s[0] == '\\' && TailExact(s, quote)
    ensures |s| > 1 && s[1] != quote && TailExact(s[2..], quote)
    ensures Unescape(Escape(s, quote)) == [s[1]] + Unescape(Escape(s[2..], quote))
  {
    var e := Escape(s, quote);
    var rest := Escape(s[1..], quote);
    assert e == ['\\'] + rest;
    if |s| == 1 {
      assert false;
    } else {
      if s[1] == quote {
        BackslashBeforeQuote(s, quote);
        assert false;
      } else {
        var rest' := Escape(s[2..], quote);
        assert s[1..][1..] == s[2..];
        assert rest == [s[1]] + rest';
        assert (e + [quote])[2..] == rest' + [quote];
        assert e[2..] == rest';
      }
    }
  }

  /** Exactly the backslash-free texts survive being quoted and read back. */
  lemma QuotingRoundTrip(s: string, quote: char)
    requires quote != '\\'
    ensures RoundTrips(s, quote) <==> '\\' !in s
  {
    QuotedTail(s, quote);
    if '\\' !in s {
      BackslashFreeRoundTrips(s, quote);
    } else if TailExact(s, quote) {
      UnescapeIsNoLonger(s, quote);
    }
  }
}
