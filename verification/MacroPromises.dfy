/** Two documented promises that macro expansion keeps only in part, and exactly when it keeps them. */
module MacroPromises {
  import opened Common
  import opened TextProcessor
  import opened MacroArgs
  import opened MacroExpander
  import opened MacroScan
  import ArgumentMeaning
  import MacroConservation

  // The promises: a declared argument list is mandatory, and names inside longer names are left
  // alone. For each, an input that breaks it and the exact condition under which it is kept.

  // ------------------------------------------------ argument lists are mandatory

  /** The text starts with an argument list that tokenises, has the declared length, and is rewritten. */
  predicate HasProperList(rule: ArgsRule, s: string) {
    var list := Tokenize(ArgumentList, s);
    list.Ok? && |list.value.tokens| == rule.argCount && RewriteArgs(rule, list.value.tokens).Ok?
  }

  /** The scanner takes a name off the front, and its rule declares an argument list. */
  predicate IsCallName(rules: Rules, s: string) {
    s != "" &&
    var next := NextMatch(IdentifierMatcher, s);
    next.Ok? &&
    var seg := Seg(s[..next.value.len], next.value.kind);
    IsRuleName(rules, seg) && rules[Upper(seg.text)].macroArgs.Some?
  }

  function CallRule(rules: Rules, s: string): ArgsRule
    requires IsCallName(rules, s)
  {
    rules[Upper(s[..NextMatch(IdentifierMatcher, s).value.len])].macroArgs.value
  }

  function BehindName(s: string): string
    requires s != "" && NextMatch(IdentifierMatcher, s).Ok?
  {
    s[NextMatch(IdentifierMatcher, s).value.len..]
  }

  lemma ListOpens(s: string)
    requires Tokenize(ArgumentList, s).Ok?
    ensures MacroConservation.OpensList(s)
  {
    ArgumentMeaning.ArgumentPieces(s);
    hide Tokenize;
    assert s[0] == s[..Tokenize(ArgumentList, s).value.len][0];
  }

  lemma ExpandsProperList(rule: ArgsRule, s: string)
    ensures HasProperList(rule, s) <==> ExpandArgs(rule, s).Ok? && ExpandArgs(rule, s).value.argCount == rule.argCount
    ensures HasProperList(rule, s) ==> MacroConservation.OpensList(s)
  {
    hide Tokenize, RewriteArgs;
    if Tokenize(ArgumentList, s).Ok? {
      ListOpens(s);
    }
  }

  /**
   * The exact condition, for one call: the expander accepts just the calls with a proper
   * argument list if and only if a parenthesis directly follows the name.
   */
  lemma CallIsCheckedExactlyWhen(rules: Rules, s: string)
    requires IsCallName(rules, s)
    ensures (NextAdvance(rules, s).Ok? <==> HasProperList(CallRule(rules, s), BehindName(s)))
            <==> MacroConservation.OpensList(BehindName(s))
    ensures HasProperList(CallRule(rules, s), BehindName(s)) ==> NextAdvance(rules, s).Ok?
  {
    ExpandsProperList(CallRule(rules, s), BehindName(s));
    MacroConservation.AdvanceCases(rules, s);
    hide NextMatch, NextAdvance, HasProperList, ExpandArgs, Upper, MacroConservation.OpensList;
  }

  /** The pass as documented: a name whose rule declares a list is an error without a proper one. */
  function DocumentedOnce(rules: Rules, s: string): Result<string>
    decreases |s|
  {
    if s == "" then Ok("")
    else if IsCallName(rules, s) && !HasProperList(CallRule(rules, s), BehindName(s)) then Err(MissingOpen)
    else
      match NextAdvance(rules, s)
      case Err(e) => Err(e)
      case Ok(a) => Append(a.text, DocumentedOnce(rules, s[a.len..]))
  }

  /** Before it ends or fails, the pass comes to a name without the list that its rule declares. */
  predicate HasBareCall(rules: Rules, s: string)
    decreases |s|
  {
    s != "" && NextAdvance(rules, s).Ok? &&
    ((IsCallName(rules, s) && !MacroConservation.OpensList(BehindName(s))) ||
     HasBareCall(rules, s[NextAdvance(rules, s).value.len..]))
  }

  /**
   * The exact condition, for a pass: the documented pass succeeds, with the same text, just
   * where the expander's pass does and comes to no name without a parenthesis behind it.
   */
  lemma {:induction false} ListsAreCheckedExactlyWhen(rules: Rules, s: string)
    ensures DocumentedOnce(rules, s).Ok? <==> ExpandOnce(rules, s).Ok? && !HasBareCall(rules, s)
    ensures DocumentedOnce(rules, s).Ok? ==> DocumentedOnce(rules, s) == ExpandOnce(rules, s)
    decreases |s|
  {
    hide NextAdvance, IsCallName, HasProperList, BehindName, CallRule, MacroConservation.OpensList;
    if s != "" {
      if IsCallName(rules, s) {
        CallIsCheckedExactlyWhen(rules, s);
      }
      if NextAdvance(rules, s).Ok? {
        ListsAreCheckedExactlyWhen(rules, s[NextAdvance(rules, s).value.len..]);
      }
    }
  }

  const MANDATORY: Rules := map["A" := Rule("now", Some(ArgsRule(0, "")))]

  /** A name whose rule declares an empty list is replaced without one, where the documented pass fails. */
  lemma BareNameIsReplaced()
    ensures ExpandOnce(MANDATORY, "a") == Ok("now") && DocumentedOnce(MANDATORY, "a").Err?
  {
    assert Upper("a") == "A";
    AdvanceStep("a");
    assert NextAdvance(MANDATORY, "a") == Ok(Advance(1, "now"));
    assert IsCallName(MANDATORY, "a") && !MacroConservation.OpensList(BehindName("a"));
    hide NextAdvance, IsCallName, BehindName, MacroConservation.OpensList;
    AppendEmpty("now");
    assert ExpandOnce(MANDATORY, "") == Ok("");
    ListsAreCheckedExactlyWhen(MANDATORY, "a");
  }

  // ------------------------------------------------ names inside longer names

  /** The text cut into quoted regions, maximal runs of letters, digits and underscores, and other characters. */
  function Words(s: string): Result<seq<string>>
    decreases |s|
  {
    if s == "" then Ok([])
    else if IsQuote(s[0]) && QuoteLength(s, s[0]).Err? then Err(QuoteLength(s, s[0]).error)
    else
      var n := WordLength(s);
      match Words(s[n..])
      case Err(e) => Err(e)
      case Ok(words) => Ok([s[..n]] + words)
  }

  function WordLength(s: string): (n: nat)
    requires s != "" && (IsQuote(s[0]) ==> QuoteLength(s, s[0]).Ok?)
    ensures 1 <= n <= |s|
  {
    if IsQuote(s[0]) then QuoteLength(s, s[0]).value
    else if IsIdentifierChar(s[0]) then IdentifierRun(s)
    else 1
  }

  function FirstLetter(word: string): (n: nat)
    ensures n <= |word|
  {
    if word == "" || IsAlpha(word[0]) then 0 else 1 + FirstLetter(word[1..])
  }

  /** A run that starts with a digit or an underscore, and is a rule name from its first letter on. */
  predicate HidesName(rules: Rules, word: string) {
    word != "" && IsIdentifierChar(word[0]) && !IsAlpha(word[0]) && EndsInName(rules, word)
  }

  predicate EndsInName(rules: Rules, word: string) {
    FirstLetter(word) < |word| && Upper(word[FirstLetter(word)..]) in rules
  }

  predicate NoneHides(rules: Rules, words: seq<string>) {
    forall i :: 0 <= i < |words| ==> !HidesName(rules, words[i])
  }

  predicate EndsInIdentifier(s: string) {
    s != "" && IsIdentifierChar(s[|s| - 1])
  }

  /** Neither neighbour of the segment continues it. */
  predicate StandsAlone(segs: seq<Seg>, i: nat)
    requires i < |segs|
  {
    LeftFree(segs, i) && (i + 1 < |segs| && segs[i + 1].text != "" ==> !IsIdentifierChar(segs[i + 1].text[0]))
  }

  predicate LeftFree(segs: seq<Seg>, i: nat)
    requires i < |segs|
  {
    i == 0 || !EndsInIdentifier(segs[i - 1].text)
  }

  /** Every name that is replaced stands alone. */
  predicate NamesStandAlone(rules: Rules, segs: seq<Seg>) {
    forall i :: 0 <= i < |segs| ==> IsRuleName(rules, segs[i]) ==> StandsAlone(segs, i)
  }

  predicate NamesLeftFree(rules: Rules, segs: seq<Seg>) {
    forall i :: 0 <= i < |segs| ==> NameLeftFree(rules, segs, i)
  }

  predicate NameLeftFree(rules: Rules, segs: seq<Seg>, i: nat)
    requires i < |segs|
  {
    IsRuleName(rules, segs[i]) ==> LeftFree(segs, i)
  }

  /** The scanner already takes names as long as possible to the right. */
  lemma {:induction false} RightFree(segs: seq<Seg>, i: nat)
    requires IsScan(segs) && i + 1 < |segs| && segs[i].kind == Matched
    ensures segs[i + 1].text != "" && !IsIdentifierChar(segs[i + 1].text[0])
  {
    hide IsScanSeg, IsIdentifierChar;
    if i > 0 {
      RightFree(segs[1..], i - 1);
    }
  }

  lemma OnlyLeftMatters(rules: Rules, segs: seq<Seg>)
    requires IsScan(segs)
    ensures NamesStandAlone(rules, segs) <==> NamesLeftFree(rules, segs)
  {
    hide IsScan, LeftFree;
    forall i | 0 <= i < |segs|
      ensures NameLeftFree(rules, segs, i) <==> (IsRuleName(rules, segs[i]) ==> StandsAlone(segs, i))
    {
      if i + 1 < |segs| && segs[i].kind == Matched {
        RightFree(segs, i);
      }
    }
  }

  lemma LeftPart(rules: Rules, a: seq<Seg>, b: seq<Seg>, i: nat)
    requires i < |a|
    ensures NameLeftFree(rules, a + b, i) <==> NameLeftFree(rules, a, i)
  {
    hide IsRuleName, EndsInIdentifier;
    assert (a + b)[i] == a[i] && (i > 0 ==> (a + b)[i - 1] == a[i - 1]);
  }

  lemma RightPart(rules: Rules, a: seq<Seg>, b: seq<Seg>, i: nat)
    requires a == [] || b == [] || !IsRuleName(rules, b[0]) || !EndsInIdentifier(a[|a| - 1].text)
    requires i < |b|
    ensures NameLeftFree(rules, a + b, |a| + i) <==> NameLeftFree(rules, b, i)
  {
    hide IsRuleName, EndsInIdentifier;
    assert (a + b)[|a| + i] == b[i] && (i > 0 ==> (a + b)[|a| + i - 1] == b[i - 1]);
  }

  lemma LeftFreeAppend(rules: Rules, a: seq<Seg>, b: seq<Seg>)
    requires a == [] || b == [] || !IsRuleName(rules, b[0]) || !EndsInIdentifier(a[|a| - 1].text)
    ensures NamesLeftFree(rules, a + b) <==> NamesLeftFree(rules, a) && NamesLeftFree(rules, b)
  {
    hide NameLeftFree, IsRuleName, EndsInIdentifier;
    var all := a + b;
    forall i | 0 <= i < |a| ensures NameLeftFree(rules, all, i) <==> NameLeftFree(rules, a, i) {
      LeftPart(rules, a, b, i);
    }
    forall i | 0 <= i < |b| ensures NameLeftFree(rules, all, |a| + i) <==> NameLeftFree(rules, b, i) {
      RightPart(rules, a, b, i);
    }
    if NamesLeftFree(rules, a) && NamesLeftFree(rules, b) {
      forall k | 0 <= k < |all| ensures NameLeftFree(rules, all, k) {
        if k >= |a| {
          RightPart(rules, a, b, k - |a|);
        }
      }
    }
  }

  /** How the scanner cuts a run: single characters up to the first letter, then a name. */
  function RunSegs(word: string): seq<Seg> {
    if word == "" then []
    else if IsAlpha(word[0]) then [Seg(word, Matched)]
    else [Seg(word[..1], Plain)] + RunSegs(word[1..])
  }

  predicate IsRun(word: string) {
    forall i :: 0 <= i < |word| ==> IsIdentifierChar(word[i])
  }

  lemma {:induction false} ScanOfRun(word: string, rest: string)
    requires IsRun(word) && MacroConservation.NameEnds(rest)
    ensures Scan(word + rest) ==
            match Scan(rest)
            case Err(e) => Err(e)
            case Ok(segs) => Ok(RunSegs(word) + segs)
    decreases |word|
  {
    if word == "" {
      AppendEmpty(rest);
      if Scan(rest).Ok? {
        AppendEmpty(Scan(rest).value);
      }
    } else if IsAlpha(word[0]) {
      ScanStep(Seg(word, Matched), rest);
    } else {
      var c, tail := word[..1], word[1..];
      ScanOfRun(tail, rest);
      assert IsScanSeg(Seg(c, Plain));
      hide Scan, IsIdentifierChar;
      ScanStep(Seg(c, Plain), tail + rest);
      Uncons(word);
      AppendAssoc(c, tail, rest);
      if Scan(rest).Ok? {
        AppendAssoc([Seg(c, Plain)], RunSegs(tail), Scan(rest).value);
      }
    }
  }

  /** The run starts with no letter: its only name is the one at its end. */
  lemma {:induction false} InsideRun(rules: Rules, word: string)
    requires IsRun(word) && word != "" && !IsAlpha(word[0])
    ensures NamesLeftFree(rules, RunSegs(word)) <==> !EndsInName(rules, word)
    decreases |word|
  {
    var first, tail := Seg(word[..1], Plain), word[1..];
    assert EndsInIdentifier(first.text) && !IsRuleName(rules, first);
    assert EndsInName(rules, word) <==> EndsInName(rules, tail) by {
      DropDrop(word, 1, FirstLetter(tail));
    }
    NotName(rules, first);
    if tail == "" {
      AppendEmpty([first]);
    } else if IsAlpha(tail[0]) {
      NameBehind(rules, first, tail);
    } else {
      InsideRun(rules, tail);
      hide NamesLeftFree, IsRuleName, EndsInIdentifier, EndsInName;
      LeftFreeAppend(rules, [first], RunSegs(tail));
    }
  }

  lemma NotName(rules: Rules, seg: Seg)
    requires !IsRuleName(rules, seg)
    ensures NamesLeftFree(rules, [seg])
  {
  }

  lemma NameBehind(rules: Rules, first: Seg, name: string)
    requires EndsInIdentifier(first.text) && first.kind == Plain && name != "" && IsAlpha(name[0])
    ensures NamesLeftFree(rules, [first] + RunSegs(name)) <==> !EndsInName(rules, name)
  {
    var segs := [first] + RunSegs(name);
    TakeAll(name);
    assert segs[1] == Seg(name, Matched) && !LeftFree(segs, 1) && NameLeftFree(rules, segs, 0);
    assert NameLeftFree(rules, segs, 1) <==> !IsRuleName(rules, segs[1]);
    hide EndsInIdentifier, Upper;
    assert EndsInName(rules, name) <==> IsRuleName(rules, segs[1]);
  }

  /** A run has a name that does not stand alone exactly when it hides one. */
  lemma RunIsFree(rules: Rules, word: string)
    requires IsRun(word) && word != ""
    ensures NamesLeftFree(rules, RunSegs(word)) <==> !HidesName(rules, word)
  {
    if !IsAlpha(word[0]) {
      hide NamesLeftFree, EndsInName;
      InsideRun(rules, word);
    }
  }

  lemma FirstIsNotName(rules: Rules, s: string)
    requires Scan(s).Ok? && Scan(s).value != [] && MacroConservation.NameEnds(s)
    ensures !IsRuleName(rules, Scan(s).value[0])
  {
    NextIsScanSeg(s);
  }

  lemma NoneHidesCons(rules: Rules, word: string, words: seq<string>)
    ensures NoneHides(rules, [word] + words) <==> !HidesName(rules, word) && NoneHides(rules, words)
  {
    hide HidesName;
    Cons(word, words);
    assert forall i :: 0 <= i < |words| ==> ([word] + words)[i + 1] == words[i];
  }

  /** The front of a text that is no run is one segment, which ends in no identifier character. */
  lemma ScanOfOther(rules: Rules, s: string)
    requires s != "" && Scan(s).Ok? && !IsIdentifierChar(s[0])
    ensures IsQuote(s[0]) ==> QuoteLength(s, s[0]).Ok?
    ensures var n := WordLength(s);
            Scan(s[n..]).Ok? && !HidesName(rules, s[..n]) &&
            exists seg :: Scan(s).value == [seg] + Scan(s[n..]).value && !EndsInIdentifier(seg.text) &&
              !IsRuleName(rules, seg)
  {
    OtherSegment(s);
    hide NextMatch, WordLength, EndsInIdentifier, HidesName;
    var m := NextMatch(IdentifierMatcher, s).value;
    var seg := Seg(s[..m.len], m.kind);
    NotHidden(rules, s[..m.len]);
    assert !IsRuleName(rules, seg);
    assert Scan(s).value == [seg] + Scan(s[m.len..]).value;
  }

  lemma NotHidden(rules: Rules, word: string)
    requires word != "" && !IsIdentifierChar(word[0])
    ensures !HidesName(rules, word)
  {
  }

  lemma OtherSegment(s: string)
    requires s != "" && NextMatch(IdentifierMatcher, s).Ok? && !IsIdentifierChar(s[0])
    ensures IsQuote(s[0]) ==> QuoteLength(s, s[0]).Ok?
    ensures var m := NextMatch(IdentifierMatcher, s).value;
            m.len == WordLength(s) && m.kind != Matched && !EndsInIdentifier(s[..m.len])
  {
    hide QuoteTail;
  }

  /** The front of a text that is a run. */
  lemma ScanOfWord(rules: Rules, s: string)
    requires s != "" && Scan(s).Ok? && IsIdentifierChar(s[0])
    ensures var n := WordLength(s);
            Scan(s[n..]).Ok? && Scan(s).value == RunSegs(s[..n]) + Scan(s[n..]).value && IsRun(s[..n]) &&
            (Scan(s[n..]).value != [] ==> !IsRuleName(rules, Scan(s[n..]).value[0]))
  {
    var n := WordLength(s);
    assert n < |s| ==> s[n..][0] == s[n];
    assert MacroConservation.NameEnds(s[n..]) && IsRun(s[..n]);
    hide Scan, WordLength, IsRun, IsIdentifierChar, IsRuleName;
    ScanOfRun(s[..n], s[n..]);
    SplitAt(s, n);
    if Scan(s[n..]).value != [] {
      FirstIsNotName(rules, s[n..]);
    }
  }

  lemma {:induction false} LeftFreeExactlyWhen(rules: Rules, s: string)
    requires Scan(s).Ok?
    ensures Words(s).Ok?
    ensures NamesLeftFree(rules, Scan(s).value) <==> NoneHides(rules, Words(s).value)
    decreases |s|
  {
    if s != "" {
      if IsIdentifierChar(s[0]) {
        ScanOfWord(rules, s);
        var n := WordLength(s);
        LeftFreeExactlyWhen(rules, s[n..]);
        WordsUnfold(s);
        hide *;
        NoneHidesCons(rules, s[..n], Words(s[n..]).value);
        RunIsFree(rules, s[..n]);
        LeftFreeAppend(rules, RunSegs(s[..n]), Scan(s[n..]).value);
      } else {
        ScanOfOther(rules, s);
        var n := WordLength(s);
        LeftFreeExactlyWhen(rules, s[n..]);
        WordsUnfold(s);
        hide *;
        var seg :| Scan(s).value == [seg] + Scan(s[n..]).value && !EndsInIdentifier(seg.text) &&
          !IsRuleName(rules, seg);
        NoneHidesCons(rules, s[..n], Words(s[n..]).value);
        NotName(rules, seg);
        LeftFreeAppend(rules, [seg], Scan(s[n..]).value);
      }
    }
  }

  lemma WordsUnfold(s: string)
    requires s != "" && (IsQuote(s[0]) ==> QuoteLength(s, s[0]).Ok?)
    ensures var n := WordLength(s);
            Words(s) ==
            match Words(s[n..])
            case Err(e) => Err(e)
            case Ok(words) => Ok([s[..n]] + words)
  {
    hide WordLength, QuoteLength;
  }

  /**
   * The exact condition: every rule name that the scanner finds stands alone if and only if
   * no run of letters, digits and underscores outside quotes starts with a digit or an
   * underscore and is a rule name from its first letter on.
   */
  lemma NamesStandAloneExactlyWhen(rules: Rules, s: string)
    requires Scan(s).Ok?
    ensures Words(s).Ok?
    ensures NamesStandAlone(rules, Scan(s).value) <==> NoneHides(rules, Words(s).value)
  {
    ScanSound(s);
    hide *;
    LeftFreeExactlyWhen(rules, s);
    OnlyLeftMatters(rules, Scan(s).value);
  }

  const GREETING: Rules := map["A" := Rule("there", None)]

  /** A name behind an underscore is replaced, although it is part of a longer name. */
  lemma NameInsideNameIsReplaced()
    ensures ExpandOnce(GREETING, "_a") == Ok("_there")
  {
    assert Upper("a") == "A";
    AdvanceStep("a");
    assert NextAdvance(GREETING, "a") == Ok(Advance(1, "there"));
    assert "_a"[..1] == "_" && "_a"[1..] == "a";
    assert NextAdvance(GREETING, "_a") == Ok(Advance(1, "_"));
    hide NextAdvance;
    AppendEmpty("there");
    assert ExpandOnce(GREETING, "") == Ok("");
    assert ExpandOnce(GREETING, "a") == Ok("there");
    assert "_" + "there" == "_there";
  }
}
