/**
 * What one pass of macro expansion keeps, for every set of rules: the text is cut into
 * chunks that are either copied or replaced, in order and without loss.
 */
module MacroConservation {
  import opened Common
  import opened TextProcessor
  import opened MacroArgs
  import opened ArgumentLists
  import opened ArgumentMeaning
  import opened Templates
  import opened MacroExpander
  import MacroScan
  import SpelledNumbers
  import SpelledTemplates

  /** A copied segment, or a rule name with its argument list and the text put in its place. */
  datatype Chunk = Copied(seg: Seg) | Replaced(name: string, args: string, text: string) {
    function Source(): string { if Copied? then seg.text else name + args }
    function Output(): string { if Copied? then seg.text else text }
  }

  function Sources(chunks: seq<Chunk>): string {
    if chunks == [] then "" else chunks[0].Source() + Sources(chunks[1..])
  }

  function Outputs(chunks: seq<Chunk>): string {
    if chunks == [] then "" else chunks[0].Output() + Outputs(chunks[1..])
  }

  /** The argument list stands alone, has the declared number of arguments, and is rewritten to `text`. */
  predicate IsCall(rule: ArgsRule, args: string, text: string) {
    var t := Tokenize(ArgumentList, args);
    t.Ok? && t.value.len == |args| && |t.value.tokens| == rule.argCount && RewriteArgs(rule, t.value.tokens) == Ok(text)
  }

  /** No identifier runs on into the text. */
  predicate NameEnds(s: string) {
    s != "" ==> !IsIdentifierChar(s[0])
  }

  predicate OpensList(s: string) {
    s != "" && s[0] == '('
  }

  /**
   * A chunk is what the scanner cuts off in front of `rest`: names are taken as long as
   * possible, and an argument list exactly when the rule declares one and a parenthesis follows.
   */
  predicate ChunkOk(rules: Rules, chunk: Chunk, rest: string) {
    match chunk
    case Copied(seg) =>
      MacroScan.IsScanSeg(seg) && !MacroScan.IsRuleName(rules, seg) &&
      (seg.kind == Matched ==> NameEnds(rest))
    case Replaced(name, args, text) =>
      MacroScan.IsIdentifier(name) && Upper(name) in rules && NameEnds(args + rest) &&
      var rule := rules[Upper(name)];
      if OpensList(args + rest) && rule.macroArgs.Some? then
        |rule.rhs| <= |text| && text[..|rule.rhs|] == rule.rhs &&
        IsCall(rule.macroArgs.value, args, text[|rule.rhs|..])
      else args == "" && text == rule.rhs
  }

  predicate ChunksOk(rules: Rules, chunks: seq<Chunk>) {
    chunks == [] || (ChunkOk(rules, chunks[0], Sources(chunks[1..])) && ChunksOk(rules, chunks[1..]))
  }

  /** An argument list is tokenised the same way whatever stands behind it. */
  lemma ArgumentsStandAlone(s: string, t: string)
    requires Tokenize(ArgumentList, s).Ok?
    ensures var n := Tokenize(ArgumentList, s).value.len;
            0 < n <= |s| && Tokenize(ArgumentList, s[..n] + t) == Tokenize(ArgumentList, s)
  {
    var list := Tokenize(ArgumentList, s).value;
    TokeniserMeaning(s, list.len, list.tokens);
    hide Tokenize, WellFormed, Filled, TokensOf, ArgsText;
    var head, rest :| IsArgumentList(s, list.len, head, rest) && list.tokens == TokensOf(head, rest);
    CutBetween(s[..list.len], t);
    assert IsArgumentList(s[..list.len] + t, list.len, head, rest);
    TokeniserMeaning(s[..list.len] + t, list.len, list.tokens);
  }

  /** The scanner's own chunk at the front of a text. */
  function ChunkAt(rules: Rules, s: string): Chunk
    requires s != "" && NextAdvance(rules, s).Ok? && NextMatch(IdentifierMatcher, s).Ok?
  {
    var m, a := NextMatch(IdentifierMatcher, s).value, NextAdvance(rules, s).value;
    var seg := Seg(s[..m.len], m.kind);
    if !MacroScan.IsRuleName(rules, seg) then Copied(seg)
    else Replaced(seg.text, s[m.len..a.len], a.text)
  }

  /** What the scanner does at the front of a text, without the matching itself. */
  lemma AdvanceCases(rules: Rules, s: string)
    requires s != "" && NextMatch(IdentifierMatcher, s).Ok?
    ensures var m := NextMatch(IdentifierMatcher, s).value;
            var name, rest := s[..m.len], s[m.len..];
            NextAdvance(rules, s) ==
            if !MacroScan.IsRuleName(rules, Seg(name, m.kind)) then Ok(Advance(m.len, name))
            else
              var rule := rules[Upper(name)];
              if !OpensList(rest) || rule.macroArgs.None? then Ok(Advance(m.len, rule.rhs))
              else
                match ExpandArgs(rule.macroArgs.value, rest)
                case Err(e) => Err(e)
                case Ok(args) =>
                  if args.argCount != rule.macroArgs.value.argCount then Err(ArgCountMismatch)
                  else Ok(Advance(m.len + args.len, rule.rhs + args.text))
  {
    MacroScan.NextIsScanSeg(s);
    var m := NextMatch(IdentifierMatcher, s).value;
    assert m.kind == Matched <==> IsAlpha(s[0]);
    assert m.len < |s| ==> s[m.len..][0] == s[m.len];
    hide NextMatch, ExpandArgs, Upper;
  }

  lemma NameIsIdentifier(s: string)
    requires s != "" && NextMatch(IdentifierMatcher, s).Ok?
    ensures var m := NextMatch(IdentifierMatcher, s).value;
            MacroScan.IsScanSeg(Seg(s[..m.len], m.kind)) &&
            (m.kind == Matched ==> MacroScan.IsIdentifier(s[..m.len]) && NameEnds(s[m.len..]))
  {
    MacroScan.NextIsScanSeg(s);
    hide NextMatch;
  }

  /** An expanded argument list is a call, and it stands alone. */
  lemma ExpandedIsCall(rule: ArgsRule, s: string)
    requires ExpandArgs(rule, s).Ok? && ExpandArgs(rule, s).value.argCount == rule.argCount
    ensures var x := ExpandArgs(rule, s).value;
            0 < x.len <= |s| && IsCall(rule, s[..x.len], x.text)
  {
    hide Tokenize, RewriteArgs;
    ArgumentsStandAlone(s, "");
    AppendEmpty(s[..ExpandArgs(rule, s).value.len]);
  }

  lemma CallChunk(rules: Rules, name: string, args: string, text: string, rest: string)
    requires MacroScan.IsIdentifier(name) && Upper(name) in rules && rules[Upper(name)].macroArgs.Some?
    requires IsCall(rules[Upper(name)].macroArgs.value, args, text)
    requires OpensList(args + rest) && NameEnds(args + rest)
    ensures ChunkOk(rules, Replaced(name, args, rules[Upper(name)].rhs + text), rest)
  {
    hide IsCall, Upper, MacroScan.IsIdentifier, OpensList, NameEnds;
    CutBetween(rules[Upper(name)].rhs, text);
  }

  /** The scanner's chunk is one, and it is the front of the text and of the output. */
  lemma ChunkOfAdvance(rules: Rules, s: string)
    requires s != "" && NextAdvance(rules, s).Ok? && NextMatch(IdentifierMatcher, s).Ok?
    ensures var a := NextAdvance(rules, s).value;
            var chunk := ChunkAt(rules, s);
            ChunkOk(rules, chunk, s[a.len..]) && chunk.Source() == s[..a.len] && chunk.Output() == a.text
  {
    AdvanceCases(rules, s);
    NameIsIdentifier(s);
    var m, a := NextMatch(IdentifierMatcher, s).value, NextAdvance(rules, s).value;
    var name, rest := s[..m.len], s[m.len..];
    hide NextMatch, NextAdvance, ExpandArgs, IsCall, Upper, NameEnds, OpensList, MacroScan.IsScanSeg,
      MacroScan.IsIdentifier;
    if MacroScan.IsRuleName(rules, Seg(name, m.kind)) {
      var rule := rules[Upper(name)];
      TakeTake(s, m.len, a.len);
      if OpensList(rest) && rule.macroArgs.Some? {
        var x := ExpandArgs(rule.macroArgs.value, rest).value;
        ExpandedIsCall(rule.macroArgs.value, rest);
        CallChunk(rules, name, rest[..x.len], x.text, s[a.len..]);
      } else {
        AppendEmpty(name);
        AppendEmpty(rest);
      }
    }
  }

  lemma TakeTake(s: string, n: nat, m: nat)
    requires n <= m <= |s|
    ensures s[..n] + s[n..m] == s[..m] && s[n..][..m - n] == s[n..m] && s[n..m] + s[m..] == s[n..]
    ensures n == m ==> s[n..m] == ""
  {
  }

  lemma ChunksCons(rules: Rules, chunk: Chunk, chunks: seq<Chunk>)
    ensures ChunksOk(rules, [chunk] + chunks) <==> ChunkOk(rules, chunk, Sources(chunks)) && ChunksOk(rules, chunks)
    ensures Sources([chunk] + chunks) == chunk.Source() + Sources(chunks)
    ensures Outputs([chunk] + chunks) == chunk.Output() + Outputs(chunks)
  {
    hide ChunkOk;
    Cons(chunk, chunks);
  }

  lemma OnceUnfolds(rules: Rules, s: string)
    requires s != ""
    ensures NextAdvance(rules, s).Ok? ==> NextMatch(IdentifierMatcher, s).Ok?
    ensures ExpandOnce(rules, s).Ok? ==> NextAdvance(rules, s).Ok?
    ensures NextAdvance(rules, s).Ok? ==>
              var a := NextAdvance(rules, s).value;
              match ExpandOnce(rules, s[a.len..])
              case Err(e) => ExpandOnce(rules, s) == Err(e)
              case Ok(rest) => ExpandOnce(rules, s) == Ok(a.text + rest)
  {
    hide NextMatch, ProcessSegment;
  }

  /**
   * Conservation: the chunks' sources spell the input and their outputs spell the result.
   * In particular every quoted region outside argument lists is copied verbatim.
   */
  lemma {:induction false} PassConserves(rules: Rules, s: string) returns (chunks: seq<Chunk>)
    requires ExpandOnce(rules, s).Ok?
    ensures ChunksOk(rules, chunks)
    ensures Sources(chunks) == s && Outputs(chunks) == ExpandOnce(rules, s).value
    decreases |s|
  {
    if s == "" {
      chunks := [];
    } else {
      hide *;
      OnceUnfolds(rules, s);
      var a := NextAdvance(rules, s).value;
      ChunkOfAdvance(rules, s);
      var rest := PassConserves(rules, s[a.len..]);
      chunks := [ChunkAt(rules, s)] + rest;
      ChunksCons(rules, ChunkAt(rules, s), rest);
      SplitAt(s, a.len);
    }
  }

  lemma CallExpands(rule: ArgsRule, args: string, text: string, rest: string)
    requires IsCall(rule, args, text)
    ensures args != "" && ExpandArgs(rule, args + rest) == Ok(ArgsResult(|args|, rule.argCount, text))
  {
    hide Tokenize, RewriteArgs;
    ArgumentsStandAlone(args, rest);
    TakeAll(args);
  }

  /** The name of a replaced chunk is matched, and its list follows it. */
  lemma NameIsMatched(name: string, rest: string)
    requires MacroScan.IsIdentifier(name) && NameEnds(rest)
    ensures name != "" && NextMatch(IdentifierMatcher, name + rest) == Ok(Match(|name|, Matched))
  {
    MacroScan.NextOfScanSeg(Seg(name, Matched), rest);
  }

  /** In front of `rest`, the scanner cuts off exactly this chunk, and appends its output. */
  lemma ChunkAdvances(rules: Rules, chunk: Chunk, rest: string)
    requires ChunkOk(rules, chunk, rest)
    ensures var s := chunk.Source() + rest;
            chunk.Source() != "" && NextMatch(IdentifierMatcher, s).Ok? &&
            NextAdvance(rules, s) == Ok(Advance(|chunk.Source()|, chunk.Output())) && ChunkAt(rules, s) == chunk
  {
    var s := chunk.Source() + rest;
    match chunk {
      case Copied(seg) =>
        MacroScan.NextOfScanSeg(seg, rest);
        assert seg.text != "";
        CutBetween(seg.text, rest);
        hide NextMatch, NextAdvance, NameEnds, OpensList, MacroScan.IsScanSeg;
        AdvanceCases(rules, s);
      case Replaced(name, args, text) =>
        ReplacedAdvances(rules, name, args, text, rest);
    }
  }

  lemma ReplacedAdvances(rules: Rules, name: string, args: string, text: string, rest: string)
    requires ChunkOk(rules, Replaced(name, args, text), rest)
    ensures var s := name + args + rest;
            name != "" && NextMatch(IdentifierMatcher, s).Ok? &&
            NextAdvance(rules, s) == Ok(Advance(|name + args|, text)) && ChunkAt(rules, s) == Replaced(name, args, text)
  {
    hide NextMatch, NextAdvance, ExpandArgs, IsCall, Upper, NameEnds, OpensList, MacroScan.IsIdentifier;
    var s, rule := name + args + rest, rules[Upper(name)];
    NameIsMatched(name, args + rest);
    CutReplaced(name, args, rest);
    AdvanceCases(rules, s);
    if OpensList(args + rest) && rule.macroArgs.Some? {
      CallExpands(rule.macroArgs.value, args, text[|rule.rhs|..], rest);
      SplitAt(text, |rule.rhs|);
    }
  }

  lemma CutReplaced(name: string, args: string, rest: string)
    ensures var s := name + args + rest;
            s == name + (args + rest) && s[..|name|] == name && s[|name|..] == args + rest &&
            s[|name|..|name + args|] == args
  {
  }

  /** The converse: chunks the scanner could cut are what it cuts, and the pass gives their outputs. */
  lemma {:induction false} ChunksArePass(rules: Rules, chunks: seq<Chunk>)
    requires ChunksOk(rules, chunks)
    ensures ExpandOnce(rules, Sources(chunks)) == Ok(Outputs(chunks))
    decreases |chunks|
  {
    if chunks != [] {
      var chunk, rest := chunks[0], chunks[1..];
      assert ChunkOk(rules, chunk, Sources(rest)) && ChunksOk(rules, rest);
      hide *;
      ChunksArePass(rules, rest);
      ChunkAdvances(rules, chunk, Sources(rest));
      Uncons(chunks);
      ChunksCons(rules, chunk, rest);
      CutBetween(chunk.Source(), Sources(rest));
      OnceUnfolds(rules, chunk.Source() + Sources(rest));
    }
  }

  /** A text is cut into chunks in one way only. */
  lemma {:induction false} ChunksAreUnique(rules: Rules, a: seq<Chunk>, b: seq<Chunk>)
    requires ChunksOk(rules, a) && ChunksOk(rules, b) && Sources(a) == Sources(b)
    ensures a == b
    decreases |a|
  {
    if a == [] || b == [] {
      NoSource(rules, a);
      NoSource(rules, b);
    } else {
      assert ChunkOk(rules, a[0], Sources(a[1..])) && ChunkOk(rules, b[0], Sources(b[1..]));
      assert ChunksOk(rules, a[1..]) && ChunksOk(rules, b[1..]);
      hide *;
      Uncons(a);
      Uncons(b);
      ChunksCons(rules, a[0], a[1..]);
      ChunksCons(rules, b[0], b[1..]);
      ChunkAdvances(rules, a[0], Sources(a[1..]));
      ChunkAdvances(rules, b[0], Sources(b[1..]));
      CutBetween(a[0].Source(), Sources(a[1..]));
      CutBetween(b[0].Source(), Sources(b[1..]));
      ChunksAreUnique(rules, a[1..], b[1..]);
    }
  }

  lemma NoSource(rules: Rules, chunks: seq<Chunk>)
    requires ChunksOk(rules, chunks)
    ensures Sources(chunks) == "" <==> chunks == []
  {
    if chunks != [] {
      hide ChunkOk;
      ChunkAdvances(rules, chunks[0], Sources(chunks[1..]));
    }
  }

  /** A text with no rule name outside quotes is unchanged, whatever the rules. */
  lemma {:induction false} NoNameNoChange(rules: Rules, s: string)
    requires MacroScan.NoRuleNames(rules, s)
    ensures ExpandMacro(rules, s) == Ok(None)
    decreases |s|
  {
    if s == "" {
    } else {
      hide *;
      var n := NoNameFirst(rules, s);
      NoNameNoChange(rules, s[n..]);
      UnchangedRest(rules, s, n);
    }
  }

  /** A first segment that is no rule name is copied, and the rest has no rule name either. */
  lemma NoNameFirst(rules: Rules, s: string) returns (n: nat)
    requires s != "" && MacroScan.NoRuleNames(rules, s)
    ensures 0 < n <= |s| && NextAdvance(rules, s) == Ok(Advance(n, s[..n]))
    ensures MacroScan.NoRuleNames(rules, s[n..])
  {
    var segs := MacroScan.Scan(s).value;
    var m := NextMatch(IdentifierMatcher, s).value;
    MacroScan.NextIsScanSeg(s);
    n := m.len;
    assert segs[0] == Seg(s[..m.len], m.kind) && !MacroScan.IsRuleName(rules, segs[0]);
    assert NextAdvance(rules, s) == Ok(Advance(m.len, s[..m.len]));
    CutBetween([segs[0]], MacroScan.Scan(s[n..]).value);
    hide NextMatch, NextAdvance, MacroScan.IsRuleName, MacroScan.Scan;
    forall i | 0 <= i < |segs[1..]| ensures !MacroScan.IsRuleName(rules, segs[1..][i]) {
      assert segs[1..][i] == segs[i + 1];
    }
  }

  lemma UnchangedRest(rules: Rules, s: string, n: nat)
    requires s != "" && n <= |s| && NextAdvance(rules, s) == Ok(Advance(n, s[..n])) &&
             ExpandMacro(rules, s[n..]) == Ok(None)
    ensures ExpandMacro(rules, s) == Ok(None)
  {
    hide NextAdvance;
    SplitAt(s, n);
  }

  // ------------------------------------------------ the wrong number of arguments

  lemma {:induction false} ArgsAreSolid(s: string)
    requires Tokenize(ArgumentList, s).Ok?
    ensures AllSolid(Tokenize(ArgumentList, s).value.tokens)
  {
    AcceptedTokensAreArgs(s);
  }

  /**
   * The template is rewritten before the arguments are counted. With a validated template,
   * a call gets as far as the count exactly when the arguments it does supply cover every
   * placeholder; only then is a wrong number reported as a mismatch.
   */
  lemma CountIsReachedWhenCovered(rule: ArgsRule, s: string)
    requires Tokenize(ArgumentList, s).Ok? && rule.rewrite != ""
    requires Tokenize(TemplateCheck(rule.argCount), rule.rewrite).Ok?
    ensures ExpandArgs(rule, s).Ok? <==>
            !HasUnrenderable(|Tokenize(ArgumentList, s).value.tokens|, PiecesOf(rule.argCount, rule.rewrite))
  {
    ArgsAreSolid(s);
    RewriteSucceeds(rule.argCount, rule.rewrite, Tokenize(ArgumentList, s).value.tokens);
  }

  /** Two arguments declared, one supplied, and the template asks for the second: never counted. */
  lemma MissingArgumentIsNotCounted()
    ensures ExpandArgs(ArgsRule(2, "($2)"), "(x)") == Err(ArgOutOfBounds)
  {
    OneArgument();
    TemplateUsesSecond();
    hide Tokenize;
  }

  /** What the tokeniser does with the three characters of `(x)`. */
  lemma Characters()
    ensures NextMatch(NoMatches, "(" + "x)") == NextMatch(NoMatches, "x" + ")") == Ok(Match(1, Plain))
    ensures NextMatch(NoMatches, ")" + "") == Ok(Match(1, Plain)) && MatcherOf(ArgumentList) == NoMatches
    ensures Output(ArgumentList, Seg("x", Plain)) == Ok("x") && Solid("x")
    ensures var x := Seg("x", Plain); !IsChar(x, '(') && !IsChar(x, ')') && !IsChar(x, ',')
  {
    RejectionIsOpener("(x)");
    RejectionIsOpener("x)");
    RejectionIsOpener(")");
  }

  lemma Spelling()
    ensures "(" + "x)" == "(x)" && "x" + ")" == "x)" && ")" + "" == ")" && "" + "x" == "x"
  {
  }

  lemma OneArgument()
    ensures Tokenize(ArgumentList, "(x)") == Ok(Tokenized(3, ["x"]))
  {
    hide *;
    Characters();
    Spelling();
    SpelledTemplates.TokenizeIs(ArgumentList, "(x)");
    SpelledTemplates.OpenStep(ArgumentList);
    SpelledTemplates.WalkOn(ArgumentList, "(", "x)", Plain, State(0, []), State(1, [""]));
    SpelledTemplates.GrowStep(ArgumentList, Seg("x", Plain), [], "", "x");
    AppendEmpty([""]);
    AppendEmpty(["x"]);
    SpelledTemplates.WalkOn(ArgumentList, "x", ")", Plain, State(1, [""]), State(1, ["x"]));
    TrimSolid("x");
    SpelledTemplates.CloseStep(ArgumentList, [], "x");
    SpelledTemplates.WalkEnds(ArgumentList, ")", "", State(1, ["x"]), ["x"]);
    SpelledTemplates.Shifts(1, Walk(ArgumentList, ")", State(1, ["x"])));
    SpelledTemplates.Shifts(1, Walk(ArgumentList, "x)", State(1, [""])));
  }

  lemma TemplateUsesSecond()
    ensures Tokenize(TemplateRewrite(2, ["x"]), "($2)") == Err(ArgOutOfBounds)
  {
    assert SpelledNumbers.Spell(2) == "2" && "(" + ("$" + "2" + ")") == "($2)";
    hide *;
    SpelledTemplates.OneArgument(2, ["x"], 2);
  }

  /**
   * Rules with validated templates and no `\$` fail on a call for one of two reasons only:
   * the argument list is malformed, or its length is not the declared one.
   */
  lemma ValidatedCallSucceeds(rule: ArgsRule, s: string)
    requires rule.rewrite != "" ==>
             Tokenize(TemplateCheck(rule.argCount), rule.rewrite).Ok? && !HasEscapedDollar(rule.rewrite)
    requires Tokenize(ArgumentList, s).Ok? && |Tokenize(ArgumentList, s).value.tokens| == rule.argCount
    ensures ExpandArgs(rule, s).Ok?
  {
    ArgsAreSolid(s);
    if rule.rewrite != "" {
      PlainTemplateNeverFails(rule.argCount, rule.rewrite, Tokenize(ArgumentList, s).value.tokens);
    }
  }
}
