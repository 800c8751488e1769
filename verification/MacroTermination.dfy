/** When the loop of macro expansion ends, and when it leaves no rule name behind. */
module MacroTermination {
  import opened Common
  import opened TextProcessor
  import opened MacroExpander
  import opened MacroScan

  // For rules without argument lists one pass replaces the scanned names independently. A rule
  // may only respell its own name; names of such rules survive, but after one pass they stay as
  // they are. So the loop ends for every text exactly when the other rules can be ranked, each
  // right-hand side naming only rules of lower rank, and it leaves no rule name behind exactly
  // when all rules can be ranked.

  // --------------------------------------------------------- respelling rules

  /** All the rule does is to spell its own name in its own way. */
  predicate Respells(rules: Rules, k: string)
    requires k in rules
  {
    IsIdentifier(rules[k].rhs) && Upper(rules[k].rhs) == k
  }

  /** The rules that do more than that. */
  function Rewriting(rules: Rules): Rules {
    map k | k in rules && !Respells(rules, k) :: rules[k]
  }

  lemma RewritingIsSimple(rules: Rules)
    requires Simple(rules)
    ensures Simple(Rewriting(rules))
  {
  }

  lemma ScanOfIdentifier(name: string)
    requires IsIdentifier(name)
    ensures Scan(name) == Ok([Seg(name, Matched)])
  {
    var seg := Seg(name, Matched);
    assert IsScan([]);
    IsScanCons(seg, []);
    FlatCons(seg, []);
    hide IsScan, IsIdentifier;
    AppendEmpty([seg]);
    AppendEmpty(name);
    assert Flat([]) == "";
    ScanComplete([seg]);
  }

  /** A segment that a pass leaves as it is. */
  predicate IsSettled(rules: Rules, seg: Seg)
    requires Simple(rules)
  {
    ExpandSeg(rules, seg) == [seg]
  }

  predicate Settled(rules: Rules, segs: seq<Seg>)
    requires Simple(rules)
  {
    forall i :: 0 <= i < |segs| ==> IsSettled(rules, segs[i])
  }

  /** A name is settled only under a rule that respells it. */
  lemma SettledNameRespells(rules: Rules, seg: Seg)
    requires Simple(rules) && IsRuleName(rules, seg) && IsScanSeg(seg) && IsSettled(rules, seg)
    ensures Respells(rules, Upper(seg.text))
  {
    ScanSound(rules[Upper(seg.text)].rhs);
    hide Scan, Upper, IsIdentifier;
    FlatCons(seg, []);
    AppendEmpty([seg]);
    AppendEmpty(seg.text);
    assert Flat([]) == "";
  }

  /** One pass settles a segment that no rewriting rule names. */
  lemma RespelledIsSettled(rules: Rules, seg: Seg)
    requires Simple(rules) && !IsRuleName(Rewriting(rules), seg)
    ensures |ExpandSeg(rules, seg)| == 1 && IsSettled(rules, ExpandSeg(rules, seg)[0])
  {
    if IsRuleName(rules, seg) {
      ScanOfIdentifier(rules[Upper(seg.text)].rhs);
      hide Scan, IsIdentifier;
    }
  }

  lemma {:induction false} RespelledOnce(rules: Rules, segs: seq<Seg>)
    requires Simple(rules) && NameFree(Rewriting(rules), segs)
    ensures Settled(rules, ExpandSegs(rules, segs))
  {
    if segs != [] {
      assert !IsRuleName(Rewriting(rules), segs[0]);
      RespelledOnce(rules, segs[1..]);
      RespelledIsSettled(rules, segs[0]);
      hide ExpandSeg, IsSettled, Rewriting;
    }
  }

  lemma {:induction false} SettledIsFixed(rules: Rules, segs: seq<Seg>)
    requires Simple(rules) && Settled(rules, segs)
    ensures ExpandSegs(rules, segs) == segs
  {
    if segs != [] {
      assert IsSettled(rules, segs[0]);
      hide ExpandSeg;
      SettledIsFixed(rules, segs[1..]);
      Uncons(segs);
    }
  }

  // The converse: segments that a pass leaves as a whole are left one by one.

  /** The segments that are no rule names, which every pass copies. */
  function CountOthers(rules: Rules, segs: seq<Seg>): nat {
    if segs == [] then 0 else (if IsRuleName(rules, segs[0]) then 0 else 1) + CountOthers(rules, segs[1..])
  }

  lemma {:induction false} CountOthersAppend(rules: Rules, a: seq<Seg>, b: seq<Seg>)
    ensures CountOthers(rules, a + b) == CountOthers(rules, a) + CountOthers(rules, b)
  {
    if a == [] {
      AppendEmpty(b);
    } else {
      hide IsRuleName;
      CountOthersAppend(rules, a[1..], b);
      assert (a + b)[1..] == a[1..] + b;
    }
  }

  /** Two names cannot stand side by side. */
  lemma OnlyNamesIsShort(rules: Rules, segs: seq<Seg>)
    requires IsScan(segs) && CountOthers(rules, segs) == 0
    ensures |segs| <= 1
  {
  }

  /** A pass never has fewer copied segments; with no more of them, it has no more segments. */
  lemma {:induction false} PassCounts(rules: Rules, segs: seq<Seg>)
    requires Simple(rules) && IsScan(segs)
    ensures var out := ExpandSegs(rules, segs);
            CountOthers(rules, out) >= CountOthers(rules, segs) &&
            (CountOthers(rules, out) == CountOthers(rules, segs) ==>
              |out| <= |segs| &&
              (|out| == |segs| ==> forall i :: 0 <= i < |segs| ==> ExpandSeg(rules, segs[i]) == [out[i]]))
  {
    if segs != [] {
      var seg, rest := segs[0], segs[1..];
      var head, tail := ExpandSeg(rules, seg), ExpandSegs(rules, rest);
      PassCounts(rules, rest);
      ExpandSegIsScan(rules, seg);
      CountOthersAppend(rules, head, tail);
      CountsOfOne(rules, seg);
      hide IsScan, ExpandSeg, CountOthers;
      assert CountOthers(rules, segs) == CountOthers(rules, [seg]) + CountOthers(rules, rest) by {
        Uncons(segs);
        CountOthersAppend(rules, [seg], rest);
      }
      forall i | 0 <= i < |segs| && |head| == 1 && |tail| == |rest| &&
        (i > 0 ==> ExpandSeg(rules, rest[i - 1]) == [tail[i - 1]])
        ensures ExpandSeg(rules, segs[i]) == [(head + tail)[i]]
      {
      }
    }
  }

  lemma CountsOfOne(rules: Rules, seg: Seg)
    requires Simple(rules) && IsScanSeg(seg)
    ensures var out := ExpandSeg(rules, seg);
            CountOthers(rules, out) >= CountOthers(rules, [seg]) &&
            (CountOthers(rules, out) == CountOthers(rules, [seg]) ==> |out| <= 1)
  {
    if IsRuleName(rules, seg) {
      ExpandSegIsScan(rules, seg);
      if CountOthers(rules, ExpandSeg(rules, seg)) == 0 {
        OnlyNamesIsShort(rules, ExpandSeg(rules, seg));
      }
    }
  }

  lemma FixedIsSettled(rules: Rules, segs: seq<Seg>)
    requires Simple(rules) && IsScan(segs) && ExpandSegs(rules, segs) == segs
    ensures Settled(rules, segs)
  {
    hide ExpandSegs, ExpandSeg, CountOthers, IsScan;
    PassCounts(rules, segs);
  }

  // ----------------------------------------------------------------- ranks

  type Ranks = map<string, nat>

  /** Every name in a rule's right-hand side is no rule name, or ranks below the rule. */
  predicate Ranked(rules: Rules, rank: Ranks)
    requires Simple(rules)
  {
    forall k :: k in rules ==> k in rank && Below(rules, rank, Scan(rules[k].rhs).value, rank[k])
  }

  predicate Below(rules: Rules, rank: Ranks, segs: seq<Seg>, bound: nat) {
    forall i :: 0 <= i < |segs| ==> SegBelow(rules, rank, segs[i], bound)
  }

  predicate SegBelow(rules: Rules, rank: Ranks, seg: Seg, bound: nat) {
    IsRuleName(rules, seg) ==> Upper(seg.text) in rank && rank[Upper(seg.text)] < bound
  }

  lemma BelowAppend(rules: Rules, rank: Ranks, a: seq<Seg>, b: seq<Seg>, bound: nat)
    ensures Below(rules, rank, a + b, bound) <==> Below(rules, rank, a, bound) && Below(rules, rank, b, bound)
  {
    hide SegBelow;
    assert forall i :: 0 <= i < |a| ==> (a + b)[i] == a[i];
    assert forall i :: 0 <= i < |b| ==> (a + b)[|a| + i] == b[i];
  }

  lemma BelowLess(rules: Rules, rank: Ranks, segs: seq<Seg>, bound: nat, bound': nat)
    requires Below(rules, rank, segs, bound) && bound <= bound'
    ensures Below(rules, rank, segs, bound')
  {
  }

  /** What one segment expands to ranks lower; a respelled name has no rank. */
  lemma SegLowersRank(rules: Rules, rank: Ranks, seg: Seg, bound: nat)
    requires Simple(rules) && Simple(Rewriting(rules)) && Ranked(Rewriting(rules), rank)
    requires SegBelow(Rewriting(rules), rank, seg, bound + 1)
    ensures Below(Rewriting(rules), rank, ExpandSeg(rules, seg), bound)
  {
    var core := Rewriting(rules);
    if IsRuleName(core, seg) {
      var k := Upper(seg.text);
      assert core[k] == rules[k];
      BelowLess(core, rank, Scan(core[k].rhs).value, rank[k], bound);
    } else if IsRuleName(rules, seg) {
      ScanOfIdentifier(rules[Upper(seg.text)].rhs);
    }
  }

  lemma {:induction false} PassLowersRank(rules: Rules, rank: Ranks, segs: seq<Seg>, bound: nat)
    requires Simple(rules) && Simple(Rewriting(rules)) && Ranked(Rewriting(rules), rank)
    requires Below(Rewriting(rules), rank, segs, bound + 1)
    ensures Below(Rewriting(rules), rank, ExpandSegs(rules, segs), bound)
  {
    if segs != [] {
      var seg, rest := segs[0], segs[1..];
      assert SegBelow(Rewriting(rules), rank, seg, bound + 1);
      hide Ranked, Rewriting, ExpandSeg, SegBelow;
      SegLowersRank(rules, rank, seg, bound);
      PassLowersRank(rules, rank, rest, bound);
      BelowAppend(Rewriting(rules), rank, ExpandSeg(rules, seg), ExpandSegs(rules, rest), bound);
    }
  }

  lemma {:induction false} RankBoundsPasses(rules: Rules, rank: Ranks, segs: seq<Seg>, bound: nat)
    requires Simple(rules) && Simple(Rewriting(rules)) && Ranked(Rewriting(rules), rank)
    requires Below(Rewriting(rules), rank, segs, bound)
    ensures NameFree(Rewriting(rules), Passes(rules, segs, bound))
    decreases bound
  {
    if bound > 0 {
      hide ExpandSegs, Below, Ranked, Rewriting;
      PassLowersRank(rules, rank, segs, bound - 1);
      RankBoundsPasses(rules, rank, ExpandSegs(rules, segs), bound - 1);
    } else {
      hide Ranked, Rewriting;
      forall i | 0 <= i < |segs| ensures !IsRuleName(Rewriting(rules), segs[i]) {
        assert SegBelow(Rewriting(rules), rank, segs[i], 0);
      }
    }
  }

  lemma AllBelow(rules: Rules, rank: Ranks, segs: seq<Seg>, bound: nat)
    requires forall k :: k in rules ==> k in rank && rank[k] < bound
    ensures Below(rules, rank, segs, bound)
  {
  }

  lemma OnePassMore(rules: Rules, segs: seq<Seg>, n: nat)
    requires Simple(rules)
    ensures Passes(rules, segs, n + 1) == ExpandSegs(rules, Passes(rules, segs, n))
    decreases n
  {
    hide ExpandSegs;
    if n > 0 {
      OnePassMore(rules, ExpandSegs(rules, segs), n - 1);
    }
  }

  predicate SettledAfter(rules: Rules, segs: seq<Seg>, n: nat)
    requires Simple(rules)
  {
    Settled(rules, Passes(rules, segs, n))
  }

  /** A list of segments that passes settle is what the loop returns, after as many rounds. */
  lemma SettledTextIsReached(rules: Rules, segs: seq<Seg>, n: nat)
    requires Simple(rules) && IsScan(segs) && SettledAfter(rules, segs, n)
    ensures var e := ExpandAll(rules, Flat(segs), n);
            e.Finished? && e.result.Ok? && Denotes(Flat(segs), e.result.value) == Flat(Passes(rules, segs, n)) &&
            Scan(Denotes(Flat(segs), e.result.value)) == Ok(Passes(rules, segs, n))
  {
    var out := Passes(rules, segs, n);
    PassesIterate(rules, segs, n);
    SettledIsFixed(rules, out);
    PassText(rules, out);
    ScanComplete(out);
    hide Passes, ExpandSegs, ExpandOnce, Scan, IsScan, Settled, ExpandAll, Iterate;
    ExpandAllReaches(rules, Flat(segs), n, Flat(out), n);
  }

  /**
   * If the rules that do more than respell their name are ranked below `bound`, the loop ends
   * on every text with closed quotes within `bound + 1` rounds, and of the rule names only
   * respelled ones are left.
   */
  lemma RankedRulesEnd(rules: Rules, rank: Ranks, bound: nat, text: string)
    requires Simple(rules) && Simple(Rewriting(rules)) && Ranked(Rewriting(rules), rank)
    requires forall k :: k in Rewriting(rules) ==> rank[k] < bound
    requires Scan(text).Ok?
    ensures var e := ExpandAll(rules, text, bound + 1);
            e.Finished? && e.result.Ok? && Scan(Denotes(text, e.result.value)).Ok? &&
            Settled(rules, Scan(Denotes(text, e.result.value)).value)
  {
    var segs := Scan(text).value;
    AllBelow(Rewriting(rules), rank, segs, bound);
    ScanSound(text);
    assert forall out :: Settled(rules, out) && Passes(rules, segs, bound + 1) == out ==>
           SettledAfter(rules, segs, bound + 1);
    hide *;
    RankBoundsPasses(rules, rank, segs, bound);
    RespelledOnce(rules, Passes(rules, segs, bound));
    OnePassMore(rules, segs, bound);
    SettledTextIsReached(rules, segs, bound + 1);
  }

  /** A rule that respells its name cannot rank below itself. */
  lemma RespelledIsNotRanked(rules: Rules, rank: Ranks, k: string)
    requires Simple(rules) && k in rules && Respells(rules, k)
    ensures !Ranked(rules, rank)
  {
    ScanOfIdentifier(rules[k].rhs);
    var seg := Seg(rules[k].rhs, Matched);
    assert Scan(rules[k].rhs).value[0] == seg && IsRuleName(rules, seg);
    hide Scan, Upper, IsIdentifier;
    assert k in rank ==> !SegBelow(rules, rank, seg, rank[k]);
  }

  lemma RankedRulesRewrite(rules: Rules, rank: Ranks)
    requires Simple(rules) && Ranked(rules, rank)
    ensures Rewriting(rules) == rules
  {
    hide Ranked, Respells;
    forall k | k in rules ensures !Respells(rules, k) {
      if Respells(rules, k) {
        RespelledIsNotRanked(rules, rank, k);
        assert false;
      }
    }
  }

  lemma NameFreeIsSettled(rules: Rules, segs: seq<Seg>)
    requires Simple(rules) && NameFree(rules, segs)
    ensures Settled(rules, segs)
  {
  }

  /**
   * With all rules ranked below `bound`, `bound` rounds clear any text whose quotes are
   * closed: the loop ends, and no rule name is left.
   */
  lemma RankedRulesTerminate(rules: Rules, rank: Ranks, bound: nat, text: string)
    requires Simple(rules) && Ranked(rules, rank)
    requires forall k :: k in rules ==> rank[k] < bound
    requires Scan(text).Ok?
    ensures ExpandAll(rules, text, bound).Finished? && ExpandAll(rules, text, bound).result.Ok?
    ensures NoRuleNames(rules, Denotes(text, ExpandAll(rules, text, bound).result.value))
  {
    var segs := Scan(text).value;
    AllBelow(rules, rank, segs, bound);
    ScanSound(text);
    RankedRulesRewrite(rules, rank);
    RankBoundsPasses(rules, rank, segs, bound);
    NameFreeIsSettled(rules, Passes(rules, segs, bound));
    hide Below, Ranked, ExpandSegs, ExpandOnce, Scan, IsScan, NameFree, Rewriting, Passes, Settled, ExpandAll;
    SettledTextIsReached(rules, segs, bound);
  }

  /** A text with an open quote ends the expansion at once, with the scanner's error. */
  lemma OpenQuoteFails(rules: Rules, text: string, rounds: nat)
    requires Simple(rules) && Scan(text).Err?
    ensures ExpandAll(rules, text, rounds) == Finished(Err(Scan(text).error))
  {
    PassFailsWithScan(rules, text);
  }

  // --------------------------------------------------------- exactly when

  /** Some number of rounds is enough for the loop to end. */
  ghost predicate Ends(rules: Rules, text: string) {
    exists rounds: nat :: EndsWithin(rules, text, rounds)
  }

  predicate EndsWithin(rules: Rules, text: string, rounds: nat) {
    ExpandAll(rules, text, rounds).Finished?
  }

  lemma {:induction false} ClosedFromDoesNotFail(rules: Rules, text: string, rounds: nat)
    requires Simple(rules) && Scan(text).Ok? && ExpandFrom(rules, text, rounds).Finished?
    ensures ExpandFrom(rules, text, rounds).result.Ok?
    decreases rounds
  {
    hide *;
    PassReplacesSegs(rules, text);
    FromUnfolds(rules, text, rounds);
    var t := ExpandOnce(rules, text).value;
    if t != text && t != "" {
      ClosedFromDoesNotFail(rules, t, rounds - 1);
    }
  }

  /** One round of the loop, on a text that does not fail. */
  lemma FromUnfolds(rules: Rules, text: string, rounds: nat)
    requires ExpandOnce(rules, text).Ok?
    ensures var t := ExpandOnce(rules, text).value;
            ExpandFrom(rules, text, rounds) ==
            if rounds == 0 then Unfinished
            else if t == text then Finished(Ok(Some(text)))
            else if t == "" then Finished(Ok(Some(t)))
            else ExpandFrom(rules, t, rounds - 1)
  {
    hide ExpandOnce;
  }

  /** With closed quotes, an expansion that ends has a result. */
  lemma ClosedTextsDoNotFail(rules: Rules, text: string, rounds: nat)
    requires Simple(rules) && Scan(text).Ok? && ExpandAll(rules, text, rounds).Finished?
    ensures ExpandAll(rules, text, rounds).result.Ok?
  {
    PassReplacesSegs(rules, text);
    hide Scan, ExpandOnce, ExpandSegs, ExpandFrom;
    var t := ExpandOnce(rules, text).value;
    if t != text && t != "" {
      ClosedFromDoesNotFail(rules, t, rounds);
    }
  }

  /** A text that a pass does not change is scanned as settled segments. */
  lemma FixedTextIsSettled(rules: Rules, segs: seq<Seg>)
    requires Simple(rules) && IsScan(segs) && IsFixed(rules, Flat(segs))
    ensures Settled(rules, segs)
  {
    PassText(rules, segs);
    ExpandSegsIsScan(rules, segs);
    hide *;
    FixedFlat(rules, segs);
    ScanComplete(segs);
    ScanComplete(ExpandSegs(rules, segs));
    FixedIsSettled(rules, segs);
  }

  lemma FixedFlat(rules: Rules, segs: seq<Seg>)
    requires Simple(rules)
    ensures IsFixed(rules, Flat(segs)) && ExpandOnce(rules, Flat(segs)) == Ok(Flat(ExpandSegs(rules, segs))) ==>
              Flat(ExpandSegs(rules, segs)) == Flat(segs)
  {
    hide ExpandOnce, ExpandSegs, Flat;
  }

  lemma EndsMeansSettled(rules: Rules, text: string) returns (n: nat)
    requires Simple(rules) && Scan(text).Ok?
    ensures Ends(rules, text) ==> SettledAfter(rules, Scan(text).value, n)
  {
    n := 0;
    if Ends(rules, text) {
      var rounds: nat :| EndsWithin(rules, text, rounds);
      ScanSound(text);
      ClosedTextsDoNotFail(rules, text, rounds);
      ExpandAllIsFixedPoint(rules, text, rounds);
      var result := Denotes(text, ExpandAll(rules, text, rounds).result.value);
      n :| 0 <= n <= rounds + 1 && Iterate(rules, text, n) == Ok(result);
      var segs := Scan(text).value;
      hide Ends, ExpandAll, ExpandOnce, IsScan, Iterate, Scan, Settled, Passes, IsFixed;
      PassesIterate(rules, segs, n);
      FixedTextIsSettled(rules, Passes(rules, segs, n));
    }
  }

  /** The least number of passes that settles a list of segments. */
  lemma {:induction false} LeastLevel(rules: Rules, segs: seq<Seg>, n: nat) returns (least: nat)
    requires Simple(rules) && SettledAfter(rules, segs, n)
    ensures least <= n && IsLevel(rules, segs, least)
    decreases n
  {
    hide SettledAfter;
    if m: nat :| m < n && SettledAfter(rules, segs, m) {
      least := LeastLevel(rules, segs, m);
    } else {
      least := n;
    }
  }

  ghost predicate IsLevel(rules: Rules, segs: seq<Seg>, n: nat)
    requires Simple(rules)
  {
    SettledAfter(rules, segs, n) && forall m: nat :: m < n ==> !SettledAfter(rules, segs, m)
  }

  ghost predicate HasLevel(rules: Rules, segs: seq<Seg>)
    requires Simple(rules)
  {
    exists n: nat :: IsLevel(rules, segs, n)
  }

  ghost function Level(rules: Rules, segs: seq<Seg>): nat
    requires Simple(rules) && HasLevel(rules, segs)
  {
    var n: nat :| IsLevel(rules, segs, n);
    n
  }

  lemma LevelIsLeast(rules: Rules, segs: seq<Seg>)
    requires Simple(rules) && HasLevel(rules, segs)
    ensures IsLevel(rules, segs, Level(rules, segs))
  {
    hide IsLevel;
  }

  /** The name of a rewriting rule needs one pass more than the rule's right-hand side. */
  lemma NameInsideSettles(rules: Rules, segs: seq<Seg>, i: nat, n: nat)
    requires Simple(rules) && i < |segs| && IsScanSeg(segs[i]) && SettledAfter(rules, segs, n)
    requires IsRuleName(rules, segs[i]) && !Respells(rules, Upper(segs[i].text))
    ensures n > 0 && SettledAfter(rules, Scan(rules[Upper(segs[i].text)].rhs).value, n - 1)
  {
    var inner := Scan(rules[Upper(segs[i].text)].rhs).value;
    NotSettledYet(rules, segs, i, n);
    OneNameExpands(rules, segs[i]);
    hide *;
    SplitAt(segs, i);
    Uncons(segs[i..]);
    SuffixAt(segs, i);
    SettledParts(rules, segs[..i], [segs[i]] + segs[i + 1..], n);
    SettledParts(rules, [segs[i]], segs[i + 1..], n);
    SettledNext(rules, [segs[i]], inner, n);
  }

  lemma NotSettledYet(rules: Rules, segs: seq<Seg>, i: nat, n: nat)
    requires Simple(rules) && i < |segs| && IsScanSeg(segs[i]) && SettledAfter(rules, segs, n)
    requires IsRuleName(rules, segs[i]) && !Respells(rules, Upper(segs[i].text))
    ensures n > 0
  {
    hide IsScanSeg, IsSettled, Respells, IsRuleName;
    if n == 0 {
      assert IsSettled(rules, segs[i]);
      SettledNameRespells(rules, segs[i]);
    }
  }

  lemma OneNameExpands(rules: Rules, seg: Seg)
    requires Simple(rules) && IsRuleName(rules, seg)
    ensures ExpandSegs(rules, [seg]) == Scan(rules[Upper(seg.text)].rhs).value
  {
    hide Scan;
    var inner := Scan(rules[Upper(seg.text)].rhs).value;
    AppendEmpty(inner);
    assert [seg][1..] == [];
  }

  lemma SuffixAt(segs: seq<Seg>, i: nat)
    requires i < |segs|
    ensures segs[i..][0] == segs[i] && segs[i..][1..] == segs[i + 1..]
  {
  }

  /** After any number of passes the parts of a settled list are settled. */
  lemma SettledParts(rules: Rules, a: seq<Seg>, b: seq<Seg>, n: nat)
    requires Simple(rules) && SettledAfter(rules, a + b, n)
    ensures SettledAfter(rules, a, n) && SettledAfter(rules, b, n)
  {
    PassesAppend(rules, a, b, n);
    hide Passes, Settled;
    SettledHalves(rules, Passes(rules, a, n), Passes(rules, b, n));
  }

  lemma SettledHalves(rules: Rules, a: seq<Seg>, b: seq<Seg>)
    requires Simple(rules) && Settled(rules, a + b)
    ensures Settled(rules, a) && Settled(rules, b)
  {
    hide IsSettled;
    assert forall j :: 0 <= j < |a| ==> (a + b)[j] == a[j];
    assert forall j :: 0 <= j < |b| ==> (a + b)[|a| + j] == b[j];
  }

  lemma SettledNext(rules: Rules, segs: seq<Seg>, expanded: seq<Seg>, n: nat)
    requires Simple(rules) && n > 0 && SettledAfter(rules, segs, n) && ExpandSegs(rules, segs) == expanded
    ensures SettledAfter(rules, expanded, n - 1)
  {
    hide ExpandSegs, Settled;
  }

  /**
   * The exact condition: the loop ends on every text with closed quotes if and only if the
   * rules that do more than respell their own name can be ranked, that is, none of them
   * reaches itself through right-hand sides.
   */
  lemma EndingIsRanking(rules: Rules)
    requires Simple(rules)
    ensures Simple(Rewriting(rules))
    ensures (exists rank :: Ranked(Rewriting(rules), rank)) <==> (forall text :: Scan(text).Ok? ==> Ends(rules, text))
  {
    RewritingIsSimple(rules);
    hide Rewriting;
    if exists rank :: Ranked(Rewriting(rules), rank) {
      var rank :| Ranked(Rewriting(rules), rank);
      var bound := RankBound(Rewriting(rules), rank);
      forall text | Scan(text).Ok? ensures Ends(rules, text) {
        RankedRulesEnd(rules, rank, bound, text);
        assert EndsWithin(rules, text, bound + 1);
      }
    }
    RanksFromLevels(rules);
  }

  lemma {:induction false} RankBound(rules: Rules, rank: Ranks) returns (bound: nat)
    requires forall k :: k in rules ==> k in rank
    ensures forall k :: k in rules ==> rank[k] < bound
  {
    bound := 0;
    var left := rules.Keys;
    while left != {}
      invariant left <= rules.Keys
      invariant forall k :: k in rules && k !in left ==> rank[k] < bound
      decreases |left|
    {
      var k :| k in left;
      if bound <= rank[k] {
        bound := rank[k] + 1;
      }
      left := left - {k};
    }
  }

  lemma RuleHasLevel(rules: Rules, k: string)
    requires Simple(rules) && k in rules
    ensures Ends(rules, rules[k].rhs) ==> HasLevel(rules, Scan(rules[k].rhs).value)
  {
    hide Ends, SettledAfter, IsLevel;
    var n := EndsMeansSettled(rules, rules[k].rhs);
    if Ends(rules, rules[k].rhs) {
      var least := LeastLevel(rules, Scan(rules[k].rhs).value, n);
    }
  }

  /** Ranks that are the levels of the rules' right-hand sides. */
  ghost predicate RanksAreLevels(rules: Rules, rank: Ranks)
    requires Simple(rules)
  {
    rank.Keys == rules.Keys &&
    forall k :: k in rules ==>
      HasLevel(rules, Scan(rules[k].rhs).value) && rank[k] == Level(rules, Scan(rules[k].rhs).value)
  }

  lemma RuleBelow(rules: Rules, rank: Ranks, k: string)
    requires Simple(rules) && RanksAreLevels(rules, rank) && k in rules
    ensures Below(Rewriting(rules), rank, Scan(rules[k].rhs).value, rank[k])
  {
    ScanSound(rules[k].rhs);
    hide Scan, HasLevel;
    var segs := Scan(rules[k].rhs).value;
    forall i | 0 <= i < |segs| ensures SegBelow(Rewriting(rules), rank, segs[i], rank[k]) {
      IsScanAt(segs, i);
      LevelDrops(rules, k, i);
    }
  }

  lemma {:induction false} IsScanAt(segs: seq<Seg>, i: nat)
    requires IsScan(segs) && i < |segs|
    ensures IsScanSeg(segs[i])
  {
    hide IsScanSeg;
    if i > 0 {
      IsScanAt(segs[1..], i - 1);
    }
  }

  lemma RanksFromLevels(rules: Rules)
    requires Simple(rules) && Simple(Rewriting(rules))
    ensures (forall text :: Scan(text).Ok? ==> Ends(rules, text)) ==> exists rank :: Ranked(Rewriting(rules), rank)
  {
    hide Scan, HasLevel, Ends, Below;
    if forall text :: Scan(text).Ok? ==> Ends(rules, text) {
      forall k | k in rules ensures HasLevel(rules, Scan(rules[k].rhs).value) {
        RuleHasLevel(rules, k);
      }
      var rank: Ranks := map k | k in rules :: Level(rules, Scan(rules[k].rhs).value);
      assert RanksAreLevels(rules, rank);
      hide RanksAreLevels;
      forall k | k in Rewriting(rules)
        ensures Below(Rewriting(rules), rank, Scan(Rewriting(rules)[k].rhs).value, rank[k])
      {
        RuleBelow(rules, rank, k);
      }
      assert Ranked(Rewriting(rules), rank);
    }
  }

  lemma LevelDrops(rules: Rules, k: string, i: nat)
    requires Simple(rules) && k in rules && i < |Scan(rules[k].rhs).value| && IsScanSeg(Scan(rules[k].rhs).value[i])
    requires forall j :: j in rules ==> HasLevel(rules, Scan(rules[j].rhs).value)
    ensures var seg := Scan(rules[k].rhs).value[i];
            IsRuleName(Rewriting(rules), seg) ==>
              Upper(seg.text) in rules &&
              Level(rules, Scan(rules[Upper(seg.text)].rhs).value) < Level(rules, Scan(rules[k].rhs).value)
  {
    var segs := Scan(rules[k].rhs).value;
    if IsRuleName(Rewriting(rules), segs[i]) {
      assert IsRuleName(rules, segs[i]) && !Respells(rules, Upper(segs[i].text));
      LevelIsLeast(rules, segs);
      LevelIsLeast(rules, Scan(rules[Upper(segs[i].text)].rhs).value);
      hide Rewriting, Respells, IsScanSeg;
      NameInsideSettles(rules, segs, i, Level(rules, segs));
    }
  }

  // --------------------------------------------------------- no name left

  /** Enough rounds return a text without rule names. */
  ghost predicate Clears(rules: Rules, text: string) {
    exists rounds: nat :: ClearsWithin(rules, text, rounds)
  }

  predicate ClearsWithin(rules: Rules, text: string, rounds: nat) {
    var e := ExpandAll(rules, text, rounds);
    e.Finished? && e.result.Ok? && NoRuleNames(rules, Denotes(text, e.result.value))
  }

  lemma ClearedEnds(rules: Rules, text: string)
    ensures Clears(rules, text) ==> Ends(rules, text)
  {
    if Clears(rules, text) {
      var rounds: nat :| ClearsWithin(rules, text, rounds);
      assert EndsWithin(rules, text, rounds);
    }
  }

  /** The right-hand side of a rule that respells its name is fixed, and keeps the name. */
  lemma RespelledIsNotCleared(rules: Rules, k: string, rounds: nat)
    requires Simple(rules) && k in rules && Respells(rules, k)
    ensures ExpandAll(rules, rules[k].rhs, rounds) == Finished(Ok(None))
    ensures !ClearsWithin(rules, rules[k].rhs, rounds)
  {
    var seg := Seg(rules[k].rhs, Matched);
    ScanOfIdentifier(rules[k].rhs);
    AppendEmpty([seg]);
    OneNameExpands(rules, seg);
    ScanSound(rules[k].rhs);
    PassText(rules, [seg]);
    assert IsRuleName(rules, [seg][0]);
  }

  /**
   * The loop clears every text with closed quotes, that is, it ends and leaves no rule name
   * outside quotes, if and only if all the rules can be ranked.
   */
  lemma ClearingIsRanking(rules: Rules)
    requires Simple(rules)
    ensures (exists rank :: Ranked(rules, rank)) <==> (forall text :: Scan(text).Ok? ==> Clears(rules, text))
  {
    if exists rank :: Ranked(rules, rank) {
      var rank :| Ranked(rules, rank);
      var bound := RankBound(rules, rank);
      forall text | Scan(text).Ok? ensures Clears(rules, text) {
        RankedRulesTerminate(rules, rank, bound, text);
        assert ClearsWithin(rules, text, bound);
      }
    }
    if forall text :: Scan(text).Ok? ==> Clears(rules, text) {
      ClearingRulesRewrite(rules);
      hide Clears, Ranked, Rewriting, Scan;
      forall text | Scan(text).Ok? ensures Ends(rules, text) {
        ClearedEnds(rules, text);
      }
      EndingIsRanking(rules);
    }
  }

  lemma ClearingRulesRewrite(rules: Rules)
    requires Simple(rules)
    ensures (forall text :: Scan(text).Ok? ==> Clears(rules, text)) ==> Rewriting(rules) == rules
  {
    hide Scan, ClearsWithin, Respells;
    if forall text :: Scan(text).Ok? ==> Clears(rules, text) {
      forall k | k in rules ensures !Respells(rules, k) {
        if Respells(rules, k) {
          assert Clears(rules, rules[k].rhs);
          var rounds: nat :| ClearsWithin(rules, rules[k].rhs, rounds);
          RespelledIsNotCleared(rules, k, rounds);
        }
      }
    }
  }

  const RESPELLING: Rules := map["A" := Rule("A", None)]

  lemma RespellingRule()
    ensures Simple(RESPELLING) && "A" in RESPELLING && Respells(RESPELLING, "A")
    ensures Rewriting(RESPELLING) == map[] && Simple(map[]) && Ranked(map[], map[])
  {
    assert Upper("A") == "A" && IsIdentifier("A");
    ScanOfIdentifier("A");
    hide Scan, IsIdentifier, Upper;
  }

  /** A rule can end every text in one round without being ranked: it only respells its name. */
  lemma RespellingRuleEnds(text: string)
    requires Scan(text).Ok?
    ensures Simple(RESPELLING) && !exists rank :: Ranked(RESPELLING, rank)
    ensures ExpandAll(RESPELLING, text, 1).Finished? && ExpandAll(RESPELLING, text, 1).result.Ok?
  {
    hide *;
    RespellingRule();
    forall rank ensures !Ranked(RESPELLING, rank) {
      RespelledIsNotRanked(RESPELLING, rank, "A");
    }
    RankedRulesEnd(RESPELLING, map[], 0, text);
  }

  // --------------------------------------------------------- a cycle

  const CYCLE: Rules := map["A" := Rule("b", None), "B" := Rule("a", None)]

  lemma CyclePasses()
    ensures ExpandMacro(CYCLE, "a") == Ok(Some("b")) && ExpandMacro(CYCLE, "b") == Ok(Some("a"))
  {
    assert Upper("a") == "A" && Upper("b") == "B";
    AdvanceStep("a");
    AdvanceStep("b");
    assert NextAdvance(CYCLE, "a") == Ok(Advance(1, "b"));
    assert NextAdvance(CYCLE, "b") == Ok(Advance(1, "a"));
    hide NextAdvance;
    assert "b" + "" == "b" && "a" + "" == "a";
    assert ExpandOnce(CYCLE, "") == Ok("");
  }

  lemma {:induction false} CycleFromNeverFinishes(s: string, rounds: nat)
    requires s == "a" || s == "b"
    ensures ExpandFrom(CYCLE, s, rounds) == Unfinished
    decreases rounds
  {
    CyclePasses();
    if rounds > 0 {
      hide ExpandMacro;
      CycleFromNeverFinishes(if s == "a" then "b" else "a", rounds - 1);
    }
  }

  /** Two rules naming each other expand forever: no number of rounds is enough. */
  lemma CycleNeverFinishes(rounds: nat)
    ensures ExpandAll(CYCLE, "a", rounds) == Unfinished
  {
    CyclePasses();
    CycleFromNeverFinishes("b", rounds);
  }
}
