/**
 * Scanned texts: the segments the macro expander cuts a text into, and what passes do to
 * them. For rules without argument lists a pass replaces every segment on its own.
 */
module MacroScan {
  import opened Common
  import opened TextProcessor
  import opened MacroExpander

  // --------------------------------------------------------- scanned texts

  /** The segments of a whole text, as the macro expander scans it. */
  function Scan(s: string): Result<seq<Seg>>
    decreases |s|
  {
    if s == "" then Ok([])
    else
      match NextMatch(IdentifierMatcher, s)
      case Err(e) => Err(e)
      case Ok(m) =>
        match Scan(s[m.len..])
        case Err(e) => Err(e)
        case Ok(segs) => Ok([Seg(s[..m.len], m.kind)] + segs)
  }

  predicate IsIdentifier(s: string) {
    s != "" && IsAlpha(s[0]) && forall i :: 0 <= i < |s| ==> IsIdentifierChar(s[i])
  }

  predicate IsScanSeg(seg: Seg) {
    match seg.kind
    case Masked => IsQuoted(seg.text)
    case Matched => IsIdentifier(seg.text)
    case Plain => |seg.text| == 1 && !IsQuote(seg.text[0]) && !IsAlpha(seg.text[0])
  }

  /** A name is taken as long as possible: what follows it cannot extend it. */
  predicate EndsName(seg: Seg, segs: seq<Seg>) {
    seg.kind == Matched && segs != [] ==> segs[0].text != "" && !IsIdentifierChar(segs[0].text[0])
  }

  /** Segments that a scan can give, one behind the other. */
  predicate IsScan(segs: seq<Seg>) {
    if segs == [] then true
    else IsScanSeg(segs[0]) && EndsName(segs[0], segs[1..]) && IsScan(segs[1..])
  }

  lemma IsScanCons(seg: Seg, segs: seq<Seg>)
    ensures IsScan([seg] + segs) <==> IsScanSeg(seg) && EndsName(seg, segs) && IsScan(segs)
  {
    Cons(seg, segs);
  }

  lemma NextIsScanSeg(s: string)
    requires s != "" && NextMatch(IdentifierMatcher, s).Ok?
    ensures var m := NextMatch(IdentifierMatcher, s).value;
            IsScanSeg(Seg(s[..m.len], m.kind)) &&
            (m.kind == Matched && m.len < |s| ==> !IsIdentifierChar(s[m.len]))
  {
    if IsQuote(s[0]) {
      QuoteLocal(s, "");
    }
  }

  lemma NextOfScanSeg(seg: Seg, t: string)
    requires IsScanSeg(seg)
    requires seg.kind == Matched && t != "" ==> !IsIdentifierChar(t[0])
    ensures NextMatch(IdentifierMatcher, seg.text + t) == Ok(Match(|seg.text|, seg.kind))
  {
    var s := seg.text + t;
    if seg.kind == Masked {
      QuoteLocal(seg.text, t);
      TakeAll(seg.text);
    } else if seg.kind == Matched {
      assert forall i :: 0 <= i < |seg.text| ==> s[i] == seg.text[i];
      assert t != "" ==> s[|seg.text|] == t[0];
      assert IdentifierRun(s) == |seg.text|;
    }
  }

  lemma FlatFront(segs: seq<Seg>)
    requires IsScan(segs)
    ensures segs == [] ==> Flat(segs) == ""
    ensures segs != [] ==> segs[0].text != "" && Flat(segs) != "" && Flat(segs)[0] == segs[0].text[0]
  {
    if segs != [] {
      Uncons(segs);
      FlatCons(segs[0], segs[1..]);
    }
  }

  /** A scan is such a list of segments, and it spells the text. */
  lemma {:induction false} ScanSound(s: string)
    requires Scan(s).Ok?
    ensures IsScan(Scan(s).value) && Flat(Scan(s).value) == s
    decreases |s|
  {
    hide NextMatch, IsScanSeg, IsIdentifierChar;
    if s != "" {
      var m := NextMatch(IdentifierMatcher, s).value;
      var seg, rest := Seg(s[..m.len], m.kind), Scan(s[m.len..]).value;
      NextIsScanSeg(s);
      ScanSound(s[m.len..]);
      FlatFront(rest);
      assert m.len < |s| ==> s[m.len..][0] == s[m.len];
      assert s == seg.text + s[m.len..];
      hide IsScan, Scan;
      IsScanCons(seg, rest);
      FlatCons(seg, rest);
    }
  }

  lemma ScanStep(seg: Seg, t: string)
    requires IsScanSeg(seg)
    requires seg.kind == Matched && t != "" ==> !IsIdentifierChar(t[0])
    ensures seg.text != ""
    ensures Scan(seg.text + t) ==
            match Scan(t)
            case Err(e) => Err(e)
            case Ok(segs) => Ok([seg] + segs)
  {
    NextOfScanSeg(seg, t);
    hide NextMatch, IsIdentifierChar;
    var s := seg.text + t;
    assert s[..|seg.text|] == seg.text && s[|seg.text|..] == t;
  }

  /** Scanning locality: every such list of segments is recovered from the text it spells. */
  lemma {:induction false} ScanComplete(segs: seq<Seg>)
    requires IsScan(segs)
    ensures Scan(Flat(segs)) == Ok(segs)
  {
    if segs != [] {
      var seg, rest := segs[0], segs[1..];
      ScanComplete(rest);
      FlatFront(rest);
      ScanStep(seg, Flat(rest));
      hide Scan, IsScan;
      Uncons(segs);
      FlatCons(seg, rest);
    }
  }

  // --------------------------------------------------------- one pass on segments

  /** Rules without argument lists whose right-hand sides close their quotes. */
  predicate Simple(rules: Rules) {
    forall k :: k in rules ==> rules[k].macroArgs.None? && Scan(rules[k].rhs).Ok?
  }

  predicate IsRuleName(rules: Rules, seg: Seg) {
    seg.kind == Matched && Upper(seg.text) in rules
  }

  function ExpandSeg(rules: Rules, seg: Seg): seq<Seg>
    requires Simple(rules)
  {
    if IsRuleName(rules, seg) then Scan(rules[Upper(seg.text)].rhs).value else [seg]
  }

  function ExpandSegs(rules: Rules, segs: seq<Seg>): seq<Seg>
    requires Simple(rules)
  {
    if segs == [] then [] else ExpandSeg(rules, segs[0]) + ExpandSegs(rules, segs[1..])
  }

  lemma {:induction false} IsScanAppend(a: seq<Seg>, b: seq<Seg>)
    requires IsScan(a) && IsScan(b)
    requires a != [] && b != [] ==> !IsIdentifierChar(b[0].text[0])
    ensures IsScan(a + b)
  {
    hide IsIdentifierChar;
    if a == [] {
      AppendEmpty(b);
    } else {
      IsScanAppend(a[1..], b);
      assert (a + b)[1..] == a[1..] + b;
    }
  }

  lemma ExpandSegIsScan(rules: Rules, seg: Seg)
    requires Simple(rules) && IsScanSeg(seg)
    ensures IsScan(ExpandSeg(rules, seg))
    ensures Flat(ExpandSeg(rules, seg)) == if IsRuleName(rules, seg) then rules[Upper(seg.text)].rhs else seg.text
  {
    hide IsScanSeg;
    if IsRuleName(rules, seg) {
      ScanSound(rules[Upper(seg.text)].rhs);
    } else {
      FlatCons(seg, []);
      AppendEmpty([seg]);
      IsScanCons(seg, []);
    }
  }

  /** A segment that no name can run into is copied, so it still starts the expanded text. */
  lemma ExpandFront(rules: Rules, segs: seq<Seg>)
    requires Simple(rules) && IsScan(segs)
    requires segs != [] && !IsIdentifierChar(segs[0].text[0])
    ensures ExpandSegs(rules, segs) != [] && ExpandSegs(rules, segs)[0] == segs[0]
  {
  }

  lemma {:induction false} ExpandSegsIsScan(rules: Rules, segs: seq<Seg>)
    requires Simple(rules) && IsScan(segs)
    ensures IsScan(ExpandSegs(rules, segs))
  {
    if segs != [] {
      var seg, rest := segs[0], segs[1..];
      ExpandSegsIsScan(rules, rest);
      ExpandSegIsScan(rules, seg);
      if seg.kind == Matched {
        if rest != [] {
          ExpandFront(rules, rest);
        }
        assert rest == [] ==> ExpandSegs(rules, rest) == [];
        IsScanAppend(ExpandSeg(rules, seg), ExpandSegs(rules, rest));
      } else {
        IsScanCons(seg, ExpandSegs(rules, rest));
      }
    }
  }

  /** One segment of the imperative pass: its text, or its rule's right-hand side. */
  lemma AdvanceOfSeg(rules: Rules, seg: Seg, t: string)
    requires Simple(rules) && IsScanSeg(seg)
    requires seg.kind == Matched && t != "" ==> !IsIdentifierChar(t[0])
    ensures seg.text != ""
    ensures NextAdvance(rules, seg.text + t) ==
            Ok(Advance(|seg.text|, if IsRuleName(rules, seg) then rules[Upper(seg.text)].rhs else seg.text))
  {
    NextOfScanSeg(seg, t);
    hide NextMatch;
    assert (seg.text + t)[..|seg.text|] == seg.text;
    assert seg.kind == Masked ==> !IsAlpha(seg.text[0]);
  }

  lemma {:induction false} PassText(rules: Rules, segs: seq<Seg>)
    requires Simple(rules) && IsScan(segs)
    ensures ExpandOnce(rules, Flat(segs)) == Ok(Flat(ExpandSegs(rules, segs)))
  {
    FlatFront(segs);
    if segs != [] {
      var seg, rest := segs[0], segs[1..];
      PassText(rules, rest);
      FlatFront(rest);
      AdvanceOfSeg(rules, seg, Flat(rest));
      ExpandSegIsScan(rules, seg);
      FlatAppend(ExpandSeg(rules, seg), ExpandSegs(rules, rest));
      hide NextAdvance, IsScan, ExpandSeg, IsRuleName;
      Uncons(segs);
      FlatCons(seg, rest);
      assert (seg.text + Flat(rest))[|seg.text|..] == Flat(rest);
    }
  }

  /**
   * A pass over a text replaces every scanned segment on its own: the output is scanned as
   * the scans of the replacements, one behind the other.
   */
  lemma PassReplacesSegs(rules: Rules, text: string)
    requires Simple(rules) && Scan(text).Ok?
    ensures ExpandOnce(rules, text).Ok?
    ensures Scan(ExpandOnce(rules, text).value) == Ok(ExpandSegs(rules, Scan(text).value))
  {
    ScanSound(text);
    hide *;
    PassText(rules, Scan(text).value);
    ExpandSegsIsScan(rules, Scan(text).value);
    ScanComplete(ExpandSegs(rules, Scan(text).value));
  }

  /** Open quotes are the only way a pass can fail. */
  lemma {:induction false} PassFailsWithScan(rules: Rules, s: string)
    requires Simple(rules) && Scan(s).Err?
    ensures ExpandOnce(rules, s) == Err(Scan(s).error)
    decreases |s|
  {
    if NextMatch(IdentifierMatcher, s).Ok? {
      var m := NextMatch(IdentifierMatcher, s).value;
      assert NextAdvance(rules, s).Ok? && NextAdvance(rules, s).value.len == m.len;
      hide NextMatch, NextAdvance;
      PassFailsWithScan(rules, s[m.len..]);
    }
  }

  // --------------------------------------------------------- many passes

  function Passes(rules: Rules, segs: seq<Seg>, n: nat): seq<Seg>
    requires Simple(rules)
    decreases n
  {
    if n == 0 then segs else Passes(rules, ExpandSegs(rules, segs), n - 1)
  }

  lemma {:induction false} PassesIterate(rules: Rules, segs: seq<Seg>, n: nat)
    requires Simple(rules) && IsScan(segs)
    ensures IsScan(Passes(rules, segs, n))
    ensures Iterate(rules, Flat(segs), n) == Ok(Flat(Passes(rules, segs, n)))
    decreases n
  {
    hide IsScan, ExpandOnce, ExpandSegs;
    if n > 0 {
      PassText(rules, segs);
      ExpandSegsIsScan(rules, segs);
      PassesIterate(rules, ExpandSegs(rules, segs), n - 1);
    }
  }

  lemma {:induction false} ExpandSegsAppend(rules: Rules, a: seq<Seg>, b: seq<Seg>)
    requires Simple(rules)
    ensures ExpandSegs(rules, a + b) == ExpandSegs(rules, a) + ExpandSegs(rules, b)
  {
    hide ExpandSeg;
    if a == [] {
      AppendEmpty(b);
      AppendEmpty(ExpandSegs(rules, b));
    } else {
      assert (a + b)[1..] == a[1..] + b;
      ExpandSegsAppend(rules, a[1..], b);
      AppendAssoc(ExpandSeg(rules, a[0]), ExpandSegs(rules, a[1..]), ExpandSegs(rules, b));
    }
  }

  lemma {:induction false} PassesAppend(rules: Rules, a: seq<Seg>, b: seq<Seg>, n: nat)
    requires Simple(rules)
    ensures Passes(rules, a + b, n) == Passes(rules, a, n) + Passes(rules, b, n)
    decreases n
  {
    if n > 0 {
      ExpandSegsAppend(rules, a, b);
      hide ExpandSegs;
      PassesAppend(rules, ExpandSegs(rules, a), ExpandSegs(rules, b), n - 1);
    }
  }

  // --------------------------------------------------------- names and ranks

  predicate NameFree(rules: Rules, segs: seq<Seg>) {
    forall i :: 0 <= i < |segs| ==> !IsRuleName(rules, segs[i])
  }

  /** No rule name occurs in the text outside quotes. */
  predicate NoRuleNames(rules: Rules, text: string) {
    Scan(text).Ok? && NameFree(rules, Scan(text).value)
  }

  lemma AdvanceStep(s: string)
    requires |s| == 1 && IsAlpha(s[0])
    ensures NextMatch(IdentifierMatcher, s) == Ok(Match(1, Matched))
    ensures s[..1] == s && s[1..] == ""
  {
    assert IdentifierRun(s) == 1;
  }
}
