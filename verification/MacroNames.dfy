/** When the names that a pass replaces are whole names, for all rules. */
module MacroNames {
  import opened ArgumentLists
  import opened Common
  import opened MacroArgs
  import opened MacroConservation
  import opened MacroExpander
  import opened MacroPromises
  import opened MacroScan
  import opened TextProcessor
  import ArgumentMeaning

  /** The text of a chunk with its argument list cut down to the opening parenthesis. */
  function Head(chunk: Chunk): string {
    if chunk.Copied? then chunk.seg.text else chunk.name + if chunk.args == "" then "" else "("
  }

  /** What the pass scans: the inside of an argument list that a rule takes is skipped. */
  function Skeleton(chunks: seq<Chunk>): string {
    if chunks == [] then "" else Head(chunks[0]) + Skeleton(chunks[1..])
  }

  function HeadSegs(chunk: Chunk): seq<Seg> {
    if chunk.Copied? then [chunk.seg]
    else [Seg(chunk.name, Matched)] + if chunk.args == "" then [] else [Seg("(", Plain)]
  }

  function SkeletonSegs(chunks: seq<Chunk>): seq<Seg> {
    if chunks == [] then [] else HeadSegs(chunks[0]) + SkeletonSegs(chunks[1..])
  }

  /** In the text the pass reads, no character before or behind a replaced name continues it. */
  predicate ReplacedStandAlone(chunks: seq<Chunk>) {
    forall i :: 0 <= i < |chunks| && chunks[i].Replaced? ==>
      (i > 0 ==> !EndsInIdentifier(chunks[i - 1].Source())) && NameEnds(chunks[i].args + Sources(chunks[i + 1..]))
  }

  predicate ReplacedLeftFree(chunks: seq<Chunk>) {
    forall i :: 0 < i < |chunks| && chunks[i].Replaced? ==> !EndsInIdentifier(chunks[i - 1].Source())
  }

  // ------------------------------------------------------------------ one chunk

  lemma {:induction false} ArgsTextEnds(head: Piece, rest: seq<Piece>)
    ensures ArgsText(head, rest)[|ArgsText(head, rest)| - 1] == ')'
    decreases |rest|
  {
    if rest != [] {
      ArgsTextEnds(rest[0], rest[1..]);
    }
  }

  /** An argument list starts and ends with its parentheses. */
  lemma CallEnds(rule: ArgsRule, args: string, text: string)
    requires IsCall(rule, args, text)
    ensures args != "" && args[0] == '(' && args[|args| - 1] == ')'
  {
    hide Tokenize, RewriteArgs, WellFormed, ArgumentMeaning.Filled, ArgumentMeaning.TokensOf;
    ArgumentMeaning.ArgumentPieces(args);
    hide Split, ArgsText;
    var p := Split(NoMatches, args[1..], 1).value;
    TakeAll(args);
    ArgsTextEnds(p.head, p.rest);
    assert args == "(" + ArgsText(p.head, p.rest);
  }

  /** What a replaced chunk's list is: none, or one in parentheses. */
  lemma ListOfChunk(rules: Rules, name: string, args: string, text: string, rest: string)
    requires ChunkOk(rules, Replaced(name, args, text), rest)
    ensures args != "" ==> args[0] == '(' && args[|args| - 1] == ')'
    ensures IsIdentifier(name) && Upper(name) in rules && NameEnds(args + rest)
  {
    var rule := rules[Upper(name)];
    hide Upper, NameEnds, IsIdentifier, IsCall;
    if OpensList(args + rest) && rule.macroArgs.Some? {
      CallEnds(rule.macroArgs.value, args, text[|rule.rhs|..]);
    }
  }

  /** The head of a chunk is made of its segments, begins and ends like it, and begins with its name if it has one. */
  predicate HeadLike(rules: Rules, chunk: Chunk) {
    var head, source, segs := Head(chunk), chunk.Source(), HeadSegs(chunk);
    head != "" && source != "" && head[0] == source[0] && head == Flat(segs) && segs != [] &&
    (EndsInIdentifier(segs[|segs| - 1].text) <==> EndsInIdentifier(source)) &&
    (IsRuleName(rules, segs[0]) <==> chunk.Replaced?) && NamesLeftFree(rules, segs)
  }

  lemma CopiedHead(rules: Rules, seg: Seg)
    requires IsScanSeg(seg) && !IsRuleName(rules, seg)
    ensures HeadLike(rules, Copied(seg))
  {
    assert seg.text != "";
    FlatOne(seg);
    NotName(rules, seg);
    hide IsScanSeg, IsRuleName, NamesLeftFree, EndsInIdentifier, Flat;
  }

  lemma FlatOne(seg: Seg)
    ensures Flat([seg]) == seg.text
  {
    FlatCons(seg, []);
    AppendEmpty([seg]);
    AppendEmpty(seg.text);
  }

  lemma FirstLeftFree(rules: Rules, seg: Seg, segs: seq<Seg>)
    requires segs == [] || segs == [Seg("(", Plain)]
    ensures NamesLeftFree(rules, [seg] + segs)
  {
    hide Upper, EndsInIdentifier;
  }

  lemma EndsInClose(args: string, name: string)
    requires args != "" && args[|args| - 1] == ')'
    ensures !EndsInIdentifier(name + args)
  {
  }

  lemma BareHead(rules: Rules, name: string, text: string)
    requires name != "" && IsRuleName(rules, Seg(name, Matched))
    ensures HeadLike(rules, Replaced(name, "", text))
  {
    var seg := Seg(name, Matched);
    hide IsRuleName, NamesLeftFree, Flat, EndsInIdentifier;
    FlatOne(seg);
    AppendEmpty([seg]);
    AppendEmpty(name);
    FirstLeftFree(rules, seg, []);
  }

  lemma ClosedIsNoName()
    ensures !EndsInIdentifier("(")
  {
  }

  lemma CallHead(rules: Rules, name: string, args: string, text: string)
    requires name != "" && IsRuleName(rules, Seg(name, Matched))
    requires args != "" && args[|args| - 1] == ')'
    ensures HeadLike(rules, Replaced(name, args, text))
  {
    var seg, open := Seg(name, Matched), Seg("(", Plain);
    hide IsRuleName, NamesLeftFree, Flat, EndsInIdentifier;
    FlatCons(seg, [open]);
    FlatOne(open);
    FirstLeftFree(rules, seg, [open]);
    EndsInClose(args, name);
    ClosedIsNoName();
    assert ([seg] + [open])[1] == open && (name + "(")[0] == name[0] == (name + args)[0];
  }

  lemma HeadParts(rules: Rules, chunk: Chunk)
    requires HeadLike(rules, chunk)
    ensures HeadSegs(chunk) != [] && NamesLeftFree(rules, HeadSegs(chunk))
    ensures EndsInIdentifier(HeadSegs(chunk)[|HeadSegs(chunk)| - 1].text) <==> EndsInIdentifier(chunk.Source())
  {
    hide HeadSegs, NamesLeftFree, EndsInIdentifier, IsRuleName, Flat;
  }

  lemma HeadOfChunk(rules: Rules, chunk: Chunk, rest: string)
    requires ChunkOk(rules, chunk, rest)
    ensures HeadLike(rules, chunk)
  {
    hide HeadLike;
    match chunk {
      case Copied(seg) =>
        hide IsScanSeg, IsRuleName;
        CopiedHead(rules, seg);
      case Replaced(name, args, text) =>
        ListOfChunk(rules, name, args, text, rest);
        assert name != "" && IsRuleName(rules, Seg(name, Matched));
        hide ChunkOk, IsRuleName;
        if args == "" {
          BareHead(rules, name, text);
        } else {
          CallHead(rules, name, args, text);
        }
    }
  }

  /** In front of a scanned text, a chunk's head is scanned into its segments. */
  lemma ScanOfHead(rules: Rules, chunk: Chunk, rest: string, tail: string)
    requires ChunkOk(rules, chunk, rest) && (NameEnds(rest) ==> NameEnds(tail))
    ensures Scan(Head(chunk) + tail) ==
            match Scan(tail)
            case Err(e) => Err(e)
            case Ok(segs) => Ok(HeadSegs(chunk) + segs)
  {
    match chunk {
      case Copied(seg) =>
        hide Scan, IsScanSeg;
        ScanStep(seg, tail);
      case Replaced(name, args, text) =>
        ListOfChunk(rules, name, args, text, rest);
        hide ChunkOk, Upper, Scan;
        if args == "" {
          AppendEmpty(rest);
          AppendEmpty(name);
          AppendEmpty([Seg(name, Matched)]);
          ScanStep(Seg(name, Matched), tail);
        } else {
          ScanStep(Seg("(", Plain), tail);
          ScanStep(Seg(name, Matched), "(" + tail);
          AppendAssoc(name, "(", tail);
          if Scan(tail).Ok? {
            AppendAssoc([Seg(name, Matched)], [Seg("(", Plain)], Scan(tail).value);
          }
        }
    }
  }

  // ----------------------------------------------------------------- all chunks

  /** The skeleton begins like the text. */
  lemma SkeletonFront(rules: Rules, chunks: seq<Chunk>)
    requires ChunksOk(rules, chunks)
    ensures NameEnds(Sources(chunks)) <==> NameEnds(Skeleton(chunks))
  {
    if chunks != [] {
      HeadOfChunk(rules, chunks[0], Sources(chunks[1..]));
      hide ChunkOk, Head, Chunk.Source, IsIdentifierChar;
      assert Sources(chunks)[0] == chunks[0].Source()[0] && Skeleton(chunks)[0] == Head(chunks[0])[0];
    }
  }

  lemma {:induction false} ScanOfSkeleton(rules: Rules, chunks: seq<Chunk>)
    requires ChunksOk(rules, chunks)
    ensures Scan(Skeleton(chunks)) == Ok(SkeletonSegs(chunks))
    decreases |chunks|
  {
    if chunks != [] {
      assert ChunkOk(rules, chunks[0], Sources(chunks[1..])) && ChunksOk(rules, chunks[1..]);
      hide ChunksOk, ChunkOk, Head, HeadSegs, Scan, NameEnds;
      ScanOfSkeleton(rules, chunks[1..]);
      SkeletonFront(rules, chunks[1..]);
      ScanOfHead(rules, chunks[0], Sources(chunks[1..]), Skeleton(chunks[1..]));
    }
  }

  /** Two lists of segments, one behind the other: what is added is the name at the seam. */
  lemma LeftFreeAtSeam(rules: Rules, a: seq<Seg>, b: seq<Seg>)
    requires a != []
    ensures NamesLeftFree(rules, a + b) <==>
            NamesLeftFree(rules, a) && NamesLeftFree(rules, b) &&
            (b != [] && IsRuleName(rules, b[0]) ==> !EndsInIdentifier(a[|a| - 1].text))
  {
    if b != [] && IsRuleName(rules, b[0]) && EndsInIdentifier(a[|a| - 1].text) {
      assert (a + b)[|a|] == b[0] && (a + b)[|a| - 1] == a[|a| - 1];
      assert !NameLeftFree(rules, a + b, |a|);
    } else {
      hide NamesLeftFree, IsRuleName, EndsInIdentifier;
      LeftFreeAppend(rules, a, b);
    }
  }

  lemma ReplacedAtSeam(chunk: Chunk, chunks: seq<Chunk>)
    ensures ReplacedLeftFree([chunk] + chunks) <==>
            ReplacedLeftFree(chunks) && (chunks != [] && chunks[0].Replaced? ==> !EndsInIdentifier(chunk.Source()))
  {
    hide EndsInIdentifier, Chunk.Source;
    var all := [chunk] + chunks;
    assert forall i :: 0 <= i < |chunks| ==> all[i + 1] == chunks[i];
    if ReplacedLeftFree(chunks) && (chunks != [] && chunks[0].Replaced? ==> !EndsInIdentifier(chunk.Source())) {
      forall i | 0 < i < |all| && all[i].Replaced? ensures !EndsInIdentifier(all[i - 1].Source()) {
        assert all[i] == chunks[i - 1] && (i > 1 ==> all[i - 1] == chunks[i - 2]);
      }
    }
    if ReplacedLeftFree(all) {
      assert all[0] == chunk && (chunks != [] ==> all[1] == chunks[0]);
      assert chunks != [] && all[1].Replaced? ==> !EndsInIdentifier(all[1 - 1].Source());
      forall i | 0 < i < |chunks| && chunks[i].Replaced? ensures !EndsInIdentifier(chunks[i - 1].Source()) {
        assert all[i + 1] == chunks[i] && all[i] == chunks[i - 1];
      }
    }
  }

  /** The first segment of a chunk list is a rule name exactly when its first chunk is replaced. */
  lemma FirstOfSkeleton(rules: Rules, chunks: seq<Chunk>)
    requires ChunksOk(rules, chunks)
    ensures SkeletonSegs(chunks) == [] <==> chunks == []
    ensures chunks != [] ==> (IsRuleName(rules, SkeletonSegs(chunks)[0]) <==> chunks[0].Replaced?)
  {
    if chunks != [] {
      HeadOfChunk(rules, chunks[0], Sources(chunks[1..]));
      hide ChunkOk, HeadSegs, IsRuleName;
    }
  }

  lemma {:induction false} SkeletonLeftFree(rules: Rules, chunks: seq<Chunk>)
    requires ChunksOk(rules, chunks)
    ensures NamesLeftFree(rules, SkeletonSegs(chunks)) <==> ReplacedLeftFree(chunks)
    decreases |chunks|
  {
    if chunks != [] {
      var chunk, rest := chunks[0], chunks[1..];
      assert ChunkOk(rules, chunk, Sources(rest)) && ChunksOk(rules, rest);
      assert SkeletonSegs(chunks) == HeadSegs(chunk) + SkeletonSegs(rest);
      hide *;
      Uncons(chunks);
      SkeletonLeftFree(rules, rest);
      HeadOfChunk(rules, chunk, Sources(rest));
      HeadParts(rules, chunk);
      FirstOfSkeleton(rules, rest);
      LeftFreeAtSeam(rules, HeadSegs(chunk), SkeletonSegs(rest));
      ReplacedAtSeam(chunk, rest);
    }
  }

  lemma {:induction false} NamesEnd(rules: Rules, chunks: seq<Chunk>, i: nat)
    requires ChunksOk(rules, chunks) && i < |chunks| && chunks[i].Replaced?
    ensures NameEnds(chunks[i].args + Sources(chunks[i + 1..]))
    decreases |chunks|
  {
    if i == 0 {
      hide IsIdentifier, Upper, NameEnds, IsCall, OpensList;
    } else {
      hide ChunkOk, NameEnds;
      NamesEnd(rules, chunks[1..], i - 1);
      DropDrop(chunks, 1, i);
    }
  }

  lemma OnlyLeftNeighbours(rules: Rules, chunks: seq<Chunk>)
    requires ChunksOk(rules, chunks)
    ensures ReplacedStandAlone(chunks) <==> ReplacedLeftFree(chunks)
  {
    hide EndsInIdentifier, NameEnds, ChunksOk;
    forall i | 0 <= i < |chunks| && chunks[i].Replaced?
      ensures NameEnds(chunks[i].args + Sources(chunks[i + 1..]))
    {
      NamesEnd(rules, chunks, i);
    }
  }

  /**
   * The exact condition, for a pass over any rules: every name it replaces stands alone in the
   * text if and only if, with the insides of the argument lists it takes left out, no run of
   * letters, digits and underscores outside quotes starts with a digit or an underscore and is
   * a rule name from its first letter on.
   */
  lemma ReplacedNamesStandAloneExactlyWhen(rules: Rules, s: string) returns (chunks: seq<Chunk>)
    requires ExpandOnce(rules, s).Ok?
    ensures ChunksOk(rules, chunks) && Sources(chunks) == s && Outputs(chunks) == ExpandOnce(rules, s).value
    ensures Words(Skeleton(chunks)).Ok?
    ensures ReplacedStandAlone(chunks) <==> NoneHides(rules, Words(Skeleton(chunks)).value)
  {
    hide *;
    chunks := PassConserves(rules, s);
    ScanOfSkeleton(rules, chunks);
    LeftFreeExactlyWhen(rules, Skeleton(chunks));
    SkeletonLeftFree(rules, chunks);
    OnlyLeftNeighbours(rules, chunks);
  }
}
