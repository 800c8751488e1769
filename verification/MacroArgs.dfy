/** The parenthesised argument lists of macros: one depth-counting tokeniser for three uses. */
module MacroArgs {
  import opened Common
  import opened TextProcessor
  import Placeholders

  /**
   * Which of the three subclasses is scanning: splitting a call's arguments, dry-running a
   * rewrite template when preferences are loaded, or rewriting its placeholders in place. It
   * fixes the matcher and the rewrite hook.
   */
  datatype Role =
    | ArgumentList
    | TemplateCheck(argCount: nat)
    | TemplateRewrite(argCount: nat, args: seq<string>)

  function MatcherOf(role: Role): AppMatcher {
    if role.ArgumentList? then NoMatches else PlaceholderMatcher(role.argCount)
  }

  // ------------------------------------------------------ one segment's step

  /** The text a placeholder slice stands for: one argument, or a range joined by ", ". */
  function Substitute(slice: string, args: seq<string>): (r: Result<string>)
    requires slice != ""
  {
    match Placeholders.Parse(slice)
    case Err(e) => Err(e)
    case Ok(parsed) =>
      match parsed.placeholder
      case Unset => Err(UnsetPlaceholder)
      case Range(n, e) =>
        var last := if e > n then e else n;
        if last > |args| then Err(ArgOutOfBounds) else Ok(Join(args[n - 1..last], ", "))
  }

  /** What a segment inside the parentheses adds to the current token. */
  function Output(role: Role, seg: Seg): (r: Result<string>)
    requires seg.text != ""
  {
    if role.TemplateRewrite? && seg.kind == Matched && seg.text[0] != '(' then Substitute(seg.text, role.args)
    else Ok(seg.text)
  }

  datatype State = State(depth: nat, tokens: seq<string>)

  datatype Step = More(state: State) | Done(tokens: seq<string>)

  /** Resizing a vector of texts to length 1. */
  function ResizeToOne(tokens: seq<string>): (r: seq<string>)
    ensures |r| == 1
  {
    if tokens == [] then [""] else tokens[..1]
  }

  function SetLast(tokens: seq<string>, token: string): (r: seq<string>)
    requires tokens != []
    ensures |r| == |tokens|
  {
    tokens[..|tokens| - 1] + [token]
  }

  function Last(tokens: seq<string>): string
    requires tokens != []
  {
    tokens[|tokens| - 1]
  }

  /** The segment is the single character c, outside quotes and placeholders. */
  predicate IsChar(seg: Seg, c: char) {
    seg.kind == Plain && |seg.text| == 1 && seg.text[0] == c
  }

  function NextDepth(depth: nat, seg: Seg): nat {
    if IsChar(seg, '(') then depth + 1
    else if IsChar(seg, ')') && depth > 0 then depth - 1
    else depth
  }

  /** At the parenthesis that closes the list: an empty last token is an error unless it is the only one. */
  function CloseList(tokens: seq<string>): (r: Result<Step>)
    requires tokens != []
    ensures r.Ok? ==> r.value.Done?
  {
    var trimmed := Trim(Last(tokens));
    if trimmed != "" then Ok(Done(SetLast(tokens, trimmed)))
    else if |tokens| > 1 then Err(EmptyArg)
    else Ok(Done([]))
  }

  /** At a comma between arguments. */
  function NextArg(tokens: seq<string>): (r: Result<Step>)
    requires tokens != []
    ensures r.Ok? ==> r.value.More? && r.value.state.depth == 1 && r.value.state.tokens != []
  {
    var trimmed := Trim(Last(tokens));
    if trimmed == "" then Err(EmptyArg) else Ok(More(State(1, SetLast(tokens, trimmed) + [""])))
  }

  /** `process_match` on one segment. */
  function ProcessSeg(role: Role, seg: Seg, st: State): (r: Result<Step>)
    requires seg.text != ""
    requires st.depth > 0 ==> st.tokens != []
    ensures r.Ok? && r.value.More? ==> r.value.state.depth > 0 && r.value.state.tokens != []
  {
    if st.depth == 0 then
      if seg.text[0] != '(' then Err(MissingOpen) else Ok(More(State(1, ResizeToOne(st.tokens))))
    else if st.depth == 1 && IsChar(seg, ')') then CloseList(st.tokens)
    else if st.depth == 1 && IsChar(seg, ',') then NextArg(st.tokens)
    else
      match Output(role, seg)
      case Err(e) => Err(e)
      case Ok(text) =>
        Ok(More(State(NextDepth(st.depth, seg), SetLast(st.tokens, Last(st.tokens) + text))))
  }

  datatype Tokenized = Tokenized(len: nat, tokens: seq<string>)

  function Shift(n: nat, r: Result<Tokenized>): Result<Tokenized> {
    match r
    case Ok(t) => Ok(Tokenized(n + t.len, t.tokens))
    case Err(e) => Err(e)
  }

  /** The scan loop from a given state: how much text is consumed, and the tokens. */
  function Walk(role: Role, s: string, st: State): (r: Result<Tokenized>)
    requires st.depth > 0 ==> st.tokens != []
    ensures r.Ok? ==> r.value.len <= |s|
    decreases |s|
  {
    if s == "" then Err(MissingClose)
    else
      match NextMatch(MatcherOf(role), s)
      case Err(e) => Err(e)
      case Ok(m) =>
        match ProcessSeg(role, Seg(s[..m.len], m.kind), st)
        case Err(e) => Err(e)
        case Ok(Done(tokens)) => Ok(Tokenized(m.len, tokens))
        case Ok(More(st')) => Shift(m.len, Walk(role, s[m.len..], st'))
  }

  /** One round of the scan loop, seen from the start of the text. */
  lemma WalkStep(role: Role, text: string, i: nat, st: State)
    requires i < |text|
    requires st.depth > 0 ==> st.tokens != []
    ensures var here := Shift(i, Walk(role, text[i..], st));
            match NextMatch(MatcherOf(role), text[i..])
            case Err(e) => here == Err(e)
            case Ok(m) =>
              i + m.len <= |text| &&
              match ProcessSeg(role, Seg(text[i..i + m.len], m.kind), st)
              case Err(e) => here == Err(e)
              case Ok(Done(tokens)) => here == Ok(Tokenized(i + m.len, tokens))
              case Ok(More(st')) => here == Shift(i + m.len, Walk(role, text[i + m.len..], st'))
  {
    hide NextMatch, ProcessSeg;
    var found := NextMatch(MatcherOf(role), text[i..]);
    if found.Ok? {
      assert text[i..][..found.value.len] == text[i..i + found.value.len];
      assert text[i..][found.value.len..] == text[i + found.value.len..];
    }
  }

  function Tokenize(role: Role, text: string): Result<Tokenized> {
    Walk(role, text, State(0, []))
  }

  /** What the argument-list role does with a segment, by its first character. */
  lemma SplitCases(seg: Seg, depth: nat, tokens: seq<string>)
    requires seg.text != "" && (seg.kind == Plain ==> |seg.text| == 1)
    requires depth > 0 ==> tokens != []
    ensures var step := ProcessSeg(ArgumentList, seg, State(depth, tokens));
            var c := seg.text[0];
            if depth == 0 then step == if c != '(' then Err(MissingOpen) else Ok(More(State(1, ResizeToOne(tokens))))
            else
              var trimmed := Trim(Last(tokens));
              if seg.kind == Plain && c == ')' && depth == 1 then
                step ==
                if trimmed != "" then Ok(Done(SetLast(tokens, trimmed)))
                else if |tokens| > 1 then Err(EmptyArg)
                else Ok(Done([]))
              else if seg.kind == Plain && c == ',' && depth == 1 then
                step == if trimmed == "" then Err(EmptyArg) else Ok(More(State(1, SetLast(tokens, trimmed) + [""])))
              else
                var depth' := if seg.kind == Plain && c == '(' then depth + 1
                              else if seg.kind == Plain && c == ')' then depth - 1 else depth;
                step == Ok(More(State(depth', SetLast(tokens, Last(tokens) + seg.text))))
  {
    hide Trim, SetLast, Last, ResizeToOne;
  }

  class MacroArgsExpander {
    const role: Role
    var groupCnt: nat
    var tokens: seq<string>

    ghost predicate Valid()
      reads this
    {
      groupCnt > 0 ==> tokens != []
    }

    constructor (role: Role)
      ensures Valid() && this.role == role
      ensures groupCnt == 0 && tokens == []
    {
      this.role := role;
      groupCnt, tokens := 0, [];
    }

    /** The loop of `rewrite_arg_placeholder`: arguments number..rangeEnd, joined. */
    method JoinRange(number: nat, rangeEnd: nat) returns (rewritten: string)
      requires role.TemplateRewrite? && 0 < number <= rangeEnd <= |role.args|
      ensures rewritten == Join(role.args[number - 1..rangeEnd], ", ")
    {
      rewritten := role.args[number - 1];
      var i := number + 1;
      while i <= rangeEnd
        invariant number + 1 <= i <= rangeEnd + 1
        invariant rewritten == Join(role.args[number - 1..i - 1], ", ")
      {
        JoinSnoc(role.args[number - 1..i - 1], role.args[i - 1], ", ");
        assert role.args[number - 1..i] == role.args[number - 1..i - 1] + [role.args[i - 1]];
        rewritten := rewritten + ", " + role.args[i - 1];
        i := i + 1;
      }
    }

    /** `rewrite_arg_placeholder` on the last `len` characters of the last token. */
    method RewriteArgPlaceholder(len: nat) returns (r: Result<()>)
      requires role.TemplateRewrite? && tokens != [] && 0 < len <= |Last(tokens)|
      modifies this`tokens
      ensures var kept := old(Last(tokens))[..|old(Last(tokens))| - len];
              var slice := old(Last(tokens))[|old(Last(tokens))| - len..];
              match Substitute(slice, role.args)
              case Err(e) => r == Err(e)
              case Ok(text) => r == Ok(()) && tokens == SetLast(old(tokens), kept + text)
    {
      var macroArg := Last(tokens);
      var begin := |macroArg| - len;
      var parsed := Placeholders.ParsePlaceholder(macroArg, begin, |macroArg|);
      assert macroArg[begin..|macroArg|] == macroArg[begin..];
      if parsed.Err? {
        return Err(parsed.error);
      }
      if parsed.value.placeholder.Unset? {
        return Err(UnsetPlaceholder);
      }
      var Range(number, rangeEnd) := parsed.value.placeholder;
      if number > |role.args| || rangeEnd > |role.args| {
        return Err(ArgOutOfBounds);
      }
      var rewritten := JoinRange(number, if rangeEnd > number then rangeEnd else number);
      tokens := tokens[|tokens| - 1 := macroArg[..begin] + rewritten];
      return Ok(());
    }

    /** The tokeniser's `process_match`, before any rewriting; true at the closing parenthesis. */
    method SplitMatch(text: string, begin: nat, m: Match) returns (r: Result<bool>)
      requires Valid()
      requires 0 < m.len && begin + m.len <= |text| && (m.kind == Plain ==> m.len == 1)
      modifies this
      ensures match ProcessSeg(ArgumentList, Seg(text[begin..begin + m.len], m.kind), State(old(groupCnt), old(tokens)))
              case Err(e) => r == Err(e)
              case Ok(Done(done)) => r == Ok(true) && tokens == done
              case Ok(More(st)) => r == Ok(false) && groupCnt == st.depth && tokens == st.tokens
    {
      SplitCases(Seg(text[begin..begin + m.len], m.kind), groupCnt, tokens);
      assert text[begin..begin + m.len][0] == text[begin];
      hide *;
      if groupCnt == 0 {
        if text[begin] != '(' {
          return Err(MissingOpen);
        }
        groupCnt := groupCnt + 1;
        tokens := ResizeToOne(tokens);
        return Ok(false);
      }
      if m.kind == Plain {
        if text[begin] == '(' {
          groupCnt := groupCnt + 1;
        } else if text[begin] == ')' {
          groupCnt := groupCnt - 1;
          if groupCnt == 0 {
            TrimLast();
            if tokens[|tokens| - 1] == "" {
              if |tokens| > 1 {
                return Err(EmptyArg);
              }
              tokens := [];
            }
            return Ok(true);
          }
        } else if text[begin] == ',' {
          if groupCnt == 1 {
            TrimLast();
            if tokens[|tokens| - 1] == "" {
              return Err(EmptyArg);
            }
            tokens := tokens + [""];
            return Ok(false);
          }
        }
      }
      AppendToLast(text[begin..begin + m.len]);
      return Ok(false);
    }

    /** The last token is trimmed in place. */
    method TrimLast()
      requires tokens != []
      modifies this`tokens
      ensures tokens == SetLast(old(tokens), Trim(Last(old(tokens)))) && tokens != []
      ensures tokens[|tokens| - 1] == Trim(Last(old(tokens)))
    {
      hide Trim;
      tokens := tokens[|tokens| - 1 := Trim(tokens[|tokens| - 1])];
    }

    /** The last token grows. */
    method AppendToLast(more: string)
      requires tokens != []
      modifies this`tokens
      ensures tokens == SetLast(old(tokens), Last(old(tokens)) + more)
    {
      var grown := tokens[|tokens| - 1] + more;
      tokens := tokens[|tokens| - 1 := grown];
    }

    /** The rewriter's `process_match`; the other roles leave matches as they are. */
    method ProcessMatch(text: string, begin: nat, m: Match) returns (r: Result<bool>)
      requires Valid()
      requires 0 < m.len && begin + m.len <= |text| && (m.kind == Plain ==> m.len == 1)
      modifies this
      ensures match ProcessSeg(role, Seg(text[begin..begin + m.len], m.kind), State(old(groupCnt), old(tokens)))
              case Err(e) => r == Err(e)
              case Ok(Done(done)) => r == Ok(true) && tokens == done
              case Ok(More(st)) => r == Ok(false) && groupCnt == st.depth && tokens == st.tokens
    {
      r := SplitMatch(text, begin, m);
      if r.Err? || r.value {
        return;
      }
      if role.TemplateRewrite? && m.kind == Matched && text[begin] != '(' {
        ghost var slice := text[begin..begin + m.len];
        ghost var before := old(Last(tokens));
        assert Last(tokens) == before + slice;
        assert Last(tokens)[|Last(tokens)| - m.len..] == slice;
        assert Last(tokens)[..|Last(tokens)| - m.len] == before;
        var rewritten := RewriteArgPlaceholder(m.len);
        if rewritten.Err? {
          return Err(rewritten.error);
        }
      }
    }

    /** `process_text`: consumes up to the matching parenthesis, or reports why not. */
    method ProcessText(text: string) returns (r: Result<nat>)
      requires Valid()
      modifies this
      ensures match Walk(role, text, State(old(groupCnt), old(tokens)))
              case Err(e) => r == Err(e)
              case Ok(t) => r == Ok(t.len) && tokens == t.tokens
    {
      hide NextMatch, ProcessSeg;
      var i := 0;
      ghost var expected := Walk(role, text, State(groupCnt, tokens));
      assert text[0..] == text;
      while i != |text|
        invariant 0 <= i <= |text|
        invariant Valid()
        invariant expected == Shift(i, Walk(role, text[i..], State(groupCnt, tokens)))
        decreases |text| - i
      {
        WalkStep(role, text, i, State(groupCnt, tokens));
        var m := FindMatch(MatcherOf(role), text, i);
        if m.Err? {
          return Err(m.error);
        }
        var atEnd := ProcessMatch(text, i, m.value);
        if atEnd.Err? {
          return Err(atEnd.error);
        }
        i := i + m.value.len;
        if atEnd.value {
          return Ok(i);
        }
      }
      return Err(MissingClose);
    }
  }

  /** A fresh expander's `tokenize_text`. */
  method TokenizeText(role: Role, text: string) returns (r: Result<Tokenized>)
    ensures r == Tokenize(role, text)
  {
    var expander := new MacroArgsExpander(role);
    var end := expander.ProcessText(text);
    match end {
      case Err(e) => return Err(e);
      case Ok(len) => return Ok(Tokenized(len, expander.tokens));
    }
  }
}
