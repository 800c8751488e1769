/**
 * Macro expansion of default values: every SQL name outside quotes that names a rule is
 * replaced, with its argument list when the rule declares one, until nothing changes.
 */
module MacroExpander {
  import opened Common
  import opened TextProcessor
  import opened MacroArgs
  import opened ArgumentMeaning

  datatype ArgsRule = ArgsRule(argCount: nat, rewrite: string)

  datatype Rule = Rule(rhs: string, macroArgs: Option<ArgsRule>)

  /** Keyed by upper-case names. */
  type Rules = map<string, Rule>

  // ------------------------------------------------------------- one pass

  /** The rewritten argument list; nothing when the rule has no template. */
  function RewriteArgs(rule: ArgsRule, args: seq<string>): Result<string> {
    if rule.rewrite == "" then Ok("")
    else
      match Tokenize(TemplateRewrite(rule.argCount, args), rule.rewrite)
      case Err(e) => Err(e)
      case Ok(t) => Ok(Print(t.tokens))
  }

  datatype ArgsResult = ArgsResult(len: nat, argCount: nat, text: string)

  /** The call's arguments are rewritten before anyone compares their number. */
  function ExpandArgs(rule: ArgsRule, s: string): (r: Result<ArgsResult>)
    ensures r.Ok? ==> r.value.len <= |s|
  {
    match Tokenize(ArgumentList, s)
    case Err(e) => Err(e)
    case Ok(t) =>
      match RewriteArgs(rule, t.tokens)
      case Err(e) => Err(e)
      case Ok(text) => Ok(ArgsResult(t.len, |t.tokens|, text))
  }

  /** How far one segment moves the scan, and the text appended for it. */
  datatype Advance = Advance(len: nat, text: string)

  function ProcessSegment(rules: Rules, s: string, m: Match): (r: Result<Advance>)
    requires 0 < m.len <= |s|
    ensures r.Ok? ==> m.len <= r.value.len <= |s|
  {
    var name := s[..m.len];
    if !IsAlpha(s[0]) || Upper(name) !in rules then Ok(Advance(m.len, name))
    else
      var rule := rules[Upper(name)];
      if m.len < |s| && s[m.len] == '(' && rule.macroArgs.Some? then
        match ExpandArgs(rule.macroArgs.value, s[m.len..])
        case Err(e) => Err(e)
        case Ok(args) =>
          if args.argCount != rule.macroArgs.value.argCount then Err(ArgCountMismatch)
          else Ok(Advance(m.len + args.len, rule.rhs + args.text))
      else Ok(Advance(m.len, rule.rhs))
  }

  /** The scanner's step and the replacement, at the front of a non-empty text. */
  function NextAdvance(rules: Rules, s: string): (r: Result<Advance>)
    requires s != ""
    ensures r.Ok? ==> 1 <= r.value.len <= |s|
  {
    match NextMatch(IdentifierMatcher, s)
    case Err(e) => Err(e)
    case Ok(m) => ProcessSegment(rules, s, m)
  }

  /** One pass over the whole text. */
  function ExpandOnce(rules: Rules, s: string): Result<string>
    decreases |s|
  {
    if s == "" then Ok("")
    else
      match NextAdvance(rules, s)
      case Err(e) => Err(e)
      case Ok(a) =>
        match ExpandOnce(rules, s[a.len..])
        case Err(e) => Err(e)
        case Ok(rest) => Ok(a.text + rest)
  }

  /** `expand_macro`: nothing when the pass changed nothing. */
  function ExpandMacro(rules: Rules, s: string): Result<Option<string>> {
    match ExpandOnce(rules, s)
    case Err(e) => Err(e)
    case Ok(t) => Ok(if t == s then None else Some(t))
  }

  // ------------------------------------------------------------ all passes

  /** Cyclic rules never finish, so the number of rounds is bounded by the caller. */
  datatype Expansion = Unfinished | Finished(result: Result<Option<string>>)

  /** The do-while loop, entered with a non-empty changed text. */
  function ExpandFrom(rules: Rules, text: string, rounds: nat): Expansion
    decreases rounds
  {
    if rounds == 0 then Unfinished
    else
      match ExpandMacro(rules, text)
      case Err(e) => Finished(Err(e))
      case Ok(None) => Finished(Ok(Some(text)))
      case Ok(Some(t)) => if t == "" then Finished(Ok(Some(t))) else ExpandFrom(rules, t, rounds - 1)
  }

  function ExpandAll(rules: Rules, text: string, rounds: nat): Expansion {
    match ExpandMacro(rules, text)
    case Err(e) => Finished(Err(e))
    case Ok(None) => Finished(Ok(None))
    case Ok(Some(t)) => if t == "" then Finished(Ok(Some(t))) else ExpandFrom(rules, t, rounds)
  }

  // ---------------------------------------------------------- imperative code

  /** `rewrite_macro_args`: rewrites the template, then prints the tokens. */
  method RewriteMacroArgs(rule: ArgsRule, args: seq<string>) returns (r: Result<string>)
    ensures r == RewriteArgs(rule, args)
  {
    if rule.rewrite == "" {
      return Ok("");
    }
    var rewritten := TokenizeText(TemplateRewrite(rule.argCount, args), rule.rewrite);
    if rewritten.Err? {
      return Err(rewritten.error);
    }
    var tokens := rewritten.value.tokens;
    var text := "(";
    for i := 0 to |tokens|
      invariant text == "(" + Join(tokens[..i], ", ")
    {
      if i != 0 {
        text := text + ", ";
        JoinSnoc(tokens[..i], tokens[i], ", ");
      }
      assert tokens[..i + 1] == tokens[..i] + [tokens[i]];
      text := text + tokens[i];
    }
    TakeAll(tokens);
    return Ok(text + ")");
  }

  method ExpandMacroArgs(rule: ArgsRule, text: string) returns (r: Result<ArgsResult>)
    ensures r == ExpandArgs(rule, text)
  {
    var tokenized := TokenizeText(ArgumentList, text);
    if tokenized.Err? {
      return Err(tokenized.error);
    }
    var rewritten := RewriteMacroArgs(rule, tokenized.value.tokens);
    if rewritten.Err? {
      return Err(rewritten.error);
    }
    return Ok(ArgsResult(tokenized.value.len, |tokenized.value.tokens|, rewritten.value));
  }

  function Append(text: string, r: Result<string>): Result<string> {
    match r
    case Err(e) => Err(e)
    case Ok(t) => Ok(text + t)
  }

  lemma ExpandStep(rules: Rules, text: string, i: nat, appended: string)
    requires i < |text|
    ensures var here := Append(appended, ExpandOnce(rules, text[i..]));
            match NextAdvance(rules, text[i..])
            case Err(e) => here == Err(e)
            case Ok(a) => i + a.len <= |text| && here == Append(appended + a.text, ExpandOnce(rules, text[i + a.len..]))
  {
    hide NextAdvance;
    var next := NextAdvance(rules, text[i..]);
    if next.Ok? {
      DropDrop(text, i, next.value.len);
      var rest := ExpandOnce(rules, text[i + next.value.len..]);
      if rest.Ok? {
        AppendAssoc(appended, next.value.text, rest.value);
      }
    }
  }

  class Expander {
    const rules: Rules
    var appendedText: string

    constructor (rules: Rules)
      ensures this.rules == rules && appendedText == ""
    {
      this.rules := rules;
      appendedText := "";
    }

    /** Appends what the segment stands for and returns where the scan goes on. */
    method ProcessMatch(text: string, begin: nat, m: Match) returns (r: Result<nat>)
      requires 0 < m.len && begin + m.len <= |text|
      modifies this
      ensures match ProcessSegment(rules, text[begin..], m)
              case Err(e) => r == Err(e)
              case Ok(a) => r == Ok(begin + a.len) && appendedText == old(appendedText) + a.text
    {
      var name := text[begin..begin + m.len];
      assert text[begin..][..m.len] == name;
      DropDrop(text, begin, m.len);
      if !IsAlpha(text[begin]) {
        appendedText := appendedText + name;
      } else if Upper(name) !in rules {
        appendedText := appendedText + name;
      } else {
        var rule := rules[Upper(name)];
        if begin + m.len < |text| && text[begin + m.len] == '(' && rule.macroArgs.Some? {
          var args := ExpandMacroArgs(rule.macroArgs.value, text[begin + m.len..]);
          if args.Err? {
            return Err(args.error);
          }
          if args.value.argCount != rule.macroArgs.value.argCount {
            return Err(ArgCountMismatch);
          }
          AppendAssoc(appendedText, rule.rhs, args.value.text);
          appendedText := appendedText + rule.rhs;
          appendedText := appendedText + args.value.text;
          return Ok(begin + m.len + args.value.len);
        }
        appendedText := appendedText + rule.rhs;
      }
      return Ok(begin + m.len);
    }

    /** `append_text`: the whole scan; the appended text is moved out. */
    method AppendText(text: string) returns (r: Result<string>)
      requires appendedText == ""
      modifies this
      ensures r == ExpandOnce(rules, text)
      ensures r.Ok? ==> appendedText == ""
    {
      hide NextMatch, ProcessSegment;
      var i := 0;
      ghost var expected := ExpandOnce(rules, text);
      TakeAll(text);
      if expected.Ok? {
        AppendEmpty(expected.value);
      }
      while i != |text|
        invariant 0 <= i <= |text|
        invariant expected == Append(appendedText, ExpandOnce(rules, text[i..]))
        decreases |text| - i
      {
        ExpandStep(rules, text, i, appendedText);
        var m := FindMatch(IdentifierMatcher, text, i);
        if m.Err? {
          return Err(m.error);
        }
        var next := ProcessMatch(text, i, m.value);
        if next.Err? {
          return Err(next.error);
        }
        i := next.value;
      }
      AppendEmpty(appendedText);
      r := Ok(appendedText);
      appendedText := "";
    }

    method Expand(text: string) returns (r: Result<Option<string>>)
      requires appendedText == ""
      modifies this
      ensures r == ExpandMacro(rules, text)
      ensures r.Ok? ==> appendedText == ""
    {
      var expanded := AppendText(text);
      if expanded.Err? {
        return Err(expanded.error);
      }
      return Ok(if expanded.value == text then None else Some(expanded.value));
    }

    /** `expand_all_macros`, giving up after the given number of rounds of its loop. */
    method ExpandAllMacros(text: string, rounds: nat) returns (r: Expansion)
      requires appendedText == ""
      modifies this
      ensures r == ExpandAll(rules, text, rounds)
    {
      hide ExpandMacro;
      var first := Expand(text);
      if first.Err? || first.value.None? || first.value.value == "" {
        return Finished(first);
      }
      var current, left := first.value.value, rounds;
      while left > 0
        invariant ExpandAll(rules, text, rounds) == ExpandFrom(rules, current, left)
      {
        var expander := new Expander(rules);
        var next := expander.Expand(current);
        if next.Err? {
          return Finished(next);
        }
        if next.value.None? {
          return Finished(Ok(Some(current)));
        }
        current := next.value.value;
        if current == "" {
          return Finished(Ok(Some(current)));
        }
        left := left - 1;
      }
      return Unfinished;
    }
  }

  // --------------------------------------------------- partial correctness

  /** `n` passes, whether or not they change anything. */
  function Iterate(rules: Rules, s: string, n: nat): Result<string>
    decreases n
  {
    if n == 0 then Ok(s)
    else
      match ExpandOnce(rules, s)
      case Err(e) => Err(e)
      case Ok(t) => Iterate(rules, t, n - 1)
  }

  predicate IsFixed(rules: Rules, s: string) {
    ExpandOnce(rules, s) == Ok(s)
  }

  /** The text a result stands for: the input itself when nothing was returned. */
  function Denotes(input: string, r: Option<string>): string {
    match r
    case Some(t) => t
    case None => input
  }

  lemma {:induction false} ExpandFromIterates(rules: Rules, s: string, rounds: nat) returns (n: nat)
    requires ExpandFrom(rules, s, rounds).Finished? && ExpandFrom(rules, s, rounds).result.Ok?
    ensures n <= rounds
    ensures var r := ExpandFrom(rules, s, rounds).result.value;
            r.Some? && Iterate(rules, s, n) == Ok(r.value) && IsFixed(rules, r.value)
    decreases rounds
  {
    hide NextAdvance;
    var t := ExpandOnce(rules, s).value;
    if t == s {
      n := 0;
    } else if t == "" {
      n := 1;
      assert Iterate(rules, t, 0) == Ok(t);
    } else {
      var k := ExpandFromIterates(rules, t, rounds - 1);
      n := k + 1;
    }
  }

  /**
   * Whatever the rules, a returned text is some number of passes over the input, and one
   * more pass leaves it alone; nothing is returned exactly when the first pass changes nothing.
   */
  lemma ExpandAllIsFixedPoint(rules: Rules, text: string, rounds: nat)
    requires ExpandAll(rules, text, rounds).Finished? && ExpandAll(rules, text, rounds).result.Ok?
    ensures var r := ExpandAll(rules, text, rounds).result.value;
            IsFixed(rules, Denotes(text, r)) &&
            (r.None? <==> IsFixed(rules, text)) &&
            exists n :: 0 <= n <= rounds + 1 && Iterate(rules, text, n) == Ok(Denotes(text, r))
  {
    hide NextAdvance;
    var t := ExpandOnce(rules, text).value;
    if t == text {
      assert Iterate(rules, text, 0) == Ok(text);
    } else if t == "" {
      assert Iterate(rules, t, 0) == Ok(t);
      assert Iterate(rules, text, 1) == Ok(t);
    } else {
      var n := ExpandFromIterates(rules, t, rounds);
      assert Iterate(rules, text, n + 1) == Iterate(rules, t, n);
    }
  }

  lemma {:induction false} FixedIterates(rules: Rules, s: string, n: nat)
    requires IsFixed(rules, s)
    ensures Iterate(rules, s, n) == Ok(s)
    decreases n
  {
    if n > 0 {
      FixedIterates(rules, s, n - 1);
    }
  }

  lemma {:induction false} ExpandFromReaches(rules: Rules, s: string, n: nat, t: string, rounds: nat)
    requires Iterate(rules, s, n) == Ok(t) && IsFixed(rules, t) && n < rounds
    ensures ExpandFrom(rules, s, rounds) == Finished(Ok(Some(t)))
    decreases n
  {
    hide NextAdvance;
    if IsFixed(rules, s) {
      FixedIterates(rules, s, n);
    } else {
      var u := ExpandOnce(rules, s).value;
      if u == "" {
        FixedIterates(rules, u, n - 1);
      } else {
        ExpandFromReaches(rules, u, n - 1, t, rounds - 1);
      }
    }
  }

  /** If n passes reach a fixed point, n rounds of the loop find it. */
  lemma ExpandAllReaches(rules: Rules, text: string, n: nat, t: string, rounds: nat)
    requires Iterate(rules, text, n) == Ok(t) && IsFixed(rules, t) && n <= rounds
    ensures ExpandAll(rules, text, rounds).Finished? && ExpandAll(rules, text, rounds).result.Ok?
    ensures Denotes(text, ExpandAll(rules, text, rounds).result.value) == t
  {
    hide NextAdvance;
    if IsFixed(rules, text) {
      FixedIterates(rules, text, n);
    } else {
      var u := ExpandOnce(rules, text).value;
      if u == "" {
        FixedIterates(rules, u, n - 1);
      } else {
        ExpandFromReaches(rules, u, n - 1, t, rounds);
      }
    }
  }
}
