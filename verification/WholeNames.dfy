/** Which texts are one name, and which rule a name stands for, spelled out in characters. */
module WholeNames {
  import opened Common
  import opened MacroExpander
  import opened TextProcessor
  import MaskedText

  lemma {:induction false} RunOfName(name: string, rest: string)
    requires forall i :: 0 <= i < |name| ==>
               'a' <= name[i] <= 'z' || 'A' <= name[i] <= 'Z' || '0' <= name[i] <= '9' || name[i] == '_'
    requires rest == "" ||
             !('a' <= rest[0] <= 'z' || 'A' <= rest[0] <= 'Z' || '0' <= rest[0] <= '9' || rest[0] == '_')
    ensures IdentifierRun(name + rest) == |name|
  {
    if name == "" {
      AppendEmpty(rest);
    } else {
      assert (name + rest)[0] == name[0] && (name + rest)[1..] == name[1..] + rest;
      RunOfName(name[1..], rest);
    }
  }

  /** The scanner takes the whole name and no more. */
  lemma NameIsTaken(name: string, rest: string)
    requires name != "" && ('a' <= name[0] <= 'z' || 'A' <= name[0] <= 'Z')
    requires forall i :: 0 <= i < |name| ==>
               'a' <= name[i] <= 'z' || 'A' <= name[i] <= 'Z' || '0' <= name[i] <= '9' || name[i] == '_'
    requires rest == "" ||
             !('a' <= rest[0] <= 'z' || 'A' <= rest[0] <= 'Z' || '0' <= rest[0] <= '9' || rest[0] == '_')
    ensures NextMatch(IdentifierMatcher, name + rest) == Ok(Match(|name|, Matched))
  {
    RunOfName(name, rest);
    assert (name + rest)[0] == name[0];
  }

  lemma UpperIs(name: string, upper: string)
    requires |upper| == |name|
    requires forall i :: 0 <= i < |name| ==>
               if 'a' <= name[i] <= 'z' then upper[i] as int == name[i] as int - 32 else upper[i] == name[i]
    ensures Upper(name) == upper
  {
  }

  lemma NameAdvances(rules: Rules, name: string, upper: string, rest: string)
    requires name != "" && ('a' <= name[0] <= 'z' || 'A' <= name[0] <= 'Z') && Upper(name) == upper
    requires NextMatch(IdentifierMatcher, name + rest) == Ok(Match(|name|, Matched))
    requires rest == "" || rest[0] != '('
    ensures NextAdvance(rules, name + rest) ==
            Ok(Advance(|name|, if upper in rules then rules[upper].rhs else name))
  {
    CutBetween(name, rest);
    assert (name + rest)[0] == name[0] && (rest != "" ==> (name + rest)[|name|] == rest[0]);
    hide NextMatch, Upper, ExpandArgs;
  }

  /**
   * A name of a letter and then letters, digits and underscores, in any spelling, with no such
   * character and no parenthesis behind it, gives way to the right-hand side of the rule kept
   * under its capitals; without such a rule it is copied.
   */
  lemma NameIsReplaced(rules: Rules, name: string, upper: string, rest: string)
    requires name != "" && ('a' <= name[0] <= 'z' || 'A' <= name[0] <= 'Z')
    requires forall i :: 0 <= i < |name| ==>
               'a' <= name[i] <= 'z' || 'A' <= name[i] <= 'Z' || '0' <= name[i] <= '9' || name[i] == '_'
    requires |upper| == |name|
    requires forall i :: 0 <= i < |name| ==>
               if 'a' <= name[i] <= 'z' then upper[i] as int == name[i] as int - 32 else upper[i] == name[i]
    requires rest == "" ||
             !('a' <= rest[0] <= 'z' || 'A' <= rest[0] <= 'Z' || '0' <= rest[0] <= '9' || rest[0] == '_' ||
               rest[0] == '(')
    ensures ExpandOnce(rules, name + rest) ==
            match ExpandOnce(rules, rest)
            case Err(e) => Err(e)
            case Ok(t) => Ok((if upper in rules then rules[upper].rhs else name) + t)
  {
    NameIsTaken(name, rest);
    UpperIs(name, upper);
    NameAdvances(rules, name, upper, rest);
    CutBetween(name, rest);
    hide NextAdvance, Upper;
  }

  /** A name on its own becomes the right-hand side of its rule, argument list declared or not. */
  lemma LoneNameIsReplaced(rules: Rules, name: string, upper: string)
    requires name != "" && ('a' <= name[0] <= 'z' || 'A' <= name[0] <= 'Z')
    requires forall i :: 0 <= i < |name| ==>
               'a' <= name[i] <= 'z' || 'A' <= name[i] <= 'Z' || '0' <= name[i] <= '9' || name[i] == '_'
    requires |upper| == |name|
    requires forall i :: 0 <= i < |name| ==>
               if 'a' <= name[i] <= 'z' then upper[i] as int == name[i] as int - 32 else upper[i] == name[i]
    requires upper in rules
    ensures ExpandOnce(rules, name) == Ok(rules[upper].rhs)
  {
    hide *;
    NameIsReplaced(rules, name, upper, "");
    AppendEmpty(name);
    AppendEmpty(rules[upper].rhs);
    MaskedText.NothingToExpand(rules);
  }

  /** The same name with one more character of a name behind it is another name. */
  lemma LongerNameIsKept(rule: Rule, name: string, upper: string, c: char)
    requires name != "" && ('a' <= name[0] <= 'z' || 'A' <= name[0] <= 'Z')
    requires forall i :: 0 <= i < |name| ==>
               'a' <= name[i] <= 'z' || 'A' <= name[i] <= 'Z' || '0' <= name[i] <= '9' || name[i] == '_'
    requires |upper| == |name|
    requires forall i :: 0 <= i < |name| ==>
               if 'a' <= name[i] <= 'z' then upper[i] as int == name[i] as int - 32 else upper[i] == name[i]
    requires 'a' <= c <= 'z' || 'A' <= c <= 'Z' || '0' <= c <= '9' || c == '_'
    ensures ExpandOnce(map[upper := rule], name + [c]) == Ok(name + [c])
  {
    var longer := name + [c];
    var capitals := upper + [if 'a' <= c <= 'z' then (c as int - 32) as char else c];
    assert |capitals| == |longer| != |upper|;
    hide *;
    NameIsReplaced(map[upper := rule], longer, capitals, "");
    AppendEmpty(longer);
    MaskedText.NothingToExpand(map[upper := rule]);
  }
}
