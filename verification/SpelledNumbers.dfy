/**
 * Placeholders with their numbers spelled out in decimal: how the parser reads them, how the
 * scanner matches them, and which arguments they stand for.
 */
module SpelledNumbers {
  import opened Common
  import opened MacroArgs
  import opened TextProcessor
  import Placeholders

  /** A number in decimal. */
  function Spell(n: nat): string {
    (if n < 10 then "" else Spell(n / 10)) + ["0123456789"[n % 10]]
  }

  /** A list of texts with a comma and a blank between. */
  function Listed(texts: seq<string>): string {
    if texts == [] then "" else if |texts| == 1 then texts[0] else texts[0] + ", " + Listed(texts[1..])
  }

  // ------------------------------------------------------------------ spelled numbers

  lemma DigitIs(d: nat)
    requires d < 10
    ensures var c := "0123456789"[d];
            IsDigit(c) && Placeholders.DigitValue(c) == d && (c == '0' <==> d == 0)
  {
    var digits := "0123456789";
    assert digits[0] == '0' && digits[1] == '1' && digits[2] == '2' && digits[3] == '3' && digits[4] == '4';
    assert digits[5] == '5' && digits[6] == '6' && digits[7] == '7' && digits[8] == '8' && digits[9] == '9';
  }

  lemma {:induction false} SpelledIsDecimal(n: nat)
    ensures Spell(n) != "" && forall i :: 0 <= i < |Spell(n)| ==> IsDigit(Spell(n)[i])
    ensures Placeholders.Decimal(Spell(n)) == n
    ensures n > 0 ==> Spell(n)[0] != '0'
  {
    DigitIs(n % 10);
    var init, last := if n < 10 then "" else Spell(n / 10), "0123456789"[n % 10];
    assert Spell(n) == init + [last];
    assert (init + [last])[..|init|] == init;
    if n >= 10 {
      SpelledIsDecimal(n / 10);
      hide Spell;
    }
  }

  lemma {:induction false} RunOfDigits(digits: string, rest: string)
    requires forall i :: 0 <= i < |digits| ==> IsDigit(digits[i])
    requires rest == "" || !IsDigit(rest[0])
    ensures Placeholders.DigitRun(digits + rest) == |digits|
  {
    if digits == "" {
      AppendEmpty(rest);
    } else {
      assert (digits + rest)[0] == digits[0] && (digits + rest)[1..] == digits[1..] + rest;
      RunOfDigits(digits[1..], rest);
    }
  }

  lemma SpelledDigits(n: nat, rest: string)
    requires 0 < n && (rest == "" || !('0' <= rest[0] <= '9'))
    ensures Placeholders.DigitsAt(Spell(n) + rest) == Ok(Spell(n)) && Spell(n) != ""
    ensures (Spell(n) + rest)[|Spell(n)|..] == rest
    ensures forall i :: 0 <= i < |Spell(n)| ==> IsDigit(Spell(n)[i])
    ensures Placeholders.ToUint(Spell(n)) == if n > 0xFFFF_FFFF then Err(BadNumber) else Ok(n)
  {
    SpelledIsDecimal(n);
    hide Spell, Placeholders.Decimal;
    RunOfDigits(Spell(n), rest);
    CutBetween(Spell(n), rest);
    assert (Spell(n) + rest)[0] == Spell(n)[0];
  }

  /** The parser on a spelled number, with what follows it still to be read. */
  lemma ParsesNumber(n: nat, rest: string)
    requires 0 < n <= 0xFFFF_FFFF && (rest == "" || !('0' <= rest[0] <= '9'))
    ensures Placeholders.Parse("$" + Spell(n) + rest) == Placeholders.ParseTail(rest, n, 1 + |Spell(n)|)
  {
    var s := "$" + Spell(n) + rest;
    SpelledDigits(n, rest);
    hide Spell, Placeholders.DigitsAt, Placeholders.ToUint, Placeholders.ParseTail;
    AppendAssoc("$", Spell(n), rest);
    assert s[0] == '$' && s[1..] == Spell(n) + rest;
    assert s[1 + |Spell(n)|..] == rest;
  }

  // ------------------------------------------------------------ placeholders in a text

  /** A dollar sign opens no comment and no quote. */
  lemma DollarIsMatched(argCount: nat, s: string)
    requires s != "" && s[0] == '$'
    ensures NextMatch(PlaceholderMatcher(argCount), s) ==
            match Placeholders.MatchLength(s, argCount)
            case Err(e) => Err(e)
            case Ok(n) => Ok(if n > 0 then Match(n, Matched) else Match(1, Plain))
  {
    RejectionIsOpener(s);
    assert |s| >= 2 ==> s[..2][0] == '$';
    hide Placeholders.MatchLength;
  }

  lemma JoinOne(args: seq<string>, k: nat)
    requires 0 < k <= |args|
    ensures Join(args[k - 1..k], ", ") == args[k - 1]
  {
  }

  lemma {:induction false} JoinIsListed(texts: seq<string>)
    ensures Join(texts, ", ") == Listed(texts)
  {
    if |texts| > 1 {
      JoinIsListed(texts[1..]);
    }
  }

  lemma OutputOf(role: Role, slice: string, from: nat, to: nat)
    requires role.TemplateRewrite? && slice != "" && slice[0] == '$' && 0 < from
    requires Placeholders.Parse(slice).Ok? &&
             Placeholders.Parse(slice).value.placeholder == Placeholders.Range(from, to)
    ensures var last := if to > from then to else from;
            Output(role, Seg(slice, Matched)) ==
            if last > |role.args| then Err(ArgOutOfBounds) else Ok(Listed(role.args[from - 1..last]))
  {
    hide Placeholders.Parse;
    var last := if to > from then to else from;
    if last <= |role.args| {
      JoinIsListed(role.args[from - 1..last]);
    }
  }

  lemma TailOfNumber(rest: string, k: nat, len: nat)
    requires rest == "" || (rest[0] != '-' && rest[0] != '\\')
    ensures Placeholders.ParseTail(rest, k, len) == Ok(Placeholders.Parsed(len, Placeholders.Range(k, k)))
  {
  }

  lemma ParsesOne(k: nat, rest: string)
    requires 0 < k <= 0xFFFF_FFFF
    requires rest == "" || !('0' <= rest[0] <= '9' || rest[0] == '-' || rest[0] == '\\')
    ensures Placeholders.Parse("$" + Spell(k) + rest) ==
            Ok(Placeholders.Parsed(1 + |Spell(k)|, Placeholders.Range(k, k)))
  {
    hide *;
    ParsesNumber(k, rest);
    TailOfNumber(rest, k, 1 + |Spell(k)|);
  }

  /** A backslash in front of a digit or a dash ends the number and is part of the placeholder. */
  lemma ParsesSeparated(k: nat, c: char, rest: string)
    requires 0 < k <= 0xFFFF_FFFF && ('0' <= c <= '9' || c == '-')
    ensures Placeholders.Parse("$" + Spell(k) + (['\\', c] + rest)) ==
            Ok(Placeholders.Parsed(2 + |Spell(k)|, Placeholders.Range(k, k)))
  {
    var tail := ['\\', c] + rest;
    assert tail[0] == '\\' && tail[1] == c && |tail| > 1;
    assert Placeholders.ParseTail(tail, k, 1 + |Spell(k)|) ==
           Ok(Placeholders.Parsed(2 + |Spell(k)|, Placeholders.Range(k, k)));
    hide *;
    ParsesNumber(k, tail);
  }

  /** In front of anything else it is no part of it. */
  lemma ParsesUnseparated(k: nat, c: char, rest: string)
    requires 0 < k <= 0xFFFF_FFFF && !('0' <= c <= '9' || c == '-')
    ensures Placeholders.Parse("$" + Spell(k) + (['\\', c] + rest)) ==
            Ok(Placeholders.Parsed(1 + |Spell(k)|, Placeholders.Range(k, k)))
  {
    var tail := ['\\', c] + rest;
    assert tail[0] == '\\' && tail[1] == c && |tail| > 1;
    assert Placeholders.ParseTail(tail, k, 1 + |Spell(k)|) ==
           Ok(Placeholders.Parsed(1 + |Spell(k)|, Placeholders.Range(k, k)));
    hide *;
    ParsesNumber(k, tail);
  }

  lemma TailOfSeparatedRange(s: string, digits: string, m: nat, k: nat, len: nat)
    requires Placeholders.DigitsAt(s) == Ok(digits) && digits != "" && k < m
    requires (forall i :: 0 <= i < |digits| ==> IsDigit(digits[i])) && Placeholders.ToUint(digits) == Ok(m)
    requires |digits| <= |s| && Placeholders.Separator(s[|digits|..], false) == 1
    ensures Placeholders.ParseRange(s, k, len) ==
            Ok(Placeholders.Parsed(len + |digits| + 1, Placeholders.Range(k, m)))
  {
    hide Placeholders.DigitsAt, Placeholders.ToUint, Placeholders.Separator;
  }

  lemma SeparatesDigit(c: char, rest: string)
    requires '0' <= c <= '9'
    ensures Placeholders.Separator(['\\', c] + rest, false) == 1
    ensures ['\\', c] + rest != "" && (['\\', c] + rest)[0] == '\\'
  {
    assert (['\\', c] + rest)[0] == '\\' && (['\\', c] + rest)[1] == c;
  }

  lemma TailIsRange(s: string, k: nat, len: nat)
    ensures Placeholders.ParseTail("-" + s, k, len) == Placeholders.ParseRange(s, k, len + 1)
  {
    Cons('-', s);
    assert "-" == ['-'];
    hide Placeholders.ParseRange;
  }

  lemma NoSeparator(rest: string)
    requires rest == "" || rest[0] != '\\'
    ensures Placeholders.Separator(rest, false) == 0
  {
  }

  lemma RangeIs(s: string, digits: string, m: nat, k: nat, len: nat)
    requires Placeholders.DigitsAt(s) == Ok(digits) && digits != ""
    requires (forall i :: 0 <= i < |digits| ==> IsDigit(digits[i])) && Placeholders.ToUint(digits) == Ok(m)
    requires |digits| <= |s| && Placeholders.Separator(s[|digits|..], false) == 0
    ensures Placeholders.ParseRange(s, k, len) ==
            if m <= k then Err(BadRange) else Ok(Placeholders.Parsed(len + |digits|, Placeholders.Range(k, m)))
  {
    hide Placeholders.DigitsAt, Placeholders.ToUint, Placeholders.Separator;
  }

  lemma TailOfRange(m: nat, rest: string, k: nat, len: nat)
    requires 0 < m <= 0xFFFF_FFFF
    requires rest == "" || !('0' <= rest[0] <= '9' || rest[0] == '\\')
    ensures Placeholders.ParseTail("-" + (Spell(m) + rest), k, len) ==
            if m <= k then Err(BadRange)
            else Ok(Placeholders.Parsed(len + 1 + |Spell(m)|, Placeholders.Range(k, m)))
  {
    hide *;
    SpelledDigits(m, rest);
    TailIsRange(Spell(m) + rest, k, len);
    NoSeparator(rest);
    RangeIs(Spell(m) + rest, Spell(m), m, k, len + 1);
  }

  lemma TailOfSeparated(m: nat, tail: string, k: nat, len: nat)
    requires 0 < k < m <= 0xFFFF_FFFF && tail != "" && tail[0] == '\\'
    requires Placeholders.Separator(tail, false) == 1
    ensures Placeholders.ParseTail("-" + (Spell(m) + tail), k, len) ==
            Ok(Placeholders.Parsed(len + 2 + |Spell(m)|, Placeholders.Range(k, m)))
  {
    hide *;
    SpelledDigits(m, tail);
    TailIsRange(Spell(m) + tail, k, len);
    TailOfSeparatedRange(Spell(m) + tail, Spell(m), m, k, len + 1);
  }

  /** The same behind a range, in front of a digit. */
  lemma ParsesSeparatedRange(k: nat, m: nat, c: char, rest: string)
    requires 0 < k < m <= 0xFFFF_FFFF && '0' <= c <= '9'
    ensures Placeholders.Parse("$" + Spell(k) + "-" + Spell(m) + (['\\', c] + rest)) ==
            Ok(Placeholders.Parsed(3 + |Spell(k)| + |Spell(m)|, Placeholders.Range(k, m)))
  {
    hide *;
    var tail := ['\\', c] + rest;
    var more := "-" + (Spell(m) + tail);
    SeparatesDigit(c, rest);
    FiveParts("$", Spell(k), "-", Spell(m), tail);
    Cons('-', Spell(m) + tail);
    ParsesNumber(k, more);
    TailOfSeparated(m, tail, k, 1 + |Spell(k)|);
  }

  lemma FiveParts(a: string, b: string, c: string, d: string, e: string)
    ensures a + b + c + d + e == a + b + (c + (d + e))
  {
  }

  lemma ParsesRange(k: nat, m: nat, rest: string)
    requires 0 < k <= 0xFFFF_FFFF && 0 < m <= 0xFFFF_FFFF
    requires rest == "" || !('0' <= rest[0] <= '9' || rest[0] == '\\')
    ensures Placeholders.Parse("$" + Spell(k) + "-" + Spell(m) + rest) ==
            if m <= k then Err(BadRange)
            else Ok(Placeholders.Parsed(2 + |Spell(k)| + |Spell(m)|, Placeholders.Range(k, m)))
  {
    hide *;
    var tail := "-" + (Spell(m) + rest);
    FiveParts("$", Spell(k), "-", Spell(m), rest);
    Cons('-', Spell(m) + rest);
    ParsesNumber(k, tail);
    TailOfRange(m, rest, k, 1 + |Spell(k)|);
  }

  lemma TailOfOpen(rest: string, k: nat, len: nat)
    requires rest == "" || !('0' <= rest[0] <= '9' || rest[0] == '\\')
    ensures Placeholders.ParseTail("-" + rest, k, len) ==
            Ok(Placeholders.Parsed(len + 1, Placeholders.Range(k, 0)))
  {
    Cons('-', rest);
    assert Placeholders.DigitRun(rest) == 0;
    TakeNone(rest);
    TakeAll(rest);
  }

  lemma ParsesOpen(k: nat, rest: string)
    requires 0 < k <= 0xFFFF_FFFF
    requires rest == "" || !('0' <= rest[0] <= '9' || rest[0] == '\\')
    ensures Placeholders.Parse("$" + Spell(k) + "-" + rest) ==
            Ok(Placeholders.Parsed(2 + |Spell(k)|, Placeholders.Range(k, 0)))
  {
    AppendAssoc("$" + Spell(k), "-", rest);
    assert ("-" + rest)[0] == '-';
    hide *;
    ParsesNumber(k, "-" + rest);
    TailOfOpen(rest, k, 1 + |Spell(k)|);
  }

  lemma SlicesOf(slice: string, rest: string)
    requires slice != "" && slice[0] == '$'
    ensures (slice + rest)[0] == '$' && slice + rest != "" && slice + "" == slice
  {
  }

  /** A parsed placeholder is matched, and its slice alone is parsed the same. */
  lemma MatchedPlaceholder(role: Role, slice: string, rest: string, from: nat, to: nat)
    requires role.TemplateRewrite? && slice != "" && slice[0] == '$' && 0 < from
    requires Placeholders.Parse(slice + rest) == Ok(Placeholders.Parsed(|slice|, Placeholders.Range(from, to)))
    ensures NextMatch(MatcherOf(role), slice + rest) ==
            if from > role.argCount || to > role.argCount then Err(NumberExceedsArgCount)
            else Ok(Match(|slice|, Matched))
    ensures var last := if to > from then to else from;
            Output(role, Seg(slice, Matched)) ==
            if last > |role.args| then Err(ArgOutOfBounds) else Ok(Listed(role.args[from - 1..last]))
  {
    SlicesOf(slice, rest);
    DollarIsMatched(role.argCount, slice + rest);
    Placeholders.ReparseSlice(slice + rest);
    CutBetween(slice, rest);
    hide NextMatch, Placeholders.Parse, Output;
    OutputOf(role, slice, from, to);
  }
}
