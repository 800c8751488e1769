/**
 * The `$n` and `$n-m` placeholders of a macro argument template: parsed once to
 * match, and a second time, over the matched slice alone, to substitute.
 */
module Placeholders {
  import opened Common

  /** Unset: the record was never assigned, as after matching the backslash of `\$`. */
  datatype Placeholder = Unset | Range(number: nat, rangeEnd: nat)

  datatype Parsed = Parsed(len: nat, placeholder: Placeholder)

  /** Length of the longest run of digits at the front. */
  function DigitRun(s: string): (n: nat)
    ensures n <= |s|
    ensures forall i :: 0 <= i < n ==> IsDigit(s[i])
    ensures n < |s| ==> !IsDigit(s[n])
  {
    if s != "" && IsDigit(s[0]) then 1 + DigitRun(s[1..]) else 0
  }

  function DigitValue(c: char): nat
    requires IsDigit(c)
  {
    c as int - '0' as int
  }

  function Decimal(digits: string): (n: nat)
    requires forall i :: 0 <= i < |digits| ==> IsDigit(digits[i])
  {
    if digits == "" then 0 else 10 * Decimal(digits[..|digits| - 1]) + DigitValue(digits[|digits| - 1])
  }

  lemma {:induction false} DecimalPositive(digits: string)
    requires forall i :: 0 <= i < |digits| ==> IsDigit(digits[i])
    requires digits != "" && digits[0] != '0'
    ensures Decimal(digits) > 0
  {
    if |digits| > 1 {
      DecimalPositive(digits[..|digits| - 1]);
    }
  }

  /** A number without leading zero at the front; the empty text when there is no digit. */
  function DigitsAt(s: string): (r: Result<string>)
    ensures r.Ok? ==> r.value == s[..DigitRun(s)] && (r.value != "" ==> r.value[0] != '0')
  {
    if s != "" && s[0] == '0' then Err(LeadingZero) else Ok(s[..DigitRun(s)])
  }

  function ToUint(digits: string): (r: Result<nat>)
    requires forall i :: 0 <= i < |digits| ==> IsDigit(digits[i])
  {
    var n := Decimal(digits);
    if n > MAX_UINT then Err(BadNumber) else Ok(n)
  }

  /** 1 when a backslash at the front separates the placeholder from what follows it. */
  function Separator(s: string, dashToo: bool): (n: nat)
    ensures n <= |s|
  {
    if |s| > 1 && s[0] == '\\' && (IsDigit(s[1]) || (dashToo && s[1] == '-')) then 1 else 0
  }

  /** The part after `$n-`, with `len` characters already consumed. */
  function ParseRange(s: string, number: nat, len: nat): (r: Result<Parsed>)
    ensures r.Ok? ==> len <= r.value.len <= len + |s|
    ensures r.Ok? ==> r.value.placeholder.Range? && r.value.placeholder.number == number
    ensures r.Ok? ==> r.value.placeholder.rangeEnd == 0 || r.value.placeholder.rangeEnd > number
  {
    match DigitsAt(s)
    case Err(e) => Err(e)
    case Ok(digits) =>
      var end := len + |digits| + Separator(s[|digits|..], false);
      if digits == "" then Ok(Parsed(end, Range(number, 0)))
      else
        match ToUint(digits)
        case Err(e) => Err(e)
        case Ok(rangeEnd) =>
          if rangeEnd <= number then Err(BadRange) else Ok(Parsed(end, Range(number, rangeEnd)))
  }

  /** The part after `$n`, with `len` characters already consumed. */
  function ParseTail(s: string, number: nat, len: nat): (r: Result<Parsed>)
    ensures r.Ok? ==> len <= r.value.len <= len + |s|
    ensures r.Ok? ==> r.value.placeholder.Range? && r.value.placeholder.number == number
    ensures r.Ok? ==> r.value.placeholder.rangeEnd == 0 || r.value.placeholder.rangeEnd >= number
  {
    if Separator(s, true) == 1 then Ok(Parsed(len + 1, Range(number, number)))
    else if s != "" && s[0] == '-' then ParseRange(s[1..], number, len + 1)
    else Ok(Parsed(len, Range(number, number)))
  }

  /** What the placeholder parser finds at the front of a non-empty text. */
  function Parse(s: string): (r: Result<Parsed>)
    requires s != ""
    ensures r.Ok? ==> r.value.len <= |s|
    ensures r.Ok? && r.value.len > 0 ==> s[0] == '$' || s[0] == '\\'
    ensures r.Ok? ==> (r.value.placeholder.Range? <==> s[0] == '$')
    ensures r.Ok? && s[0] == '$' ==> r.value.placeholder.number > 0 && r.value.len > 0
    ensures r.Ok? && s[0] == '$' ==>
            r.value.placeholder.rangeEnd == 0 || r.value.placeholder.rangeEnd >= r.value.placeholder.number
    ensures r.Ok? && s[0] == '\\' ==> r.value.len <= 1
    ensures r.Ok? && s[0] == '\\' && r.value.len == 1 ==> |s| > 1 && s[1] == '$'
  {
    if s[0] == '\\' then Ok(Parsed(if |s| > 1 && s[1] == '$' then 1 else 0, Unset))
    else if s[0] != '$' then Ok(Parsed(0, Unset))
    else
      match DigitsAt(s[1..])
      case Err(e) => Err(e)
      case Ok(digits) =>
        if digits == "" then Err(EmptyNumber)
        else
          match ToUint(digits)
          case Err(e) => Err(e)
          case Ok(number) =>
            DecimalPositive(digits);
            ParseTail(s[1 + |digits|..], number, 1 + |digits|)
  }

  /** The digit loop over text[pos..end). */
  method ScanDigits(text: string, pos: nat, end: nat) returns (r: Result<string>)
    requires pos <= end <= |text|
    ensures r == DigitsAt(text[pos..end])
  {
    var digits, i := "", pos;
    ghost var s := text[pos..end];
    while i != end
      invariant pos <= i <= end
      invariant digits == s[..i - pos]
      invariant forall k :: 0 <= k < i - pos ==> IsDigit(s[k])
      invariant digits != "" ==> digits[0] != '0'
      decreases end - i
    {
      assert text[i] == s[i - pos];
      if digits == "" && text[i] == '0' {
        return Err(LeadingZero);
      }
      if !IsDigit(text[i]) {
        break;
      }
      digits := digits + [text[i]];
      i := i + 1;
    }
    assert DigitRun(s) == i - pos;
    return Ok(digits);
  }

  /** The part of `parse_macro_args_placeholder` after the range dash. */
  method ParseRangeEnd(text: string, pos: nat, end: nat, number: nat, len: nat) returns (r: Result<Parsed>)
    requires pos <= end <= |text|
    ensures r == ParseRange(text[pos..end], number, len)
  {
    var scanned := ScanDigits(text, pos, end);
    if scanned.Err? {
      return Err(scanned.error);
    }
    var i, rangeEnd := pos + |scanned.value|, 0;
    assert text[pos..end][|scanned.value|..] == text[i..end];
    if scanned.value != "" {
      var parsed := ToUint(scanned.value);
      if parsed.Err? {
        return Err(parsed.error);
      }
      rangeEnd := parsed.value;
      if rangeEnd <= number {
        return Err(BadRange);
      }
    }
    if i != end && text[i] == '\\' && i + 1 != end && IsDigit(text[i + 1]) {
      i := i + 1;
    }
    return Ok(Parsed(len + i - pos, Range(number, rangeEnd)));
  }

  /** The part of `parse_macro_args_placeholder` after the first number. */
  method ParseAfterNumber(text: string, pos: nat, end: nat, number: nat, len: nat) returns (r: Result<Parsed>)
    requires pos <= end <= |text|
    ensures r == ParseTail(text[pos..end], number, len)
  {
    if pos != end && text[pos] == '\\' && pos + 1 != end && (IsDigit(text[pos + 1]) || text[pos + 1] == '-') {
      return Ok(Parsed(len + 1, Range(number, number)));
    }
    if pos != end && text[pos] == '-' {
      assert text[pos..end][1..] == text[pos + 1..end];
      r := ParseRangeEnd(text, pos + 1, end, number, len + 1);
      return;
    }
    return Ok(Parsed(len, Range(number, number)));
  }

  /** The parser's cases, by position. */
  lemma ParseAt(text: string, begin: nat, end: nat)
    requires begin < end <= |text|
    ensures var parsed := Parse(text[begin..end]);
            if text[begin] == '\\' then parsed ==
              Ok(Parsed(if begin + 1 != end && text[begin + 1] == '$' then 1 else 0, Unset))
            else if text[begin] != '$' then parsed == Ok(Parsed(0, Unset))
            else
              match DigitsAt(text[begin + 1..end])
              case Err(e) => parsed == Err(e)
              case Ok(digits) =>
                if digits == "" then parsed == Err(EmptyNumber)
                else
                  match ToUint(digits)
                  case Err(e) => parsed == Err(e)
                  case Ok(number) => parsed == ParseTail(text[begin + 1 + |digits|..end], number, 1 + |digits|)
  {
    var s := text[begin..end];
    assert s[0] == text[begin] && (begin + 1 != end ==> s[1] == text[begin + 1]);
    assert s[1..] == text[begin + 1..end];
    hide DigitsAt, ToUint, ParseTail;
    if DigitsAt(s[1..]).Ok? {
      var n := |DigitsAt(s[1..]).value|;
      assert s[1 + n..] == text[begin + 1 + n..end];
    }
  }

  /** `parse_macro_args_placeholder` over text[begin..end). */
  method ParsePlaceholder(text: string, begin: nat, end: nat) returns (r: Result<Parsed>)
    requires begin < end <= |text|
    ensures r == Parse(text[begin..end])
  {
    hide *;
    ParseAt(text, begin, end);
    if text[begin] == '\\' && begin + 1 != end && text[begin + 1] == '$' {
      return Ok(Parsed(1, Unset));
    }
    if text[begin] != '$' {
      return Ok(Parsed(0, Unset));
    }
    var scanned := ScanDigits(text, begin + 1, end);
    if scanned.Err? {
      return Err(scanned.error);
    }
    var digits := scanned.value;
    if digits == "" {
      return Err(EmptyNumber);
    }
    var number := ToUint(digits);
    if number.Err? {
      return Err(number.error);
    }
    r := ParseAfterNumber(text, begin + 1 + |digits|, end, number.value, 1 + |digits|);
  }

  /** The rewriter's matcher: the length of the placeholder at the front, 0 if there is none. */
  function MatchLength(s: string, argCount: nat): (r: Result<nat>)
    requires s != ""
    ensures r.Ok? ==> r.value <= |s|
    ensures r.Ok? && r.value > 0 ==> s[0] == '$' || s[0] == '\\'
    ensures r.Ok? && s[0] == '$' ==> r.value > 0
  {
    match Parse(s)
    case Err(e) => Err(e)
    case Ok(parsed) =>
      if parsed.len != 0 && s[0] == '$' &&
        (parsed.placeholder.number > argCount || parsed.placeholder.rangeEnd > argCount)
      then Err(NumberExceedsArgCount)
      else Ok(parsed.len)
  }

  method MatchPlaceholder(text: string, begin: nat, argCount: nat) returns (r: Result<nat>)
    requires begin < |text|
    ensures r == MatchLength(text[begin..], argCount)
  {
    var parsed := ParsePlaceholder(text, begin, |text|);
    assert text[begin..|text|] == text[begin..];
    if parsed.Err? {
      return Err(parsed.error);
    }
    if parsed.value.len != 0 && text[begin] == '$' &&
      (parsed.value.placeholder.number > argCount || parsed.value.placeholder.rangeEnd > argCount) {
      return Err(NumberExceedsArgCount);
    }
    return Ok(parsed.value.len);
  }

  lemma {:induction false} DigitRunPrefix(s: string, n: nat)
    requires DigitRun(s) <= n <= |s|
    ensures DigitRun(s[..n]) == DigitRun(s)
  {
    if s != "" && IsDigit(s[0]) {
      assert s[..n][1..] == s[1..][..n - 1];
      DigitRunPrefix(s[1..], n - 1);
    }
  }

  /** Cutting a text after its digits keeps the digits. */
  lemma DigitsAtPrefix(s: string, n: nat)
    requires DigitsAt(s).Ok?
    requires DigitRun(s) <= n <= |s|
    ensures DigitsAt(s[..n]) == DigitsAt(s)
  {
    DigitRunPrefix(s, n);
    assert s[..n][..DigitRun(s)] == s[..DigitRun(s)];
  }

  lemma ReparseTail(s: string, number: nat, len: nat)
    requires ParseTail(s, number, len).Ok?
    ensures var slice := s[..ParseTail(s, number, len).value.len - len];
            var again := ParseTail(slice, number, len);
            again.Ok? && again.value.placeholder == ParseTail(s, number, len).value.placeholder
  {
    if Separator(s, true) != 1 && s != "" && s[0] == '-' {
      var n := ParseTail(s, number, len).value.len - len;
      DigitsAtPrefix(s[1..], n - 1);
      assert s[..n][1..] == s[1..][..n - 1];
    }
  }

  /**
   * Parsing only the slice that was matched in the full text succeeds and gives the
   * same placeholder, although a trailing separator backslash is no longer recognised.
   */
  lemma ReparseSlice(s: string)
    requires s != "" && s[0] == '$' && Parse(s).Ok?
    ensures var slice := s[..Parse(s).value.len];
            slice != "" && Parse(slice).Ok? && Parse(slice).value.placeholder == Parse(s).value.placeholder
  {
    hide ParseTail, DigitsAt, ToUint;
    var len := Parse(s).value.len;
    var slice := s[..len];
    var digits := DigitsAt(s[1..]).value;
    var number := ToUint(digits).value;
    assert DigitsAt(slice[1..]) == Ok(digits) by {
      assert slice[1..] == s[1..][..len - 1];
      DigitsAtPrefix(s[1..], len - 1);
    }
    assert Parse(slice) == ParseTail(slice[1 + |digits|..], number, 1 + |digits|);
    var tail := s[1 + |digits|..];
    assert slice[1 + |digits|..] == tail[..len - 1 - |digits|];
    ReparseTail(tail, number, 1 + |digits|);
  }

  /** After `\$` only the backslash is matched, and reparsing it assigns no placeholder. */
  lemma EscapeMatchesBackslashOnly(s: string, argCount: nat)
    requires |s| > 1 && s[..2] == "\\$"
    ensures MatchLength(s, argCount) == Ok(1) && Parse(s[..1]) == Ok(Parsed(0, Unset))
  {
    assert s[0] == s[..2][0] && s[1] == s[..2][1];
  }

  /** `$n-` with no second number is accepted, and records no range. */
  lemma OpenRangeHasNoEnd(s: string)
    requires s != "" && s[0] == '$' && Parse(s).Ok?
    ensures Parse(s).value.placeholder.rangeEnd == 0 <==>
            var after := s[1 + DigitRun(s[1..])..];
            after != "" && after[0] == '-' && (after == "-" || !IsDigit(after[1]))
  {
    var digits := DigitsAt(s[1..]).value;
    DecimalPositive(digits);
    var after := s[1 + |digits|..];
    if after != "" && after[0] == '-' {
      assert after == "-" || after[1..][0] == after[1];
    }
  }

  lemma RangeLastChar(s: string, number: nat, len: nat)
    requires ParseRange(s, number, len).Ok?
    ensures var n := ParseRange(s, number, len).value.len - len;
            n <= |s| && (n > 0 ==> IsDigit(s[n - 1]) || s[n - 1] == '\\')
  {
  }

  lemma TailLastChar(s: string, number: nat, len: nat)
    requires ParseTail(s, number, len).Ok?
    ensures var n := ParseTail(s, number, len).value.len - len;
            n <= |s| && (n > 0 ==> IsDigit(s[n - 1]) || s[n - 1] == '\\' || s[n - 1] == '-')
  {
    if Separator(s, true) != 1 && s != "" && s[0] == '-' {
      RangeLastChar(s[1..], number, len + 1);
    }
  }

  /** A placeholder ends in a digit, a dash or the separator backslash: never in a blank. */
  lemma LastChar(s: string)
    requires s != "" && s[0] == '$' && Parse(s).Ok?
    ensures !IsBlank(s[Parse(s).value.len - 1])
  {
    var digits := DigitsAt(s[1..]).value;
    TailLastChar(s[1 + |digits|..], ToUint(digits).value, 1 + |digits|);
  }
}
