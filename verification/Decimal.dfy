/** Decimal text of natural numbers, and what Python's `int()` accepts as such. */
module Decimal {
  import opened Wrappers

  predicate IsDigit(c: char) {
    '0' <= c <= '9'
  }

  /** Python's `str.isdigit()` on ASCII text. */
  predicate AllDigits(s: string) {
    s != "" && forall i :: 0 <= i < |s| ==> IsDigit(s[i])
  }

  function DigitOf(d: nat): char
    requires d < 10
  {
    ('0' as int + d) as char
  }

  function Print(n: nat): string {
    if n < 10 then [DigitOf(n)] else Print(n / 10) + [DigitOf(n % 10)]
  }

  /** The number written by the digits of `s`; other characters are skipped. */
  function Value(s: string): nat {
    if s == "" then 0
    else
      var last := s[|s| - 1];
      var front := Value(s[..|s| - 1]);
      if IsDigit(last) then 10 * front + (last as int - '0' as int) else front
  }

  lemma {:induction false} ValueOfPrint(n: nat)
    ensures AllDigits(Print(n)) && Value(Print(n)) == n
    decreases n
  {
    if n < 10 {
      assert Print(n)[..0] == "";
    } else {
      ValueOfPrint(n / 10);
      assert Print(n)[..|Print(n)| - 1] == Print(n / 10);
    }
  }

  /** A digit more makes ten times the number plus the digit. */
  lemma ValueSnoc(s: string, c: char)
    requires IsDigit(c)
    ensures Value(s + [c]) == 10 * Value(s) + (c as int - '0' as int)
  {
    assert (s + [c])[..|s|] == s;
  }

  /** No number but zero is printed with a leading zero. */
  lemma {:induction false} NoLeadingZero(n: nat)
    ensures Print(n) != "" && (Print(n)[0] == '0' <==> n == 0)
    decreases n
  {
    if n >= 10 {
      NoLeadingZero(n / 10);
    }
  }

  lemma PrintInjective(m: nat, n: nat)
    requires Print(m) == Print(n)
    ensures m == n
  {
    ValueOfPrint(m);
    ValueOfPrint(n);
  }

  // ---------------------------------------------------------------- Python's int()

  /** White space removed by Python's `str.strip()`. */
  predicate IsSpace(c: char) {
    || '\t' <= c <= '\r' || '\U{001C}' <= c <= ' ' || c == '\U{0085}' || c == '\U{00A0}'
    || c == '\U{1680}' || '\U{2000}' <= c <= '\U{200A}' || c == '\U{2028}' || c == '\U{2029}'
    || c == '\U{202F}' || c == '\U{205F}' || c == '\U{3000}'
  }

  function StripLeft(s: string): string {
    if s != "" && IsSpace(s[0]) then StripLeft(s[1..]) else s
  }

  function StripRight(s: string): string {
    if s != "" && IsSpace(s[|s| - 1]) then StripRight(s[..|s| - 1]) else s
  }

  function Strip(s: string): string {
    StripRight(StripLeft(s))
  }

  predicate AllSpace(s: string) {
    forall i :: 0 <= i < |s| ==> IsSpace(s[i])
  }

  /** Stripping takes the white space off both ends, all of it and nothing else. */
  lemma StripIs(s: string) returns (before: string, after: string)
    ensures s == before + Strip(s) + after && AllSpace(before) && AllSpace(after)
    ensures Strip(s) != "" ==> !IsSpace(Strip(s)[0]) && !IsSpace(Strip(s)[|Strip(s)| - 1])
  {
    before := StripLeftIs(s);
    after := StripRightIs(StripLeft(s));
    var left := StripLeft(s);
    if Strip(s) != "" {
      assert left[0] == (Strip(s) + after)[0] == Strip(s)[0];
    }
  }

  lemma {:induction false} StripLeftIs(s: string) returns (before: string)
    ensures s == before + StripLeft(s) && AllSpace(before)
    ensures StripLeft(s) != "" ==> !IsSpace(StripLeft(s)[0])
    decreases |s|
  {
    before := "";
    if s != "" && IsSpace(s[0]) {
      var rest := StripLeftIs(s[1..]);
      before := [s[0]] + rest;
      assert s == [s[0]] + s[1..];
    }
  }

  lemma {:induction false} StripRightIs(s: string) returns (after: string)
    ensures s == StripRight(s) + after && AllSpace(after)
    ensures StripRight(s) != "" ==> !IsSpace(StripRight(s)[|StripRight(s)| - 1])
    decreases |s|
  {
    after := "";
    if s != "" && IsSpace(s[|s| - 1]) {
      var rest := StripRightIs(s[..|s| - 1]);
      after := rest + [s[|s| - 1]];
      assert s == s[..|s| - 1] + [s[|s| - 1]];
    }
  }

  /** Digits, with single underscores allowed between them. */
  predicate IsGroupedDigits(s: string) {
    && s != "" && IsDigit(s[0]) && IsDigit(s[|s| - 1])
    && (forall i :: 0 <= i < |s| ==> IsDigit(s[i]) || s[i] == '_')
    && (forall i :: 0 < i < |s| && s[i] == '_' ==> s[i - 1] != '_')
  }

  /** `int(text)`, `None` where it raises ValueError. */
  function ParseInt(text: string): Option<int> {
    var s := Strip(text);
    var signed := s != "" && (s[0] == '+' || s[0] == '-');
    var body := if signed then s[1..] else s;
    var magnitude: int := Value(body);
    if !IsGroupedDigits(body) then None
    else if signed && s[0] == '-' then Some(-magnitude)
    else Some(magnitude)
  }

  /** Plain digits need neither sign, grouping nor white space. */
  lemma ParseDigits(s: string)
    requires AllDigits(s)
    ensures ParseInt(s) == Some(Value(s))
  {
    assert IsDigit(s[0]) && IsDigit(s[|s| - 1]);
    assert StripLeft(s) == s && StripRight(s) == s;
  }

  /** A sign in front of plain digits is the number's sign. */
  lemma ParseSigned(s: string)
    requires AllDigits(s)
    ensures ParseInt("+" + s) == Some(Value(s))
    ensures var magnitude: int := Value(s); ParseInt("-" + s) == Some(-magnitude)
  {
    hide Strip, Value, IsGroupedDigits, AllDigits;
    SignedStrip(s, '+');
    SignedStrip(s, '-');
    assert ("+" + s)[1..] == s && ("-" + s)[1..] == s;
  }

  lemma SignedStrip(s: string, sign: char)
    requires AllDigits(s) && (sign == '+' || sign == '-')
    ensures Strip([sign] + s) == [sign] + s && IsGroupedDigits(s)
  {
    assert IsDigit(s[0]) && IsDigit(s[|s| - 1]);
    var t := [sign] + s;
    assert t[|t| - 1] == s[|s| - 1];
    assert StripLeft(t) == t && StripRight(t) == t;
  }
}
