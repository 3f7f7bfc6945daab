/** Decimal printing and the unsigned-integer parser of the implementation language
    (an optional single leading '+', at least one digit, no overflow past the type's maximum). */
module Decimal {
  import opened Basics

  function Digit(d: nat): (c: char)
    requires d < 10
    ensures IsDigit(c) && DigitValue(c) == d
  {
    "0123456789"[d]
  }

  predicate IsDigit(c: char) {
    '0' <= c <= '9'
  }

  function DigitValue(c: char): (d: nat)
    requires IsDigit(c)
    ensures d < 10
  {
    c as int - '0' as int
  }

  function Print(n: nat): (s: string)
    ensures s != "" && AllDigits(s)
  {
    if n < 10 then [Digit(n)] else Print(n / 10) + [Digit(n % 10)]
  }

  predicate AllDigits(s: string) {
    forall i :: 0 <= i < |s| ==> IsDigit(s[i])
  }

  function Value(s: string): nat
    requires AllDigits(s)
  {
    if s == "" then 0 else Value(s[..|s| - 1]) * 10 + DigitValue(s[|s| - 1])
  }

  function Parse(s: string, max: nat): Option<nat> {
    var body := if |s| > 1 && s[0] == '+' then s[1..] else s;
    if body != "" && AllDigits(body) && Value(body) <= max then Some(Value(body)) else None
  }

  lemma {:induction false} ValueOfPrint(n: nat)
    ensures Value(Print(n)) == n
  {
    if n >= 10 {
      ValueOfPrint(n / 10);
      assert Print(n)[..|Print(n)| - 1] == Print(n / 10);
    } else {
      assert Print(n)[..0] == "";
    }
  }

  lemma ParsePrint(n: nat, max: nat)
    ensures Parse(Print(n), max) == if n <= max then Some(n) else None
  {
    ValueOfPrint(n);
    assert IsDigit(Print(n)[0]);
  }

  lemma PrintInjective(m: nat, n: nat)
    requires Print(m) == Print(n)
    ensures m == n
  {
    ValueOfPrint(m);
    ValueOfPrint(n);
  }

  /** Base ten, most significant digit first. */
  lemma DigitsMean(s: string, c: char)
    requires AllDigits(s) && IsDigit(c)
    ensures AllDigits(s + [c]) && Value(s + [c]) == 10 * Value(s) + (c as int - 48) && '0' <= c <= '9'
    ensures Value("") == 0
  {
    assert (s + [c])[..|s|] == s;
  }

  /** A plus sign is accepted before a number; anything but digits is refused. */
  lemma ParseMeaning(s: string, max: nat)
    ensures s != "" && AllDigits(s) ==> Parse("+" + s, max) == Parse(s, max) == if Value(s) <= max then Some(Value(s)) else None
    ensures Parse(s, max).Some? ==> exists digits :: digits != "" && AllDigits(digits) && (s == digits || s == "+" + digits)
    ensures Parse("", max) == None && Parse("+", max) == None
  {
    if s != "" && AllDigits(s) {
      assert ("+" + s)[1..] == s;
      assert IsDigit(s[0]);
    }
    assert !IsDigit("+"[0]);
    if Parse(s, max).Some? {
      var digits := if |s| > 1 && s[0] == '+' then s[1..] else s;
      assert s == digits || s == "+" + digits;
    }
  }
}
