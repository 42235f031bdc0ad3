/** Decimal texts of integers, as `to_string` writes and `parse::<i64>` reads them. */
module Decimal {
  import opened Wrappers
  import opened I64

  function DigitChar(d: int): char
    requires 0 <= d < 10
  {
    "0123456789"[d]
  }

  predicate IsDigit(c: char) { '0' <= c <= '9' }

  function DigitValue(c: char): int
    requires IsDigit(c)
  {
    c as int - '0' as int
  }

  function NatText(n: nat): string {
    if n < 10 then [DigitChar(n)] else NatText(n / 10) + [DigitChar(n % 10)]
  }

  function IntText(n: int): string {
    if n < 0 then "-" + NatText(0 - n) else NatText(n)
  }

  function ParseDigits(s: string): Option<nat> {
    if s == [] then None
    else
      var last := s[|s| - 1];
      if !IsDigit(last) then None
      else if |s| == 1 then Some(DigitValue(last))
      else
        var front := ParseDigits(s[..|s| - 1]);
        if front.None? then None else Some(front.value * 10 + DigitValue(last))
  }

  // An optional sign, at least one digit, and a value that fits 64 bits.
  function ParseI64(s: string): Option<Int64> {
    var negative := s != [] && s[0] == '-';
    var signed := s != [] && (s[0] == '-' || s[0] == '+');
    var magnitude := ParseDigits(if signed then s[1..] else s);
    if magnitude.None? then None
    else
      var value := if negative then 0 - magnitude.value else magnitude.value;
      if I64_MIN <= value <= I64_MAX then Some(value) else None
  }

  predicate AllDigits(s: string) {
    forall k :: 0 <= k < |s| ==> IsDigit(s[k])
  }

  lemma DigitRoundTrip(d: int)
    requires 0 <= d < 10
    ensures IsDigit(DigitChar(d)) && DigitValue(DigitChar(d)) == d
  {
  }

  lemma {:induction false} DigitsRoundTrip(n: nat)
    ensures ParseDigits(NatText(n)) == Some(n)
    ensures NatText(n) != [] && AllDigits(NatText(n))
  {
    if n < 10 {
      DigitRoundTrip(n);
    } else {
      DigitsRoundTrip(n / 10);
      DigitRoundTrip(n % 10);
      var front := NatText(n / 10);
      assert NatText(n)[..|NatText(n)| - 1] == front;
    }
  }

  // Every 64-bit integer reads back from its text.
  lemma IntRoundTrip(n: Int64)
    ensures ParseI64(IntText(n)) == Some(n)
    ensures IntText(n) != [] && forall k :: 0 <= k < |IntText(n)| ==> IsDigit(IntText(n)[k]) || IntText(n)[k] == '-'
  {
    DigitsRoundTrip(if n < 0 then 0 - n else n);
    if n < 0 {
      assert IntText(n)[1..] == NatText(0 - n);
    } else {
      assert IsDigit(IntText(n)[0]);
    }
  }

  lemma {:induction false} DigitsParseIff(s: string)
    ensures ParseDigits(s).Some? <==> s != "" && AllDigits(s)
  {
    if s != "" {
      DigitsParseIff(s[..|s| - 1]);
    }
  }

  // Texts that read as a number: an optional sign and digits, in range.
  lemma ParsesIff(s: string)
    ensures var digits := if s != "" && (s[0] == '+' || s[0] == '-') then s[1..] else s;
            ParseDigits(digits).Some? <==> digits != "" && forall c :: c in digits ==> '0' <= c <= '9'
    ensures var digits := if s != "" && (s[0] == '+' || s[0] == '-') then s[1..] else s;
            var magnitude := ParseDigits(digits);
            var n: int := if magnitude.None? then 0 else if s[0] == '-' then 0 - magnitude.value else magnitude.value;
            && (ParseI64(s).Some? <==> magnitude.Some? && -0x8000_0000_0000_0000 <= n < 0x8000_0000_0000_0000)
            && (ParseI64(s).Some? ==> ParseI64(s).value == n)
  {
    var digits := if s != "" && (s[0] == '+' || s[0] == '-') then s[1..] else s;
    DigitsParseIff(digits);
    assert forall i :: 0 <= i < |digits| ==> digits[i] in digits;
  }

  lemma NatTextInjective(m: nat, n: nat)
    requires NatText(m) == NatText(n)
    ensures m == n
  {
    DigitsRoundTrip(m);
    DigitsRoundTrip(n);
  }
}
