/**
 Decimal numbers in text.
 */
module Numbers {
  import opened Wrappers
  import opened Text

  const INT_MAX := 0x7FFF_FFFF

  function DigitsPrefix(s: string): string {
    if s != "" && IsDigit(s[0]) then [s[0]] + DigitsPrefix(s[1..]) else ""
  }

  function Value(digits: string): nat
    decreases |digits|
  {
    if digits == "" then 0
    else
      var n := |digits| - 1;
      Value(digits[..n]) * 10 + if IsDigit(digits[n]) then (digits[n] - '0') as nat else 0
  }

  // Spaces, a sign and digits, as std::stoi and std::stoll read them; whatever follows the digits
  // is ignored.  Their range is left to the caller.
  function Integer(s: string): Option<int> {
    var t := LTrim(s);
    if t == "" then None
    else if t[0] == '-' then Negated(Digits(t[1..]))
    else if t[0] == '+' then Digits(t[1..])
    else Digits(t)
  }

  function Digits(s: string): Option<int> {
    var digits := DigitsPrefix(s);
    if digits == "" then None else Some(Value(digits))
  }

  function Negated(n: Option<int>): Option<int> {
    match n
    case None => None
    case Some(v) => Some(-v)
  }

  function Digit(d: nat): char
    requires d < 10
  {
    '0' + d as char
  }

  function Decimal(n: nat): string {
    if n < 10 then [Digit(n)] else Decimal(n / 10) + [Digit(n % 10)]
  }

  function DecimalInt(v: int): string {
    if v < 0 then "-" + Decimal(-v) else Decimal(v)
  }

  lemma {:induction false} DecimalDigits(n: nat)
    ensures Decimal(n) != "" && forall i :: 0 <= i < |Decimal(n)| ==> IsDigit(Decimal(n)[i])
    ensures Value(Decimal(n)) == n
  {
    if n >= 10 {
      DecimalDigits(n / 10);
      assert Decimal(n)[..|Decimal(n)| - 1] == Decimal(n / 10);
    }
  }

  lemma {:induction false} AllDigits(s: string)
    requires forall i :: 0 <= i < |s| ==> IsDigit(s[i])
    ensures DigitsPrefix(s) == s
  {
    if s != "" { AllDigits(s[1..]); }
  }

  lemma PlainInteger(s: string)
    requires s != "" && IsDigit(s[0])
    ensures Integer(s) == Digits(s)
  {
    assert LTrim(s) == s;
  }

  lemma IntegerOfDecimal(n: nat)
    ensures Integer(Decimal(n)) == Some(n)
  {
    DecimalDigits(n);
    AllDigits(Decimal(n));
    PlainInteger(Decimal(n));
  }

  lemma {:induction false} DigitsThenRest(digits: string, rest: string)
    requires (forall i :: 0 <= i < |digits| ==> IsDigit(digits[i])) && (rest != "" ==> !IsDigit(rest[0]))
    ensures DigitsPrefix(digits + rest) == digits
  {
    if digits == "" {
      assert digits + rest == rest;
    } else {
      assert (digits + rest)[1..] == digits[1..] + rest;
      DigitsThenRest(digits[1..], rest);
    }
  }

  lemma SignedDigits(sign: string, number: string)
    requires (sign == "" || sign == "+" || sign == "-") && number != "" && IsDigit(number[0])
    ensures Integer(sign + number) == if sign == "-" then Negated(Digits(number)) else Digits(number)
  {
    var s := sign + number;
    assert s[0] == if sign == "" then number[0] else sign[0];
    assert LTrim(s) == s;
    if sign == "" {
      assert s == number;
    } else {
      assert s[1..] == number;
    }
  }

  lemma NumberThenRest(n: nat, rest: string)
    requires rest != "" ==> !IsDigit(rest[0])
    ensures Digits(Decimal(n) + rest) == Some(n)
    ensures Decimal(n) != "" && IsDigit(Decimal(n)[0])
  {
    DecimalDigits(n);
    DigitsThenRest(Decimal(n), rest);
  }

  lemma SpacesIgnored(spaces: string, s: string)
    requires Spaces(spaces) && s != "" && !IsSpace(s[0])
    ensures Integer(spaces + s) == Integer(s)
  {
    SpacesTrimmed(spaces, s);
    assert LTrim(s) == s;
  }

  // Spaces, one sign or none, the number; then anything that is no digit.
  lemma SpelledInteger(spaces: string, sign: string, n: nat, rest: string)
    requires Spaces(spaces)
    requires (sign == "" || sign == "+" || sign == "-") && (rest != "" ==> !IsDigit(rest[0]))
    ensures Integer(spaces + (sign + (Decimal(n) + rest))) == Some(if sign == "-" then 0 - n else n)
  {
    var number := Decimal(n) + rest;
    NumberThenRest(n, rest);
    SignedDigits(sign, number);
    assert (sign + number)[0] == if sign == "" then number[0] else sign[0];
    SpacesIgnored(spaces, sign + number);
  }
}
