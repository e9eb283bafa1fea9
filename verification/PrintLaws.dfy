/**
 What the writer prints without quotes.
 */
module PrintLaws {
  import opened Wrappers
  import opened Text
  import opened Numbers
  import opened ConfigValues

  predicate AllDigit(s: string) {
    forall i :: 0 <= i < |s| ==> IsDigit(s[i])
  }

  predicate IsSign(s: string) {
    s == "" || s == "+" || s == "-"
  }

  // Reading on over digits, from a state that digits lead to.
  lemma {:induction false} DigitsScan(st: Scan, next: Scan, digits: string, rest: string)
    requires AllDigit(digits)
    requires forall c :: IsDigit(c) ==> ScanChar(st, c) == Some(next) && ScanChar(next, c) == Some(next)
    ensures Scans(st, digits + rest) <==> Scans(if digits == "" then st else next, rest)
    decreases |digits|
  {
    if digits == "" {
      assert digits + rest == rest;
    } else {
      assert (digits + rest)[0] == digits[0] && (digits + rest)[1..] == digits[1..] + rest;
      DigitsScan(next, next, digits[1..], rest);
    }
  }

  lemma Step(st: Scan, c: char, rest: string)
    ensures Scans(st, [c] + rest) <==> ScanChar(st, c).Some? && Scans(ScanChar(st, c).value, rest)
  {
    assert ([c] + rest)[1..] == rest;
  }

  // An exponent: e or E, a sign or none, digits; or nothing.
  datatype Power = NoPower | Power(e: char, sign: string, digits: string)

  predicate ExponentOk(x: Power) {
    x.Power? ==> (x.e == 'e' || x.e == 'E') && IsSign(x.sign) && x.digits != "" && AllDigit(x.digits)
  }

  function ExponentText(x: Power): string {
    match x
    case NoPower => ""
    case Power(e, sign, digits) => [e] + (sign + digits)
  }

  lemma ExponentScans(st: Scan, x: Power)
    requires ExponentOk(x) && (st == Digits || st == Zero || st == Fraction)
    ensures Scans(st, ExponentText(x))
  {
    match x
    case NoPower =>
    case Power(e, sign, digits) =>
      Step(st, e, sign + digits);
      assert digits + "" == digits;
      if sign == "" {
        assert sign + digits == digits;
        DigitsScan(Scan.Exponent, ExponentDigits, digits, "");
      } else {
        Step(Scan.Exponent, sign[0], digits);
        assert sign + digits == [sign[0]] + digits;
        DigitsScan(ExponentSign, ExponentDigits, digits, "");
      }
  }

  // A decimal number: a sign or none, digits, a point and digits or none, an exponent or none.
  function NumberText(sign: string, whole: string, fraction: Option<string>, x: Power): string {
    sign + (whole + ((match fraction case None => "" case Some(digits) => ['.'] + digits) + ExponentText(x)))
  }

  lemma FractionScans(st: Scan, fraction: Option<string>, x: Power)
    requires (st == Digits || st == Zero) && ExponentOk(x) && (fraction.Some? ==> AllDigit(fraction.value))
    ensures Scans(st, (match fraction case None => "" case Some(digits) => ['.'] + digits) + ExponentText(x))
  {
    match fraction
    case None =>
      assert "" + ExponentText(x) == ExponentText(x);
      ExponentScans(st, x);
    case Some(digits) =>
      assert ['.'] + digits + ExponentText(x) == ['.'] + (digits + ExponentText(x));
      Step(st, '.', digits + ExponentText(x));
      DigitsScan(Fraction, Fraction, digits, ExponentText(x));
      ExponentScans(Fraction, x);
  }

  lemma WholeScans(st: Scan, whole: string, rest: string)
    requires (st == Lead || st == Signed) && whole != "" && AllDigit(whole)
    requires Scans(Digits, rest) && Scans(Zero, rest)
    ensures Scans(st, whole + rest)
  {
    assert whole + rest == [whole[0]] + (whole[1..] + rest);
    Step(st, whole[0], whole[1..] + rest);
    DigitsScan(Digits, Digits, whole[1..], rest);
    if whole[0] == '0' && whole[1..] != "" {
      ZeroScan(whole[1..], rest);
    } else if whole[0] == '0' {
      assert whole[1..] + rest == rest;
    }
  }

  lemma ZeroScan(digits: string, rest: string)
    requires digits != "" && AllDigit(digits) && Scans(Digits, rest)
    ensures Scans(Zero, digits + rest)
  {
    assert digits + rest == [digits[0]] + (digits[1..] + rest);
    Step(Zero, digits[0], digits[1..] + rest);
    DigitsScan(Digits, Digits, digits[1..], rest);
  }

  // Every decimal number is printed as it is.
  lemma NumberIsPrinted(sign: string, whole: string, fraction: Option<string>, x: Power)
    requires IsSign(sign) && whole != "" && AllDigit(whole) && ExponentOk(x)
    requires fraction.Some? ==> AllDigit(fraction.value)
    ensures FloatText(NumberText(sign, whole, fraction, x))
    ensures ConvertArg(NumberText(sign, whole, fraction, x)) == NumberText(sign, whole, fraction, x)
  {
    var rest := (match fraction case None => "" case Some(digits) => ['.'] + digits) + ExponentText(x);
    FractionScans(Digits, fraction, x);
    FractionScans(Zero, fraction, x);
    var s := NumberText(sign, whole, fraction, x);
    WholeScans(Lead, whole, rest);
    WholeScans(Signed, whole, rest);
    SignScans(sign, whole + rest);
    NotHex(s, sign, whole, rest);
  }

  lemma NotHex(s: string, sign: string, whole: string, rest: string)
    requires s == sign + (whole + rest) && IsSign(sign) && whole != "" && AllDigit(whole)
    requires rest != "" ==> rest[0] == '.' || rest[0] == 'e' || rest[0] == 'E'
    ensures !StartsHex(s) && s != ""
  {
    if sign == "" {
      assert s == whole + rest;
      assert s[0] == whole[0];
      if |s| > 1 { assert s[1] == if |whole| > 1 then whole[1] else rest[0]; }
    } else {
      assert s[0] == sign[0];
    }
  }

  lemma SignScans(sign: string, body: string)
    requires IsSign(sign) && Scans(Lead, body) && Scans(Signed, body)
    ensures FloatText(sign + body)
  {
    if sign == "" {
      assert sign + body == body;
    } else {
      assert sign + body == [sign[0]] + body;
      Step(Lead, sign[0], body);
    }
  }

  lemma PointScans(digits: string, x: Power)
    requires digits != "" && AllDigit(digits) && ExponentOk(x)
    ensures Scans(Point, digits + ExponentText(x))
  {
    Cons(digits[0], digits[1..], ExponentText(x));
    assert [digits[0]] + digits[1..] == digits;
    FractionRest(digits[1..], x);
    Step(Point, digits[0], digits[1..] + ExponentText(x));
  }

  lemma FractionRest(digits: string, x: Power)
    requires AllDigit(digits) && ExponentOk(x)
    ensures Scans(Fraction, digits + ExponentText(x))
  {
    DigitsScan(Fraction, Fraction, digits, ExponentText(x));
    ExponentScans(Fraction, x);
  }

  // Also without a whole part, if there is a fraction.
  lemma PointFirstIsPrinted(sign: string, digits: string, x: Power)
    requires IsSign(sign) && digits != "" && AllDigit(digits) && ExponentOk(x)
    ensures var s := sign + (['.'] + (digits + ExponentText(x))); FloatText(s) && ConvertArg(s) == s
  {
    var rest := digits + ExponentText(x);
    PointScans(digits, x);
    Step(Lead, '.', rest);
    Step(Signed, '.', rest);
    SignScans(sign, ['.'] + rest);
    var s := sign + (['.'] + rest);
    assert s[0] == if sign == "" then '.' else sign[0];
    assert !StartsHex(s);
  }

  // ---------- and nothing else looks like a decimal number ----------

  // Digits, signs, points and exponent signs only.
  predicate DecimalChar(c: char) {
    IsDigit(c) || c == '+' || c == '-' || c == '.' || c == 'e' || c == 'E'
  }

  predicate DecimalChars(s: string) {
    forall i :: 0 <= i < |s| ==> DecimalChar(s[i])
  }

  lemma Unstep(st: Scan, s: string)
    requires s != "" && Scans(st, s)
    ensures ScanChar(st, s[0]).Some? && Scans(ScanChar(st, s[0]).value, s[1..]) && s == [s[0]] + s[1..]
  {
  }

  lemma {:induction false} OnlyDigits(s: string)
    requires DecimalChars(s) && Scans(ExponentDigits, s)
    ensures AllDigit(s)
  {
    if s != "" {
      Unstep(ExponentDigits, s);
      OnlyDigits(s[1..]);
    }
  }

  lemma AfterE(e: char, s: string) returns (x: Power)
    requires (e == 'e' || e == 'E') && DecimalChars(s) && Scans(Scan.Exponent, s)
    ensures ExponentOk(x) && [e] + s == ExponentText(x)
  {
    if s == "" { return NoPower; }
    Unstep(Scan.Exponent, s);
    if IsDigit(s[0]) {
      OnlyDigits(s[1..]);
      x := Power(e, "", s);
      assert "" + s == s;
    } else {
      if s[1..] != "" {
        Unstep(ExponentSign, s[1..]);
        OnlyDigits(s[1..][1..]);
      }
      x := Power(e, [s[0]], s[1..]);
    }
  }

  lemma Cons(c: char, d: string, e: string)
    ensures [c] + (d + e) == ([c] + d) + e
    ensures IsDigit(c) && AllDigit(d) ==> AllDigit([c] + d)
  {
  }

  lemma {:induction false} AfterPoint(s: string) returns (digits: string, x: Power)
    requires DecimalChars(s) && Scans(Fraction, s)
    ensures AllDigit(digits) && ExponentOk(x) && s == digits + ExponentText(x)
  {
    if s == "" {
      digits, x := "", NoPower;
    } else {
      Unstep(Fraction, s);
      if IsDigit(s[0]) {
        var tail;
        tail, x := AfterPoint(s[1..]);
        Cons(s[0], tail, ExponentText(x));
        digits := [s[0]] + tail;
      } else {
        x := AfterE(s[0], s[1..]);
        digits := "";
      }
    }
  }

  function FractionText(fraction: Option<string>): string {
    match fraction case None => "" case Some(digits) => ['.'] + digits
  }

  lemma {:induction false} AfterWhole(st: Scan, s: string) returns (digits: string, fraction: Option<string>, x: Power)
    requires (st == Digits || st == Zero) && DecimalChars(s) && Scans(st, s)
    ensures AllDigit(digits) && (fraction.Some? ==> AllDigit(fraction.value)) && ExponentOk(x)
    ensures s == digits + (FractionText(fraction) + ExponentText(x))
    decreases |s|
  {
    if s == "" {
      digits, fraction, x := "", None, NoPower;
    } else {
      Unstep(st, s);
      if IsDigit(s[0]) {
        var tail;
        tail, fraction, x := AfterWhole(Digits, s[1..]);
        Cons(s[0], tail, FractionText(fraction) + ExponentText(x));
        digits := [s[0]] + tail;
      } else if s[0] == '.' {
        var tail;
        tail, x := AfterPoint(s[1..]);
        Cons('.', tail, ExponentText(x));
        digits, fraction := "", Some(tail);
        assert "" + (FractionText(fraction) + ExponentText(x)) == FractionText(fraction) + ExponentText(x);
      } else {
        x := AfterE(s[0], s[1..]);
        digits, fraction := "", None;
      }
    }
  }

  lemma AfterFirstPoint(s: string) returns (digits: string, x: Power)
    requires DecimalChars(s) && Scans(Point, s)
    ensures digits != "" && AllDigit(digits) && ExponentOk(x) && s == digits + ExponentText(x)
  {
    Unstep(Point, s);
    var tail;
    tail, x := AfterPoint(s[1..]);
    Cons(s[0], tail, ExponentText(x));
    digits := [s[0]] + tail;
  }

  lemma AfterSign(st: Scan, s: string) returns (whole: string, fraction: Option<string>, x: Power)
    requires (st == Lead || st == Signed) && DecimalChars(s) && Scans(st, s) && (st == Lead && s != "" ==> s[0] != '+' && s[0] != '-')
    ensures AllDigit(whole) && (fraction.Some? ==> AllDigit(fraction.value)) && ExponentOk(x)
    ensures whole != "" || (fraction.Some? && fraction.value != "")
    ensures s == whole + (FractionText(fraction) + ExponentText(x))
  {
    Unstep(st, s);
    if IsDigit(s[0]) {
      var tail;
      tail, fraction, x := AfterWhole(if s[0] == '0' then Zero else Digits, s[1..]);
      Cons(s[0], tail, FractionText(fraction) + ExponentText(x));
      whole := [s[0]] + tail;
    } else {
      var tail;
      tail, x := AfterFirstPoint(s[1..]);
      Cons('.', tail, ExponentText(x));
      whole, fraction := "", Some(tail);
      assert "" + (FractionText(fraction) + ExponentText(x)) == FractionText(fraction) + ExponentText(x);
    }
  }

  // A text of such characters that is a number has the form of one: a sign or none, digits or a
  // fraction or both, an exponent or none.
  lemma NumbersHaveTheForm(s: string) returns (sign: string, whole: string, fraction: Option<string>, x: Power)
    requires DecimalChars(s) && FloatText(s)
    ensures IsSign(sign) && AllDigit(whole) && (fraction.Some? ==> AllDigit(fraction.value)) && ExponentOk(x)
    ensures whole != "" || (fraction.Some? && fraction.value != "")
    ensures s == sign + (whole + (FractionText(fraction) + ExponentText(x)))
  {
    if s != "" && (s[0] == '+' || s[0] == '-') {
      Unstep(Lead, s);
      sign := [s[0]];
      whole, fraction, x := AfterSign(Signed, s[1..]);
    } else {
      sign := "";
      whole, fraction, x := AfterSign(Lead, s);
    }
  }

  // Hexadecimal text is printed as it is only if it is all digits after a small x.
  lemma OtherHexIsQuoted(rest: string)
    requires exists i :: 0 <= i < |rest| && !('0' <= rest[i] <= '9' || 'a' <= rest[i] <= 'f' || 'A' <= rest[i] <= 'F')
    ensures '"' !in rest ==> ConvertArg(['0', 'x'] + rest) == ['"'] + (['0', 'x'] + rest) + ['"']
  {
    var arg := ['0', 'x'] + rest;
    AllMeans(rest, IsHexDigit);
    assert arg[2..] == rest;
    assert !Bare(arg);
  }

  lemma LargeXIsQuoted(rest: string)
    requires '"' !in rest
    ensures ConvertArg(['0', 'X'] + rest) == ['"'] + (['0', 'X'] + rest) + ['"']
  {
    var arg := ['0', 'X'] + rest;
    assert arg[1] == 'X' && !Bare(arg);
  }

  // So are whole numbers as the parser of CPU lists and of flags prints them.
  lemma DecimalIsPrinted(n: nat)
    ensures ConvertArg(Decimal(n)) == Decimal(n)
  {
    DecimalDigits(n);
    NumberIsPrinted("", Decimal(n), None, NoPower);
    assert NumberText("", Decimal(n), None, NoPower) == Decimal(n);
  }

  lemma {:induction false} AllMeans(s: string, p: char -> bool)
    ensures All(s, p) <==> forall i :: 0 <= i < |s| ==> p(s[i])
  {
    if s != "" {
      AllMeans(s[1..], p);
      assert forall i :: 1 <= i < |s| ==> s[i] == s[1..][i - 1];
    }
  }

  // Hexadecimal, octal and binary integers and the four words are printed as they are, too.
  lemma PrefixedIsPrinted(digits: string)
    ensures (forall i :: 0 <= i < |digits| ==> '0' <= digits[i] <= '9' || 'a' <= digits[i] <= 'f' || 'A' <= digits[i] <= 'F') ==>
              ConvertArg(['0', 'x'] + digits) == ['0', 'x'] + digits
    ensures (forall i :: 0 <= i < |digits| ==> '0' <= digits[i] <= '7') ==> ConvertArg(['0', 'o'] + digits) == ['0', 'o'] + digits
    ensures (forall i :: 0 <= i < |digits| ==> digits[i] == '0' || digits[i] == '1') ==>
              ConvertArg(['0', 'b'] + digits) == ['0', 'b'] + digits
  {
    AllMeans(digits, IsHexDigit);
    AllMeans(digits, IsOctalDigit);
    AllMeans(digits, IsBinaryDigit);
    assert (['0', 'x'] + digits)[2..] == digits;
    assert (['0', 'o'] + digits)[2..] == digits;
    assert (['0', 'b'] + digits)[2..] == digits;
  }

  lemma WordsArePrinted()
    ensures ConvertArg("true") == "true" && ConvertArg("false") == "false"
    ensures ConvertArg("nan") == "nan" && ConvertArg("inf") == "inf"
  {
  }

  // A text is quoted if it is empty, if its first character after spaces starts no number and it
  // is none of the words, or if it has a character no number has.
  lemma OthersAreQuoted(arg: string)
    requires !IsWord(arg)
    requires arg == "" || (!IsSpace(arg[0]) && (!IsDigit(arg[0]) && arg[0] !in "+-.iInN"))
    ensures ConvertArg(arg) == [QuoteFor(arg)] + arg + [QuoteFor(arg)]
    ensures |arg| > 1 && '"' !in arg ==> QuoteFor(arg) == '"'
    ensures |arg| == 1 || '"' in arg ==> QuoteFor(arg) == '\''
  {
    if arg != "" {
      assert !FloatText(arg);
      assert !PrefixedInteger(arg);
    }
    QuotedForm(arg);
  }

  // ---------- lists ----------

  // One argument is printed alone, two in brackets with a comma and a space between,
  lemma ShortListsArePrinted(a: string, b: string)
    ensures JoinText([a]) == ConvertArg(a)
    ensures JoinText([a, b]) == ['['] + (ConvertArg(a) + [',', ' '] + ConvertArg(b)) + [']']
  {
    assert Converted([a]) == [ConvertArg(a)];
    assert Converted([a, b]) == [ConvertArg(a), ConvertArg(b)];
    var parts := [ConvertArg(a), ConvertArg(b)];
    assert parts[1..] == [ConvertArg(b)];
    assert JoinParts(parts) == ConvertArg(a) + [',', ' '] + ConvertArg(b);
  }

  // and each further one so before the closing bracket.
  lemma LongListsArePrinted(args: seq<string>, b: string)
    requires |args| > 1
    ensures exists body :: JoinText(args) == ['['] + body + [']']
                        && JoinText(args + [b]) == ['['] + (body + [',', ' '] + ConvertArg(b)) + [']']
  {
    var body := JoinParts(Converted(args));
    assert Converted(args + [b]) == Converted(args) + [ConvertArg(b)];
    JoinPartsAppend(Converted(args), ConvertArg(b));
    assert JoinText(args) == ['['] + body + [']'];
    assert JoinText(args + [b]) == ['['] + (body + [',', ' '] + ConvertArg(b)) + [']'];
  }
}
