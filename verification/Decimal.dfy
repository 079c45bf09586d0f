/** Decimal text of integers: `strconv.Itoa`/`FormatInt` and `strconv.Atoi`/`ParseInt` in base 10
    on a platform whose `int` has 64 bits. */
module Decimal {
  import opened Wrappers
  import opened Sequences

  const MAX_INT64: int := 0x7FFF_FFFF_FFFF_FFFF
  const MIN_INT64: int := -0x8000_0000_0000_0000

  type int64 = x: int | MIN_INT64 <= x <= MAX_INT64

  predicate IsDigit(c: char) {
    '0' <= c <= '9'
  }

  function DigitChar(d: nat): (c: char)
    requires d < 10
    ensures IsDigit(c) && c as int - '0' as int == d
  {
    ('0' as int + d) as char
  }

  function Digits(n: nat): (s: string)
    ensures |s| >= 1
  {
    if n < 10 then [DigitChar(n)] else Digits(n / 10) + [DigitChar(n % 10)]
  }

  function Itoa(n: int): string {
    if n < 0 then "-" + Digits(-n) else Digits(n)
  }

  predicate AllDigits(s: string) {
    forall i :: 0 <= i < |s| ==> IsDigit(s[i])
  }

  function Value(s: string): nat
    requires AllDigits(s)
  {
    if s == "" then 0
    else Value(s[..|s| - 1]) * 10 + (s[|s| - 1] as int - '0' as int)
  }

  /** One optional sign, at least one digit, nothing else, and in range. */
  function Atoi(s: string): (r: Option<int64>)
  {
    var signed := |s| > 0 && (s[0] == '-' || s[0] == '+');
    var digits := if signed then s[1..] else s;
    if digits == "" || !AllDigits(digits) then None
    else
      var v: int := if signed && s[0] == '-' then 0 - Value(digits) else Value(digits);
      if MIN_INT64 <= v <= MAX_INT64 then Some(v) else None
  }

  lemma {:induction false} ValueOfDigits(n: nat)
    ensures AllDigits(Digits(n))
    ensures Value(Digits(n)) == n
  {
    if n >= 10 {
      ValueOfDigits(n / 10);
      var s := Digits(n);
      assert s[..|s| - 1] == Digits(n / 10);
      assert s[|s| - 1] == DigitChar(n % 10);
    } else {
      assert Digits(n)[..0] == "";
    }
  }

  /** What parsing makes of a sign and digits. */
  lemma AtoiSigned(sign: bool, digits: string)
    requires digits != "" && AllDigits(digits)
    requires Value(digits) <= if sign then -MIN_INT64 else MAX_INT64
    ensures Atoi(if sign then "-" + digits else digits) == Some(if sign then 0 - Value(digits) else Value(digits))
  {
    assert IsDigit(digits[0]);
    if sign {
      var s := "-" + digits;
      assert s[0] == '-' && s[1..] == digits;
    }
  }

  /** Parsing undoes printing, so an id built from a number is never reported as malformed. */
  lemma AtoiItoa(n: int64)
    ensures Atoi(Itoa(n)) == Some(n)
  {
    var m: nat := if n < 0 then -(n as int) else n;
    ValueOfDigits(m);
    AtoiSigned(n < 0, Digits(m));
  }

  /** Different integers have different decimal text. */
  lemma ItoaInjective(m: int, n: int)
    requires Itoa(m) == Itoa(n)
    ensures m == n
  {
    ValueOfDigits(if m < 0 then -m else m);
    ValueOfDigits(if n < 0 then -n else n);
    assert m >= 0 ==> IsDigit(Itoa(m)[0]);
    assert n >= 0 ==> IsDigit(Itoa(n)[0]);
    assert m < 0 ==> Itoa(m)[1..] == Digits(-m);
    assert n < 0 ==> Itoa(n)[1..] == Digits(-n);
  }

  lemma OneDigit(s: string)
    requires |s| == 1 && IsDigit(s[0])
    ensures Atoi(s) != None
  {
    assert s[..0] == "";
    assert Value(s) == s[0] as int - '0' as int;
  }

  /* ---------- which texts are numbers ---------- */

  /** An optional sign and at least one digit. */
  ghost predicate Numeral(s: string, sign: string, digits: string) {
    && s == sign + digits && (sign == "" || sign == "+" || sign == "-")
    && digits != "" && forall k :: 0 <= k < |digits| ==> digits[k] in "0123456789"
  }

  lemma DigitExactly(c: char)
    ensures IsDigit(c) <==> c in "0123456789"
  {}

  lemma NumeralDigits(s: string, sign: string, digits: string)
    requires Numeral(s, sign, digits)
    ensures AllDigits(digits)
  {
    forall k | 0 <= k < |digits| ensures IsDigit(digits[k]) {
      DigitExactly(digits[k]);
    }
  }

  /** A numeral is read as its value, if that fits into 64 bits. */
  lemma NumeralRead(s: string, sign: string, digits: string)
    requires Numeral(s, sign, digits)
    ensures AllDigits(digits)
    ensures var v: int := if sign == "-" then 0 - Value(digits) else Value(digits);
            Atoi(s) == if -0x8000_0000_0000_0000 <= v <= 0x7FFF_FFFF_FFFF_FFFF then Some(v) else None
  {
    NumeralDigits(s, sign, digits);
    DigitExactly('+');
    DigitExactly('-');
    if sign == "" {
      assert s == digits && IsDigit(s[0]);
    } else {
      assert s[0] == sign[0] && s[1..] == digits;
    }
  }

  /** Nothing else is. */
  lemma OnlyNumerals(s: string) returns (sign: string, digits: string)
    requires Atoi(s) != None
    ensures Numeral(s, sign, digits)
  {
    if s[0] == '-' || s[0] == '+' {
      sign, digits := [s[0]], s[1..];
    } else {
      sign, digits := "", s;
    }
    assert s == sign + digits;
    forall k | 0 <= k < |digits| ensures digits[k] in "0123456789" {
      DigitExactly(digits[k]);
    }
  }

  function Zeros(n: nat): string {
    if n == 0 then "" else "0" + Zeros(n - 1)
  }

  lemma {:induction false} ZerosAndLast(n: nat)
    ensures AllDigits(Zeros(n)) && Value(Zeros(n)) == 0 && Zeros(n) + "0" == Zeros(n + 1)
  {
    if n == 0 {
    } else {
      ZerosAndLast(n - 1);
      var s := Zeros(n);
      assert s == Zeros(n - 1) + "0";
      assert s[..|s| - 1] == Zeros(n - 1) && s[|s| - 1] == '0';
      Assoc("0", Zeros(n - 1), "0");
    }
  }

  lemma LastDigit(front: string, last: char)
    requires AllDigits(front) && IsDigit(last)
    ensures AllDigits(front + [last]) && Value(front + [last]) == Value(front) * 10 + (last as int - '0' as int)
  {
    var s := front + [last];
    assert s[..|s| - 1] == front && s[|s| - 1] == last;
  }

  lemma DigitsOfNext(v: nat, last: char)
    requires IsDigit(last)
    ensures var d := last as int - '0' as int;
            Digits(v * 10 + d) == if v == 0 then [last] else Digits(v) + [last]
  {
    var d := last as int - '0' as int;
    assert DigitChar(d) == last;
    assert (v * 10 + d) / 10 == v && (v * 10 + d) % 10 == d;
  }

  /** The value of digits in base ten: they are its decimal text behind zeros. */
  lemma {:induction false} ValueExactly(digits: string) returns (n: nat)
    requires digits != "" && AllDigits(digits)
    ensures digits == Zeros(n) + Digits(Value(digits))
    decreases |digits|
  {
    var front, last := digits[..|digits| - 1], digits[|digits| - 1];
    assert digits == front + [last];
    LastDigit(front, last);
    DigitsOfNext(Value(front), last);
    if front == "" {
      n := 0;
      assert Zeros(0) + [last] == [last];
    } else {
      n := ValueExactly(front);
      if Value(front) == 0 {
        ZerosAndLast(n);
        n := n + 1;
      } else {
        Assoc(Zeros(n), Digits(Value(front)), [last]);
      }
    }
  }
}
