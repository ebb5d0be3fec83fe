/** Python's int(text, base) for bases 10 and 16, and the digits that print a number. */
module PyInt {

  import Arith
  import opened Text
  import opened Wrappers

  /** The value of a digit, or 36 for any other character. */
  function DigitOf(c: char): (d: int)
    ensures 0 <= d <= 36
  {
    if '0' <= c <= '9' then c as int - '0' as int
    else if 'a' <= c <= 'z' then c as int - 'a' as int + 10
    else if 'A' <= c <= 'Z' then c as int - 'A' as int + 10
    else 36
  }

  /** A digit of the base, and none of the characters that mean something else. */
  predicate PlainChar(c: char, base: int) {
    DigitOf(c) < base && !IsSpace(c) && c != ',' && c != '[' && c != ']' && c != '-' && c != '_' && c != '+'
  }

  function DigitChar(d: int): (c: char)
    requires 0 <= d < 16
    ensures DigitOf(c) == d && (forall base :: base > d ==> PlainChar(c, base))
  {
    if d < 10 then (d + '0' as int) as char else (d - 10 + 'a' as int) as char
  }

  /** One or more digits, with single underscores allowed between them. */
  function Value(s: string, base: int): Option<int> {
    if s == "" then None
    else
      var init, d := s[..|s| - 1], DigitOf(s[|s| - 1]);
      if d >= base then None
      else if init == "" then Some(d)
      else
        var high := Value(if init[|init| - 1] == '_' then init[..|init| - 1] else init, base);
        if high.None? then None else Some(high.value * base + d)
  }

  function Unsigned(s: string): string {
    if s != "" && (s[0] == '-' || s[0] == '+') then s[1..] else s
  }

  /** The optional 0x of base 16, which an underscore may follow. */
  function Unprefixed(s: string, base: int): string {
    if base == 16 && |s| >= 2 && s[0] == '0' && (s[1] == 'x' || s[1] == 'X') then
      if |s| >= 3 && s[2] == '_' then s[3..] else s[2..]
    else s
  }

  /** int(text, base); None is a ValueError. */
  function Parse(s: string, base: int): Option<int> {
    var t := Trim(s);
    var v := Value(Unprefixed(Unsigned(t), base), base);
    if v.Some? && t != "" && t[0] == '-' then Some(-v.value) else v
  }

  /** The digits of n, most significant first. */
  function Digits(n: nat, base: int): (s: string)
    requires 2 <= base <= 16
    ensures s != ""
  {
    if n < base then [DigitChar(n)] else Digits(n / base, base) + [DigitChar(n % base)]
  }

  function Decimal(n: int): (s: string) {
    if n < 0 then "-" + Digits(-n, 10) else Digits(n, 10)
  }

  function Hex(n: nat): string {
    Digits(n, 16)
  }

  // ---------------------------------------------------------------------------------------------------------
  // Positional notation
  // ---------------------------------------------------------------------------------------------------------

  const DIGITS := "0123456789abcdef"

  function Power(base: int, k: nat): int {
    if k == 0 then 1 else base * Power(base, k - 1)
  }

  lemma {:induction false} DigitCharIs(d: int)
    requires 0 <= d < 16
    ensures DigitChar(d) == DIGITS[d]
  {
  }

  lemma {:induction false} PowerPositive(base: int, k: nat)
    requires base > 0
    ensures Power(base, k) > 0
  {
    if k > 0 {
      PowerPositive(base, k - 1);
      Arith.MulMonotone(base, 1, Power(base, k - 1));
    }
  }

  lemma {:induction false} DivDiv(n: nat, b: int, p: int)
    requires b > 0 && p > 0
    ensures b * p > 0 && n / b / p == n / (b * p)
  {
    Arith.MulMonotone(b, 1, p);
    var q := n / b;
    Arith.DivModSplit(n, b);
    Arith.DivModSplit(q, p);
    Arith.MulMonotone(b, q % p, p - 1);
    assert b * (p * (q / p) + q % p) == (b * p) * (q / p) + b * (q % p);
    assert b * (p - 1) == b * p - b;
    Arith.ModUnique(n, b * p, q / p, b * (q % p) + n % b);
  }

  /** The digit of n that counts Power(base, k). */
  function Place(n: nat, base: int, k: nat): (d: int)
    requires base > 0
    ensures 0 <= d < base
  {
    PowerPositive(base, k);
    Arith.DivModSplit(n / Power(base, k), base);
    n / Power(base, k) % base
  }

  lemma {:induction false} LastPlace(n: nat, base: int)
    requires base > 0
    ensures Place(n, base, 0) == n % base
  {
    assert Power(base, 0) == 1;
  }

  lemma {:induction false} NextPlace(n: nat, base: int, k: nat)
    requires base > 0
    ensures n / base >= 0 && Place(n, base, k + 1) == Place(n / base, base, k)
  {
    Arith.DivModSplit(n, base);
    PowerPositive(base, k);
    DivDiv(n, base, Power(base, k));
  }

  /** The printed digits are those of the positional notation, the least significant one last. */
  lemma {:induction false} DigitsAt(n: nat, base: int, k: nat)
    requires 2 <= base <= 16 && k < |Digits(n, base)|
    ensures Digits(n, base)[|Digits(n, base)| - 1 - k] == DIGITS[Place(n, base, k)]
  {
    LastPlace(n, base);
    if n < base {
      Arith.ModUnique(n, base, 0, n);
      DigitCharIs(n);
    } else {
      LastDigit(n, base);
      var high, last := Digits(n / base, base), DigitChar(n % base);
      assert Digits(n, base) == high + [last];
      DigitCharIs(n % base);
      if k > 0 {
        DigitsAt(n / base, base, k - 1);
        NextPlace(n, base, k - 1);
      }
    }
  }

  lemma {:induction false} NextPower(n: nat, base: int, q: nat, p: int)
    requires base >= 2 && q < p && n < base * q + base
    ensures n < base * p
  {
    Arith.MulMonotone(base, q + 1, p);
    assert base * (q + 1) == base * q + base;
  }

  lemma {:induction false} Quotient(n: nat, base: int)
    requires 2 <= base <= n
    ensures 0 < n / base < n && n < base * (n / base) + base
  {
    LastDigit(n, base);
    Arith.DivModSplit(n, base);
    if n / base <= 0 {
      Arith.MulMonotone(base, n / base, 0);
    }
  }

  /** All digits of the number are printed. */
  lemma {:induction false} DigitsEnough(n: nat, base: int)
    requires 2 <= base <= 16
    ensures n < Power(base, |Digits(n, base)|)
  {
    if n < base {
      assert Power(base, 0) == 1 && Power(base, 1) == base * Power(base, 0);
    } else {
      Quotient(n, base);
      var q := n / base;
      var high, last := Digits(q, base), DigitChar(n % base);
      assert Digits(n, base) == high + [last];
      DigitsEnough(q, base);
      NextPower(n, base, q, Power(base, |high|));
    }
  }

  /** No zero is printed in front. */
  lemma {:induction false} NoLeadingZero(n: nat, base: int)
    requires 2 <= base <= 16 && n > 0
    ensures Digits(n, base)[0] != '0'
  {
    if n >= base {
      Quotient(n, base);
      NoLeadingZero(n / base, base);
    }
  }

  // ---------------------------------------------------------------------------------------------------------
  // Round trips
  // ---------------------------------------------------------------------------------------------------------

  predicate Plain(s: string, base: int) {
    forall i :: 0 <= i < |s| ==> PlainChar(s[i], base)
  }

  lemma {:induction false} LastDigit(n: nat, base: int)
    requires base > 0
    ensures 0 <= n % base < base && 0 <= n / base && n / base * base + n % base == n
    ensures base > 1 && n >= base ==> n / base < n
  {
    Arith.DivModSplit(n, base);
    if base > 1 && n >= base {
      Arith.MulMonotone(n / base, 2, base);
    }
  }

  lemma {:induction false} DigitsPlain(n: nat, base: int)
    requires 2 <= base <= 16
    ensures Plain(Digits(n, base), base)
  {
    if n >= base {
      LastDigit(n, base);
      var q, last := n / base, DigitChar(n % base);
      DigitsPlain(q, base);
      assert PlainChar(last, base);
      assert Digits(n, base) == Digits(q, base) + [last];
    }
  }

  /** One more digit. */
  lemma {:induction false} ValueSnoc(high: string, c: char, base: int)
    requires high != "" && high[|high| - 1] != '_' && DigitOf(c) < base && Value(high, base).Some?
    ensures Value(high + [c], base) == Some(Value(high, base).value * base + DigitOf(c))
  {
    var s := high + [c];
    assert s[..|s| - 1] == high && s[|s| - 1] == c;
  }

  lemma {:induction false} ValueOfDigits(n: nat, base: int)
    requires 2 <= base <= 16
    ensures Value(Digits(n, base), base) == Some(n)
  {
    if n >= base {
      LastDigit(n, base);
      var q, last := n / base, DigitChar(n % base);
      var high := Digits(q, base);
      ValueOfDigits(q, base);
      DigitsPlain(q, base);
      assert PlainChar(high[|high| - 1], base);
      assert Digits(n, base) == high + [last];
      ValueSnoc(high, last, base);
    }
  }

  /** int() undoes str(), with any whitespace around. */
  lemma {:induction false} ParseDecimal(a: string, n: int, b: string)
    requires Spaces(a) && Spaces(b)
    ensures Parse(a + Decimal(n) + b, 10) == Some(n)
  {
    var ds := Digits(if n < 0 then -n else n, 10);
    DigitsPlain(if n < 0 then -n else n, 10);
    ValueOfDigits(if n < 0 then -n else n, 10);
    assert PlainChar(ds[0], 10);
    DecimalWord(n);
    TrimWord(a, Decimal(n), b);
    assert n < 0 ==> Decimal(n)[1..] == ds;
  }

  lemma {:induction false} DecimalWord(n: int)
    ensures Word(Decimal(n)) && Free(Decimal(n), ',') && Free(Decimal(n), '[') && Free(Decimal(n), ']')
  {
    DigitsPlain(if n < 0 then -n else n, 10);
  }

  lemma {:induction false} HexWord(n: nat)
    ensures Word(Hex(n))
  {
    DigitsPlain(n, 16);
  }

  /** int(_, 16) undoes hex printing after the 0x prefix. */
  lemma {:induction false} ParseHex(n: nat)
    ensures Parse("0x" + Hex(n), 16) == Some(n)
  {
    var ds := Hex(n);
    var t := "0x" + ds;
    DigitsPlain(n, 16);
    ValueOfDigits(n, 16);
    assert Word(t);
    TrimWord("", t, "");
    assert "" + t + "" == t;
    assert PlainChar(ds[0], 16) && t[2] == ds[0] && t[2..] == ds;
  }
}
