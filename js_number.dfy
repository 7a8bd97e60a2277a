/** JavaScript's `Number(string)` conversion (the StringToNumber operation of
    ECMAScript) and `String(integer)`, restricted to the values this model
    computes: integers are exact, and literals whose value is a fraction, a
    power of ten or an infinity are recognised but not evaluated. */
module JsNumber {
  import opened JsText

  /** A JavaScript number as far as this model computes it. `FloatLiteral`
      is the result of converting a valid numeric literal that has a decimal
      point, an exponent or is `Infinity`; its floating-point value is not
      modelled. */
  datatype Number = Finite(value: int) | NaN | FloatLiteral

  /** The value of a hexadecimal digit, or 16 when `c` is not one. */
  function HexValue(c: char): (v: nat)
    ensures v <= 16
  {
    if '0' <= c <= '9' then c as int - '0' as int
    else if 'a' <= c <= 'f' then c as int - 'a' as int + 10
    else if 'A' <= c <= 'F' then c as int - 'A' as int + 10
    else 16
  }

  predicate AllDigitsIn(s: string, radix: nat) {
    forall i :: 0 <= i < |s| ==> HexValue(s[i]) < radix
  }

  /** The value of the digit string `s`, most significant digit first. */
  function DigitsValue(s: string, radix: nat): nat
    requires AllDigitsIn(s, radix)
    decreases |s|
  {
    if s == [] then 0 else DigitsValue(s[..|s| - 1], radix) * radix + HexValue(s[|s| - 1])
  }

  /** The number of decimal digits at the front of `s`. */
  function LeadingDigits(s: string): (n: nat)
    ensures n <= |s| && AllDigitsIn(s[..n], 10)
    ensures n < |s| ==> HexValue(s[n]) >= 10
    decreases |s|
  {
    if |s| > 0 && HexValue(s[0]) < 10 then
      var n := 1 + LeadingDigits(s[1..]);
      assert s[..n] == [s[0]] + s[1..][..n - 1];
      n
    else 0
  }

  predicate HasSign(t: string) {
    |t| > 0 && (t[0] == '+' || t[0] == '-')
  }

  /** `t` without its one leading sign, if it has one. */
  function Unsigned(t: string): string {
    if HasSign(t) then t[1..] else t
  }

  /** StrDecimalLiteral without fraction or exponent: an optional sign and
      one or more decimal digits. */
  predicate IsDecimalIntegerLiteral(t: string) {
    |Unsigned(t)| > 0 && AllDigitsIn(Unsigned(t), 10)
  }

  function DecimalIntegerValue(t: string): int
    requires IsDecimalIntegerLiteral(t)
  {
    var v: int := DigitsValue(Unsigned(t), 10);
    if t[0] == '-' then -v else v
  }

  /** The radix named by the letter after a leading `0` (`x`, `o`, `b`, in
      either case), or 0 when it names none. */
  function PrefixRadix(c: char): nat {
    if c == 'x' || c == 'X' then 16
    else if c == 'o' || c == 'O' then 8
    else if c == 'b' || c == 'B' then 2
    else 0
  }

  /** NonDecimalIntegerLiteral: `0x`, `0o` or `0b` and at least one digit of
      that radix; no sign is allowed. */
  predicate IsNonDecimalIntegerLiteral(t: string) {
    |t| >= 3 && t[0] == '0' && PrefixRadix(t[1]) > 0 && AllDigitsIn(t[2..], PrefixRadix(t[1]))
  }

  /** ExponentPart: `e` or `E`, an optional sign and decimal digits. */
  predicate IsExponentPart(e: string) {
    |e| >= 2 && (e[0] == 'e' || e[0] == 'E') && IsDecimalIntegerLiteral(e[1..])
  }

  /** StrUnsignedDecimalLiteral: `Infinity`, or digits with an optional
      fraction and an optional exponent (at least one digit in all). */
  predicate IsUnsignedDecimalLiteral(u: string) {
    if u == "Infinity" then true
    else
      var i := LeadingDigits(u);
      var rest := u[i..];
      if rest == [] then i > 0
      else if rest[0] == '.' then
        var j := LeadingDigits(rest[1..]);
        (i > 0 || j > 0) && (rest[1 + j..] == [] || IsExponentPart(rest[1 + j..]))
      else i > 0 && IsExponentPart(rest)
  }

  /** StrNumericLiteral: a non-decimal integer literal, or a decimal
      literal with an optional sign. */
  predicate IsStrNumericLiteral(t: string) {
    IsNonDecimalIntegerLiteral(t) || IsUnsignedDecimalLiteral(Unsigned(t))
  }

  /** `Number(s)` for a string `s`. */
  function StringToNumber(s: string): (r: Number)
    ensures Trim(s) == [] ==> r == Finite(0)
    ensures r.NaN? <==> Trim(s) != [] && !IsStrNumericLiteral(Trim(s))
    ensures r.FloatLiteral? ==> IsStrNumericLiteral(Trim(s))
  {
    var t := Trim(s);
    if t == [] then Finite(0)
    else if IsDecimalIntegerLiteral(t) then Finite(DecimalIntegerValue(t))
    else if IsNonDecimalIntegerLiteral(t) then Finite(DigitsValue(t[2..], PrefixRadix(t[1])))
    else if IsUnsignedDecimalLiteral(Unsigned(t)) then FloatLiteral
    else NaN
  }

  /** A character a numeric literal can start with, once trimmed: a digit,
      a sign, a decimal point, or the `I` of `Infinity`. */
  predicate CanStartLiteral(c: char) {
    '0' <= c <= '9' || c == '+' || c == '-' || c == '.' || c == 'I'
  }

  /** Text whose first non-white-space character cannot start a numeric
      literal converts to `NaN`. */
  lemma StringToNumberOfNonNumeric(s: string)
    requires Trim(s) != [] && !CanStartLiteral(Trim(s)[0])
    ensures StringToNumber(s) == NaN
  {
    var t := Trim(s);
    assert HexValue(t[0]) >= 10;
    assert Unsigned(t) == t;
    assert LeadingDigits(t) == 0;
    assert t != "Infinity" by {
      assert "Infinity"[0] == 'I';
    }
  }

  /** `Number` ignores surrounding white space. */
  lemma StringToNumberTrims(s: string)
    ensures StringToNumber(s) == StringToNumber(Trim(s))
  {
    TrimIdempotent(s);
  }

  /** The decimal digits of `n`, without leading zeros. */
  function NatToDigits(n: nat): (d: string)
    ensures |d| > 0 && AllDigitsIn(d, 10)
    ensures DigitsValue(d, 10) == n
    ensures |d| > 1 ==> d[0] != '0'
    decreases n
  {
    var last := ['0' + ((n % 10) as char)] ;
    if n < 10 then last
    else
      var front := NatToDigits(n / 10);
      var d := front + last;
      assert d[..|d| - 1] == front;
      d
  }

  /** `String(n)` for an integer `n` below 10^21 in magnitude (where
      JavaScript switches to exponent notation): a minus sign exactly for a
      negative `n`, never a plus sign, then the decimal digits of its
      magnitude without leading zeros. */
  function IntToString(n: int): (r: string)
    ensures IsDecimalIntegerLiteral(r) && DecimalIntegerValue(r) == n
    ensures r[0] != '+' && (r[0] == '-' <==> n < 0)
    ensures |Unsigned(r)| > 1 ==> Unsigned(r)[0] != '0'
  {
    if n < 0 then
      var r := "-" + NatToDigits(-n);
      assert Unsigned(r) == NatToDigits(-n);
      r
    else
      var r := NatToDigits(n);
      assert r[0] != '-' && r[0] != '+' by {
        assert HexValue(r[0]) < 10;
      }
      r
  }

  /** The text of an integer has no white space at its ends and no comma. */
  lemma IntToStringIsPlain(n: int)
    ensures IsTrimmed(IntToString(n)) && ',' !in IntToString(n)
  {
    var s := IntToString(n);
    var u := Unsigned(s);
    var off := |s| - |u|;
    assert s[off..] == u;
    assert s[0] == '-' || HexValue(s[0]) < 10;
    assert HexValue(s[|s| - 1]) < 10 by {
      assert s[|s| - 1] == u[|u| - 1];
    }
    forall i | 0 <= i < |s|
      ensures s[i] != ','
    {
      if i >= off {
        assert s[i] == u[i - off];
        assert HexValue(s[i]) < 10;
      }
    }
  }

  /** Converting the text of an integer gives the integer back. */
  lemma StringToNumberOfIntToString(n: int)
    ensures StringToNumber(IntToString(n)) == Finite(n)
  {
    var s := IntToString(n);
    assert IsTrimmed(s);
    TrimOfTrimmed(s);
    if n < 0 {
      assert Unsigned(s) == NatToDigits(-n);
    } else {
      assert Unsigned(s) == NatToDigits(n);
    }
  }

  /** `Number` of a plain decimal digit string is the value of its
      digits, leading zeros included. */
  lemma StringToNumberOfDigits(d: string)
    requires |d| > 0 && AllDigitsIn(d, 10)
    ensures StringToNumber(d) == Finite(DigitsValue(d, 10))
  {
    assert HexValue(d[0]) < 10 && HexValue(d[|d| - 1]) < 10;
    TrimOfTrimmed(d);
  }

  /** A leading zero does not change the value of a digit string. */
  lemma {:induction false} LeadingZeroValue(d: string)
    requires AllDigitsIn(d, 10)
    ensures AllDigitsIn(['0'] + d, 10) && DigitsValue(['0'] + d, 10) == DigitsValue(d, 10)
    decreases |d|
  {
    var e := ['0'] + d;
    assert HexValue(e[0]) == 0;
    if d != [] {
      assert e[..|e| - 1] == ['0'] + d[..|d| - 1];
      LeadingZeroValue(d[..|d| - 1]);
    }
  }

  /** Leading zeros before the digits of `n` leave the value `n`. */
  lemma {:induction false} ZeroPaddedValue(k: nat, n: nat)
    ensures AllDigitsIn(seq(k, _ => '0') + NatToDigits(n), 10)
    ensures DigitsValue(seq(k, _ => '0') + NatToDigits(n), 10) == n
    decreases k
  {
    var d := seq(k, _ => '0') + NatToDigits(n);
    if k > 0 {
      var d' := seq(k - 1, _ => '0') + NatToDigits(n);
      ZeroPaddedValue(k - 1, n);
      assert d == ['0'] + d';
      LeadingZeroValue(d');
    } else {
      assert d == NatToDigits(n);
    }
  }

  /** Any number of leading zeros before the digits of `n` still read as
      `n`: `Number("007")` is 7. Every non-empty digit string has this
      form. */
  lemma StringToNumberOfZeroPadded(k: nat, n: nat)
    ensures StringToNumber(seq(k, _ => '0') + NatToDigits(n)) == Finite(n)
  {
    ZeroPaddedValue(k, n);
    StringToNumberOfDigits(seq(k, _ => '0') + NatToDigits(n));
  }

  lemma StringToNumberExample1234()
    ensures StringToNumber("1234") == Finite(1234)
  {
    TrimOfTrimmed("1234");
    assert DigitsValue("1234", 10) == 1234 by {
      assert "1234"[..3] == "123" && "123"[..2] == "12" && "12"[..1] == "1" && "1"[..0] == "";
    }
  }

  lemma StringToNumberExample123()
    ensures StringToNumber("123") == Finite(123)
  {
    TrimOfTrimmed("123");
    assert DigitsValue("123", 10) == 123 by {
      assert "123"[..2] == "12" && "12"[..1] == "1" && "1"[..0] == "";
    }
  }

  lemma StringToNumberExampleNaN()
    ensures StringToNumber("abc") == NaN
  {
    TrimOfTrimmed("abc");
    StringToNumberOfNonNumeric("abc");
  }

  /** `d` with a comma between every group of three characters, counting
      from the right, as counts are displayed on the sites. */
  function GroupThousands(d: string): string
    decreases |d|
  {
    if |d| <= 3 then d else GroupThousands(d[..|d| - 3]) + "," + d[|d| - 3..]
  }

  /** Deleting the commas undoes the grouping. */
  lemma {:induction false} UngroupThousands(d: string)
    requires ',' !in d
    ensures RemoveAll(GroupThousands(d), ',') == d
    decreases |d|
  {
    if |d| > 3 {
      var front, back := d[..|d| - 3], d[|d| - 3..];
      assert d == front + back;
      assert ',' !in front && ',' !in back;
      UngroupThousands(front);
      RemoveAllAppend(GroupThousands(front) + ",", back, ',');
      RemoveAllAppend(GroupThousands(front), ",", ',');
    }
  }
}
