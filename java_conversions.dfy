/** The pieces of the Java class library that the filter codec leans on to
    turn numbers and flags into text and back: `Long.toString` (what
    `StringBuilder.append` writes for a `Long`), `Long.valueOf(String)`,
    `Boolean.valueOf(String)` and `String.valueOf` of a possibly-null
    `Boolean`. */
module JavaConversions {
  import opened Wrappers

  const MinLong: int := -0x8000_0000_0000_0000
  const MaxLong: int := 0x7FFF_FFFF_FFFF_FFFF

  /** A Java `long`: a 64-bit two's-complement integer. */
  type Long = x: int | MinLong <= x <= MaxLong

  predicate IsDigit(ch: char) {
    '0' <= ch <= '9'
  }

  predicate AllDigits(s: string) {
    forall i :: 0 <= i < |s| ==> IsDigit(s[i])
  }

  function DigitValue(ch: char): (d: nat)
    requires IsDigit(ch)
    ensures d < 10
  {
    ch as int - '0' as int
  }

  function DigitChar(d: nat): (ch: char)
    requires d < 10
    ensures IsDigit(ch) && DigitValue(ch) == d
  {
    ('0' as int + d) as char
  }

  /** The decimal digits of `n`, most significant first, with no leading zero. */
  function NatToDecimal(n: nat): (s: string)
    ensures |s| >= 1 && AllDigits(s)
    ensures |s| > 1 ==> s[0] != '0'
    decreases n
  {
    if n < 10 then [DigitChar(n)] else NatToDecimal(n / 10) + [DigitChar(n % 10)]
  }

  /** The number a string of decimal digits denotes. */
  function DecimalValue(s: string): nat
    requires AllDigits(s)
    decreases |s|
  {
    if s == [] then 0 else DecimalValue(s[..|s| - 1]) * 10 + DigitValue(s[|s| - 1])
  }

  /** `Long.toString(n)`: a minus sign for negative numbers, then the digits. */
  function LongToString(n: Long): (s: string)
    ensures |s| >= 1 && (s[0] == '-' <==> n < 0)
    ensures forall i :: 0 <= i < |s| ==> IsDigit(s[i]) || (i == 0 && s[i] == '-')
  {
    if n < 0 then "-" + NatToDecimal(-(n as int)) else NatToDecimal(n)
  }

  /** The exception `Long.valueOf` throws; it carries the rejected input. */
  datatype NumberFormatException = NumberFormatException(input: string)

  /** `s` without its leading sign, if it has one. */
  function Unsigned(s: string): (d: string)
    ensures |d| <= |s|
  {
    if s != [] && (s[0] == '-' || s[0] == '+') then s[1..] else s
  }

  /** `Long.valueOf(s)`: an optional sign, at least one decimal digit, and a
      value that fits in a `long`; anything else throws. */
  function ParseLong(s: string): (r: Result<Long, NumberFormatException>)
    ensures r.Failure? ==> r.error.input == s
    ensures r.Success? ==> s != [] && Unsigned(s) != [] && AllDigits(Unsigned(s))
    ensures r.Success? ==>
      r.value == if s[0] == '-' then -(DecimalValue(Unsigned(s)) as int) else DecimalValue(Unsigned(s))
  {
    if s == [] then Failure(NumberFormatException(s))
    else
      var digits := Unsigned(s);
      if digits == [] || !AllDigits(digits) then Failure(NumberFormatException(s))
      else
        var magnitude: int := DecimalValue(digits);
        var v := if s[0] == '-' then -magnitude else magnitude;
        if MinLong <= v <= MaxLong then Success(v) else Failure(NumberFormatException(s))
  }

  lemma {:induction false} DecimalValueOfNatToDecimal(n: nat)
    ensures DecimalValue(NatToDecimal(n)) == n
    decreases n
  {
    if n >= 10 {
      var s := NatToDecimal(n);
      assert s[..|s| - 1] == NatToDecimal(n / 10);
      DecimalValueOfNatToDecimal(n / 10);
    }
  }

  /** `Long.valueOf(Long.toString(n)) == n` for every `long`. */
  lemma LongRoundTrip(n: Long)
    ensures ParseLong(LongToString(n)) == Success(n)
  {
    var s := LongToString(n);
    if n < 0 {
      assert Unsigned(s) == NatToDecimal(-(n as int));
      DecimalValueOfNatToDecimal(-(n as int));
    } else {
      assert Unsigned(s) == NatToDecimal(n);
      DecimalValueOfNatToDecimal(n);
    }
  }

  /** An optional sign, at least one digit and a value in range is always
      accepted: together with the contract of `ParseLong`, the exact set of
      inputs `Long.valueOf` takes. */
  lemma ParseLongAccepts(s: string)
    requires s != [] && Unsigned(s) != [] && AllDigits(Unsigned(s))
    requires MinLong <= (if s[0] == '-' then -(DecimalValue(Unsigned(s)) as int) else DecimalValue(Unsigned(s))) <= MaxLong
    ensures ParseLong(s).Success?
  {
  }

  /** Two different `long`s never print the same. */
  lemma LongToStringInjective(m: Long, n: Long)
    requires LongToString(m) == LongToString(n)
    ensures m == n
  {
    LongRoundTrip(m);
    LongRoundTrip(n);
  }

  /** A character that is neither a digit nor a leading sign makes
      `Long.valueOf` throw. */
  lemma ParseLongRejectsNonDigit(s: string, i: nat)
    requires i < |s| && !IsDigit(s[i])
    requires i == 0 ==> s[0] != '-' && s[0] != '+'
    ensures ParseLong(s) == Failure(NumberFormatException(s))
  {
    if i > 0 && (s[0] == '-' || s[0] == '+') {
      assert s[1..][i - 1] == s[i];
    }
  }

  /** ASCII lower-casing, the part of `Character.toLowerCase` that can make a
      character compare equal to a letter of "true". */
  function LowerAscii(ch: char): char {
    if 'A' <= ch <= 'Z' then (ch as int + 32) as char else ch
  }

  predicate EqualsIgnoreCase(a: string, b: string) {
    |a| == |b| && forall i :: 0 <= i < |a| ==> LowerAscii(a[i]) == LowerAscii(b[i])
  }

  /** `Boolean.valueOf(s)`: true exactly when `s` is "true" in any case;
      it never throws. */
  function BooleanValueOf(s: string): (b: bool)
    ensures b <==> |s| == 4 && LowerAscii(s[0]) == 't' && LowerAscii(s[1]) == 'r'
                   && LowerAscii(s[2]) == 'u' && LowerAscii(s[3]) == 'e'
  {
    EqualsIgnoreCase(s, "true")
  }

  /** `String.valueOf` of a `Boolean` reference, as `StringBuilder.append`
      writes it: "null" for a null reference. */
  function BooleanToString(b: Option<bool>): (s: string)
    ensures b.None? ==> s == "null"
  {
    match b
    case None => "null"
    case Some(true) => "true"
    case Some(false) => "false"
  }

  /** A printed flag reads back as the flag; a printed null reads back as false. */
  lemma BooleanRoundTrip(b: Option<bool>)
    ensures BooleanValueOf(BooleanToString(b)) == (b == Some(true))
  {
    if b == Some(false) {
      assert BooleanToString(b)[4] == 'e';
    }
  }
}
