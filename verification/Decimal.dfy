/** Decimal digits, and the decimal texts of 64-bit integers. */
module Decimal {
  import opened Foundation

  function Digit(d: int): char
    requires 0 <= d < 10
  {
    '0' + d as char
  }

  predicate IsDigit(c: char) {
    '0' <= c <= '9'
  }

  function DigitValue(c: char): (d: int)
    requires IsDigit(c)
    ensures 0 <= d < 10 && Digit(d) == c
  {
    (c - '0') as int
  }

  /** The shortest decimal text of a natural number. */
  function Digits(n: nat): (text: string)
    ensures text != [] && forall k :: 0 <= k < |text| ==> IsDigit(text[k])
  {
    if n < 10 then [Digit(n)] else Digits(n / 10) + [Digit(n % 10)]
  }

  /** Go's `FormatInt` in base 10, and `to_string` in Rust. */
  function FormatInt(n: int): string {
    if n < 0 then ['-'] + Digits(-n) else Digits(n)
  }

  function ReadDigits(text: string): (n: Option<nat>) {
    if text == [] then None
    else
      var init, last := text[..|text| - 1], text[|text| - 1];
      if !IsDigit(last) then None
      else if init == [] then Some(DigitValue(last))
      else match ReadDigits(init)
      case None => None
      case Some(high) => Some(10 * high + DigitValue(last))
  }

  /** Go's `ParseInt` in base 10 and 64 bits: an optional sign, then digits,
      leading zeros allowed, within the range. */
  function ParseInt(text: string): (n: Option<Int64>) {
    if text == [] then None
    else
      var signed := text[0] == '+' || text[0] == '-';
      match ReadDigits(if signed then text[1..] else text)
      case None => None
      case Some(size) =>
        var n := if text[0] == '-' then 0 - size as int else size as int;
        if INT64_MIN <= n <= INT64_MAX then Some(n) else None
  }

  lemma {:induction false} ReadOfDigits(n: nat)
    ensures ReadDigits(Digits(n)) == Some(n)
  {
    var text := Digits(n);
    if n >= 10 {
      assert text[..|text| - 1] == Digits(n / 10) && text[|text| - 1] == Digit(n % 10);
      ReadOfDigits(n / 10);
    }
  }

  /** Every 64-bit integer reads back from its decimal text. */
  lemma ParseOfFormat(n: Int64)
    ensures ParseInt(FormatInt(n)) == Some(n)
  {
    hide ReadDigits, Digits;
    var size: nat := if n < 0 then 0 - n as int else n as int;
    ReadOfDigits(size);
    assert IsDigit(Digits(size)[0]);
    if n < 0 {
      assert FormatInt(n)[1..] == Digits(size);
    }
  }

  lemma {:induction false} LeadingZero(text: string)
    requires ReadDigits(text).Some?
    ensures ReadDigits(['0'] + text) == ReadDigits(text)
    decreases |text|
  {
    var init, last := text[..|text| - 1], text[|text| - 1];
    var longer := ['0'] + text;
    assert longer[..|longer| - 1] == ['0'] + init && longer[|longer| - 1] == last;
    if init == [] {
      assert ['0'][..0] == [];
      assert ReadDigits(['0'] + init) == Some(0);
    } else {
      LeadingZero(init);
    }
  }

  /** Which texts read as an integer: digits, alone or after one sign, that stay
      within 64 bits. */
  lemma ParseIntMeans(text: string, digits: string)
    ensures text == digits && text != [] && text[0] != '+' && text[0] != '-' ==>
              ParseInt(text) == InRange(ReadDigits(digits), 1)
    ensures text == "+" + digits ==> ParseInt(text) == InRange(ReadDigits(digits), 1)
    ensures text == "-" + digits ==> ParseInt(text) == InRange(ReadDigits(digits), -1)
    ensures ParseInt("") == None
  {
    hide ReadDigits;
    if text == "+" + digits || text == "-" + digits {
      assert text[1..] == digits;
    }
  }

  function InRange(size: Option<nat>, sign: int): Option<Int64>
    requires sign == 1 || sign == -1
  {
    match size
    case None => None
    case Some(n) =>
      if -9_223_372_036_854_775_808 <= sign * n as int <= 9_223_372_036_854_775_807 then Some(sign * n as int) else None
  }

  /** Different integers have different texts. */
  lemma FormatIntIsInjective(m: Int64, n: Int64)
    ensures FormatInt(m) == FormatInt(n) <==> m == n
  {
    hide FormatInt, ParseInt;
    ParseOfFormat(m);
    ParseOfFormat(n);
  }
}
