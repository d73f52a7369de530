/** Decimal integers as strconv.Itoa writes them and strconv.ParseInt(s, 10, 64) reads them. */
module Decimal {
  import opened Wrappers

  const MAX_INT64: int := 0x7fff_ffff_ffff_ffff
  const MIN_INT64: int := -0x8000_0000_0000_0000

  function Digit(d: nat): char
    requires d < 10
  {
    '0' + d as char
  }

  predicate IsDigit(c: char) {
    '0' <= c <= '9'
  }

  function DigitValue(c: char): nat
    requires IsDigit(c)
  {
    (c - '0') as nat
  }

  function Digits(n: nat): (s: string)
    ensures s != [] && forall k :: 0 <= k < |s| ==> IsDigit(s[k])
  {
    if n < 10 then [Digit(n)] else Digits(n / 10) + [Digit(n % 10)]
  }

  function Itoa(n: int): string {
    if n < 0 then ['-'] + Digits(-n) else Digits(n)
  }

  /** The number a string of digits stands for; anything but digits is refused. */
  function Natural(s: string): Option<nat> {
    if s == [] then Some(0)
    else
      var c := s[|s| - 1];
      match Natural(s[..|s| - 1])
      case Some(n) => if IsDigit(c) then Some(10 * n + DigitValue(c)) else None
      case None => None
  }

  /** An optional sign and at least one digit, within int64. */
  function ParseInt(s: string): Option<int> {
    var digits := if s != [] && (s[0] == '-' || s[0] == '+') then s[1..] else s;
    if digits == [] then None
    else
      match Natural(digits)
      case None => None
      case Some(n) =>
        var v: int := if s[0] == '-' then -(n as int) else n;
        if MIN_INT64 <= v <= MAX_INT64 then Some(v) else None
  }

  lemma {:induction false} NaturalOfDigits(n: nat)
    ensures Natural(Digits(n)) == Some(n)
    decreases n
  {
    var s := Digits(n);
    if n < 10 {
      assert s[..0] == [];
    } else {
      assert s[..|s| - 1] == Digits(n / 10);
      NaturalOfDigits(n / 10);
    }
  }

  /** Every int64 reads back as it was written. */
  lemma ParsesPrinted(n: int)
    requires MIN_INT64 <= n <= MAX_INT64
    ensures ParseInt(Itoa(n)) == Some(n)
  {
    NaturalOfDigits(if n < 0 then -n else n);
    if n < 0 {
      assert Itoa(n)[1..] == Digits(-n);
    } else {
      assert IsDigit(Itoa(n)[0]);
    }
  }

  const DIGITS := "0123456789"

  lemma DigitsAre(c: char)
    ensures IsDigit(c) <==> c in DIGITS
  {
    assert DIGITS == ['0', '1', '2', '3', '4', '5', '6', '7', '8', '9'];
    if IsDigit(c) { assert DIGITS[c as int - '0' as int] == c; }
  }

  lemma {:induction false} NaturalExactly(s: string)
    ensures Natural(s).Some? <==> forall k :: 0 <= k < |s| ==> s[k] in DIGITS
    decreases |s|
  {
    if s != [] {
      var n := |s| - 1;
      NaturalExactly(s[..n]);
      DigitsAre(s[n]);
      assert forall k :: 0 <= k < n ==> s[..n][k] == s[k];
    }
  }

  /** What reads as a number is decimal digits after at most one sign, within int64; a plus changes nothing. */
  lemma ParsesExactly(digits: string)
    requires digits != "" && digits[0] != '+' && digits[0] != '-'
    ensures (forall k :: 0 <= k < |digits| ==> digits[k] in DIGITS) <==> Natural(digits).Some?
    ensures ParseInt(digits).Some? <==> Natural(digits).Some? && Natural(digits).value <= MAX_INT64
    ensures ParseInt("+" + digits) == ParseInt(digits)
    ensures ParseInt("-" + digits).Some? <==> Natural(digits).Some? && Natural(digits).value <= MAX_INT64 + 1
    ensures ParseInt("-" + digits).Some? ==> ParseInt("-" + digits).value == -(Natural(digits).value as int)
  {
    hide Natural;
    NaturalExactly(digits);
    assert ("+" + digits)[1..] == digits && ("-" + digits)[1..] == digits;
  }

  lemma NoNumber()
    ensures ParseInt("") == ParseInt("+") == ParseInt("-") == None
  {
  }
}
