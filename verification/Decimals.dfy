/** Decimal numbers as the C library prints and reads them. */
module Decimals {

  predicate IsDigit(ch: char) {
    '0' <= ch <= '9'
  }

  predicate IsDigits(s: string) {
    forall i :: 0 <= i < |s| ==> IsDigit(s[i])
  }

  function Digit(d: nat): (ch: char)
    requires d < 10
    ensures IsDigit(ch) && (ch - '0') as int == d
  {
    '0' + d as char
  }

  /** The shortest decimal text of a number. */
  function Decimal(n: nat): (s: string)
    ensures s != "" && IsDigits(s)
  {
    if n < 10 then [Digit(n)] else Decimal(n / 10) + [Digit(n % 10)]
  }

  /** The number that a run of digits stands for. */
  function Value(s: string): (n: nat)
    requires IsDigits(s)
  {
    if s == "" then 0 else Value(s[..|s| - 1]) * 10 + (s[|s| - 1] - '0') as int
  }

  function DigitCount(n: nat): (count: nat)
    ensures 0 < count
  {
    if n < 10 then 1 else 1 + DigitCount(n / 10)
  }

  lemma {:induction false} DecimalValue(n: nat)
    ensures Value(Decimal(n)) == n && |Decimal(n)| == DigitCount(n)
  {
    if n >= 10 {
      DecimalValue(n / 10);
      assert Decimal(n)[..|Decimal(n)| - 1] == Decimal(n / 10);
    }
  }

  lemma {:induction false} MoreDigits(m: nat, n: nat)
    requires m <= n
    ensures DigitCount(m) <= DigitCount(n)
  {
    if m >= 10 {
      MoreDigits(m / 10, n / 10);
    }
  }

  /** A proper prefix of a number's digits stands for a smaller number. */
  lemma {:induction false} PrefixValue(s: string, k: nat)
    requires IsDigits(s) && k <= |s|
    ensures Value(s[..k]) <= Value(s)
    ensures k < |s| && Value(s) > 0 ==> Value(s[..k]) < Value(s)
  {
    if k < |s| {
      var front := s[..|s| - 1];
      PrefixValue(front, k);
      assert front[..k] == s[..k];
    } else {
      assert s[..k] == s;
    }
  }

  /** The length of the run of digits a text starts with. */
  function DigitRun(s: string): (k: nat)
    ensures k <= |s| && IsDigits(s[..k]) && (k < |s| ==> !IsDigit(s[k]))
  {
    if s == "" || !IsDigit(s[0]) then 0 else 1 + DigitRun(s[1..])
  }

  /** What atoi reads from the start of a text: an optional sign and the digits that follow it. */
  function AtoI(s: string): (n: int) {
    if s != "" && IsSpace(s[0]) then AtoI(s[1..])
    else if s != "" && s[0] == '-' then 0 - (Value(s[1..][..DigitRun(s[1..])]) as int)
    else if s != "" && s[0] == '+' then Value(s[1..][..DigitRun(s[1..])])
    else Value(s[..DigitRun(s)])
  }

  predicate IsSpace(ch: char) {
    ch == ' ' || '\t' <= ch <= '\r'
  }

  /** A number as printed by %d. */
  function SignedDecimal(n: int): (s: string)
    ensures s != ""
  {
    if n < 0 then "-" + Decimal(-n) else Decimal(n)
  }

  lemma {:induction false} DigitRunEnds(digits: string, rest: string)
    requires IsDigits(digits) && (rest != "" ==> !IsDigit(rest[0]))
    ensures DigitRun(digits + rest) == |digits|
  {
    if digits == "" {
      assert digits + rest == rest;
    } else {
      DigitRunEnds(digits[1..], rest);
      assert (digits + rest)[1..] == digits[1..] + rest;
    }
  }

  /** Reading what was printed gives the number back, whatever follows that is not a digit. */
  lemma {:induction false} AtoIOfPrinted(n: int, rest: string)
    requires rest != "" ==> !IsDigit(rest[0])
    ensures AtoI(SignedDecimal(n) + rest) == n
  {
    var digits := Decimal(if n < 0 then -n else n);
    DecimalValue(if n < 0 then -n else n);
    ReadsDigits(digits, rest);
    if n < 0 {
      Signed(digits, rest);
    }
  }

  lemma {:induction false} Signed(digits: string, rest: string)
    ensures ("-" + digits + rest)[0] == '-' && ("-" + digits + rest)[1..] == digits + rest
  {
  }

  lemma {:induction false} ReadsDigits(digits: string, rest: string)
    requires digits != "" && IsDigits(digits) && (rest != "" ==> !IsDigit(rest[0]))
    ensures (digits + rest)[..DigitRun(digits + rest)] == digits
    ensures AtoI(digits + rest) == Value(digits)
  {
    DigitRunEnds(digits, rest);
    assert IsDigit(digits[0]) && (digits + rest)[0] == digits[0];
  }
}
