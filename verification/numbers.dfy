/**
  Integer literals and the arithmetic of the target machine, shared by the
  reference evaluator of expression trees and by the machine that runs the
  generated code.  Integers are unbounded: 64-bit wrap-around is not modelled.
 */
module Numbers {
  import opened Wrappers

  predicate IsDigit(c: char)
  {
    '0' <= c <= '9'
  }

  /** A non-empty run of decimal digits, as the scanner produces for a number. */
  predicate IsNumeral(s: string)
  {
    |s| > 0 && forall i :: 0 <= i < |s| ==> IsDigit(s[i])
  }

  function DigitValue(c: char): int
  {
    c as int - '0' as int
  }

  /** The value of a string of decimal digits, most significant digit first. */
  function Decimal(s: string): (n: int)
    ensures IsNumeral(s) ==> 0 <= n
  {
    if s == [] then 0 else 10 * Decimal(s[..|s| - 1]) + DigitValue(s[|s| - 1])
  }

  predicate IsOctalDigit(c: char)
  {
    '0' <= c <= '7'
  }

  /** The value of a string of octal digits, most significant digit first. */
  function Octal(s: string): (n: int)
  {
    if s == [] then 0 else 8 * Octal(s[..|s| - 1]) + DigitValue(s[|s| - 1])
  }

  /**
    How the assembler reads the digits of an `li` immediate.  GNU as and
    LLVM's assembler follow the C convention for integer literals: after a
    leading `0` the digits are octal, and an `8` or `9` there is an error;
    any other run of digits is decimal.
   */
  function AsmLiteral(s: string): (r: Option<int>)
    ensures r.Some? <==>
      IsNumeral(s) && (s[0] == '0' ==> forall i :: 1 <= i < |s| ==> IsOctalDigit(s[i]))
  {
    if !IsNumeral(s) then None
    else if s[0] == '0' then
      if forall i :: 1 <= i < |s| ==> IsOctalDigit(s[i]) then Some(Octal(s[1..])) else None
    else Some(Decimal(s))
  }

  /** A literal with no superfluous leading zero: `0`, or digits not starting with `0`. */
  predicate IsPlainNumeral(s: string)
  {
    IsNumeral(s) && (s[0] == '0' ==> |s| == 1)
  }

  /**
    The assembler reads a literal as its decimal value when it has no
    superfluous leading zero.  A longer literal starting with `0` is read in
    base 8 from its remaining digits.
   */
  lemma AsmLiteralValue(s: string)
    requires IsNumeral(s)
    ensures IsPlainNumeral(s) ==> AsmLiteral(s) == Some(Decimal(s))
    ensures s[0] == '0' && AsmLiteral(s).Some? ==> AsmLiteral(s) == Some(Octal(s[1..]))
  {
    if s == "0" {
      assert s[..0] == [];
    }
  }

  function Abs(x: int): nat
  {
    if x < 0 then -x else x
  }

  /**
    Signed division as the RISC-V `div` instruction performs it: the quotient
    is truncated toward zero, and a zero divisor yields -1 (all bits set).
   */
  function TruncDiv(a: int, b: int): int
  {
    if b == 0 then -1
    else
      var m := Abs(a) / Abs(b);
      if (a < 0) == (b < 0) then m else -m
  }

  /**
    What truncation toward zero means: the remainder is smaller than the
    divisor, the product of quotient and divisor does not exceed the
    dividend in size, and a non-zero remainder has the sign of the dividend.
   */
  lemma TruncDivSpec(a: int, b: int)
    ensures b == 0 ==> TruncDiv(a, b) == -1
    ensures b != 0 ==> Abs(a - TruncDiv(a, b) * b) < Abs(b)
    ensures b != 0 ==> Abs(TruncDiv(a, b) * b) <= Abs(a)
    ensures b != 0 && a - TruncDiv(a, b) * b != 0 ==> (a - TruncDiv(a, b) * b < 0 <==> a < 0)
  {
    if b != 0 {
      var m := Abs(a) / Abs(b);
      TruncDivFacts(a, b, m, TruncDiv(a, b));
    }
  }

  /** The remainder left by a truncated quotient has the sign of the dividend. */
  lemma TruncDivFacts(a: int, b: int, m: int, q: int)
    requires b != 0 && m == Abs(a) / Abs(b)
    requires q == if (a < 0) == (b < 0) then m else -m
    ensures a - q * b == (if a < 0 then -(Abs(a) - m * Abs(b)) else Abs(a) - m * Abs(b))
    ensures 0 <= Abs(a) - m * Abs(b) < Abs(b)
    ensures 0 <= m * Abs(b)
  {
    var x: int, y: int := Abs(a), Abs(b);
    assert x == m * y + x % y;
    assert 0 <= m;
    if a < 0 && b < 0 {
      assert q * b == m * (-y);
    } else if a < 0 {
      assert q * b == (-m) * y;
    } else if b < 0 {
      assert q * b == (-m) * (-y);
    } else {
      assert q * b == m * y;
    }
  }
}
