/** Decimal text of integers, as Go's `%d` and `strconv.FormatInt` write it and
    `strconv.Atoi` reads it, with the width of the Go integer types. */
module Decimal {
  import opened Wrappers

  const MAX_INT32: int := 0x7fff_ffff
  const MAX_INT64: int := 0x7fff_ffff_ffff_ffff

  /** A Go `int32`. */
  type int32 = x: int | -0x8000_0000 <= x <= 0x7fff_ffff

  /** The Go conversion `int32(n)`: keep the low 32 bits, two's complement. */
  function ToInt32(n: int): int32 {
    (n + 0x8000_0000) % 0x1_0000_0000 - 0x8000_0000
  }

  predicate IsDigit(c: char) {
    '0' <= c <= '9'
  }

  predicate AllDigits(s: string) {
    forall i :: 0 <= i < |s| ==> IsDigit(s[i])
  }

  function Format(n: nat): (s: string)
    ensures s != [] && AllDigits(s)
  {
    var last := [('0' as int + n % 10) as char];
    if n < 10 then last else Format(n / 10) + last
  }

  function FormatInt(n: int): string {
    if n < 0 then "-" + Format(-n) else Format(n)
  }

  function Value(s: string): (n: int)
    requires AllDigits(s)
    ensures n >= 0
  {
    if s == [] then 0
    else Value(s[..|s| - 1]) * 10 + (s[|s| - 1] as int - '0' as int)
  }

  lemma {:induction false} ValueOfFormat(n: nat)
    ensures Value(Format(n)) == n
  {
    var s := Format(n);
    if n >= 10 {
      ValueOfFormat(n / 10);
      assert s[..|s| - 1] == Format(n / 10);
    }
  }

  lemma FormatInjective(m: nat, n: nat)
    requires Format(m) == Format(n)
    ensures m == n
  {
    ValueOfFormat(m);
    ValueOfFormat(n);
  }

  /** `strconv.Atoi`: an optional sign, at least one digit, and a value that fits
      in 64 bits; anything else is an error. */
  function Atoi(s: string): Option<int> {
    var negative := s != [] && s[0] == '-';
    var digits := if s != [] && (s[0] == '-' || s[0] == '+') then s[1..] else s;
    if digits == [] || !AllDigits(digits) then None
    else
      var n: int := if negative then -Value(digits) else Value(digits);
      if -MAX_INT64 - 1 <= n <= MAX_INT64 then Some(n) else None
  }

  lemma AtoiOfFormatInt(n: int)
    ensures Atoi(FormatInt(n)) ==
            if -MAX_INT64 - 1 <= n <= MAX_INT64 then Some(n) else None
  {
    if n < 0 {
      AtoiOfNegative(-n);
      assert FormatInt(n) == "-" + Format(-n);
    } else {
      AtoiOfDigits(n);
      assert FormatInt(n) == Format(n);
    }
  }

  lemma AtoiOfDigits(n: nat)
    ensures Atoi(Format(n)) == if n <= MAX_INT64 then Some(n) else None
  {
    var s := Format(n);
    ValueOfFormat(n);
    assert IsDigit(s[0]);
  }

  /** A plus sign is read over. */
  lemma AtoiOfPlus(n: nat)
    ensures Atoi("+" + Format(n)) == if n <= MAX_INT64 then Some(n) else None
  {
    var s := "+" + Format(n);
    ValueOfFormat(n);
    assert s[1..] == Format(n);
  }

  lemma AtoiOfNegative(n: int)
    requires n > 0
    ensures Atoi("-" + Format(n)) == if n <= MAX_INT64 + 1 then Some(-n) else None
  {
    var s := "-" + Format(n);
    ValueOfFormat(n);
    assert s[1..] == Format(n);
  }
}
