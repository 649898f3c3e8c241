/** Decimal numerals: the value of a digit string, its printed form, and absl::SimpleAtoi into a
    32-bit int as the C++ code calls it. */
module Decimal {
  import opened Wrappers

  const INT_MAX := 0x7fff_ffff
  const INT_MIN := -0x8000_0000

  /** absl::ascii_isdigit */
  predicate IsDigit(c: char) { '0' <= c <= '9' }

  predicate AllDigits(s: string) { forall i :: 0 <= i < |s| ==> IsDigit(s[i]) }

  /** The number a digit string spells. */
  function Number(s: string): nat
    requires AllDigits(s)
  {
    if s == [] then 0 else 10 * Number(s[..|s| - 1]) + (s[|s| - 1] as int - '0' as int)
  }

  /** Numerals of one length are injective, leading zeros included. */
  lemma {:induction false} NumberInjective(s: string, t: string)
    requires AllDigits(s) && AllDigits(t) && |s| == |t| && Number(s) == Number(t)
    ensures s == t
  {
    if s != [] {
      NumberInjective(s[..|s| - 1], t[..|t| - 1]);
      assert s == s[..|s| - 1] + [s[|s| - 1]];
      assert t == t[..|t| - 1] + [t[|t| - 1]];
    }
  }

  /** The shortest numeral of n. */
  function Print(n: nat): (s: string)
    ensures s != [] && AllDigits(s) && Number(s) == n
  {
    var last := ('0' as int + n % 10) as char;
    if n < 10 then assert [last][..0] == []; [last]
    else
      var rest := Print(n / 10);
      assert (rest + [last])[..|rest|] == rest;
      rest + [last]
  }

  predicate IsSpace(c: char) { c == ' ' || 9 <= c as int <= 13 }

  function StripLeft(s: string): string {
    if s != [] && IsSpace(s[0]) then StripLeft(s[1..]) else s
  }

  function StripRight(s: string): string {
    if s != [] && IsSpace(s[|s| - 1]) then StripRight(s[..|s| - 1]) else s
  }

  /** absl::SimpleAtoi: surrounding white space, one optional sign, then digits only, in int range. */
  function SimpleAtoi(text: string): Option<int> {
    var s := StripRight(StripLeft(text));
    var signed := s != [] && (s[0] == '-' || s[0] == '+');
    var digits := if signed then s[1..] else s;
    if digits == [] || !AllDigits(digits) then None
    else
      var magnitude: int := Number(digits);
      var value := if signed && s[0] == '-' then -magnitude else magnitude;
      if INT_MIN <= value <= INT_MAX then Some(value) else None
  }

  /** On a bare digit string only the range matters. */
  lemma AtoiOfDigits(s: string)
    requires s != [] && AllDigits(s)
    ensures SimpleAtoi(s) == if Number(s) <= INT_MAX then Some(Number(s)) else None
  {
    assert IsDigit(s[0]) && IsDigit(s[|s| - 1]);
  }

  predicate IsBlank(s: string) { forall i :: 0 <= i < |s| ==> IsSpace(s[i]) }

  lemma {:induction false} StripLeftOf(front: string, s: string)
    requires IsBlank(front) && s != [] && !IsSpace(s[0])
    ensures StripLeft(front + s) == s
  {
    if front == [] {
      assert front + s == s;
    } else {
      assert (front + s)[1..] == front[1..] + s;
      StripLeftOf(front[1..], s);
    }
  }

  lemma {:induction false} StripRightOf(s: string, back: string)
    requires IsBlank(back) && s != [] && !IsSpace(s[|s| - 1])
    ensures StripRight(s + back) == s
  {
    if back == [] {
      assert s + back == s;
    } else {
      assert (s + back)[..|s + back| - 1] == s + back[..|back| - 1];
      StripRightOf(s, back[..|back| - 1]);
    }
  }

  lemma {:induction false} StripLeftLeaves(s: string) returns (front: string)
    ensures IsBlank(front) && s == front + StripLeft(s)
  {
    front := [];
    if s != [] && IsSpace(s[0]) {
      var more := StripLeftLeaves(s[1..]);
      front := [s[0]] + more;
    }
  }

  lemma {:induction false} StripRightLeaves(s: string) returns (back: string)
    ensures IsBlank(back) && s == StripRight(s) + back
  {
    back := [];
    if s != [] && IsSpace(s[|s| - 1]) {
      var more := StripRightLeaves(s[..|s| - 1]);
      back := more + [s[|s| - 1]];
    }
  }

  /** The integer a numeral with a sign stands for, if an int holds it. */
  function Signed(sign: string, digits: string): Option<int>
    requires AllDigits(digits)
  {
    var magnitude: int := Number(digits);
    var value := if sign == "-" then -magnitude else magnitude;
    if -0x8000_0000 <= value <= 0x7fff_ffff then Some(value) else None
  }

  /** A numeral: white space, a sign or none, digits, white space. */
  predicate IsNumeral(text: string, front: string, sign: string, digits: string, back: string) {
    && text == front + (sign + digits) + back && IsBlank(front) && IsBlank(back)
    && (sign == "" || sign == "+" || sign == "-") && digits != [] && AllDigits(digits)
  }

  lemma SignAndDigits(sign: string, digits: string)
    requires (sign == "" || sign == "+" || sign == "-") && digits != [] && AllDigits(digits)
    ensures var core := sign + digits;
      && core != [] && !IsSpace(core[0]) && !IsSpace(core[|core| - 1])
      && (core[0] == '-' <==> sign == "-") && (core[0] == '+' <==> sign == "+")
      && (if core[0] == '-' || core[0] == '+' then core[1..] else core) == digits
  {
    var core := sign + digits;
    assert IsDigit(digits[0]) && IsDigit(digits[|digits| - 1]);
    assert core[|core| - 1] == digits[|digits| - 1];
    if sign == "" {
      assert core == digits;
    } else {
      assert core[0] == sign[0] && core[1..] == digits;
    }
  }

  lemma StripBoth(front: string, core: string, back: string)
    requires IsBlank(front) && IsBlank(back) && core != [] && !IsSpace(core[0]) && !IsSpace(core[|core| - 1])
    ensures StripRight(StripLeft(front + core + back)) == core
  {
    assert front + core + back == front + (core + back) && (core + back)[0] == core[0];
    StripLeftOf(front, core + back);
    StripRightOf(core, back);
  }

  /** SimpleAtoi reads every numeral an int holds, as the integer it stands for. */
  lemma AtoiReadsNumerals(text: string, front: string, sign: string, digits: string, back: string)
    requires IsNumeral(text, front, sign, digits, back)
    ensures SimpleAtoi(text) == Signed(sign, digits)
  {
    SignAndDigits(sign, digits);
    StripBoth(front, sign + digits, back);
  }

  /** And it reads nothing else. */
  lemma AtoiReadsOnlyNumerals(text: string)
    returns (front: string, sign: string, digits: string, back: string)
    requires SimpleAtoi(text).Some?
    ensures IsNumeral(text, front, sign, digits, back)
  {
    front := StripLeftLeaves(text);
    back := StripRightLeaves(StripLeft(text));
    var s := StripRight(StripLeft(text));
    if s[0] == '-' || s[0] == '+' {
      sign, digits := [s[0]], s[1..];
    } else {
      sign, digits := "", s;
    }
    assert s == sign + digits;
    assert text == front + (s + back);
  }

  lemma {:induction false} ZerosAreZero(n: nat)
    ensures AllDigits(seq(n, _ => '0')) && Number(seq(n, _ => '0')) == 0
  {
    if n > 0 {
      assert seq(n, _ => '0')[..n - 1] == seq(n - 1, _ => '0');
      ZerosAreZero(n - 1);
    }
  }
}
