/** NaturalSortCmp of ecclesia/lib/strings/natural_sort.cc, which std::sort relies on to be an order. */
module NaturalSort {
  import opened Wrappers
  import opened Decimal

  /** Length of the maximal digit run s starts with. */
  function RunLength(s: string): (n: nat)
    ensures n <= |s| && AllDigits(s[..n]) && (n < |s| ==> !IsDigit(s[n]))
    ensures n > 0 <==> s != [] && IsDigit(s[0])
  {
    if s == [] || !IsDigit(s[0]) then 0
    else
      var n := 1 + RunLength(s[1..]);
      assert s[..n] == [s[0]] + s[1..][..n - 1];
      n
  }

  function Run(s: string): string { s[..RunLength(s)] }
  function AfterRun(s: string): string { s[RunLength(s)..] }

  /** Conversion of a size_t difference to int: its residue modulo 2^32, read as signed. */
  function ToInt32(x: int): int {
    if INT_MIN <= x <= INT_MAX then x
    else
      var r := x % 0x1_0000_0000;
      if r <= INT_MAX then r else r - 0x1_0000_0000
  }

  function Difference(x: int, y: int, narrow: bool): int {
    if narrow then ToInt32(x - y) else x - y
  }

  /** Every digit run of s fits an int, so that no comparison hits the CHECK. */
  predicate RunsFitInt(s: string)
    decreases |s|
  {
    s == [] || (if IsDigit(s[0]) then Number(Run(s)) <= INT_MAX && RunsFitInt(AfterRun(s)) else RunsFitInt(s[1..]))
  }

  /** The value of the leading run, where it fits an int. */
  function RunValue(s: string): Option<int> {
    if Number(Run(s)) <= INT_MAX then Some(Number(Run(s))) else None
  }

  /** What NaturalSortCmp returns for two strings; None where the CHECK fails. `narrow` says
      whether a difference of run lengths is converted to int. */
  function CompareWith(l: string, r: string, narrow: bool): Option<int>
    decreases |l|
  {
    if l == [] then Some(if r == [] then 0 else -1)
    else if r == [] then Some(1)
    else if IsDigit(l[0]) && IsDigit(r[0]) then
      var x, y := RunValue(l), RunValue(r);
      if x.None? || y.None? then None
      else if x.value != y.value then Some(x.value - y.value)
      else if RunLength(l) != RunLength(r) then Some(Difference(RunLength(r), RunLength(l), narrow))
      else CompareWith(AfterRun(l), AfterRun(r), narrow)
    else if l[0] < r[0] then Some(-1)
    else if r[0] < l[0] then Some(1)
    else CompareWith(l[1..], r[1..], narrow)
  }

  function Compare(l: string, r: string): Option<int> { CompareWith(l, r, true) }

  /** The comparison the code means: run lengths subtracted without losing bits. */
  function Ideal(l: string, r: string): Option<int> { CompareWith(l, r, false) }

  lemma {:induction false} RunLengthIs(s: string, n: nat)
    requires n <= |s| && AllDigits(s[..n]) && (n < |s| ==> !IsDigit(s[n]))
    ensures n == RunLength(s)
  {
    if n > 0 {
      assert IsDigit(s[..n][0]);
      assert s[1..][..n - 1] == s[..n][1..];
      RunLengthIs(s[1..], n - 1);
    }
  }

  method CountDigits(s: string, index: nat) returns (length: nat)
    requires index <= |s|
    ensures length == RunLength(s[index..])
  {
    length := 0;
    while index + length < |s| && IsDigit(s[index + length])
      invariant index + length <= |s| && AllDigits(s[index..][..length])
    {
      assert s[index..][..length + 1] == s[index..][..length] + [s[index + length]];
      length := length + 1;
    }
    RunLengthIs(s[index..], length);
  }

  lemma SkipRun(lhs: string, rhs: string, index: nat, n: nat)
    requires index < |lhs| && index < |rhs| && IsDigit(lhs[index]) && IsDigit(rhs[index])
    requires n == RunLength(lhs[index..]) == RunLength(rhs[index..])
    requires RunValue(lhs[index..]) == RunValue(rhs[index..]) != None
    ensures Compare(lhs[index..], rhs[index..]) == Compare(lhs[index + n..], rhs[index + n..])
  {
    DropDrop(lhs, index, n);
    DropDrop(rhs, index, n);
  }

  lemma SkipChar(lhs: string, rhs: string, index: nat)
    requires index < |lhs| && index < |rhs| && lhs[index] == rhs[index] && !IsDigit(lhs[index])
    ensures Compare(lhs[index..], rhs[index..]) == Compare(lhs[index + 1..], rhs[index + 1..])
  {
    var l, r := lhs[index..], rhs[index..];
    assert l[0] == r[0] == lhs[index];
    DropDrop(lhs, index, 1);
    DropDrop(rhs, index, 1);
  }

  /** SimpleAtoi on the run s starts with. */
  method ParseRun(s: string, length: nat) returns (value: Option<int>)
    requires length == RunLength(s) > 0
    ensures value == RunValue(s)
  {
    AtoiOfDigits(s[..length]);
    value := SimpleAtoi(s[..length]);
  }

  /** Compare the digit runs at index; undecided when they are the same. */
  method CompareRuns(lhs: string, rhs: string, index: nat) returns (decided: bool, result: Option<int>, length: nat)
    requires index < |lhs| && index < |rhs| && IsDigit(lhs[index]) && IsDigit(rhs[index])
    ensures decided ==> result == Compare(lhs[index..], rhs[index..])
    ensures !decided ==>
      && 0 < length && index + length <= |lhs| && index + length <= |rhs|
      && Compare(lhs[index..], rhs[index..]) == Compare(lhs[index + length..], rhs[index + length..])
  {
    var lhsLength := CountDigits(lhs, index);
    var rhsLength := CountDigits(rhs, index);
    var lhsNum := ParseRun(lhs[index..], lhsLength);
    var rhsNum := ParseRun(rhs[index..], rhsLength);
    length := lhsLength;
    if lhsNum.None? || rhsNum.None? {
      return true, None, length;
    }
    if lhsNum.value != rhsNum.value {
      return true, Some(lhsNum.value - rhsNum.value), length;
    } else if lhsLength != rhsLength {
      return true, Some(Difference(rhsLength, lhsLength, true)), length;
    }
    SkipRun(lhs, rhs, index, lhsLength);
    return false, None, length;
  }

  lemma CharDecides(lhs: string, rhs: string, index: nat)
    requires index < |lhs| && index < |rhs| && lhs[index] != rhs[index] && !(IsDigit(lhs[index]) && IsDigit(rhs[index]))
    ensures Compare(lhs[index..], rhs[index..]) == Some(if lhs[index] < rhs[index] then -1 else 1)
  {
    var l, r := lhs[index..], rhs[index..];
    assert l[0] == lhs[index] && r[0] == rhs[index];
  }

  lemma EndDecides(lhs: string, rhs: string, index: nat)
    requires index <= |lhs| && index <= |rhs| && (index == |lhs| || index == |rhs|)
    ensures Compare(lhs[index..], rhs[index..]) == Some(if index < |lhs| then 1 else if index < |rhs| then -1 else 0)
  {
  }

  /** One turn of the loop: a verdict, or how far both strings agree from index on. */
  method CompareAt(lhs: string, rhs: string, index: nat) returns (decided: bool, result: Option<int>, length: nat)
    requires index < |lhs| && index < |rhs|
    ensures decided ==> result == Compare(lhs[index..], rhs[index..])
    ensures !decided ==>
      && 0 < length && index + length <= |lhs| && index + length <= |rhs|
      && Compare(lhs[index..], rhs[index..]) == Compare(lhs[index + length..], rhs[index + length..])
  {
    if IsDigit(lhs[index]) && IsDigit(rhs[index]) {
      decided, result, length := CompareRuns(lhs, rhs, index);
    } else if lhs[index] < rhs[index] {
      CharDecides(lhs, rhs, index);
      return true, Some(-1), 0;
    } else if rhs[index] < lhs[index] {
      CharDecides(lhs, rhs, index);
      return true, Some(1), 0;
    } else {
      SkipChar(lhs, rhs, index);
      return false, None, 1;
    }
  }

  method NaturalSortCmp(lhs: string, rhs: string) returns (result: Option<int>)
    ensures result == Compare(lhs, rhs)
  {
    var index := 0;
    ghost var goal := Compare(lhs, rhs);
    assert lhs[0..] == lhs && rhs[0..] == rhs;
    while index < |lhs| && index < |rhs|
      invariant index <= |lhs| && index <= |rhs|
      invariant Compare(lhs[index..], rhs[index..]) == goal
    {
      var decided, verdict, length := CompareAt(lhs, rhs, index);
      if decided {
        return verdict;
      }
      index := index + length;
    }
    EndDecides(lhs, rhs, index);
    if index < |lhs| { return Some(1); }
    if index < |rhs| { return Some(-1); }
    result := Some(0);
  }

  // ---- The ideal comparison is a total order ------------------------------------------------------

  lemma {:induction false} IdealDefined(l: string, r: string)
    requires RunsFitInt(l) && RunsFitInt(r)
    ensures Ideal(l, r).Some?
    decreases |l|
  {
    if l != [] && r != [] {
      if IsDigit(l[0]) && IsDigit(r[0]) {
        IdealDefined(AfterRun(l), AfterRun(r));
      } else if l[0] == r[0] {
        IdealDefined(l[1..], r[1..]);
      }
    }
  }

  lemma SplitRun(s: string)
    ensures s == Run(s) + AfterRun(s)
  {
  }

  lemma {:induction false} IdealZeroIffEqual(l: string, r: string)
    requires RunsFitInt(l) && RunsFitInt(r)
    ensures Ideal(l, r) == Some(0) <==> l == r
    decreases |l|
  {
    if l != [] && r != [] {
      if IsDigit(l[0]) && IsDigit(r[0]) {
        SplitRun(l);
        SplitRun(r);
        if RunLength(l) == RunLength(r) && Number(Run(l)) == Number(Run(r)) {
          NumberInjective(Run(l), Run(r));
          IdealZeroIffEqual(AfterRun(l), AfterRun(r));
        }
      } else if l[0] == r[0] {
        assert l == [l[0]] + l[1..] && r == [r[0]] + r[1..];
        IdealZeroIffEqual(l[1..], r[1..]);
      }
    }
  }

  lemma {:induction false} IdealFlips(l: string, r: string)
    requires RunsFitInt(l) && RunsFitInt(r)
    ensures Ideal(l, r).Some? && Ideal(r, l) == Some(-Ideal(l, r).value)
    decreases |l|
  {
    IdealDefined(l, r);
    if l != [] && r != [] {
      if IsDigit(l[0]) && IsDigit(r[0]) {
        IdealFlips(AfterRun(l), AfterRun(r));
      } else if l[0] == r[0] {
        IdealFlips(l[1..], r[1..]);
      }
    }
  }

  predicate IdealLess(l: string, r: string) { Ideal(l, r).Some? && Ideal(l, r).value < 0 }

  lemma {:induction false} IdealTransitive(a: string, b: string, c: string)
    requires RunsFitInt(a) && RunsFitInt(b) && RunsFitInt(c)
    requires IdealLess(a, b) && IdealLess(b, c)
    ensures IdealLess(a, c)
    decreases |a|
  {
    if a != [] {
      if IsDigit(a[0]) && IsDigit(b[0]) && IsDigit(c[0]) {
        if Number(Run(a)) == Number(Run(b)) == Number(Run(c)) && RunLength(a) == RunLength(b) == RunLength(c) {
          IdealTransitive(AfterRun(a), AfterRun(b), AfterRun(c));
        }
      } else if a[0] == b[0] == c[0] {
        IdealTransitive(a[1..], b[1..], c[1..]);
      }
    }
  }

  // ---- What the conversion to int does to it ---------------------------------------------------------

  lemma SmallFits(x: int)
    ensures ToInt32(x) == x <==> INT_MIN <= x <= INT_MAX
  {
  }

  lemma ValuesDecide(l: string, r: string, narrow: bool)
    requires l != [] && r != [] && IsDigit(l[0]) && IsDigit(r[0])
    requires RunValue(l).Some? && RunValue(r).Some? && RunValue(l) != RunValue(r)
    ensures CompareWith(l, r, narrow) == Some(RunValue(l).value - RunValue(r).value)
  {
  }

  lemma LengthsDecide(l: string, r: string, narrow: bool)
    requires l != [] && r != [] && IsDigit(l[0]) && IsDigit(r[0])
    requires RunValue(l) == RunValue(r) != None && RunLength(l) != RunLength(r)
    ensures CompareWith(l, r, narrow) == Some(Difference(RunLength(r), RunLength(l), narrow))
  {
  }

  /** Two unequal digit runs. */
  lemma NarrowedRuns(l: string, r: string)
    requires l != [] && r != [] && IsDigit(l[0]) && IsDigit(r[0])
    requires Number(Run(l)) != Number(Run(r)) || RunLength(l) != RunLength(r)
    ensures Compare(l, r).Some? <==> Ideal(l, r).Some?
    ensures Ideal(l, r).Some? ==> Compare(l, r) == Some(ToInt32(Ideal(l, r).value))
  {
    if RunValue(l).Some? && RunValue(r).Some? {
      if RunValue(l) != RunValue(r) {
        ValuesDecide(l, r, true);
        ValuesDecide(l, r, false);
        SmallFits(RunValue(l).value - RunValue(r).value);
      } else {
        LengthsDecide(l, r, true);
        LengthsDecide(l, r, false);
      }
    }
  }

  /** Compare is Ideal with its result converted to int. */
  lemma {:induction false} CompareIsNarrowedIdeal(l: string, r: string)
    ensures Compare(l, r).Some? <==> Ideal(l, r).Some?
    ensures Ideal(l, r).Some? ==> Compare(l, r) == Some(ToInt32(Ideal(l, r).value))
    decreases |l|
  {
    if l != [] && r != [] {
      if IsDigit(l[0]) && IsDigit(r[0]) {
        if Number(Run(l)) == Number(Run(r)) && RunLength(l) == RunLength(r) {
          NumberInjective(Run(l), Run(r));
          CompareIsNarrowedIdeal(AfterRun(l), AfterRun(r));
        } else {
          NarrowedRuns(l, r);
        }
      } else if l[0] == r[0] {
        CompareIsNarrowedIdeal(l[1..], r[1..]);
      }
    }
  }

  /** Exactly when the conversion is harmless: the ideal result fits an int. */
  lemma CompareIsIdealIffItFits(l: string, r: string)
    requires RunsFitInt(l) && RunsFitInt(r)
    ensures Ideal(l, r).Some?
    ensures Compare(l, r) == Ideal(l, r) <==> INT_MIN <= Ideal(l, r).value <= INT_MAX
    ensures Compare(l, r) == Some(0) <==> Ideal(l, r).value % 0x1_0000_0000 == 0
  {
    IdealDefined(l, r);
    CompareIsNarrowedIdeal(l, r);
    SmallFits(Ideal(l, r).value);
  }

  /** It is for all strings an int can measure. */
  lemma {:induction false} IdealIsBounded(l: string, r: string)
    requires RunsFitInt(l) && RunsFitInt(r) && |l| <= INT_MAX && |r| <= INT_MAX
    ensures Ideal(l, r).Some? && -INT_MAX <= Ideal(l, r).value <= INT_MAX
    decreases |l|
  {
    IdealDefined(l, r);
    if l != [] && r != [] {
      if IsDigit(l[0]) && IsDigit(r[0]) {
        IdealIsBounded(AfterRun(l), AfterRun(r));
      } else if l[0] == r[0] {
        IdealIsBounded(l[1..], r[1..]);
      }
    }
  }

  /** Strings the comparison orders: digit runs fit an int, and so does the length. */
  predicate Sortable(s: string) { RunsFitInt(s) && |s| <= INT_MAX }

  /** NaturalSortCmp is a total order on sortable strings. */
  lemma CompareIsTotalOrder(a: string, b: string, c: string)
    requires Sortable(a) && Sortable(b) && Sortable(c)
    ensures Compare(a, b).Some? && (Compare(a, b) == Some(0) <==> a == b)
    ensures Compare(b, a) == Some(-Compare(a, b).value)
    ensures Compare(b, c).Some? && Compare(a, b).value < 0 && Compare(b, c).value < 0 ==>
      Compare(a, c).Some? && Compare(a, c).value < 0
  {
    IdealIsBounded(a, b);
    IdealIsBounded(b, a);
    IdealIsBounded(b, c);
    IdealIsBounded(a, c);
    CompareIsIdealIffItFits(a, b);
    CompareIsIdealIffItFits(b, a);
    CompareIsIdealIffItFits(b, c);
    CompareIsIdealIffItFits(a, c);
    IdealZeroIffEqual(a, b);
    IdealFlips(a, b);
    if Ideal(a, b).value < 0 && Ideal(b, c).value < 0 { IdealTransitive(a, b, c); }
  }

  /** On longer strings it is not: two zero runs whose lengths differ by 2^32 compare equal. */
  lemma LongZerosCompareEqual()
    ensures var l, r := seq(0x1_0000_0001, _ => '0'), "0";
      RunsFitInt(l) && RunsFitInt(r) && l != r && Compare(l, r) == Some(0)
  {
    ZerosCompareByLength(0x1_0000_0001);
  }

  lemma ZerosCompareByLength(n: nat)
    requires n > 1
    ensures var l, r := seq(n, _ => '0'), "0";
      RunsFitInt(l) && RunsFitInt(r) && Compare(l, r) == Some(ToInt32(1 - n))
  {
    var l, r := seq(n, _ => '0'), "0";
    ZerosAreZero(n);
    ZerosAreZero(1);
    assert seq(1, _ => '0') == r;
    RunLengthIs(l, n);
    RunLengthIs(r, 1);
    assert Run(l) == l && Run(r) == r;
  }

  // ---- What the order is ------------------------------------------------------------------------------

  /** The digit run a comes before the digit run b: by value, or with more leading zeros. */
  predicate RunBefore(a: string, b: string)
    requires AllDigits(a) && AllDigits(b)
  {
    Number(a) < Number(b) || (Number(a) == Number(b) && |a| > |b|)
  }

  predicate StartsWithDigit(s: string) { s != [] && IsDigit(s[0]) }
  predicate EndsWithDigit(s: string) { s != [] && IsDigit(s[|s| - 1]) }

  /** A run that ends in front does not go on in rest. */
  predicate RunsEnd(front: string, rest: string) { EndsWithDigit(front) ==> !StartsWithDigit(rest) }

  /** A common front does not matter. */
  lemma {:induction false} CommonFront(front: string, l: string, r: string)
    requires RunsFitInt(front) && RunsEnd(front, l) && RunsEnd(front, r)
    ensures Ideal(front + l, front + r) == Ideal(l, r)
    decreases |front|
  {
    if front == [] {
      assert front + l == l && front + r == r;
    } else if IsDigit(front[0]) {
      CommonRun(front, l, r);
      assert EndsWithDigit(AfterRun(front)) ==> EndsWithDigit(front);
      CommonFront(AfterRun(front), l, r);
    } else {
      CommonChar(front, l, r);
      CommonFront(front[1..], l, r);
    }
  }

  /** Behind a common front, the difference of two numbers decides, or else that of the lengths of
      their runs, whatever follows them. */
  lemma NumbersDiffer(front: string, a: string, b: string, x: string, y: string)
    requires RunsFitInt(front) && !EndsWithDigit(front) && !StartsWithDigit(x) && !StartsWithDigit(y)
    requires a != [] && b != [] && AllDigits(a) && AllDigits(b) && Number(a) <= INT_MAX && Number(b) <= INT_MAX
    requires Number(a) != Number(b) || |a| != |b|
    ensures Ideal(front + (a + x), front + (b + y))
      == Some(if Number(a) != Number(b) then Number(a) - Number(b) else |b| - |a|)
  {
    CommonFront(front, a + x, b + y);
    LeadingNumbersDiffer(a, b, x, y);
  }

  /** Behind a common front that no run crosses, characters of which at least one is no digit order
      strings by their codes, whatever follows. */
  lemma CharsDecide(front: string, c: char, d: char, x: string, y: string)
    requires c != d && !(IsDigit(c) && IsDigit(d)) && RunsEnd(front, [c]) && RunsEnd(front, [d])
    requires RunsFitInt(front)
    ensures Compare(front + ([c] + x), front + ([d] + y)) == Some(if c < d then -1 else 1)
  {
    var l, r := [c] + x, [d] + y;
    CommonFront(front, l, r);
    assert Ideal(l, r) == Some(if c < d then -1 else 1);
    CompareIsNarrowedIdeal(front + l, front + r);
  }

  /** A string comes before those that continue it, unless they continue its last run. */
  lemma FrontComesFirst(front: string, rest: string)
    requires RunsFitInt(front) && rest != [] && RunsEnd(front, rest)
    ensures Compare(front, front + rest) == Some(-1) && Compare(front + rest, front) == Some(1)
  {
    CommonFront(front, [], rest);
    CommonFront(front, rest, []);
    assert front + [] == front;
    CompareIsNarrowedIdeal(front, front + rest);
    CompareIsNarrowedIdeal(front + rest, front);
  }

  /** A run beyond an int that meets another run, behind a common front, fails the CHECK, be the other
      one the same or not. */
  lemma HugeRunFails(front: string, a: string, b: string, x: string, y: string)
    requires RunsFitInt(front) && !EndsWithDigit(front) && !StartsWithDigit(x) && !StartsWithDigit(y)
    requires a != [] && b != [] && AllDigits(a) && AllDigits(b) && (Number(a) > INT_MAX || Number(b) > INT_MAX)
    ensures Compare(front + (a + x), front + (b + y)) == None
  {
    var l, r := a + x, b + y;
    CommonFront(front, l, r);
    LeadingRun(a, x);
    LeadingRun(b, y);
    assert l[0] == a[0] && r[0] == b[0] && IsDigit(a[0]) && IsDigit(b[0]);
    CompareIsNarrowedIdeal(front + l, front + r);
  }

  lemma LeadingNumbersDiffer(a: string, b: string, x: string, y: string)
    requires !StartsWithDigit(x) && !StartsWithDigit(y)
    requires a != [] && b != [] && AllDigits(a) && AllDigits(b) && Number(a) <= INT_MAX && Number(b) <= INT_MAX
    requires Number(a) != Number(b) || |a| != |b|
    ensures Ideal(a + x, b + y) == Some(if Number(a) != Number(b) then Number(a) - Number(b) else |b| - |a|)
  {
    var l, r := a + x, b + y;
    LeadingRun(a, x);
    LeadingRun(b, y);
    assert l[0] == a[0] && r[0] == b[0] && IsDigit(a[0]) && IsDigit(b[0]);
    if Number(a) != Number(b) { ValuesDecide(l, r, false); } else { LengthsDecide(l, r, false); }
  }

  /** Behind a common front, NaturalSortCmp orders by the first differing number: by value, and by
      leading zeros between equal values, whatever follows. */
  lemma NumbersDecide(front: string, a: string, b: string, x: string, y: string)
    requires !EndsWithDigit(front) && !StartsWithDigit(x) && !StartsWithDigit(y)
    requires a != [] && b != [] && AllDigits(a) && AllDigits(b) && RunBefore(a, b)
    requires Sortable(front + (a + x)) && Sortable(front + (b + y))
    ensures var l, r := front + (a + x), front + (b + y); Compare(l, r).Some? && Compare(l, r).value < 0
  {
    var l, r := front + (a + x), front + (b + y);
    FrontFits(front, a, x);
    FrontFits(front, b, y);
    NumbersDiffer(front, a, b, x, y);
    IdealIsBounded(l, r);
    CompareIsIdealIffItFits(l, r);
  }

  lemma {:induction false} FrontFits(front: string, a: string, x: string)
    requires RunsFitInt(front + (a + x)) && !EndsWithDigit(front) && !StartsWithDigit(x)
    requires a != [] && AllDigits(a)
    ensures RunsFitInt(front) && Number(a) <= INT_MAX
    decreases |front|
  {
    var s := front + (a + x);
    if front == [] {
      assert s == a + x && s[0] == a[0];
      LeadingRun(a, x);
    } else if IsDigit(front[0]) {
      RunInFront(front, a + x);
      assert EndsWithDigit(AfterRun(front)) ==> EndsWithDigit(front);
      FrontFits(AfterRun(front), a, x);
    } else {
      assert s[1..] == front[1..] + (a + x);
      FrontFits(front[1..], a, x);
    }
  }

  // ---- Which strings the conversion confuses ----------------------------------------------------------

  /** Behind a common front, l and r go on with runs a and b of equal value but different length. */
  ghost predicate RunsClash(l: string, r: string, front: string, a: string, b: string, x: string, y: string) {
    && l == front + (a + x) && r == front + (b + y)
    && !EndsWithDigit(front) && !StartsWithDigit(x) && !StartsWithDigit(y)
    && a != [] && b != [] && AllDigits(a) && AllDigits(b) && Number(a) == Number(b) && |a| != |b|
  }

  /** The difference of those lengths is more than an int holds. */
  ghost predicate ClashesBeyondInt(l: string, r: string) {
    exists front, a, b, x, y :: RunsClash(l, r, front, a, b, x, y) && !(INT_MIN <= |b| - |a| <= INT_MAX)
  }

  lemma SameRuns(l: string, r: string)
    requires l != [] && r != [] && IsDigit(l[0]) && IsDigit(r[0]) && RunLength(l) == RunLength(r)
    requires Ideal(l, r).Some? && !(INT_MIN <= Ideal(l, r).value <= INT_MAX)
    ensures Run(l) == Run(r) && EndsWithDigit(Run(l)) && Ideal(l, r) == Ideal(AfterRun(l), AfterRun(r))
    ensures l == Run(l) + AfterRun(l) && r == Run(l) + AfterRun(r)
    ensures !StartsWithDigit(AfterRun(l))
  {
    NumberInjective(Run(l), Run(r));
    SplitRun(l);
    SplitRun(r);
  }

  lemma SameChars(l: string, r: string)
    requires l != [] && r != [] && !(IsDigit(l[0]) && IsDigit(r[0]))
    requires Ideal(l, r).Some? && !(INT_MIN <= Ideal(l, r).value <= INT_MAX)
    ensures l == [l[0]] + l[1..] && r == [l[0]] + r[1..] && !IsDigit(l[0])
    ensures Ideal(l, r) == Ideal(l[1..], r[1..])
  {
  }

  lemma DifferentRuns(l: string, r: string)
    requires l != [] && r != [] && IsDigit(l[0]) && IsDigit(r[0]) && RunLength(l) != RunLength(r)
    requires Ideal(l, r).Some? && !(INT_MIN <= Ideal(l, r).value <= INT_MAX)
    ensures RunsClash(l, r, [], Run(l), Run(r), AfterRun(l), AfterRun(r))
    ensures Ideal(l, r).value == |Run(r)| - |Run(l)|
  {
    SplitRun(l);
    SplitRun(r);
    assert [] + l == l && [] + r == r;
  }

  lemma ClashBehind(more: string, l: string, r: string, front: string, a: string, b: string, x: string, y: string)
    requires RunsClash(l, r, front, a, b, x, y) && (EndsWithDigit(more) ==> !StartsWithDigit(l))
    ensures RunsClash(more + l, more + r, more + front, a, b, x, y)
  {
    assert more + l == more + front + (a + x) && more + r == more + front + (b + y);
    if front == [] { assert l[0] == a[0]; }
  }

  /** A comparison beyond the range of int was decided by the lengths of two runs. */
  lemma {:induction false} FindClash(l: string, r: string)
    returns (front: string, a: string, b: string, x: string, y: string)
    requires Ideal(l, r).Some? && !(INT_MIN <= Ideal(l, r).value <= INT_MAX)
    ensures RunsClash(l, r, front, a, b, x, y) && Ideal(l, r).value == |b| - |a|
    decreases |l|
  {
    if IsDigit(l[0]) && IsDigit(r[0]) && RunLength(l) != RunLength(r) {
      DifferentRuns(l, r);
      return [], Run(l), Run(r), AfterRun(l), AfterRun(r);
    }
    var more, l', r';
    if IsDigit(l[0]) && IsDigit(r[0]) {
      SameRuns(l, r);
      more, l', r' := Run(l), AfterRun(l), AfterRun(r);
    } else {
      SameChars(l, r);
      more, l', r' := [l[0]], l[1..], r[1..];
    }
    front, a, b, x, y := FindClash(l', r');
    ClashBehind(more, l', r', front, a, b, x, y);
    front := more + front;
  }

  /** NaturalSortCmp returns what it means to exactly when no two runs of equal value, behind a common
      front, differ in length by more than an int holds. */
  lemma CompareIsIdealIffNoClash(l: string, r: string)
    requires RunsFitInt(l) && RunsFitInt(r)
    ensures Compare(l, r) == Ideal(l, r) <==> !ClashesBeyondInt(l, r)
  {
    CompareIsIdealIffItFits(l, r);
    if !(INT_MIN <= Ideal(l, r).value <= INT_MAX) {
      var front, a, b, x, y := FindClash(l, r);
    }
    if front, a, b, x, y :| RunsClash(l, r, front, a, b, x, y) && !(INT_MIN <= |b| - |a| <= INT_MAX) {
      FrontFits(front, a, x);
      FrontFits(front, b, y);
      NumbersDiffer(front, a, b, x, y);
    }
  }

  lemma CommonRun(front: string, l: string, r: string)
    requires front != [] && IsDigit(front[0]) && Number(Run(front)) <= INT_MAX
    requires RunsEnd(front, l) && RunsEnd(front, r)
    ensures Ideal(front + l, front + r) == Ideal(AfterRun(front) + l, AfterRun(front) + r)
  {
    RunInFront(front, l);
    RunInFront(front, r);
    assert (front + l)[0] == (front + r)[0] == front[0];
  }

  lemma CommonChar(front: string, l: string, r: string)
    requires front != [] && !IsDigit(front[0])
    ensures Ideal(front + l, front + r) == Ideal(front[1..] + l, front[1..] + r)
  {
    assert (front + l)[1..] == front[1..] + l && (front + r)[1..] == front[1..] + r;
    assert (front + l)[0] == (front + r)[0] == front[0];
  }

  lemma LeadingRun(a: string, x: string)
    requires AllDigits(a) && !StartsWithDigit(x)
    ensures RunLength(a + x) == |a| && Run(a + x) == a
  {
    assert (a + x)[..|a|] == a;
    RunLengthIs(a + x, |a|);
  }

  lemma RunInFront(front: string, rest: string)
    requires front != [] && RunsEnd(front, rest)
    ensures RunLength(front + rest) == RunLength(front) && Run(front + rest) == Run(front)
    ensures AfterRun(front + rest) == AfterRun(front) + rest
  {
    var n := RunLength(front);
    assert front[|front| - 1] == front[..|front|][|front| - 1];
    assert (front + rest)[..n] == front[..n];
    RunLengthIs(front + rest, n);
  }
}
