/** MaskedAddress, its iterator and AddressRange (ecclesia/lib/codec/bits.h, bits.cc) at any word
    width w. The addresses that match a mask are numbered by their free bits: Rank reads the bits
    where the mask is zero as one binary number, and is an order isomorphism onto [0, 2^zeros). */
module MaskedAddresses {
  import opened Bits

  /** MaskedAddress: the bits of addr count only where mask is one. */
  datatype MaskedAddress = MaskedAddress(w: nat, addr: nat, mask: nat) {
    ghost predicate Valid() { addr < Pow2(w) && mask < Pow2(w) }
    function First(): (r: nat) ensures r < Pow2(w) { And(w, addr, mask) }
    function Last(): (r: nat) ensures r < Pow2(w) { Or(w, addr, Not(w, mask)) }
    /** absl::has_single_bit(~mask_ + 1) */
    predicate Contiguous() { HasSingleBit(w, Add(w, Not(w, mask), 1)) }
    /** The addresses this masked address stands for. */
    ghost predicate Matches(x: nat) { x < Pow2(w) && And(w, x, mask) == And(w, addr, mask) }
  }

  predicate HasSingleBit(w: nat, x: nat) {
    exists k: nat | k < w :: x == Pow2(k)
  }

  /** Number of zero bits of the mask, the free bits of an address. */
  function Zeros(w: nat, m: nat): nat {
    if w == 0 then 0 else (1 - m % 2) + Zeros(w - 1, m / 2)
  }

  /** The free bits of x, packed into one number. */
  function Rank(w: nat, x: nat, m: nat): (r: nat)
    ensures r < Pow2(Zeros(w, m))
  {
    if w == 0 then 0
    else if m % 2 == 1 then Rank(w - 1, x / 2, m / 2)
    else x % 2 + 2 * Rank(w - 1, x / 2, m / 2)
  }

  /** The address with the fixed bits of a and free bits r. */
  function Deposit(w: nat, a: nat, m: nat, r: nat): (x: nat)
    ensures x < Pow2(w)
  {
    if w == 0 then 0
    else if m % 2 == 1 then a % 2 + 2 * Deposit(w - 1, a / 2, m / 2, r)
    else r % 2 + 2 * Deposit(w - 1, a / 2, m / 2, r / 2)
  }

  lemma {:induction false} DepositRank(w: nat, a: nat, m: nat, r: nat)
    requires r < Pow2(Zeros(w, m))
    ensures And(w, Deposit(w, a, m, r), m) == And(w, a, m)
    ensures Rank(w, Deposit(w, a, m, r), m) == r
  {
    if w > 0 {
      var r' := if m % 2 == 1 then r else r / 2;
      var x := Deposit(w, a, m, r);
      assert x / 2 == Deposit(w - 1, a / 2, m / 2, r');
      DepositRank(w - 1, a / 2, m / 2, r');
    }
  }

  /** Among addresses that agree on the masked bits, numeric order is rank order. */
  lemma {:induction false} RankOrder(w: nat, x: nat, y: nat, m: nat)
    requires x < Pow2(w) && y < Pow2(w)
    requires And(w, x, m) == And(w, y, m)
    ensures x < y <==> Rank(w, x, m) < Rank(w, y, m)
    ensures x == y <==> Rank(w, x, m) == Rank(w, y, m)
  {
    if w > 0 {
      AndSplit(w, x, y, m);
      RankOrder(w - 1, x / 2, y / 2, m / 2);
    }
  }

  lemma AndSplit(w: nat, x: nat, y: nat, m: nat)
    requires w > 0 && And(w, x, m) == And(w, y, m)
    ensures And(w - 1, x / 2, m / 2) == And(w - 1, y / 2, m / 2)
    ensures m % 2 == 1 ==> x % 2 == y % 2
  {
    assert And(w, x, m) / 2 == And(w - 1, x / 2, m / 2);
    assert And(w, y, m) / 2 == And(w - 1, y / 2, m / 2);
    assert And(w, x, m) % 2 == And(w, y, m) % 2;
  }

  /** The carry-propagation step of iterator::operator++. */
  function Next(w: nat, x: nat, m: nat): (r: nat)
    ensures r < Pow2(w)
  {
    Or(w, And(w, Add(w, Or(w, x, m), 1), Not(w, m)), And(w, x, m))
  }

  /** Adding one carries out of the low bit exactly when it is set. */
  lemma AddOne(w: nat, a: nat)
    requires w > 0 && a < Pow2(w)
    ensures Add(w, a, 1) % 2 == 1 - a % 2
    ensures Add(w, a, 1) / 2 == if a % 2 == 1 then Add(w - 1, a / 2, 1) else a / 2
  {
    AddOneWraps(w, a);
    AddOneWraps(w - 1, a / 2);
  }

  lemma AddOneWraps(w: nat, a: nat)
    requires a < Pow2(w)
    ensures Add(w, a, 1) == if a + 1 == Pow2(w) then 0 else a + 1
  {
    WrapSmall(a + 1, Pow2(w));
  }

  lemma WrapSmall(x: nat, p: nat)
    requires 0 < p && x <= p
    ensures x % p == if x == p then 0 else x
  {
    if x == p { assert x % p == 0; }
  }

  /** The lowest bit of Next, and what is left above it: the carry goes past a bit that is masked
      or already one, and stops at a free zero bit. */
  lemma NextLowBit(w: nat, x: nat, m: nat)
    requires w > 0 && x < Pow2(w) && m < Pow2(w)
    ensures Next(w, x, m) % 2 == if m % 2 == 1 then x % 2 else 1 - x % 2
    ensures Next(w, x, m) / 2 == if m % 2 == 1 || x % 2 == 1 then Next(w - 1, x / 2, m / 2) else x / 2
  {
    var o, n, a := Or(w, x, m), Not(w, m), And(w, x, m);
    assert o / 2 == Or(w - 1, x / 2, m / 2) && n / 2 == Not(w - 1, m / 2) && a / 2 == And(w - 1, x / 2, m / 2);
    AddOne(w, o);
    var s := Add(w, o, 1);
    var t := And(w, s, n);
    assert t / 2 == And(w - 1, s / 2, n / 2);
    assert Or(w, t, a) / 2 == Or(w - 1, t / 2, a / 2);
    SplitRejoin(w - 1, x / 2, m / 2);
  }

  /** What ++ does: it adds one to the number the free bits spell, modulo its range, and leaves the
      masked bits alone. */
  lemma {:induction false} NextCountsUp(w: nat, x: nat, m: nat)
    requires x < Pow2(w) && m < Pow2(w)
    ensures And(w, Next(w, x, m), m) == And(w, x, m)
    ensures Rank(w, Next(w, x, m), m) == if Rank(w, x, m) + 1 == Pow2(Zeros(w, m)) then 0 else Rank(w, x, m) + 1
  {
    if w > 0 {
      NextLowBit(w, x, m);
      if m % 2 == 1 || x % 2 == 1 {
        NextCountsUp(w - 1, x / 2, m / 2);
      }
    }
  }

  lemma {:induction false} SplitRejoin(w: nat, x: nat, m: nat)
    requires x < Pow2(w)
    ensures Or(w, And(w, Or(w, x, m), Not(w, m)), And(w, x, m)) == x
  {
    if w > 0 {
      SplitRejoin(w - 1, x / 2, m / 2);
      var o, n, a := Or(w, x, m), Not(w, m), And(w, x, m);
      assert o / 2 == Or(w - 1, x / 2, m / 2) && n / 2 == Not(w - 1, m / 2) && a / 2 == And(w - 1, x / 2, m / 2);
      var b := And(w, o, n);
      assert b / 2 == And(w - 1, o / 2, n / 2);
    }
  }

  /** The iterator's stop test, (addr_ & ~mask_) == 0, asks whether the free bits are all zero. */
  lemma {:induction false} FreeBitsZero(w: nat, x: nat, m: nat)
    ensures And(w, x, Not(w, m)) == 0 <==> Rank(w, x, m) == 0
  {
    if w > 0 {
      FreeBitsZero(w - 1, x / 2, m / 2);
      assert Not(w, m) / 2 == Not(w - 1, m / 2);
    }
  }

  lemma {:induction false} FirstIsLeast(w: nat, a: nat, m: nat)
    ensures And(w, And(w, a, m), m) == And(w, a, m) && Rank(w, And(w, a, m), m) == 0
  {
    if w > 0 {
      FirstIsLeast(w - 1, a / 2, m / 2);
      assert And(w, a, m) / 2 == And(w - 1, a / 2, m / 2);
    }
  }

  lemma {:induction false} LastIsGreatest(w: nat, a: nat, m: nat)
    ensures And(w, Or(w, a, Not(w, m)), m) == And(w, a, m)
    ensures Rank(w, Or(w, a, Not(w, m)), m) == Pow2(Zeros(w, m)) - 1
  {
    if w > 0 {
      LastIsGreatest(w - 1, a / 2, m / 2);
      var n := Not(w, m);
      var x := Or(w, a, n);
      assert n / 2 == Not(w - 1, m / 2) && n % 2 == 1 - m % 2;
      assert x / 2 == Or(w - 1, a / 2, n / 2) && x % 2 == if m % 2 == 1 then a % 2 else 1;
    }
  }

  /** First() and Last() match, with the lowest and the highest rank. */
  lemma FirstAndLast(w: nat, a: nat, m: nat)
    ensures And(w, And(w, a, m), m) == And(w, a, m) && Rank(w, And(w, a, m), m) == 0
    ensures And(w, Or(w, a, Not(w, m)), m) == And(w, a, m)
    ensures Rank(w, Or(w, a, Not(w, m)), m) == Pow2(Zeros(w, m)) - 1
  {
    FirstIsLeast(w, a, m);
    LastIsGreatest(w, a, m);
  }

  /** MaskedAddress::iterator: the current address, its mask, and the end flag. */
  class Iterator {
    const w: nat
    var addr: nat
    const mask: nat
    var done: bool

    constructor (ma: MaskedAddress)
      requires ma.Valid()
      ensures w == ma.w && mask == ma.mask && addr == ma.First() && !done
    {
      w, mask := ma.w, ma.mask;
      addr, done := ma.First(), false;
    }

    method Increment()
      requires addr < Pow2(w) && mask < Pow2(w)
      modifies this
      ensures addr < Pow2(w) && And(w, addr, mask) == And(w, old(addr), mask)
      ensures done <==> old(done) || Rank(w, old(addr), mask) + 1 == Pow2(Zeros(w, mask))
      ensures var next := Rank(w, old(addr), mask) + 1;
        Rank(w, addr, mask) == if next == Pow2(Zeros(w, mask)) then 0 else next
    {
      NextCountsUp(w, addr, mask);
      FreeBitsZero(w, Next(w, addr, mask), mask);
      addr := Or(w, And(w, Add(w, Or(w, addr, mask), 1), Not(w, mask)), And(w, addr, mask));
      if And(w, addr, Not(w, mask)) == 0 {
        done := true;
      }
    }
  }

  /** Iterating from begin() to end(): every matching address exactly once, in increasing order,
      from First() to Last(), 2^(zero bits of the mask) of them. */
  method Enumerate(ma: MaskedAddress) returns (seen: seq<nat>)
    requires ma.Valid()
    ensures |seen| == Pow2(Zeros(ma.w, ma.mask))
    ensures seen[0] == ma.First() && seen[|seen| - 1] == ma.Last()
    ensures forall i, j :: 0 <= i < j < |seen| ==> seen[i] < seen[j]
    ensures forall x: nat :: x in seen <==> ma.Matches(x)
  {
    var w, m := ma.w, ma.mask;
    var total := Pow2(Zeros(w, m));
    FirstAndLast(w, ma.addr, m);
    var it := new Iterator(ma);
    seen := [];
    while !it.done
      invariant it.w == w && it.mask == m && it.addr < Pow2(w)
      invariant And(w, it.addr, m) == And(w, ma.addr, m)
      invariant if it.done then |seen| == total else |seen| == Rank(w, it.addr, m)
      invariant forall i :: 0 <= i < |seen| ==> ma.Matches(seen[i]) && Rank(w, seen[i], m) == i
      decreases !it.done, total - |seen|
    {
      seen := seen + [it.addr];
      it.Increment();
    }
    forall i, j | 0 <= i < j < |seen| ensures seen[i] < seen[j] {
      RankOrder(w, seen[i], seen[j], m);
    }
    forall x: nat | ma.Matches(x) ensures x in seen {
      RankOrder(w, x, seen[Rank(w, x, m)], m);
    }
    RankOrder(w, seen[0], ma.First(), m);
    RankOrder(w, seen[|seen| - 1], ma.Last(), m);
  }

  /** First() and Last() are the least and the greatest matching address. */
  lemma FirstAndLastBound(ma: MaskedAddress, x: nat)
    requires ma.Valid() && ma.Matches(x)
    ensures ma.First() <= x <= ma.Last()
    ensures ma.Matches(ma.First()) && ma.Matches(ma.Last())
  {
    FirstAndLast(ma.w, ma.addr, ma.mask);
    RankOrder(ma.w, x, ma.First(), ma.mask);
    RankOrder(ma.w, x, ma.Last(), ma.mask);
  }

  /** When the free bits are the low bits, every address from first to last matches. */
  lemma {:induction false} BetweenMatches(w: nat, m: nat, k: nat, a: nat, x: nat)
    requires m < Pow2(w) && Not(w, m) == Pow2(k) - 1
    requires And(w, a, m) <= x <= Or(w, a, Not(w, m)) && x < Pow2(w)
    ensures And(w, x, m) == And(w, a, m)
    ensures k == 0 ==> And(w, a, m) == Or(w, a, Not(w, m))
  {
    FirstAndLast(w, a, m);
    if w > 0 {
      assert Not(w, m) / 2 == Not(w - 1, m / 2);
      assert And(w, a, m) / 2 == And(w - 1, a / 2, m / 2);
      assert Or(w, a, Not(w, m)) / 2 == Or(w - 1, a / 2, Not(w - 1, m / 2));
      BetweenMatches(w - 1, m / 2, if k == 0 then 0 else k - 1, a / 2, x / 2);
    }
  }

  lemma ContiguousIsInterval(ma: MaskedAddress, x: nat)
    requires ma.Valid() && ma.Contiguous() && ma.First() <= x <= ma.Last()
    ensures ma.Matches(x)
  {
    var n := Not(ma.w, ma.mask);
    var k: nat :| k < ma.w && Add(ma.w, n, 1) == Pow2(k);
    WrapSmall(n + 1, Pow2(ma.w));
    BetweenMatches(ma.w, ma.mask, k, ma.addr, x);
  }

  /** The mask bits from bit k on are one, those below are zero and free. */
  ghost predicate LowBitsFree(w: nat, m: nat, k: nat) {
    forall i: nat :: i < w ==> (Bit(m, i) <==> i >= k)
  }

  lemma LowBitsFreeMeaning(w: nat, m: nat, k: nat)
    requires k <= w && m < Pow2(w)
    ensures Not(w, m) == Pow2(k) - 1 <==> LowBitsFree(w, m, k)
  {
    Pow2Monotone(k, w);
    forall i: nat | i < w
      ensures Bit(Not(w, m), i) <==> !Bit(m, i)
      ensures Bit(Pow2(k) - 1, i) <==> i < k
    {
      BitwiseMeaning(w, m, m, i);
      LowMaskBit(k, i);
    }
    if LowBitsFree(w, m, k) { BitsDetermineWord(w, Not(w, m), Pow2(k) - 1); }
  }

  /** Contiguous says that the free bits are some number of low bits, fewer than all. */
  lemma ContiguousMeaning(ma: MaskedAddress)
    requires ma.Valid()
    ensures ma.Contiguous() <==> exists k: nat :: k < ma.w && LowBitsFree(ma.w, ma.mask, k)
  {
    var w, m := ma.w, ma.mask;
    AddOneWraps(w, Not(w, m));
    if ma.Contiguous() {
      var k: nat :| k < w && Add(w, Not(w, m), 1) == Pow2(k);
      LowBitsFreeMeaning(w, m, k);
    }
    if k: nat :| k < w && LowBitsFree(w, m, k) {
      LowBitsFreeMeaning(w, m, k);
      Pow2Less(k, w);
    }
  }

  lemma {:induction false} Pow2Less(a: nat, b: nat)
    requires a < b
    ensures Pow2(a) < Pow2(b)
  {
    Pow2Monotone(a, b - 1);
  }

  lemma OneAddressNoFreeBits(w: nat, a: nat, m: nat)
    requires And(w, a, m) == Or(w, a, Not(w, m))
    ensures Not(w, m) == 0
  {
    forall i: nat | i < w ensures Bit(Not(w, m), i) <==> Bit(0, i) {
      BitwiseMeaning(w, a, m, i);
      BitwiseMeaning(w, a, Not(w, m), i);
      ZeroHasNoBits(i);
    }
    BitsDetermineWord(w, Not(w, m), 0);
  }

  ghost predicate IsBetween(w: nat, a: nat, m: nat, x: nat) {
    And(w, a, m) <= x <= Or(w, a, Not(w, m))
  }

  ghost predicate AllBetweenMatch(w: nat, a: nat, m: nat) {
    forall x: nat :: IsBetween(w, a, m, x) ==> And(w, x, m) == And(w, a, m)
  }

  lemma MaskedLowBit(w: nat, x: nat, m: nat)
    requires w > 0 && m % 2 == 1
    ensures And(w, x, m) % 2 == x % 2
  {
  }

  lemma FixedLowBitIsAlone(w: nat, a: nat, m: nat)
    requires w > 0 && m % 2 == 1 && AllBetweenMatch(w, a, m)
    ensures Not(w, m) == 0
  {
    var first := And(w, a, m);
    FirstAndLast(w, a, m);
    RankOrder(w, first, Or(w, a, Not(w, m)), m);
    if first < Or(w, a, Not(w, m)) {
      assert IsBetween(w, a, m, first + 1);
      MaskedLowBit(w, first + 1, m);
      MaskedLowBit(w, a, m);
    } else {
      OneAddressNoFreeBits(w, a, m);
    }
  }

  lemma HalvesMatch(w: nat, a: nat, m: nat)
    requires w > 0 && m % 2 == 0 && AllBetweenMatch(w, a, m)
    ensures AllBetweenMatch(w - 1, a / 2, m / 2)
  {
    assert Not(w, m) == 1 + 2 * Not(w - 1, m / 2);
    assert And(w, a, m) == 2 * And(w - 1, a / 2, m / 2);
    assert Or(w, a, Not(w, m)) == 1 + 2 * Or(w - 1, a / 2, Not(w - 1, m / 2));
    var w', a', m' := w - 1, a / 2, m / 2;
    forall x: nat | IsBetween(w', a', m', x) ensures And(w', x, m') == And(w', a', m') {
      assert IsBetween(w, a, m, 2 * x);
      assert And(w, 2 * x, m) == 2 * And(w', x, m');
    }
  }

  lemma {:induction false} IntervalHasLowBitsFree(w: nat, a: nat, m: nat) returns (k: nat)
    requires m < Pow2(w) && AllBetweenMatch(w, a, m)
    ensures k <= w && Not(w, m) == Pow2(k) - 1
  {
    k := 0;
    if w > 0 {
      if m % 2 == 1 {
        FixedLowBitIsAlone(w, a, m);
      } else {
        HalvesMatch(w, a, m);
        k := IntervalHasLowBitsFree(w - 1, a / 2, m / 2);
        assert Not(w, m) == 1 + 2 * Not(w - 1, m / 2);
        k := k + 1;
      }
    }
  }

  lemma IntervalIsContiguous(ma: MaskedAddress)
    requires ma.Valid() && ma.mask != 0 && AllBetweenMatch(ma.w, ma.addr, ma.mask)
    ensures ma.Contiguous()
  {
    var k := IntervalHasLowBitsFree(ma.w, ma.addr, ma.mask);
    NotIsComplement(ma.w, ma.mask);
    AddOneWraps(ma.w, Not(ma.w, ma.mask));
    assert k < ma.w;
  }

  /** So it is true exactly when all addresses from first to last match, save for the mask zero that
      fixes nothing, for which it is false. */
  lemma ContiguousIffInterval(ma: MaskedAddress)
    requires ma.Valid() && ma.mask != 0
    ensures ma.Contiguous() <==> AllBetweenMatch(ma.w, ma.addr, ma.mask)
  {
    if ma.Contiguous() {
      forall x: nat | IsBetween(ma.w, ma.addr, ma.mask, x) ensures ma.Matches(x) { ContiguousIsInterval(ma, x); }
    } else if AllBetweenMatch(ma.w, ma.addr, ma.mask) {
      IntervalIsContiguous(ma);
    }
  }

  /** AddressRange: inclusive at both ends, empty when last < first. */
  datatype AddressRange = AddressRange(first: nat, last: nat) {
    predicate Empty() { last < first }

    predicate InRange(address: nat) {
      if Empty() then false else first <= address <= last
    }

    /** AddressRange::CoversMask */
    predicate CoversMask(ma: MaskedAddress) {
      ma.First() >= first && ma.Last() <= last
    }
  }

  /** CoversMask holds exactly when all matching addresses lie in the range. */
  lemma CoversMaskMeaning(range: AddressRange, ma: MaskedAddress)
    requires ma.Valid()
    ensures range.CoversMask(ma) <==> forall x: nat :: ma.Matches(x) ==> range.InRange(x)
  {
    forall x: nat | ma.Matches(x) ensures ma.First() <= x <= ma.Last() {
      FirstAndLastBound(ma, x);
    }
    FirstAndLast(ma.w, ma.addr, ma.mask);
    assert ma.Matches(ma.First()) && ma.Matches(ma.Last());
    FirstAndLastBound(ma, ma.First());
  }

  /** AddressRange::OverlapsMask with its shortcuts and, last, the slow enumeration. */
  method OverlapsMask(range: AddressRange, ma: MaskedAddress) returns (overlaps: bool)
    requires ma.Valid()
    ensures overlaps <==> exists x: nat :: ma.Matches(x) && range.InRange(x)
  {
    FirstAndLast(ma.w, ma.addr, ma.mask);
    assert ma.Matches(ma.First());
    if range.last < range.first {
      return false;
    }
    if range.CoversMask(ma) {
      CoversMaskMeaning(range, ma);
      return true;
    }
    if ma.Contiguous() {
      if ma.First() <= range.first && ma.Last() > range.first {
        ContiguousIsInterval(ma, range.first);
        assert range.InRange(range.first);
        return true;
      }
      if ma.First() < range.last && ma.Last() >= range.last {
        ContiguousIsInterval(ma, range.last);
        assert range.InRange(range.last);
        return true;
      }
    }
    if ma.Last() < range.first || ma.First() > range.last {
      forall x: nat | ma.Matches(x) ensures !range.InRange(x) { FirstAndLastBound(ma, x); }
      return false;
    }
    overlaps := AnyInRange(range, ma);
  }

  /** std::any_of over begin()..end(), stopping at the first hit. */
  method AnyInRange(range: AddressRange, ma: MaskedAddress) returns (found: bool)
    requires ma.Valid()
    ensures found <==> exists x: nat :: ma.Matches(x) && range.first <= x <= range.last
  {
    var w, m := ma.w, ma.mask;
    FirstAndLast(w, ma.addr, m);
    var it := new Iterator(ma);
    while !it.done
      invariant it.w == w && it.mask == m && it.addr < Pow2(w)
      invariant And(w, it.addr, m) == And(w, ma.addr, m)
      invariant forall x: nat :: ma.Matches(x) && (it.done || Rank(w, x, m) < Rank(w, it.addr, m)) ==>
        !(range.first <= x <= range.last)
      decreases !it.done, Pow2(Zeros(w, m)) - Rank(w, it.addr, m)
    {
      if range.first <= it.addr <= range.last {
        assert ma.Matches(it.addr);
        return true;
      }
      var here := it.addr;
      forall x: nat | ma.Matches(x) && Rank(w, x, m) == Rank(w, here, m) ensures x == here {
        RankOrder(w, x, here, m);
      }
      it.Increment();
    }
    found := false;
  }
}
