/** Fixed-width unsigned words as naturals below Pow2(w), with the bitwise operators of
    ecclesia/lib/codec/bits.h written out bit by bit, least significant bit first.
    Every result holds at any width w; the C++ code uses w == 64 (addresses) and w == 32. */
module Bits {

  function Pow2(n: nat): (p: nat)
    ensures p >= 1
  {
    if n == 0 then 1 else 2 * Pow2(n - 1)
  }

  /** Bit i of x. */
  predicate Bit(x: nat, i: nat) {
    if i == 0 then x % 2 == 1 else Bit(x / 2, i - 1)
  }

  function And(w: nat, a: nat, b: nat): (r: nat)
    ensures r < Pow2(w)
  {
    if w == 0 then 0 else (if a % 2 == 1 && b % 2 == 1 then 1 else 0) + 2 * And(w - 1, a / 2, b / 2)
  }

  function Or(w: nat, a: nat, b: nat): (r: nat)
    ensures r < Pow2(w)
  {
    if w == 0 then 0 else (if a % 2 == 1 || b % 2 == 1 then 1 else 0) + 2 * Or(w - 1, a / 2, b / 2)
  }

  function Not(w: nat, a: nat): (r: nat)
    ensures r < Pow2(w)
  {
    if w == 0 then 0 else (1 - a % 2) + 2 * Not(w - 1, a / 2)
  }

  /** Addition with the wrap-around of an unsigned w-bit word. */
  function Add(w: nat, a: nat, b: nat): (r: nat)
    ensures r < Pow2(w)
  {
    (a + b) % Pow2(w)
  }

  lemma {:induction false} BitwiseMeaning(w: nat, a: nat, b: nat, i: nat)
    ensures Bit(And(w, a, b), i) <==> i < w && Bit(a, i) && Bit(b, i)
    ensures Bit(Or(w, a, b), i) <==> i < w && (Bit(a, i) || Bit(b, i))
    ensures Bit(Not(w, a), i) <==> i < w && !Bit(a, i)
  {
    if w == 0 {
      ZeroHasNoBits(i);
    } else if i > 0 {
      BitwiseMeaning(w - 1, a / 2, b / 2, i - 1);
      assert And(w, a, b) / 2 == And(w - 1, a / 2, b / 2);
      assert Or(w, a, b) / 2 == Or(w - 1, a / 2, b / 2);
      assert Not(w, a) / 2 == Not(w - 1, a / 2);
    }
  }

  lemma {:induction false} ZeroHasNoBits(i: nat)
    ensures !Bit(0, i)
  {
    if i > 0 { ZeroHasNoBits(i - 1); }
  }

  /** Words are determined by their bits, so BitwiseMeaning pins the operators down. */
  lemma {:induction false} BitsDetermineWord(w: nat, x: nat, y: nat)
    requires x < Pow2(w) && y < Pow2(w)
    requires forall i: nat :: i < w ==> (Bit(x, i) <==> Bit(y, i))
    ensures x == y
  {
    if w > 0 {
      assert Bit(x, 0) <==> Bit(y, 0);
      forall i: nat | i < w - 1 ensures Bit(x / 2, i) <==> Bit(y / 2, i) {
        assert Bit(x, i + 1) <==> Bit(y, i + 1);
      }
      BitsDetermineWord(w - 1, x / 2, y / 2);
    }
  }

  lemma {:induction false} NotIsComplement(w: nat, a: nat)
    requires a < Pow2(w)
    ensures Not(w, a) == Pow2(w) - 1 - a
  {
    if w > 0 { NotIsComplement(w - 1, a / 2); }
  }

  /** x >> k. */
  function ShiftRight(x: nat, k: nat): nat {
    if k == 0 then x else ShiftRight(x / 2, k - 1)
  }

  lemma {:induction false} ShiftRightBit(x: nat, k: nat, i: nat)
    ensures Bit(ShiftRight(x, k), i) == Bit(x, k + i)
  {
    if k > 0 { ShiftRightBit(x / 2, k - 1, i); }
  }

  /** A run of k low one bits masks off everything above bit k. */
  lemma {:induction false} LowMaskBit(k: nat, i: nat)
    ensures Bit(Pow2(k) - 1, i) <==> i < k
  {
    if k == 0 {
      ZeroHasNoBits(i);
    } else if i > 0 {
      assert (Pow2(k) - 1) / 2 == Pow2(k - 1) - 1;
      LowMaskBit(k - 1, i - 1);
    }
  }

  /** ExtractBits for an unsigned type of w bits, with its guards against over-long shifts. */
  function ExtractBits(w: nat, value: nat, hi: nat, lo: nat): nat
    requires value < Pow2(w)
  {
    if hi < lo then
      0
    else
      var shifted := if lo < w then ShiftRight(value, lo) else 0;
      var mask := if hi - lo + 1 < w then Pow2(hi - lo + 1) - 1 else Pow2(w) - 1;
      And(w, shifted, mask)
  }

  lemma ExtractBitsMeaning(w: nat, value: nat, hi: nat, lo: nat, i: nat)
    requires value < Pow2(w)
    ensures Bit(ExtractBits(w, value, hi, lo), i) <==> lo + i <= hi && lo + i < w && Bit(value, lo + i)
  {
    ZeroHasNoBits(i);
    if lo <= hi {
      var shifted := if lo < w then ShiftRight(value, lo) else 0;
      var width := if hi - lo + 1 < w then hi - lo + 1 else w;
      BitwiseMeaning(w, shifted, Pow2(width) - 1, i);
      LowMaskBit(width, i);
      ShiftRightBit(value, lo, i);
      HighBitsAreZero(w, value, lo + i);
    }
  }

  lemma {:induction false} HighBitsAreZero(w: nat, x: nat, i: nat)
    requires x < Pow2(w)
    ensures Bit(x, i) ==> i < w
  {
    if w == 0 {
      ZeroHasNoBits(i);
    } else if i > 0 {
      HighBitsAreZero(w - 1, x / 2, i - 1);
    }
  }

  /** x << k, before any truncation. */
  function ShiftLeft(x: nat, k: nat): nat {
    if k == 0 then x else 2 * ShiftLeft(x, k - 1)
  }

  lemma {:induction false} ShiftLeftBit(x: nat, k: nat, i: nat)
    ensures Bit(ShiftLeft(x, k), i) <==> k <= i && Bit(x, i - k)
  {
    if k > 0 && i > 0 { ShiftLeftBit(x, k - 1, i - 1); }
  }

  /** The number spelled by the given bits, lowest first. */
  function FromBits(bits: seq<bool>): (r: nat)
    ensures r < Pow2(|bits|)
  {
    if bits == [] then 0 else (if bits[0] then 1 else 0) + 2 * FromBits(bits[1..])
  }

  lemma {:induction false} FromBitsBit(bits: seq<bool>, i: nat)
    ensures Bit(FromBits(bits), i) <==> i < |bits| && bits[i]
  {
    if bits == [] {
      ZeroHasNoBits(i);
    } else if i > 0 {
      FromBitsBit(bits[1..], i - 1);
    }
  }

  lemma {:induction false} Pow2Monotone(a: nat, b: nat)
    requires a <= b
    ensures Pow2(a) <= Pow2(b)
  {
    if a < b { Pow2Monotone(a, b - 1); }
  }
}
