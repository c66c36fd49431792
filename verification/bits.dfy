/**
 Unsigned machine words as natural numbers, bit by bit.  The C operators `&`, `& ~`, `<<`
 and `ffs` are defined by recursion on the bits and characterised by which bits they set.
 */
module Bits {

  function Pow2(n: nat): (p: nat)
    ensures p > 0
  {
    if n == 0 then 1 else 2 * Pow2(n - 1)
  }

  predicate Bit(w: nat, i: nat) {
    if i == 0 then w % 2 == 1 else Bit(w / 2, i - 1)
  }

  /** C's `a & b`. */
  function And(a: nat, b: nat): nat {
    if a == 0 || b == 0 then 0 else (a % 2) * (b % 2) + 2 * And(a / 2, b / 2)
  }

  /** C's `a & ~b`. */
  function AndNot(a: nat, b: nat): nat {
    if a == 0 then 0 else (a % 2) * (1 - b % 2) + 2 * AndNot(a / 2, b / 2)
  }

  /** `ffs(w) - 1`: the index of the least bit set. */
  function LeastBit(w: nat): nat
    requires w > 0
  {
    if w % 2 == 1 then 0 else 1 + LeastBit(w / 2)
  }

  function CountOnes(w: nat): nat {
    if w == 0 then 0 else w % 2 + CountOnes(w / 2)
  }

  lemma {:induction false} ZeroHasNoBits(i: nat)
    ensures !Bit(0, i)
  {
    if i > 0 { ZeroHasNoBits(i - 1); }
  }

  lemma {:induction false} AndBit(a: nat, b: nat, i: nat)
    ensures Bit(And(a, b), i) <==> Bit(a, i) && Bit(b, i)
  {
    if a == 0 || b == 0 {
      ZeroHasNoBits(i);
    } else {
      var c := And(a, b);
      assert c % 2 == (a % 2) * (b % 2) && c / 2 == And(a / 2, b / 2);
      if i > 0 { AndBit(a / 2, b / 2, i - 1); }
    }
  }

  lemma {:induction false} AndNotBit(a: nat, b: nat, i: nat)
    ensures Bit(AndNot(a, b), i) <==> Bit(a, i) && !Bit(b, i)
  {
    if a == 0 {
      ZeroHasNoBits(i);
    } else {
      var c := AndNot(a, b);
      assert c % 2 == (a % 2) * (1 - b % 2) && c / 2 == AndNot(a / 2, b / 2);
      if i > 0 { AndNotBit(a / 2, b / 2, i - 1); }
    }
  }

  lemma {:induction false} AndShrinks(a: nat, b: nat)
    ensures And(a, b) <= a && And(a, b) <= b
  {
    if a != 0 { AndShrinks(a / 2, b / 2); }
  }

  lemma {:induction false} AndNotShrinks(a: nat, b: nat)
    ensures AndNot(a, b) <= a
  {
    if a != 0 { AndNotShrinks(a / 2, b / 2); }
  }

  lemma {:induction false} AndSelf(a: nat)
    ensures And(a, a) == a
  {
    if a != 0 { AndSelf(a / 2); }
  }

  lemma {:induction false} Pow2Bit(n: nat, i: nat)
    ensures Bit(Pow2(n), i) <==> i == n
  {
    if n == 0 {
      if i > 0 { ZeroHasNoBits(i - 1); }
    } else {
      assert Pow2(n) % 2 == 0 && Pow2(n) / 2 == Pow2(n - 1);
      if i > 0 { Pow2Bit(n - 1, i - 1); }
    }
  }

  /** Every bit of a word lies below its length. */
  lemma {:induction false} BitBelow(w: nat, n: nat, i: nat)
    requires w < Pow2(n) && Bit(w, i)
    ensures i < n && Pow2(i) <= w
  {
    if n == 0 {
      ZeroHasNoBits(i);
    } else if i > 0 {
      BitBelow(w / 2, n - 1, i - 1);
    }
  }

  lemma {:induction false} LeastBitSpec(w: nat)
    requires w > 0
    ensures Bit(w, LeastBit(w))
    ensures forall i :: 0 <= i < LeastBit(w) ==> !Bit(w, i)
  {
    if w % 2 == 0 {
      LeastBitSpec(w / 2);
      assert forall i :: 1 <= i < LeastBit(w) ==> Bit(w, i) == Bit(w / 2, i - 1);
    }
  }

  /** The highest bit of a word between two neighbouring powers of two. */
  lemma {:induction false} TopBit(w: nat, r: nat)
    requires Pow2(r) <= w < 2 * Pow2(r)
    ensures Bit(w, r)
    ensures forall i :: r < i ==> !Bit(w, i)
  {
    if r == 0 {
      assert w == 1;
    } else {
      TopBit(w / 2, r - 1);
    }
    forall i | r < i ensures !Bit(w, i) {
      if Bit(w, i) { BitBelow(w, r + 1, i); }
    }
  }

  ghost predicate AtMostOneBit(w: nat) {
    forall i: nat, j: nat :: Bit(w, i) && Bit(w, j) ==> i == j
  }

  /** The `w & (w - 1)` test: zero exactly when no two different bits are set. */
  lemma {:induction false} PowerTest(w: nat)
    requires w > 0
    ensures And(w, w - 1) == 0 <==> AtMostOneBit(w)
  {
    if w == 1 {
      forall i | Bit(1, i) ensures i == 0 { Pow2Bit(0, i); }
    } else if w % 2 == 1 {
      AndSelf(w / 2);
      assert And(w, w - 1) == 2 * And(w / 2, w / 2);
      var k := LeastBit(w / 2);
      LeastBitSpec(w / 2);
      assert Bit(w, 0) && Bit(w, k + 1);
    } else {
      assert (w - 1) % 2 == 1 && (w - 1) / 2 == w / 2 - 1;
      assert And(w, w - 1) == 2 * And(w / 2, w / 2 - 1);
      PowerTest(w / 2);
      if AtMostOneBit(w) {
        forall i: nat, j: nat | Bit(w / 2, i) && Bit(w / 2, j) ensures i == j {
          assert Bit(w, i + 1) && Bit(w, j + 1);
        }
      } else {
        var i: nat, j: nat :| Bit(w, i) && Bit(w, j) && i != j;
        assert Bit(w / 2, i - 1) && Bit(w / 2, j - 1);
      }
    }
  }

  /** One less than a power of two has all the bits below it. */
  lemma {:induction false} AllOnes(n: nat, i: nat)
    ensures Bit(Pow2(n) - 1, i) <==> i < n
  {
    if n == 0 {
      ZeroHasNoBits(i);
    } else if i > 0 {
      AllOnes(n - 1, i - 1);
    }
  }
}
