/**
 ALSA hardware-parameter masks: 256 bits in eight 32-bit words, changed in place.  A mask
 denotes the set of indices whose bit is set; every operation is stated on that set.
 */
module AlsaMask {
  import opened Bits
  import opened Errno

  const MASK_MAX: nat := 256
  const MASK_SIZE: nat := 8

  predicate Has(words: seq<nat>, v: nat) {
    v / 32 < |words| && Bit(words[v / 32], v % 32)
  }

  ghost predicate IsEmpty(words: seq<nat>) {
    forall v: nat :: !Has(words, v)
  }

  ghost predicate AtMostOne(words: seq<nat>) {
    forall u: nat, v: nat :: Has(words, u) && Has(words, v) ==> u == v
  }

  ghost predicate Words(words: seq<nat>) {
    |words| == MASK_SIZE && forall k :: 0 <= k < MASK_SIZE ==> words[k] < 0x1_0000_0000
  }

  lemma Pow2Of32()
    ensures Pow2(32) == 0x1_0000_0000
  {
    var p := Pow2(8);
    assert p == 0x100;
    assert Pow2(16) == 0x100 * p;
    assert Pow2(24) == 0x100 * Pow2(16);
  }

  lemma IndexSplit(k: nat, i: nat)
    requires i < 32
    ensures (32 * k + i) / 32 == k && (32 * k + i) % 32 == i
  {
  }

  lemma WordBit(words: seq<nat>, k: nat, i: nat)
    requires Words(words) && k < |words| && Bit(words[k], i)
    ensures i < 32 && Has(words, 32 * k + i)
  {
    Pow2Of32();
    BitBelow(words[k], 32, i);
    IndexSplit(k, i);
  }

  /** C's `w >> r`. */
  function Drop(w: nat, r: nat): nat {
    if r == 0 then w else Drop(w / 2, r - 1)
  }

  lemma {:induction false} DropAdds(w: nat, a: nat, b: nat)
    ensures Drop(Drop(w, a), b) == Drop(w, a + b)
  {
    if a > 0 { DropAdds(w / 2, a - 1, b); }
  }

  lemma DropTwo(w: nat)
    ensures Drop(w, 1) == w / 2 && Drop(w, 2) == w / 4
  {
    assert Drop(w, 2) == Drop(w / 2, 1) == Drop(w / 2 / 2, 0);
  }

  lemma DropFour(w: nat)
    ensures Drop(w, 4) == w / 0x10
  {
    DropTwo(w);
    DropTwo(w / 4);
    DropAdds(w, 2, 2);
  }

  lemma DropEight(w: nat)
    ensures Drop(w, 8) == w / 0x100
  {
    DropFour(w);
    DropFour(w / 0x10);
    DropAdds(w, 4, 4);
  }

  lemma DropSixteen(w: nat)
    ensures Drop(w, 16) == w / 0x10000
  {
    DropEight(w);
    DropEight(w / 0x100);
    DropAdds(w, 8, 8);
  }

  lemma {:induction false} DropToOne(w: nat, r: nat)
    requires Drop(w, r) == 1
    ensures Pow2(r) <= w < 2 * Pow2(r)
  {
    if r > 0 { DropToOne(w / 2, r - 1); }
  }

  lemma DropNone(w: nat)
    ensures Drop(w, 0) == w
  {
  }

  /** Integer base-2 logarithm by halving the range of the exponent. */
  method Ld2(value: nat) returns (r: nat)
    requires value < 0x1_0000_0000
    ensures value == 0 ==> r == 0
    ensures value > 0 ==> Pow2(r) <= value < 2 * Pow2(r)
  {
    hide Drop, Pow2;
    var v := value;
    r := 0;
    DropNone(value);
    if v >= 0x10000 {
      DropBy(value, r, v, 16);
      v := v / 0x10000;
      r := r + 16;
    }
    if v >= 0x100 {
      DropBy(value, r, v, 8);
      v := v / 0x100;
      r := r + 8;
    }
    if v >= 0x10 {
      DropBy(value, r, v, 4);
      v := v / 0x10;
      r := r + 4;
    }
    if v >= 4 {
      DropBy(value, r, v, 2);
      v := v / 4;
      r := r + 2;
    }
    if v >= 2 {
      DropBy(value, r, v, 1);
      v := v / 2;
      r := r + 1;
    }
    assert v == Drop(value, r);
    if v == 1 { DropToOne(value, r); }
  }

  lemma DropBy(w: nat, r: nat, v: nat, k: nat)
    requires v == Drop(w, r) && (k == 1 || k == 2 || k == 4 || k == 8 || k == 16)
    ensures (if k == 16 then v / 0x10000 else if k == 8 then v / 0x100 else if k == 4 then v / 0x10
             else if k == 2 then v / 4 else v / 2) == Drop(w, r + k)
  {
    DropAdds(w, r, k);
    DropTwo(v);
    DropFour(v);
    DropEight(v);
    DropSixteen(v);
  }

  class SndMask {
    const bits: array<nat>

    ghost predicate Valid()
      reads this, bits
    {
      bits.Length == MASK_SIZE && Words(bits[..])
    }

    constructor ()
      ensures Valid() && fresh(bits) && IsEmpty(bits[..])
    {
      bits := new nat[MASK_SIZE](_ => 0);
      new;
      forall v: nat ensures !Has(bits[..], v) {
        ZeroHasNoBits(v % 32);
      }
    }

    /** `overrun`, here and below: the code reads or writes words behind the mask, besides what is stated of it. */
    method Test(val: nat) returns (overrun: bool, isSet: bool)
      requires Valid()
      ensures overrun <==> MASK_MAX <= val
      ensures !overrun ==> (isSet <==> Has(bits[..], val))
    {
      if MASK_MAX <= val { return true, false; }
      overrun := false;
      var w := bits[val / 32];
      isSet := And(w, Pow2(val % 32)) != 0;
      var m := And(w, Pow2(val % 32));
      if m != 0 {
        LeastBitSpec(m);
        AndBit(w, Pow2(val % 32), LeastBit(m));
        Pow2Bit(val % 32, LeastBit(m));
      } else {
        AndBit(w, Pow2(val % 32), val % 32);
        Pow2Bit(val % 32, val % 32);
        ZeroHasNoBits(val % 32);
      }
    }


    method Empty() returns (yes: bool)
      requires Valid()
      ensures yes <==> IsEmpty(bits[..])
    {
      for i := 0 to MASK_SIZE
        invariant forall k :: 0 <= k < i ==> bits[k] == 0
      {
        if bits[i] != 0 {
          LeastBitSpec(bits[i]);
          WordBit(bits[..], i, LeastBit(bits[i]));
          return false;
        }
      }
      forall v: nat ensures !Has(bits[..], v) {
        ZeroHasNoBits(v % 32);
      }
      return true;
    }

    /** True of an empty mask too. */
    method Single() returns (yes: bool)
      requires Valid()
      ensures yes <==> AtMostOne(bits[..])
    {
      var c := 0;
      ghost var first: nat := 0;
      for i := 0 to MASK_SIZE
        invariant c == 0 || c == 1
        invariant c == 0 ==> forall k :: 0 <= k < i ==> bits[k] == 0
        invariant c == 1 ==> first < i && bits[first] != 0 && And(bits[first], bits[first] - 1) == 0
        invariant c == 1 ==> forall k :: 0 <= k < i && k != first ==> bits[k] == 0
      {
        if bits[i] == 0 { continue; }
        if And(bits[i], bits[i] - 1) != 0 {
          TwoBitsOneWord(bits[..], i);
          return false;
        }
        if c != 0 {
          TwoWords(bits[..], first, i);
          return false;
        }
        first := i;
        c := c + 1;
      }
      OneWordOneBit(bits[..], c == 1, first);
      return true;
    }

    method Clear()
      requires Valid()
      modifies bits
      ensures Valid() && IsEmpty(bits[..]) && forall k :: 0 <= k < MASK_SIZE ==> bits[k] == 0
    {
      for i := 0 to MASK_SIZE
        invariant forall k :: 0 <= k < i ==> bits[k] == 0
        invariant Valid()
      {
        bits[i] := 0;
      }
      forall v: nat ensures !Has(bits[..], v) { ZeroHasNoBits(v % 32); }
    }

    /** Every index is in the mask. */
    method Any()
      requires Valid()
      modifies bits
      ensures Valid()
      ensures forall u: nat :: Has(bits[..], u) <==> u < MASK_MAX
    {
      for i := 0 to MASK_SIZE
        invariant forall k :: 0 <= k < i ==> bits[k] == 0xffff_ffff
        invariant Valid()
      {
        bits[i] := 0xffff_ffff;
      }
      Pow2Of32();
      forall u: nat ensures Has(bits[..], u) <==> u < MASK_MAX { AllOnes(32, u % 32); }
    }

    method Leave(val: nat) returns (overrun: bool)
      requires Valid()
      modifies bits
      ensures Valid()
      ensures overrun <==> MASK_MAX <= val
      ensures forall u: nat :: Has(bits[..], u) <==> u == val && Has(old(bits[..]), u)
    {
      overrun := MASK_MAX <= val;
      ghost var was := bits[..];
      if overrun {
        Clear();
        return;
      }
      var v := And(bits[val / 32], Pow2(val % 32));
      AndShrinks(bits[val / 32], Pow2(val % 32));
      Clear();
      bits[val / 32] := v;
      forall u: nat ensures Has(bits[..], u) <==> u == val && Has(was, u) {
        ZeroHasNoBits(u % 32);
        AndBit(was[val / 32], Pow2(val % 32), u % 32);
        Pow2Bit(val % 32, u % 32);
      }
    }

    method ResetRange(lo: nat, hi: nat) returns (overrun: bool)
      requires Valid()
      modifies bits
      ensures Valid()
      ensures overrun <==> lo <= hi && MASK_MAX <= hi
      ensures forall u: nat :: Has(bits[..], u) <==> Has(old(bits[..]), u) && !(lo <= u <= hi)
    {
      ghost var was := bits[..];
      var i := lo;
      while i <= hi
        invariant lo <= i
        invariant i <= hi + 1 || i == lo
        invariant lo < i ==> i <= MASK_MAX
        invariant Valid()
        invariant forall u: nat :: Has(bits[..], u) <==> Has(was, u) && !(lo <= u < i)
        decreases hi + 1 - i
      {
        if MASK_MAX <= i { return true; }
        ghost var before := bits[..];
        AndNotShrinks(bits[i / 32], Pow2(i % 32));
        bits[i / 32] := AndNot(bits[i / 32], Pow2(i % 32));
        ClearsOne(before, bits[..], i);
        i := i + 1;
      }
      overrun := false;
    }

    method Min() returns (v: nat)
      requires Valid()
      ensures IsEmpty(bits[..]) ==> v == 0
      ensures !IsEmpty(bits[..]) ==> Has(bits[..], v) && forall u: nat :: Has(bits[..], u) ==> v <= u
    {
      for i := 0 to MASK_SIZE
        invariant forall k :: 0 <= k < i ==> bits[k] == 0
      {
        if bits[i] != 0 {
          v := LeastBit(bits[i]) + 32 * i;
          LeastBitSpec(bits[i]);
          WordBit(bits[..], i, LeastBit(bits[i]));
          forall u: nat | Has(bits[..], u) ensures v <= u { ZeroHasNoBits(u % 32); }
          return;
        }
      }
      forall u: nat ensures !Has(bits[..], u) { ZeroHasNoBits(u % 32); }
      return 0;
    }

    method Max() returns (v: nat)
      requires Valid()
      ensures IsEmpty(bits[..]) ==> v == 0
      ensures !IsEmpty(bits[..]) ==> Has(bits[..], v) && forall u: nat :: Has(bits[..], u) ==> u <= v
    {
      var i := MASK_SIZE - 1;
      while i >= 0
        invariant -1 <= i < MASK_SIZE
        invariant forall k :: i < k < MASK_SIZE ==> bits[k] == 0
      {
        if bits[i] != 0 {
          var r := Ld2(bits[i]);
          TopBit(bits[i], r);
          WordBit(bits[..], i, r);
          v := r + 32 * i;
          forall u: nat | Has(bits[..], u) ensures u <= v { ZeroHasNoBits(u % 32); }
          return;
        }
        i := i - 1;
      }
      forall u: nat ensures !Has(bits[..], u) { ZeroHasNoBits(u % 32); }
      return 0;
    }

    method RefineSet(val: nat) returns (overrun: bool, code: int)
      requires Valid()
      modifies bits
      ensures Valid()
      ensures overrun <==> !IsEmpty(old(bits[..])) && MASK_MAX <= val
      ensures IsEmpty(old(bits[..])) ==> code == -ENOENT && bits[..] == old(bits[..])
      ensures !IsEmpty(old(bits[..])) ==>
                && (forall u: nat :: Has(bits[..], u) <==> u == val && Has(old(bits[..]), u))
                && code == (if !Has(old(bits[..]), val) then -EINVAL else if AtMostOne(old(bits[..])) then 0 else 1)
    {
      var none := Empty();
      if none { return false, -ENOENT; }
      var single := Single();
      overrun := Leave(val);
      none := Empty();
      if none { return overrun, -EINVAL; }
      return overrun, if single then 0 else 1;
    }

    method RefineMin(val: nat) returns (overrun: bool, code: int)
      requires Valid()
      modifies bits
      ensures Valid()
      ensures overrun <==> !IsEmpty(old(bits[..])) && MASK_MAX < val
      ensures IsEmpty(old(bits[..])) ==> code == -ENOENT && bits[..] == old(bits[..])
      ensures !IsEmpty(old(bits[..])) ==>
                && (forall u: nat :: Has(bits[..], u) <==> Has(old(bits[..]), u) && val <= u)
                && (code == -EINVAL <==> IsEmpty(bits[..]))
                && (code == 0 <==> forall u: nat :: Has(old(bits[..]), u) ==> val <= u)
                && (code == -EINVAL || code == 0 || code == 1)
    {
      var none := Empty();
      if none { return false, -ENOENT; }
      var least := Min();
      assert Has(bits[..], least) && least < MASK_MAX;
      if least >= val { return false, 0; }
      overrun := ResetRange(0, val - 1);
      none := Empty();
      return overrun, if none then -EINVAL else 1;
    }

    /** Whenever there is anything to clear, the range goes one index too far, behind the mask. */
    method RefineMax(val: nat) returns (overrun: bool, code: int)
      requires Valid()
      modifies bits
      ensures Valid()
      ensures overrun <==> exists u: nat :: Has(old(bits[..]), u) && val < u
      ensures IsEmpty(old(bits[..])) ==> code == -ENOENT && bits[..] == old(bits[..])
      ensures !IsEmpty(old(bits[..])) ==>
                && (forall u: nat :: Has(bits[..], u) <==> Has(old(bits[..]), u) && u <= val)
                && (code == -EINVAL <==> IsEmpty(bits[..]))
                && (code == 0 <==> forall u: nat :: Has(old(bits[..]), u) ==> u <= val)
                && (code == -EINVAL || code == 0 || code == 1)
    {
      var none := Empty();
      if none { return false, -ENOENT; }
      var greatest := Max();
      assert Has(bits[..], greatest) && greatest < MASK_MAX;
      if greatest <= val { return false, 0; }
      ghost var was := bits[..];
      overrun := ResetRange(val + 1, MASK_MAX);
      OnlyIndices(was);
      none := Empty();
      return overrun, if none then -EINVAL else 1;
    }
  }

  lemma OnlyIndices(words: seq<nat>)
    requires Words(words)
    ensures forall u: nat :: Has(words, u) ==> u < MASK_MAX
  {
  }

  lemma TwoBitsOneWord(words: seq<nat>, k: nat)
    requires Words(words) && k < |words| && words[k] != 0 && And(words[k], words[k] - 1) != 0
    ensures !AtMostOne(words)
  {
    PowerTest(words[k]);
    var i: nat, j: nat :| Bit(words[k], i) && Bit(words[k], j) && i != j;
    WordBit(words, k, i);
    WordBit(words, k, j);
  }

  lemma TwoWords(words: seq<nat>, k: nat, l: nat)
    requires Words(words) && k < l < |words| && words[k] != 0 && words[l] != 0
    ensures !AtMostOne(words)
  {
    LeastBitSpec(words[k]);
    LeastBitSpec(words[l]);
    WordBit(words, k, LeastBit(words[k]));
    WordBit(words, l, LeastBit(words[l]));
  }

  lemma OneWordOneBit(words: seq<nat>, some: bool, first: nat)
    requires Words(words)
    requires some ==> first < |words| && words[first] != 0 && And(words[first], words[first] - 1) == 0
    requires forall k :: 0 <= k < |words| && !(some && k == first) ==> words[k] == 0
    ensures AtMostOne(words)
  {
    if some { PowerTest(words[first]); }
    forall u: nat, v: nat | Has(words, u) && Has(words, v) ensures u == v {
      ZeroHasNoBits(u % 32);
      ZeroHasNoBits(v % 32);
      assert u / 32 == first == v / 32;
      assert u % 32 == v % 32;
    }
  }

  lemma ClearsOne(before: seq<nat>, after: seq<nat>, i: nat)
    requires Words(before) && i < MASK_MAX
    requires after == before[i / 32 := AndNot(before[i / 32], Pow2(i % 32))]
    ensures forall u: nat :: Has(after, u) <==> Has(before, u) && u != i
  {
    forall u: nat ensures Has(after, u) <==> Has(before, u) && u != i {
      AndNotBit(before[i / 32], Pow2(i % 32), u % 32);
      Pow2Bit(i % 32, u % 32);
    }
  }

}
