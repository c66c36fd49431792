/**
 The mixed-radix odometer behind parameter combinations: its in-place step, the table of
 all its positions, and the arithmetic that makes the table a bijection.
 */
module Odometer {
  import opened Products

  // ---------- positions of the odometer ----------

  predicate Positive(limits: seq<nat>) { forall k :: 0 <= k < |limits| ==> limits[k] > 0 }

  predicate InRange(p: seq<nat>, limits: seq<nat>) {
    |p| == |limits| && forall k :: 0 <= k < |p| ==> p[k] < limits[k]
  }

  function Product(limits: seq<nat>): nat {
    if limits == [] then 1 else Times(limits[0], Product(limits[1..]))
  }

  /** The number a position stands for, its first digit counting ones. */
  function Number(p: seq<nat>, limits: seq<nat>): nat
    requires |p| == |limits|
  {
    if p == [] then 0 else p[0] + Times(limits[0], Number(p[1..], limits[1..]))
  }

  function Digits(i: nat, limits: seq<nat>): (p: seq<nat>)
    requires Positive(limits)
    ensures |p| == |limits|
    decreases |limits|
  {
    if limits == [] then [] else [i % limits[0]] + Digits(i / limits[0], limits[1..])
  }

  /** One step of the odometer; it wraps around at the end. */
  function Increment(p: seq<nat>, limits: seq<nat>): (q: seq<nat>)
    requires |p| == |limits|
    ensures |q| == |p|
  {
    if p == [] then []
    else if p[0] + 1 < limits[0] then [p[0] + 1] + p[1..]
    else [0] + Increment(p[1..], limits[1..])
  }

  lemma {:induction false} ProductPositive(limits: seq<nat>)
    requires Positive(limits)
    ensures Product(limits) > 0
  {
    hide Times;
    if limits != [] {
      ProductPositive(limits[1..]);
      TimesFacts(limits[0], Product(limits[1..]));
    }
  }

  lemma {:induction false} NumberBound(p: seq<nat>, limits: seq<nat>)
    requires InRange(p, limits)
    ensures Number(p, limits) < Product(limits)
  {
    hide Times;
    if p != [] {
      NumberBound(p[1..], limits[1..]);
      TimesFacts(limits[0], Number(p[1..], limits[1..]));
      TimesFacts(limits[0], Product(limits[1..]));
      TimesBelow(Number(p[1..], limits[1..]), Product(limits[1..]), limits[0]);
    }
  }

  lemma {:induction false} DigitsOfNumber(p: seq<nat>, limits: seq<nat>)
    requires InRange(p, limits) && Positive(limits)
    ensures Digits(Number(p, limits), limits) == p
  {
    hide Times;
    if p != [] {
      DigitsOfNumber(p[1..], limits[1..]);
      DivideUnique(p[0], Number(p[1..], limits[1..]), limits[0]);
    }
  }

  lemma {:induction false} NumberOfDigits(i: nat, limits: seq<nat>)
    requires Positive(limits) && i < Product(limits)
    ensures InRange(Digits(i, limits), limits) && Number(Digits(i, limits), limits) == i
    decreases |limits|
  {
    hide Times;
    if limits != [] {
      var l, rest := limits[0], limits[1..];
      DivideBack(i, l);
      QuotientBelow(i, l, Product(rest));
      NumberOfDigits(i / l, rest);
      var p := Digits(i, limits);
      assert p[0] == i % l && p[1..] == Digits(i / l, rest);
    }
  }

  lemma QuotientBelow(i: nat, l: nat, m: nat)
    requires l > 0 && i < Times(l, m)
    ensures i / l < m
  {
    hide Times;
    DivideBack(i, l);
    if m <= i / l {
      TimesFacts(l, m);
      TimesFacts(l, i / l);
      if m < i / l { TimesBelow(m, i / l, l); }
    }
  }

  /** The step adds one, modulo the number of positions; past the last position it is back at zero. */
  lemma {:induction false} IncrementAddsOne(p: seq<nat>, limits: seq<nat>)
    requires InRange(p, limits)
    ensures InRange(Increment(p, limits), limits)
    ensures Number(Increment(p, limits), limits)
            == if Number(p, limits) + 1 < Product(limits) then Number(p, limits) + 1 else 0
  {
    hide Times;
    if p != [] {
      var l, rest, tail := limits[0], limits[1..], p[1..];
      var q := Increment(p, limits);
      NumberBound(p, limits);
      NumberBound(tail, rest);
      TimesFacts(Number(tail, rest), l);
      TimesFacts(l, Number(tail, rest));
      TimesFacts(l, Product(rest));
      TimesBelow(Number(tail, rest), Product(rest), l);
      if p[0] + 1 < l {
        assert q[0] == p[0] + 1 && q[1..] == tail;
      } else {
        IncrementAddsOne(tail, rest);
        assert q[0] == 0 && q[1..] == Increment(tail, rest);
        TimesFacts(Number(tail, rest) + 1, l);
        TimesFacts(0, l);
        if Number(tail, rest) + 1 < Product(rest) { TimesBelow(Number(tail, rest) + 1, Product(rest), l); }
      }
    }
  }

  /** Row i + 1 is one step after row i, and one step after the last row is row 0. */
  lemma IncrementDigits(i: nat, limits: seq<nat>)
    requires Positive(limits) && i < Product(limits)
    ensures Increment(Digits(i, limits), limits) == Digits(if i + 1 < Product(limits) then i + 1 else 0, limits)
  {
    hide Times, Product, Number, Digits, Increment;
    var p := Digits(i, limits);
    NumberOfDigits(i, limits);
    IncrementAddsOne(p, limits);
    DigitsOfNumber(Increment(p, limits), limits);
  }

  /** Every choice of indices is the digits of exactly one number below the product. */
  lemma DigitsAreABijection(limits: seq<nat>, p: seq<nat>)
    requires Positive(limits) && InRange(p, limits)
    ensures exists i :: 0 <= i < Product(limits) && Digits(i, limits) == p
    ensures forall i, j | 0 <= i < Product(limits) && 0 <= j < Product(limits)
              && Digits(i, limits) == p && Digits(j, limits) == p :: i == j
  {
    hide Times, Product, Number, Digits;
    NumberBound(p, limits);
    DigitsOfNumber(p, limits);
    forall i, j | 0 <= i < Product(limits) && 0 <= j < Product(limits)
      && Digits(i, limits) == p && Digits(j, limits) == p
      ensures i == j
    {
      NumberOfDigits(i, limits);
      NumberOfDigits(j, limits);
    }
  }

  lemma {:induction false} FirstPosition(limits: seq<nat>)
    requires Positive(limits)
    ensures forall k :: 0 <= k < |limits| ==> Digits(0, limits)[k] == 0
  {
    if limits != [] {
      FirstPosition(limits[1..]);
      DivideUnique(0, 0, limits[0]);
      assert Times(limits[0], 0) == 0;
    }
  }

  lemma {:induction false} LastPosition(limits: seq<nat>)
    requires Positive(limits) && Product(limits) > 0
    ensures forall k :: 0 <= k < |limits| ==> Digits(Product(limits) - 1, limits)[k] == limits[k] - 1
  {
    hide Times;
    if limits != [] {
      var l, rest := limits[0], limits[1..];
      ProductPositive(rest);
      LastPosition(rest);
      TimesFacts(Product(rest) - 1, l);
      TimesFacts(l, Product(rest) - 1);
      TimesFacts(l, Product(rest));
      DivideUnique(l - 1, Product(rest) - 1, l);
    }
  }

  // ---------- the step, in place ----------

  lemma IncrementAt(p: seq<nat>, limits: seq<nat>, i: nat)
    requires |p| == |limits| && i <= |p|
    requires forall k :: 0 <= k < i ==> p[k] + 1 >= limits[k]
    ensures Increment(p, limits) == seq(i, _ => 0) + Increment(p[i..], limits[i..])
    decreases i
  {
    if i > 0 {
      IncrementAt(p[1..], limits[1..], i - 1);
      assert p[1..][i - 1..] == p[i..] && limits[1..][i - 1..] == limits[i..];
      assert seq(i, _ => 0) == [0] + seq(i - 1, _ => 0);
    } else {
      assert p[0..] == p && limits[0..] == limits;
    }
  }

  method GenerateNextPermutation(permutation: array<nat>, limits: array<nat>)
    requires permutation.Length == limits.Length && permutation != limits
    modifies permutation
    ensures permutation[..] == Increment(old(permutation[..]), limits[..])
  {
    ghost var was := permutation[..];
    ghost var lim := limits[..];
    for i := 0 to permutation.Length
      invariant limits[..] == lim
      invariant forall k :: 0 <= k < i ==> permutation[k] == 0 && was[k] + 1 >= lim[k]
      invariant forall k :: i <= k < permutation.Length ==> permutation[k] == was[k]
    {
      if permutation[i] + 1 < limits[i] {
        permutation[i] := permutation[i] + 1;
        IncrementAt(was, lim, i);
        assert permutation[..] == seq(i, _ => 0) + ([was[i] + 1] + was[i + 1..]);
        assert was[i..][0] == was[i] && was[i..][1..] == was[i + 1..];
        return;
      }
      permutation[i] := 0;
    }
    IncrementAt(was, lim, permutation.Length);
    assert permutation[..] == seq(permutation.Length, _ => 0) + [];
  }

  // ---------- the table of all positions ----------

  const UINT: nat := 0x1_0000_0000

  /** How many rows the table gets: the product, computed in 32-bit unsigned arithmetic. */
  function RowCount(limits: seq<nat>): nat { Product(limits) % UINT }

  /** Four bytes an index: the rows fit the block, whose size is computed in 32 bits too. */
  predicate TableAllocates(limits: seq<nat>) { 4 * Times(RowCount(limits), |limits|) < UINT }

  lemma {:induction false} ProductAppend(limits: seq<nat>, l: nat)
    ensures Product(limits + [l]) == Times(Product(limits), l)
  {
    if limits == [] {
      assert [] + [l] == [l] && [l][1..] == [];
    } else {
      ProductAppend(limits[1..], l);
      assert (limits + [l])[1..] == limits[1..] + [l];
    }
  }

  lemma ModuloTimes(a: nat, l: nat)
    ensures Times(a % UINT, l) % UINT == Times(a, l) % UINT
  {
    var q := a / UINT;
    assert a * l == (a % UINT) * l + UINT * (q * l);
  }

  /** The limits the table is made for: a parameter without values counts as one with a single value. */
  function Padded(limits: seq<nat>): (padded: seq<nat>)
    ensures |padded| == |limits| && Positive(padded)
    ensures Positive(limits) ==> padded == limits
  {
    seq(|limits|, k requires 0 <= k < |limits| => if limits[k] != 0 then limits[k] else 1)
  }

  /** To the step, a limit of 0 is a limit of 1. */
  lemma {:induction false} IncrementPadded(p: seq<nat>, limits: seq<nat>)
    requires |p| == |limits|
    ensures Increment(p, limits) == Increment(p, Padded(limits))
  {
    if p != [] {
      IncrementPadded(p[1..], limits[1..]);
      assert Padded(limits)[1..] == Padded(limits[1..]);
    }
  }

  method CountRows(limits: array<nat>) returns (n: nat)
    ensures n == RowCount(Padded(limits[..]))
  {
    hide Times;
    ghost var lim := Padded(limits[..]);
    n := 1;
    for i := 0 to limits.Length
      invariant n == Product(lim[..i]) % UINT
    {
      n := Times(n, if limits[i] != 0 then limits[i] else 1) % UINT;
      ModuloTimes(Product(lim[..i]), lim[i]);
      ProductAppend(lim[..i], lim[i]);
      assert lim[..i + 1] == lim[..i] + [lim[i]];
    }
    assert lim[..limits.Length] == lim;
  }

  /** The first `rows` rows of `table`, packed with stride |limits|, are the first positions in order. */
  ghost predicate RowsInOrder(table: seq<nat>, limits: seq<nat>, rows: nat)
    requires Positive(limits)
  {
    forall i :: 0 <= i < rows ==> RowIs(table, limits, i)
  }

  ghost predicate RowIs(table: seq<nat>, limits: seq<nat>, i: nat)
    requires Positive(limits)
  {
    Times(i, |limits|) + |limits| <= |table|
    && table[Times(i, |limits|)..Times(i, |limits|) + |limits|] == Digits(i, limits)
  }

  /** `overrun` reports a row that does not fit the block allocated, and ends the run there. */
  method GeneratePermutationTable(limits: array<nat>) returns (overrun: bool, rows: nat, table: array<nat>)
    ensures rows == RowCount(Padded(limits[..])) && fresh(table)
    ensures overrun <==> !TableAllocates(Padded(limits[..]))
    ensures !overrun ==> RowsInOrder(table[..], Padded(limits[..]), rows)
  {
    hide Times, Product, Digits, Increment, Padded;
    ghost var lim := Padded(limits[..]);
    var n := limits.Length;
    rows := CountRows(limits);
    ProductPositive(lim);
    assert rows <= Product(lim);
    var bytes := 4 * Times(rows, n) % UINT;
    table := new nat[bytes / 4];
    assert 4 * table.Length == bytes;
    var current := new nat[n](_ => 0);
    FirstPosition(lim);
    TimesStep(0, n);
    for i := 0 to rows
      invariant Times(i, n) <= table.Length
      invariant i < Product(lim) ==> current[..] == Digits(i, lim)
      invariant RowsInOrder(table[..], lim, i)
    {
      if table.Length < Times(i, n) + n {
        TimesBelow(i, rows, n);
        return true, rows, table;
      }
      ghost var before := table[..];
      CopyRow(table, Times(i, n), current);
      OtherRowsKept(before, table[..], lim, i);
      IncrementDigits(i, lim);
      IncrementPadded(current[..], limits[..]);
      TimesStep(i, n);
      GenerateNextPermutation(current, limits);
    }
    overrun := false;
  }

  method CopyRow(table: array<nat>, at: nat, row: array<nat>)
    requires at + row.Length <= table.Length && table != row
    modifies table
    ensures table[at..at + row.Length] == row[..]
    ensures forall k :: 0 <= k < table.Length && !(at <= k < at + row.Length) ==> table[k] == old(table[k])
  {
    forall k | at <= k < at + row.Length { table[k] := row[k - at]; }
    assert forall k :: at <= k < at + row.Length ==> table[k] == row[k - at];
  }

  lemma OtherRowsKept(before: seq<nat>, after: seq<nat>, limits: seq<nat>, i: nat)
    requires Positive(limits) && RowsInOrder(before, limits, i) && RowIs(after, limits, i) && |before| == |after|
    requires forall k :: 0 <= k < |after| && !(Times(i, |limits|) <= k < Times(i, |limits|) + |limits|)
               ==> after[k] == before[k]
    ensures RowsInOrder(after, limits, i + 1)
  {
    hide Times, Digits;
    forall j | 0 <= j < i ensures RowIs(after, limits, j) {
      TimesBelow(j, i, |limits|);
      assert RowIs(before, limits, j);
      var at := Times(j, |limits|);
      assert after[at..at + |limits|] == before[at..at + |limits|];
    }
  }

  lemma {:induction false} ProductOfOnes(limits: seq<nat>)
    requires forall k :: 0 <= k < |limits| ==> limits[k] == 1
    ensures Product(limits) == 1
  {
    if limits != [] { ProductOfOnes(limits[1..]); }
  }

  /** All combinations, four bytes an index, stay below 2^32 bytes. */
  predicate Fits(limits: seq<nat>) { 4 * Times(Product(limits), |limits|) < UINT }

  /** Fitting is: the rows fit the block, and none was lost to wrap-around. */
  lemma FitsMeans(limits: seq<nat>)
    requires Positive(limits)
    ensures Fits(limits) <==> TableAllocates(limits) && Product(limits) < UINT
  {
    hide Times;
    ProductPositive(limits);
    TimesFacts(|limits|, Product(limits));
    if limits != [] {
      TimesFacts(1, Product(limits));
      if |limits| > 1 { TimesBelow(1, |limits|, Product(limits)); }
      assert Product(limits) <= Times(Product(limits), |limits|);
    }
  }

  /** The table is intact and ends with every index at its maximum if and only if it fits. */
  lemma LastRowIffFits(limits: seq<nat>)
    requires Positive(limits)
    ensures TableAllocates(limits) && RowCount(limits) > 0
              && Digits(RowCount(limits) - 1, limits) == seq(|limits|, k requires 0 <= k < |limits| => limits[k] - 1)
            <==> Fits(limits)
  {
    hide Times, Product, Digits, Number, Fits, TableAllocates;
    FitsMeans(limits);
    ProductPositive(limits);
    LastPosition(limits);
    NumberOfDigits(Product(limits) - 1, limits);
    assert Digits(Product(limits) - 1, limits) == seq(|limits|, k requires 0 <= k < |limits| => limits[k] - 1);
    if RowCount(limits) > 0 { NumberOfDigits(RowCount(limits) - 1, limits); }
  }

  /** 641 * 6700417 is 2^32 + 1: two parameters with so many values would give a table of a single row. */
  lemma WrapLosesRows()
    ensures Product([641, 6700417]) == UINT + 1 && RowCount([641, 6700417]) == 1
    ensures TableAllocates([641, 6700417]) && !Listed([1, 0], [641, 6700417])
  {
    var limits := [641, 6700417];
    assert limits[1..] == [6700417] && limits[1..][1..] == [];
    assert Product([6700417]) == 6700417;
    assert Digits(0, limits)[0] == 0;
  }

  /** Some row of the table is position `p`. */
  ghost predicate Listed(p: seq<nat>, limits: seq<nat>)
    requires Positive(limits)
  {
    exists i :: 0 <= i < RowCount(limits) && Digits(i, limits) == p
  }

  lemma ListsAllIffBelow(limits: seq<nat>)
    requires Positive(limits)
    ensures (forall p :: InRange(p, limits) ==> Listed(p, limits)) <==> Product(limits) < UINT
  {
    hide Times, Product, Digits, Number;
    ProductPositive(limits);
    if Product(limits) < UINT {
      assert RowCount(limits) == Product(limits);
      forall p | InRange(p, limits) ensures Listed(p, limits) {
        DigitsAreABijection(limits, p);
      }
    } else {
      var last := Product(limits) - 1;
      NumberOfDigits(last, limits);
      var p := Digits(last, limits);
      forall i | 0 <= i < RowCount(limits) ensures Digits(i, limits) != p {
        NumberOfDigits(i, limits);
      }
      assert InRange(p, limits) && !Listed(p, limits);
    }
  }

  /** The table stays in its block and lists every combination if and only if all of them fit 2^32 bytes. */
  lemma TableCompleteIffFits(limits: seq<nat>)
    requires Positive(limits)
    ensures TableAllocates(limits) && (forall p :: InRange(p, limits) ==> Listed(p, limits)) <==> Fits(limits)
  {
    hide Listed, Fits, TableAllocates, Product;
    FitsMeans(limits);
    ListsAllIffBelow(limits);
  }

  /** Two parameters of 32768 values: 2^30 combinations are all listed, in a block of no bytes. */
  lemma BytesWrapFirst()
    ensures Product([32768, 32768]) == 0x4000_0000 && !TableAllocates([32768, 32768])
    ensures forall p :: InRange(p, [32768, 32768]) ==> Listed(p, [32768, 32768])
  {
    var limits := [32768, 32768];
    assert limits[1..] == [32768] && limits[1..][1..] == [];
    assert Product([32768]) == 32768;
    ListsAllIffBelow(limits);
  }

  /** One parameter: 2^30 values are one too many for the block, 2^30 - 1 are not. */
  lemma BlockBoundary()
    ensures !TableAllocates([0x4000_0000]) && TableAllocates([0x3fff_ffff])
  {
    assert [0x4000_0000][1..] == [] && [0x3fff_ffff][1..] == [];
    assert Product([0x4000_0000]) == 0x4000_0000 && Product([0x3fff_ffff]) == 0x3fff_ffff;
  }
}
