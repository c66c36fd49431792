/**
 ALSA hardware-parameter intervals: in-place refinement of an interval with open or closed
 32-bit ends and an optional integer restriction, and what an interval denotes.
 */
module AlsaInterval {
  import opened Errno

  const UINT_MAX: int := 0xffff_ffff

  type U32 = x: int | 0 <= x <= 0xffff_ffff witness 0

  /** C's `x + 1` and `x - 1` on a 32-bit unsigned. */
  function Inc(x: U32): U32 { if x == UINT_MAX then 0 else x + 1 }
  function Dec(x: U32): U32 { if x == 0 then UINT_MAX else x - 1 }

  datatype Interval = Interval(min: U32, max: U32, openmin: bool, openmax: bool, integer: bool, empty: bool)

  const ANY := Interval(0, UINT_MAX, false, false, false, false)

  function Single(val: U32): Interval { Interval(val, val, false, false, true, false) }

  // ---------- what an interval means ----------

  predicate IsInteger(x: real) { x == x.Floor as real }

  predicate AboveMin(min: U32, open: bool, x: real) {
    if open then (min as real) < x else (min as real) <= x
  }

  predicate BelowMax(max: U32, open: bool, x: real) {
    if open then x < (max as real) else x <= (max as real)
  }

  predicate Has(i: Interval, x: real) {
    !i.empty && AboveMin(i.min, i.openmin, x) && BelowMax(i.max, i.openmax, x) && (i.integer ==> IsInteger(x))
  }

  /** The test the code ends every refinement with, negated. */
  predicate Crossed(i: Interval) {
    i.min > i.max || (i.min == i.max && (i.openmin || i.openmax))
  }

  predicate Live(i: Interval) { !i.empty && !Crossed(i) }

  /** Integer intervals are kept closed. */
  predicate Normal(i: Interval) { i.integer ==> !i.openmin && !i.openmax }

  lemma LiveHasMember(i: Interval) returns (x: real)
    requires Live(i) && Normal(i)
    ensures Has(i, x)
  {
    x := if i.integer || i.min == i.max then i.min as real else (i.min as real + i.max as real) / 2.0;
  }

  // ---------- the refinements, as functions on values ----------

  function RaiseMin(i: Interval, min: U32, open: bool): Interval {
    if i.min < min then i.(min := min, openmin := open)
    else if i.min == min && !i.openmin && open then i.(openmin := true)
    else i
  }

  function LowerMax(i: Interval, max: U32, open: bool): Interval {
    if i.max > max then i.(max := max, openmax := open)
    else if i.max == max && !i.openmax && open then i.(openmax := true)
    else i
  }

  function CloseMin(i: Interval): Interval {
    if i.integer && i.openmin then i.(min := Inc(i.min), openmin := false) else i
  }

  function CloseMax(i: Interval): Interval {
    if i.integer && i.openmax then i.(max := Dec(i.max), openmax := false) else i
  }

  function Settle(i: Interval): Interval {
    if i.integer then CloseMax(CloseMin(i))
    else if !i.openmin && !i.openmax && i.min == i.max then i.(integer := true)
    else i
  }

  function Finish(i: Interval, changed: bool): (Interval, int) {
    if Crossed(i) then (i.(empty := true), -EINVAL) else (i, if changed then 1 else 0)
  }

  /** The interval after the bounds have been merged and before it is settled. */
  function Narrowed(i: Interval, v: Interval): Interval {
    LowerMax(RaiseMin(i, v.min, v.openmin), v.max, v.openmax).(integer := i.integer || v.integer)
  }

  function Refined(i: Interval, v: Interval): (Interval, int) {
    if i.empty then (i, -ENOENT) else
    Finish(Settle(Narrowed(i, v)), Narrowed(i, v) != i)
  }

  function RefinedMin(i: Interval, min: U32, open: bool): (Interval, int) {
    if i.empty then (i, -ENOENT) else
    var raised := RaiseMin(i, min, open);
    Finish(CloseMin(raised), raised != i)
  }

  function RefinedMax(i: Interval, max: U32, open: bool): (Interval, int) {
    if i.empty then (i, -ENOENT) else
    var lowered := LowerMax(i, max, open);
    Finish(CloseMax(lowered), lowered != i)
  }

  // ---------- the same, in place ----------

  class SndInterval {
    var min: U32
    var max: U32
    var openmin: bool
    var openmax: bool
    var integer: bool
    var empty: bool

    constructor (v: Interval)
      ensures Value() == v
    {
      min, max, openmin, openmax, integer, empty := v.min, v.max, v.openmin, v.openmax, v.integer, v.empty;
    }

    function Value(): Interval
      reads this
    {
      Interval(min, max, openmin, openmax, integer, empty)
    }

    method SetAny()
      modifies this
      ensures Value() == ANY
    {
      min, max, openmin, openmax, integer, empty := 0, UINT_MAX, false, false, false, false;
    }

    /** The block that raises the lower end; the code repeats it in two functions. */
    method TightenMin(newMin: U32, open: bool) returns (changed: bool)
      modifies this
      ensures Value() == RaiseMin(old(Value()), newMin, open)
      ensures changed <==> Value() != old(Value())
    {
      changed := false;
      if min < newMin {
        min := newMin;
        openmin := open;
        changed := true;
      } else if min == newMin && !openmin && open {
        openmin := true;
        changed := true;
      }
    }

    /** The block that lowers the upper end, likewise. */
    method TightenMax(newMax: U32, open: bool) returns (changed: bool)
      modifies this
      ensures Value() == LowerMax(old(Value()), newMax, open)
      ensures changed <==> Value() != old(Value())
    {
      changed := false;
      if max > newMax {
        max := newMax;
        openmax := open;
        changed := true;
      } else if max == newMax && !openmax && open {
        openmax := true;
        changed := true;
      }
    }

    method CloseLow()
      modifies this
      ensures Value() == CloseMin(old(Value()))
    {
      if integer {
        if openmin {
          min := Inc(min);
          openmin := false;
        }
      }
    }

    method CloseHigh()
      modifies this
      ensures Value() == CloseMax(old(Value()))
    {
      if integer {
        if openmax {
          max := Dec(max);
          openmax := false;
        }
      }
    }

    method Conclude(changed: bool) returns (code: int)
      modifies this
      ensures (Value(), code) == Finish(old(Value()), changed)
    {
      if min > max || (min == max && (openmin || openmax)) {
        empty := true;
        return -EINVAL;
      }
      return if changed then 1 else 0;
    }

    /** `v` may be the very interval being refined. */
    method Refine(v: SndInterval) returns (code: int)
      modifies this
      ensures (Value(), code) == Refined(old(Value()), old(v.Value()))
    {
      ghost var was := Value();
      if empty { return -ENOENT; }

      var changedMin := TightenMin(v.min, v.openmin);
      var changedMax := TightenMax(v.max, v.openmax);
      var changed := changedMin || changedMax;

      if !integer && v.integer {
        integer := true;
        changed := true;
      }
      assert Value() == Narrowed(was, old(v.Value())) && (changed <==> Value() != was);

      if integer {
        CloseLow();
        CloseHigh();
      } else if !openmin && !openmax && min == max {
        integer := true;
      }
      code := Conclude(changed);
    }

    method RefineSet(val: U32) returns (code: int)
      modifies this
      ensures (Value(), code) == Refined(old(Value()), Single(val))
    {
      var t := new SndInterval(Single(val));
      code := Refine(t);
    }

    method RefineMin(newMin: U32, open: bool) returns (code: int)
      modifies this
      ensures (Value(), code) == RefinedMin(old(Value()), newMin, open)
    {
      if empty { return -ENOENT; }
      var changed := TightenMin(newMin, open);
      CloseLow();
      code := Conclude(changed);
    }

    method RefineMax(newMax: U32, open: bool) returns (code: int)
      modifies this
      ensures (Value(), code) == RefinedMax(old(Value()), newMax, open)
    {
      if empty { return -ENOENT; }
      var changed := TightenMax(newMax, open);
      CloseHigh();
      code := Conclude(changed);
    }
  }

  // ---------- refinement is exact ----------

  ghost predicate Meet(i: Interval, v: Interval, x: real) { Has(i, x) && Has(v, x) }

  lemma RaiseMinMembers(i: Interval, min: U32, open: bool, x: real)
    ensures Has(RaiseMin(i, min, open), x) <==> Has(i, x) && AboveMin(min, open, x)
  {
  }

  lemma LowerMaxMembers(i: Interval, max: U32, open: bool, x: real)
    ensures Has(LowerMax(i, max, open), x) <==> Has(i, x) && BelowMax(max, open, x)
  {
  }

  lemma CloseMinMembers(i: Interval, x: real)
    requires i.integer && i.openmin ==> i.min < UINT_MAX
    ensures Has(CloseMin(i), x) <==> Has(i, x)
  {
    if i.integer && i.openmin && IsInteger(x) {
      assert (i.min as real) < x <==> i.min < x.Floor;
    }
  }

  lemma CloseMaxMembers(i: Interval, x: real)
    requires i.integer && i.openmax ==> 0 < i.max
    ensures Has(CloseMax(i), x) <==> Has(i, x)
  {
    if i.integer && i.openmax && IsInteger(x) {
      assert x < i.max as real <==> x.Floor < i.max;
    }
  }

  lemma SettleInteger(i: Interval, x: real)
    requires i.integer && (i.openmin ==> i.min < UINT_MAX) && (i.openmax ==> 0 < i.max)
    ensures Has(CloseMax(CloseMin(i)), x) <==> Has(i, x)
  {
    hide Has, Inc, Dec;
    CloseMinMembers(i, x);
    CloseMaxMembers(CloseMin(i), x);
  }

  lemma SettlePoint(i: Interval, x: real)
    requires !i.openmin && !i.openmax && i.min == i.max
    ensures Has(i.(integer := true), x) <==> Has(i, x)
  {
  }

  lemma SettleMembers(i: Interval, x: real)
    requires (i.openmin ==> i.min < UINT_MAX) && (i.openmax ==> 0 < i.max)
    ensures Has(Settle(i), x) <==> Has(i, x)
  {
    hide Has, CloseMin, CloseMax;
    if i.integer {
      SettleInteger(i, x);
    } else if !i.openmin && !i.openmax && i.min == i.max {
      SettlePoint(i, x);
    }
  }

  /** A live interval's open end always has room on its inner side, so settling cannot wrap. */
  lemma NarrowedHasRoom(i: Interval, v: Interval)
    requires Live(i) && Live(v)
    ensures var t := Narrowed(i, v); (t.openmin ==> t.min < UINT_MAX) && (t.openmax ==> 0 < t.max)
  {
  }

  lemma NarrowedMembers(i: Interval, v: Interval, x: real)
    requires Live(i) && Live(v)
    ensures Has(Narrowed(i, v), x) <==> Meet(i, v, x)
  {
    RaiseMinMembers(i, v.min, v.openmin, x);
    LowerMaxMembers(RaiseMin(i, v.min, v.openmin), v.max, v.openmax, x);
  }

  lemma FinishMembers(i: Interval, changed: bool, x: real)
    ensures Has(Finish(i, changed).0, x) <==> Has(i, x)
  {
  }

  lemma RefineMembers(i: Interval, v: Interval, x: real)
    requires Live(i) && Live(v)
    ensures Has(Refined(i, v).0, x) <==> Meet(i, v, x)
  {
    var t := Narrowed(i, v);
    NarrowedHasRoom(i, v);
    NarrowedMembers(i, v, x);
    SettleMembers(t, x);
    FinishMembers(Settle(t), t != i, x);
  }

  lemma NarrowedShape(i: Interval, v: Interval)
    requires Live(i) && Live(v)
    ensures var t := Narrowed(i, v); !t.empty && i.min <= t.min && t.max <= i.max
  {
  }

  lemma SettleShape(t: Interval)
    requires !t.empty && (t.openmin ==> t.min < UINT_MAX) && (t.openmax ==> 0 < t.max)
    ensures var r := Settle(t); !r.empty && Normal(r) && t.min <= r.min && r.max <= t.max
  {
  }

  lemma RefineShape(i: Interval, v: Interval)
    requires Live(i) && Live(v)
    ensures var (r, code) := Refined(i, v);
      && (code == -EINVAL || code == 0 || code == 1)
      && (code == -EINVAL <==> r.empty)
      && (code == 0 ==> r == Settle(i))
      && (code >= 0 ==> Live(r) && Normal(r) && i.min <= r.min && r.max <= i.max)
  {
    NarrowedHasRoom(i, v);
    NarrowedShape(i, v);
    SettleShape(Narrowed(i, v));
  }

  /**
   Refining one live interval by another gives exactly their intersection, fails exactly
   when that is empty, reports 0 only when nothing was lost, and never wraps an end.
   */
  lemma RefineExact(i: Interval, v: Interval)
    requires Live(i) && Live(v)
    ensures var (r, code) := Refined(i, v);
      && (forall x :: Has(r, x) <==> Meet(i, v, x))
      && (code == -EINVAL || code == 0 || code == 1)
      && (code == -EINVAL <==> !exists x :: Meet(i, v, x))
      && (code == 0 ==> forall x :: Has(r, x) <==> Has(i, x))
      && (code == -EINVAL <==> r.empty)
      && (code >= 0 ==> Live(r) && Normal(r) && i.min <= r.min && r.max <= i.max)
  {
    var (r, code) := Refined(i, v);
    RefineShape(i, v);
    forall x ensures Has(r, x) <==> Meet(i, v, x) { RefineMembers(i, v, x); }
    if code == 0 {
      forall x ensures Has(r, x) <==> Has(i, x) { SettleMembers(i, x); }
    }
    if code >= 0 {
      var x := LiveHasMember(r);
      assert Meet(i, v, x);
    }
  }

  // ---------- any number of constraints, in any order ----------

  function RefineAll(i: Interval, vs: seq<Interval>): Interval
    decreases |vs|
  {
    if vs == [] then i else RefineAll(Refined(i, vs[0]).0, vs[1..])
  }

  function Codes(i: Interval, vs: seq<Interval>): (codes: seq<int>)
    ensures |codes| == |vs|
    decreases |vs|
  {
    if vs == [] then [] else [Refined(i, vs[0]).1] + Codes(Refined(i, vs[0]).0, vs[1..])
  }

  ghost predicate MeetAll(i: Interval, vs: seq<Interval>, x: real) {
    Has(i, x) && forall v :: v in vs ==> Has(v, x)
  }

  ghost predicate Succeeds(i: Interval, vs: seq<Interval>) {
    forall k :: 0 <= k < |vs| ==> Codes(i, vs)[k] >= 0
  }

  lemma {:induction false} EmptyStaysEmpty(i: Interval, vs: seq<Interval>)
    requires i.empty
    ensures RefineAll(i, vs) == i
    ensures forall k :: 0 <= k < |vs| ==> Codes(i, vs)[k] == -ENOENT
  {
    if vs != [] { EmptyStaysEmpty(i, vs[1..]); }
  }

  lemma {:induction false} RefineAllMembers(i: Interval, vs: seq<Interval>, x: real)
    requires Live(i) && forall v :: v in vs ==> Live(v)
    ensures Has(RefineAll(i, vs), x) <==> MeetAll(i, vs, x)
    decreases |vs|
  {
    if vs != [] {
      var (r, code) := Refined(i, vs[0]);
      RefineExact(i, vs[0]);
      assert forall v :: v in vs <==> v == vs[0] || v in vs[1..];
      if r.empty {
        EmptyStaysEmpty(r, vs[1..]);
        assert !Meet(i, vs[0], x);
      } else {
        RefineAllMembers(r, vs[1..], x);
        assert Has(r, x) <==> Meet(i, vs[0], x);
      }
    }
  }

  lemma CodesCons(i: Interval, vs: seq<Interval>)
    requires vs != []
    ensures Codes(i, vs)[0] == Refined(i, vs[0]).1
    ensures forall k :: 1 <= k < |vs| ==> Codes(i, vs)[k] == Codes(Refined(i, vs[0]).0, vs[1..])[k - 1]
    ensures Succeeds(i, vs) <==> Refined(i, vs[0]).1 >= 0 && Succeeds(Refined(i, vs[0]).0, vs[1..])
  {
    var codes, rest := Codes(i, vs), Codes(Refined(i, vs[0]).0, vs[1..]);
    assert codes == [Refined(i, vs[0]).1] + rest;
    assert forall k :: 0 <= k < |rest| ==> rest[k] == codes[k + 1];
  }

  lemma {:induction false} SucceedsIffNotEmpty(i: Interval, vs: seq<Interval>)
    requires Live(i) && forall v :: v in vs ==> Live(v)
    ensures Succeeds(i, vs) <==> !RefineAll(i, vs).empty
    ensures Succeeds(i, vs) && (vs != [] || Normal(i)) ==> Live(RefineAll(i, vs)) && Normal(RefineAll(i, vs))
    decreases |vs|
  {
    if vs != [] {
      var r := Refined(i, vs[0]).0;
      RefineShape(i, vs[0]);
      CodesCons(i, vs);
      if r.empty { EmptyStaysEmpty(r, vs[1..]); } else { SucceedsIffNotEmpty(r, vs[1..]); }
    }
  }

  ghost predicate FailsAt(codes: seq<int>, k: nat) {
    && k < |codes| && codes[k] == -EINVAL
    && (forall j :: 0 <= j < k ==> codes[j] >= 0)
    && (forall j :: k < j < |codes| ==> codes[j] == -ENOENT)
  }

  /** A sequence that fails does so once, with -EINVAL, and every later refinement reports -ENOENT. */
  lemma {:induction false} FailureIsFinal(i: Interval, vs: seq<Interval>) returns (k: nat)
    requires Live(i) && (forall v :: v in vs ==> Live(v)) && !Succeeds(i, vs)
    ensures FailsAt(Codes(i, vs), k)
    decreases |vs|
  {
    var r := Refined(i, vs[0]).0;
    RefineShape(i, vs[0]);
    CodesCons(i, vs);
    if r.empty {
      EmptyStaysEmpty(r, vs[1..]);
      k := 0;
    } else {
      var j := FailureIsFinal(r, vs[1..]);
      k := j + 1;
    }
  }

  lemma SucceedsIffCompatible(i: Interval, vs: seq<Interval>)
    requires Live(i) && Normal(i) && forall v :: v in vs ==> Live(v)
    ensures Succeeds(i, vs) <==> exists x :: MeetAll(i, vs, x)
  {
    SucceedsIffNotEmpty(i, vs);
    if Succeeds(i, vs) {
      var x := LiveHasMember(RefineAll(i, vs));
      RefineAllMembers(i, vs, x);
    } else {
      forall x ensures !MeetAll(i, vs, x) { RefineAllMembers(i, vs, x); }
    }
  }

  /** Any two orders of the same constraints succeed together and leave the same set. */
  lemma OrderDoesNotMatter(i: Interval, vs: seq<Interval>, ws: seq<Interval>)
    requires Live(i) && Normal(i) && (forall v :: v in vs ==> Live(v)) && multiset(vs) == multiset(ws)
    ensures Succeeds(i, vs) <==> Succeeds(i, ws)
    ensures forall x :: Has(RefineAll(i, vs), x) <==> Has(RefineAll(i, ws), x)
  {
    assert forall v :: v in vs <==> v in multiset(vs);
    assert forall v :: v in ws <==> v in multiset(ws);
    assert forall x :: MeetAll(i, vs, x) <==> MeetAll(i, ws, x);
    SucceedsIffCompatible(i, vs);
    SucceedsIffCompatible(i, ws);
    forall x ensures Has(RefineAll(i, vs), x) <==> Has(RefineAll(i, ws), x) {
      RefineAllMembers(i, vs, x);
      RefineAllMembers(i, ws, x);
    }
  }

  // ---------- one-sided refinement, and where it wraps ----------

  ghost predicate MinExact(i: Interval, min: U32, open: bool) {
    forall x :: Has(RefinedMin(i, min, open).0, x) <==> Has(i, x) && AboveMin(min, open, x)
  }

  ghost predicate MaxExact(i: Interval, max: U32, open: bool) {
    forall x :: Has(RefinedMax(i, max, open).0, x) <==> Has(i, x) && BelowMax(max, open, x)
  }

  lemma RefinedMinMembers(i: Interval, min: U32, open: bool, x: real)
    requires Live(i) && Normal(i) && !(i.integer && open && min == UINT_MAX)
    ensures Has(RefinedMin(i, min, open).0, x) <==> Has(i, x) && AboveMin(min, open, x)
  {
    RaiseMinMembers(i, min, open, x);
    CloseMinMembers(RaiseMin(i, min, open), x);
  }

  lemma RefinedMaxMembers(i: Interval, max: U32, open: bool, x: real)
    requires Live(i) && Normal(i) && !(i.integer && open && max == 0)
    ensures Has(RefinedMax(i, max, open).0, x) <==> Has(i, x) && BelowMax(max, open, x)
  {
    LowerMaxMembers(i, max, open, x);
    CloseMaxMembers(LowerMax(i, max, open), x);
  }

  lemma OneSidedShape(i: Interval, bound: U32, open: bool)
    requires Live(i) && Normal(i)
    ensures var (r, code) := RefinedMin(i, bound, open);
      (code == -EINVAL || code >= 0) && (code == -EINVAL <==> r.empty) && (code >= 0 ==> Live(r) && Normal(r))
    ensures var (r, code) := RefinedMax(i, bound, open);
      (code == -EINVAL || code >= 0) && (code == -EINVAL <==> r.empty) && (code >= 0 ==> Live(r) && Normal(r))
  {
  }

  /** Raising the minimum is exact unless an integer interval is asked to exceed UINT_MAX. */
  lemma MinExactUnlessWraps(i: Interval, min: U32, open: bool)
    requires Live(i) && Normal(i)
    ensures MinExact(i, min, open) <==> !(i.integer && open && min == UINT_MAX)
    ensures MinExact(i, min, open) ==>
              (RefinedMin(i, min, open).1 == -EINVAL <==> !exists x :: Has(i, x) && AboveMin(min, open, x))
  {
    var (r, code) := RefinedMin(i, min, open);
    OneSidedShape(i, min, open);
    if i.integer && open && min == UINT_MAX {
      assert Has(r, 0.0) && !AboveMin(min, open, 0.0);
    } else {
      forall x ensures Has(r, x) <==> Has(i, x) && AboveMin(min, open, x) { RefinedMinMembers(i, min, open, x); }
      if code != -EINVAL {
        var x := LiveHasMember(r);
        assert Has(i, x) && AboveMin(min, open, x);
      }
    }
  }

  /** Lowering the maximum is exact unless an integer interval is asked to stay below 0. */
  lemma MaxExactUnlessWraps(i: Interval, max: U32, open: bool)
    requires Live(i) && Normal(i)
    ensures MaxExact(i, max, open) <==> !(i.integer && open && max == 0)
    ensures MaxExact(i, max, open) ==>
              (RefinedMax(i, max, open).1 == -EINVAL <==> !exists x :: Has(i, x) && BelowMax(max, open, x))
  {
    var (r, code) := RefinedMax(i, max, open);
    OneSidedShape(i, max, open);
    if i.integer && open && max == 0 {
      assert Has(r, i.min as real) && !BelowMax(max, open, i.min as real);
    } else {
      forall x ensures Has(r, x) <==> Has(i, x) && BelowMax(max, open, x) { RefinedMaxMembers(i, max, open, x); }
      if code != -EINVAL {
        var x := LiveHasMember(r);
        assert Has(i, x) && BelowMax(max, open, x);
      }
    }
  }

  // ---------- what the codes tell ----------

  /** Settling moves the ends inwards only, so ends that met a bound still meet it. */
  lemma SettledKeepsBounds(n: Interval, v: Interval)
    requires RaiseMin(n, v.min, v.openmin) == n && LowerMax(n, v.max, v.openmax) == n
    requires n.integer && n.openmin ==> n.min < UINT_MAX
    requires n.integer && n.openmax ==> n.max > 0
    ensures RaiseMin(Settle(n), v.min, v.openmin) == Settle(n)
    ensures LowerMax(Settle(n), v.max, v.openmax) == Settle(n)
  {
  }

  lemma SettledTwice(n: Interval)
    ensures Settle(Settle(n)) == Settle(n) && (n.integer ==> Settle(n).integer)
  {
  }

  lemma NarrowedMeets(i: Interval, v: Interval)
    ensures var n := Narrowed(i, v);
      RaiseMin(n, v.min, v.openmin) == n && LowerMax(n, v.max, v.openmax) == n && (v.integer ==> n.integer)
  {
  }

  /** What has been narrowed and settled meets the constraint already. */
  lemma SettledMeets(i: Interval, v: Interval)
    requires Live(i) && Normal(i) && Live(v)
    ensures var r := Settle(Narrowed(i, v)); Narrowed(r, v) == r && Settle(r) == r
  {
    var n := Narrowed(i, v);
    NarrowedHasRoom(i, v);
    NarrowedMeets(i, v);
    SettledKeepsBounds(n, v);
    SettledTwice(n);
    hide Settle, RaiseMin, LowerMax;
  }

  /** Refining again by the same constraint reports no change. */
  lemma RefineAgain(i: Interval, v: Interval)
    requires Live(i) && Normal(i) && Live(v) && Refined(i, v).1 >= 0
    ensures Refined(Refined(i, v).0, v) == (Refined(i, v).0, 0)
  {
    SettledMeets(i, v);
    RefineShape(i, v);
    hide Narrowed, Settle;
  }

  /** A change is reported only when the interval has changed; none, only when it holds what it held. */
  lemma RefineCodeTells(i: Interval, v: Interval)
    requires Live(i) && Normal(i) && Live(v)
    ensures Refined(i, v).1 == 1 ==> Refined(i, v).0 != i
    ensures Refined(i, v).1 == 0 ==> Refined(i, v).0 == Settle(i)
  {
    NarrowedHasRoom(i, v);
  }

  lemma MinAgain(i: Interval, min: U32, open: bool)
    requires Live(i) && Normal(i) && RefinedMin(i, min, open).1 >= 0
    ensures RefinedMin(RefinedMin(i, min, open).0, min, open).1 == 0 <==> !(i.integer && open && min == UINT_MAX)
  {
  }

  lemma MaxAgain(i: Interval, max: U32, open: bool)
    requires Live(i) && Normal(i) && RefinedMax(i, max, open).1 >= 0
    ensures RefinedMax(RefinedMax(i, max, open).0, max, open).1 == 0 <==> !(i.integer && open && max == 0)
  {
  }

  lemma MinCodeTells(i: Interval, min: U32, open: bool)
    requires Live(i) && Normal(i) && RefinedMin(i, min, open).1 >= 0 && !(i.integer && open && min == UINT_MAX)
    ensures RefinedMin(i, min, open).1 == 0 <==> RefinedMin(i, min, open).0 == i
    ensures RefinedMin(i, min, open).1 <= 1
  {
  }

  lemma MaxCodeTells(i: Interval, max: U32, open: bool)
    requires Live(i) && Normal(i) && RefinedMax(i, max, open).1 >= 0 && !(i.integer && open && max == 0)
    ensures RefinedMax(i, max, open).1 == 0 <==> RefinedMax(i, max, open).0 == i
    ensures RefinedMax(i, max, open).1 <= 1
  {
  }

  /** The two one-sided refinements leave each other's end alone. */
  lemma EndsApart(i: Interval, bound: U32, open: bool)
    requires Live(i)
    ensures var (r, code) := RefinedMin(i, bound, open);
      r.max == i.max && r.openmax == i.openmax && r.integer == i.integer && (code >= 0 ==> !r.empty)
    ensures var (r, code) := RefinedMax(i, bound, open);
      r.min == i.min && r.openmin == i.openmin && r.integer == i.integer && (code >= 0 ==> !r.empty)
  {
  }

  /** What bounding from both sides does once more to its own result. */
  lemma BothAgain(i: Interval, low: U32, openlow: bool, high: U32, openhigh: bool)
    requires Live(i) && Normal(i) && RefinedMin(i, low, openlow).1 >= 0
    requires RefinedMax(RefinedMin(i, low, openlow).0, high, openhigh).1 >= 0
    ensures var r := RefinedMax(RefinedMin(i, low, openlow).0, high, openhigh).0;
      && (RefinedMin(r, low, openlow).1 == 0 <==> !(i.integer && openlow && low == UINT_MAX))
      && (RefinedMin(r, low, openlow).1 == 0 ==> RefinedMin(r, low, openlow).0 == r)
      && (RefinedMax(r, high, openhigh).1 == 0 <==> !(i.integer && openhigh && high == 0))
  {
    var low1 := RefinedMin(i, low, openlow).0;
    OneSidedShape(i, low, openlow);
    EndsApart(i, low, openlow);
    MaxAgain(low1, high, openhigh);
    MinAgain(i, low, openlow);
    OneSidedShape(low1, high, openhigh);
    EndsApart(low1, high, openhigh);
    MinDependsOnMin(low1, RefinedMax(low1, high, openhigh).0, low, openlow);
  }

  /** For two live intervals that differ in their upper end only, raising the minimum changes neither or both. */
  lemma MinDependsOnMin(i: Interval, j: Interval, min: U32, open: bool)
    requires Live(i) && Normal(i) && Live(j) && Normal(j)
    requires i.min == j.min && i.openmin == j.openmin && i.integer == j.integer
    ensures RefinedMin(i, min, open).1 == 0 <==> RefinedMin(j, min, open).1 == 0
    ensures RefinedMin(j, min, open).1 == 0 ==> RefinedMin(j, min, open).0 == j
  {
  }

  lemma BothCodesTell(i: Interval, low: U32, openlow: bool, high: U32, openhigh: bool)
    requires Live(i) && Normal(i) && RefinedMin(i, low, openlow).1 >= 0
    requires RefinedMax(RefinedMin(i, low, openlow).0, high, openhigh).1 >= 0
    ensures RefinedMax(RefinedMin(i, low, openlow).0, high, openhigh).0 == i ==> RefinedMin(i, low, openlow).0 == i
  {
    hide RefinedMin, RefinedMax;
    OneSidedShape(i, low, openlow);
    EndsApart(i, low, openlow);
    EndsApart(RefinedMin(i, low, openlow).0, high, openhigh);
  }
}
