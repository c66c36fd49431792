/**
 The hardware-parameter block: setting one parameter, bounding it from both sides, and
 reading back a parameter that has been narrowed to a single value.
 */
module AlsaParams {
  import I = AlsaInterval
  import M = AlsaMask
  import opened Errno

  const FIRST_MASK: nat := 0
  const LAST_MASK: nat := 2
  const FIRST_INTERVAL: nat := 8
  const LAST_INTERVAL: nat := 19

  predicate IsMask(v: nat) { FIRST_MASK <= v <= LAST_MASK }
  predicate IsInterval(v: nat) { FIRST_INTERVAL <= v <= LAST_INTERVAL }

  // ---------- the interval branches, as functions on values ----------

  /** Result code, value and direction of `pcm_hw_param_get` on an interval. */
  function GetInterval(i: I.Interval): (int, int, int) {
    if i.empty || !(i.min == i.max || (I.Inc(i.min) == i.max && i.openmax)) then (-EINVAL, 0, 0)
    else (0, i.min, if i.openmin then 1 else 0)
  }

  function SetInterval(i: I.Interval, val: I.U32, dir: int): (I.Interval, int) {
    if val == 0 && dir < 0 then (i.(empty := true), -EINVAL)
    else if dir == 0 then I.Refined(i, I.Single(val))
    else if dir < 0 then I.Refined(i, I.Interval(I.Dec(val), val, true, true, false, false))
    else I.Refined(i, I.Interval(val, I.Inc(val), true, true, false, false))
  }

  function LowEnd(min: I.U32, mindir: int): (I.U32, bool) {
    if mindir > 0 then (min, true) else if mindir < 0 && min > 0 then (min - 1, true) else (min, false)
  }

  function HighEnd(max: I.U32, maxdir: int): (I.U32, bool) {
    if maxdir < 0 then (max, true) else if maxdir > 0 then (I.Inc(max), true) else (max, false)
  }

  function BoundInterval(i: I.Interval, min: I.U32, mindir: int, max: I.U32, maxdir: int): (I.Interval, int) {
    var (r1, c1) := I.RefinedMin(i, LowEnd(min, mindir).0, LowEnd(min, mindir).1);
    if c1 < 0 then (r1, c1) else
    var (r2, c2) := I.RefinedMax(r1, HighEnd(max, maxdir).0, HighEnd(max, maxdir).1);
    if c2 < 0 then (r2, c2) else (r2, if c1 != 0 || c2 != 0 then 1 else 0)
  }

  // ---------- the mask branches, as index ranges ----------

  /** The index a mask parameter is set to. */
  function MaskTarget(val: I.U32, dir: int): I.U32 {
    if dir > 0 then I.Inc(val) else if dir < 0 && val > 0 then val - 1 else val
  }

  /** The index it was asked to be set to. */
  function MaskAsked(val: I.U32, dir: int): int { if dir > 0 then val + 1 else if dir < 0 then val - 1 else val }

  /** The upper end the code clears the whole mask for: below 0, or what `max++` wraps to. */
  predicate NothingBelow(max: I.U32, maxdir: int) { HighEnd(max, maxdir) == (0, true) }

  /** The least and greatest index the code leaves a bounded mask parameter. */
  function FirstIndex(min: I.U32, mindir: int): nat {
    var (low, open) := LowEnd(min, mindir);
    if open then I.Inc(low) else low
  }

  function LastIndex(max: I.U32, maxdir: int): nat {
    var (high, open) := HighEnd(max, maxdir);
    if open then I.Dec(high) else high
  }

  predicate Allowed(u: nat, min: I.U32, mindir: int, max: I.U32, maxdir: int) {
    !NothingBelow(max, maxdir) && FirstIndex(min, mindir) <= u <= LastIndex(max, maxdir)
  }

  /** For every index of a mask, what the code allows is what was requested. */
  ghost predicate AllowsRequested(min: I.U32, mindir: int, max: I.U32, maxdir: int) {
    forall u: nat :: u < M.MASK_MAX ==>
      (Allowed(u, min, mindir, max, maxdir) <==> Requested(u as real, min, mindir, max, maxdir))
  }

  /** Neither end wraps, or nothing is requested and nothing allowed, or nothing of the mask is. */
  predicate MaskEndsHold(min: I.U32, mindir: int, max: I.U32, maxdir: int) {
    if mindir > 0 && min == I.UINT_MAX then NothingBelow(max, maxdir)
    else maxdir > 0 && max == I.UINT_MAX ==> M.MASK_MAX <= FirstIndex(min, mindir)
  }

  lemma AllowedAtZero(min: I.U32, mindir: int, max: I.U32, maxdir: int)
    requires mindir > 0 && min == I.UINT_MAX && !NothingBelow(max, maxdir)
    ensures Allowed(0, min, mindir, max, maxdir) && !Requested(0 as real, min, mindir, max, maxdir)
  {
  }

  lemma RequestedAtFirst(min: I.U32, mindir: int, max: I.U32, maxdir: int)
    requires !(mindir > 0 && min == I.UINT_MAX) && maxdir > 0 && max == I.UINT_MAX
    ensures var u := FirstIndex(min, mindir);
      !Allowed(u, min, mindir, max, maxdir) && Requested(u as real, min, mindir, max, maxdir)
  {
  }

  lemma EndsHoldAt(u: nat, min: I.U32, mindir: int, max: I.U32, maxdir: int)
    requires MaskEndsHold(min, mindir, max, maxdir) && u < M.MASK_MAX
    ensures Allowed(u, min, mindir, max, maxdir) <==> Requested(u as real, min, mindir, max, maxdir)
  {
  }

  /** Bounding a mask leaves what was requested, of every mask, if and only if no end wraps to effect. */
  lemma MaskBoundIff(min: I.U32, mindir: int, max: I.U32, maxdir: int)
    ensures AllowsRequested(min, mindir, max, maxdir) <==> MaskEndsHold(min, mindir, max, maxdir)
  {
    hide Allowed, Requested, FirstIndex, NothingBelow;
    if MaskEndsHold(min, mindir, max, maxdir) {
      forall u: nat | u < M.MASK_MAX
        ensures Allowed(u, min, mindir, max, maxdir) <==> Requested(u as real, min, mindir, max, maxdir)
      {
        EndsHoldAt(u, min, mindir, max, maxdir);
      }
    } else if mindir > 0 && min == I.UINT_MAX {
      AllowedAtZero(min, mindir, max, maxdir);
    } else {
      RequestedAtFirst(min, mindir, max, maxdir);
    }
  }

  /** The request (0, 0, UINT_MAX, +1) is for every index, and gets none. */
  lemma MaskBoundWraps(u: nat)
    requires u < M.MASK_MAX
    ensures Requested(u as real, 0, 0, I.UINT_MAX, 1) && !Allowed(u, 0, 0, I.UINT_MAX, 1)
  {
    assert u as real < (I.UINT_MAX + 1) as real;
  }

  /** A mask is set to the index asked for, unless that is just above UINT_MAX or below 0. */
  lemma MaskTargetIff(val: I.U32, dir: int)
    ensures MaskTarget(val, dir) == MaskAsked(val, dir) <==> !(dir > 0 && val == I.UINT_MAX) && !(dir < 0 && val == 0)
    ensures MaskTarget(I.UINT_MAX, 1) == 0
  {
  }

  // ---------- reading back what was set ----------

  /** A parameter set to `val` reads back as `val`. */
  lemma SetReadsBack(i: I.Interval, val: I.U32)
    requires I.Live(i) && SetInterval(i, val, 0).1 >= 0
    ensures GetInterval(SetInterval(i, val, 0).0) == (0, val, 0)
  {
  }

  /** Setting "just above" or "just below" reads back the lower end with direction +1, unless the end above wraps. */
  lemma SetDirectedReadsBack(i: I.Interval, val: I.U32, dir: int)
    requires I.Live(i) && I.Normal(i) && dir != 0
    requires SetInterval(i, val, dir).1 >= 0
    ensures GetInterval(SetInterval(i, val, dir).0) == (0, if dir > 0 then val else val - 1, 1)
            <==> !(dir > 0 && val == I.UINT_MAX)
  {
    if dir > 0 && val == I.UINT_MAX { SetAboveAllWraps(i); }
  }

  /** Setting just above `UINT_MAX` fails on a real interval and opens an integer one to all values. */
  lemma SetAboveAllWraps(i: I.Interval)
    requires I.Live(i) && I.Normal(i)
    ensures var (r, code) := SetInterval(i, I.UINT_MAX, 1);
      if i.integer then r == I.ANY.(integer := true) && code == 1 && GetInterval(r).0 == -EINVAL
      else r.empty && code == -EINVAL
  {
  }

  /** All the values an interval holds lie in the unit from `v` on. */
  ghost predicate OneUnit(i: I.Interval, v: int) { forall x :: I.Has(i, x) ==> x.Floor == v }

  lemma FloorOf(a: int)
    ensures (a as real).Floor == a && (a as real + 0.5).Floor == a
  {
  }

  lemma ReadableIsOneUnit(i: I.Interval)
    requires I.Live(i) && I.Normal(i) && GetInterval(i).0 == 0
    ensures OneUnit(i, i.min)
  {
    forall x | I.Has(i, x) ensures x.Floor == i.min {
      assert i.min as real <= x < i.min as real + 1.0;
    }
  }

  /** An interval that cannot be read holds two values with different integer parts. */
  lemma UnreadableIsNot(i: I.Interval) returns (x: real, y: real)
    requires I.Live(i) && I.Normal(i) && GetInterval(i).0 != 0
    ensures I.Has(i, x) && I.Has(i, y) && x.Floor != y.Floor
  {
    FloorOf(i.min);
    FloorOf(i.min + 1);
    FloorOf(i.max);
    if i.integer {
      x, y := i.min as real, i.max as real;
    } else if i.max == i.min + 1 {
      x, y := i.min as real + 0.5, i.max as real;
    } else {
      x, y := i.min as real + 0.5, i.min as real + 1.5;
      assert y == (i.min + 1) as real + 0.5;
    }
  }

  /**
   An interval parameter can be read exactly when all it holds lies in one unit; the value
   read is where that unit starts, and the direction is 1 exactly when that itself is not held.
   */
  lemma ReadsIffOneUnit(i: I.Interval)
    requires I.Live(i) && I.Normal(i)
    ensures GetInterval(i).0 == 0 <==> exists v :: OneUnit(i, v)
    ensures GetInterval(i).0 == 0 || GetInterval(i).0 == -EINVAL
    ensures GetInterval(i).0 == 0 ==>
              OneUnit(i, GetInterval(i).1) && GetInterval(i).2 == if I.Has(i, GetInterval(i).1 as real) then 0 else 1
  {
    if GetInterval(i).0 == 0 {
      ReadableIsOneUnit(i);
      FloorOf(i.min);
    } else {
      var x, y := UnreadableIsNot(i);
      forall v ensures !OneUnit(i, v) { assert x.Floor != v || y.Floor != v; }
    }
  }

  /** The closed rate interval from 8000 to 48000 has no value to read. */
  lemma SeveralValuesUnreadable()
    ensures GetInterval(I.Interval(8000, 48000, false, false, false, false)).0 == -EINVAL
  {
  }

  /** Setting succeeds exactly when the interval holds a value that was asked for. */
  lemma SetSucceedsIffHeld(i: I.Interval, val: I.U32, dir: int)
    requires I.Live(i) && I.Normal(i) && !(dir > 0 && val == I.UINT_MAX)
    ensures dir == 0 ==> (SetInterval(i, val, dir).1 >= 0 <==> I.Has(i, val as real))
    ensures dir > 0 ==>
      (SetInterval(i, val, dir).1 >= 0 <==> exists x :: I.Has(i, x) && val as real < x < (val + 1) as real)
    ensures dir < 0 ==>
      (SetInterval(i, val, dir).1 >= 0 <==> exists x :: I.Has(i, x) && (val - 1) as real < x < val as real)
  {
    if dir == 0 {
      I.RefineExact(i, I.Single(val));
      forall x ensures I.Has(I.Single(val), x) <==> x == val as real { FloorOf(val); }
      assert I.Meet(i, I.Single(val), val as real) <==> I.Has(i, val as real);
    } else if dir > 0 {
      GapHeld(i, val);
    } else if val > 0 {
      GapHeld(i, val - 1);
    } else {
      forall x ensures !(I.Has(i, x) && (val - 1) as real < x < val as real) {}
    }
  }

  lemma RefinedFailsEmpty(i: I.Interval, v: I.Interval)
    requires I.Live(i)
    ensures I.Refined(i, v).1 < 0 <==> I.Refined(i, v).0.empty
  {
    hide I.RaiseMin, I.LowerMax, I.Crossed;
    assert !I.Narrowed(i, v).empty by { NarrowedAlive(i, v); }
  }

  lemma NarrowedAlive(i: I.Interval, v: I.Interval)
    requires I.Live(i)
    ensures !I.Narrowed(i, v).empty
  {
  }

  lemma SetFailedIsEmpty(i: I.Interval, val: I.U32, dir: int)
    requires I.Live(i)
    ensures SetInterval(i, val, dir).1 < 0 <==> SetInterval(i, val, dir).0.empty
  {
    hide I.Refined;
    RefinedFailsEmpty(i, I.Single(val));
    RefinedFailsEmpty(i, I.Interval(I.Dec(val), val, true, true, false, false));
    RefinedFailsEmpty(i, I.Interval(val, I.Inc(val), true, true, false, false));
  }

  /** A call that fails leaves the interval empty. */
  lemma FailedIsEmpty(i: I.Interval, min: I.U32, mindir: int, max: I.U32, maxdir: int)
    requires I.Live(i) && I.Normal(i)
    ensures SetInterval(i, min, mindir).1 < 0 <==> SetInterval(i, min, mindir).0.empty
    ensures BoundInterval(i, min, mindir, max, maxdir).1 < 0 <==> BoundInterval(i, min, mindir, max, maxdir).0.empty
  {
    hide LowEnd, HighEnd, I.RefinedMin, I.RefinedMax, SetInterval;
    SetFailedIsEmpty(i, min, mindir);
    I.OneSidedShape(i, LowEnd(min, mindir).0, LowEnd(min, mindir).1);
    var low := I.RefinedMin(i, LowEnd(min, mindir).0, LowEnd(min, mindir).1).0;
    if !low.empty { I.OneSidedShape(low, HighEnd(max, maxdir).0, HighEnd(max, maxdir).1); }
  }

  lemma GapHeld(i: I.Interval, low: I.U32)
    requires I.Live(i) && low < I.UINT_MAX
    ensures I.Refined(i, I.Interval(low, low + 1, true, true, false, false)).1 >= 0
            <==> exists x :: I.Has(i, x) && low as real < x < (low + 1) as real
  {
    hide I.Refined;
    var v := I.Interval(low, low + 1, true, true, false, false);
    I.RefineExact(i, v);
    assert forall x :: I.Has(v, x) <==> low as real < x < (low + 1) as real;
    assert (exists x :: I.Meet(i, v, x)) <==> exists x :: I.Has(i, x) && low as real < x < (low + 1) as real by {
      if x :| I.Meet(i, v, x) { assert I.Has(i, x) && low as real < x < (low + 1) as real; }
      if x :| I.Has(i, x) && low as real < x < (low + 1) as real { assert I.Meet(i, v, x); }
    }
  }

  /** Bounding by [val, val + 1) reads back as `val`, whether or not the interval is integer. */
  lemma BoundReadsBack(i: I.Interval, val: I.U32)
    requires I.Live(i) && I.Normal(i) && val < I.UINT_MAX
    requires BoundInterval(i, val, 0, val + 1, -1).1 >= 0
    ensures GetInterval(BoundInterval(i, val, 0, val + 1, -1).0).0 == 0
    ensures GetInterval(BoundInterval(i, val, 0, val + 1, -1).0).1 == val
  {
  }

  // ---------- bounding is an intersection unless an end wraps ----------

  /** The values a request allows; a direction excludes the bound itself, or includes all up to the next one. */
  ghost predicate Requested(x: real, min: I.U32, mindir: int, max: I.U32, maxdir: int) {
    && (if mindir > 0 then min as real < x else if mindir < 0 then (min - 1) as real < x else min as real <= x)
    && (if maxdir > 0 then x < (max + 1) as real else if maxdir < 0 then x < max as real else x <= max as real)
  }

  ghost predicate BoundExact(i: I.Interval, min: I.U32, mindir: int, max: I.U32, maxdir: int) {
    forall x ::
      I.Has(BoundInterval(i, min, mindir, max, maxdir).0, x) <==> I.Has(i, x) && Requested(x, min, mindir, max, maxdir)
  }

  predicate LowWraps(i: I.Interval, min: I.U32, mindir: int) { i.integer && mindir > 0 && min == I.UINT_MAX }

  /** `max++` wraps, harmless only for an integer interval already open to all values; or `max--` does, below 0. */
  predicate HighWraps(i: I.Interval, max: I.U32, maxdir: int) {
    (maxdir > 0 && max == I.UINT_MAX && !(i.integer && i.max == I.UINT_MAX)) || (maxdir < 0 && max == 0 && i.integer)
  }

  lemma LowMembers(i: I.Interval, min: I.U32, mindir: int, x: real)
    requires I.Live(i) && I.Normal(i) && !LowWraps(i, min, mindir)
    ensures I.Has(I.RefinedMin(i, LowEnd(min, mindir).0, LowEnd(min, mindir).1).0, x)
            <==> I.Has(i, x) && Requested(x, min, mindir, I.UINT_MAX, 0)
  {
    hide I.RefinedMin;
    I.RefinedMinMembers(i, LowEnd(min, mindir).0, LowEnd(min, mindir).1, x);
  }

  lemma HighMembers(i: I.Interval, max: I.U32, maxdir: int, x: real)
    requires I.Live(i) && I.Normal(i) && !HighWraps(i, max, maxdir)
    ensures I.Has(I.RefinedMax(i, HighEnd(max, maxdir).0, HighEnd(max, maxdir).1).0, x)
            <==> I.Has(i, x) && Requested(x, 0, 0, max, maxdir)
  {
    if !(maxdir > 0 && max == I.UINT_MAX) {
      hide I.RefinedMax;
      I.RefinedMaxMembers(i, HighEnd(max, maxdir).0, HighEnd(max, maxdir).1, x);
    }
  }

  lemma LowWrapsInexact(i: I.Interval, min: I.U32, mindir: int, max: I.U32, maxdir: int)
    requires I.Live(i) && I.Normal(i) && LowWraps(i, min, mindir)
    ensures I.Has(BoundInterval(i, min, mindir, max, maxdir).0, 0.0) && !Requested(0.0, min, mindir, max, maxdir)
  {
  }

  lemma HighWrapsInexact(r: I.Interval, max: I.U32, maxdir: int) returns (x: real)
    requires I.Live(r) && I.Normal(r) && HighWraps(r, max, maxdir)
    ensures I.Has(I.RefinedMax(r, HighEnd(max, maxdir).0, HighEnd(max, maxdir).1).0, x)
            != (I.Has(r, x) && Requested(x, 0, 0, max, maxdir))
  {
    if r.integer {
      x := I.UINT_MAX as real;
    } else {
      x := I.LiveHasMember(r);
    }
  }

  /** On what an interval can hold, a request is its two halves. */
  lemma Halves(i: I.Interval, x: real, min: I.U32, mindir: int, max: I.U32, maxdir: int)
    requires I.Has(i, x)
    ensures Requested(x, min, mindir, max, maxdir)
            <==> Requested(x, min, mindir, I.UINT_MAX, 0) && Requested(x, 0, 0, max, maxdir)
  {
  }

  lemma BoundIsHigh(i: I.Interval, min: I.U32, mindir: int, max: I.U32, maxdir: int)
    requires I.Live(i) && I.Normal(i)
    ensures var (low, c1) := I.RefinedMin(i, LowEnd(min, mindir).0, LowEnd(min, mindir).1);
      BoundInterval(i, min, mindir, max, maxdir).0
      == if low.empty then low else I.RefinedMax(low, HighEnd(max, maxdir).0, HighEnd(max, maxdir).1).0
  {
    hide I.RefinedMin, I.RefinedMax;
    I.OneSidedShape(i, LowEnd(min, mindir).0, LowEnd(min, mindir).1);
  }

  lemma BoundExactAfterLow(i: I.Interval, min: I.U32, mindir: int, max: I.U32, maxdir: int)
    requires I.Live(i) && I.Normal(i)
    ensures var low := I.RefinedMin(i, LowEnd(min, mindir).0, LowEnd(min, mindir).1).0;
      BoundExact(i, min, mindir, max, maxdir)
      <==> !LowWraps(i, min, mindir) && (low.empty || !HighWraps(low, max, maxdir))
  {
    hide I.RefinedMin, I.RefinedMax, LowWraps, HighWraps, Requested, BoundInterval, LowEnd, HighEnd;
    BoundIsHigh(i, min, mindir, max, maxdir);
    var (low, c1) := I.RefinedMin(i, LowEnd(min, mindir).0, LowEnd(min, mindir).1);
    I.OneSidedShape(i, LowEnd(min, mindir).0, LowEnd(min, mindir).1);
    if LowWraps(i, min, mindir) {
      LowWrapsInexact(i, min, mindir, max, maxdir);
    } else if !low.empty && HighWraps(low, max, maxdir) {
      var x := HighWrapsInexact(low, max, maxdir);
      LowMembers(i, min, mindir, x);
      if I.Has(i, x) { Halves(i, x, min, mindir, max, maxdir); }
    } else {
      forall x
        ensures I.Has(BoundInterval(i, min, mindir, max, maxdir).0, x)
                <==> I.Has(i, x) && Requested(x, min, mindir, max, maxdir)
      {
        LowMembers(i, min, mindir, x);
        if I.Has(i, x) { Halves(i, x, min, mindir, max, maxdir); }
        if !low.empty { HighMembers(low, max, maxdir, x); }
      }
    }
  }

  /** Nothing of the interval reaches the requested lower end. */
  predicate BelowLow(i: I.Interval, min: I.U32, mindir: int) {
    var (low, open) := LowEnd(min, mindir);
    low > i.max || (low == i.max && (open || i.openmax))
  }

  lemma LowLeaves(i: I.Interval, min: I.U32, mindir: int)
    requires I.Live(i) && I.Normal(i) && !LowWraps(i, min, mindir)
    ensures var r := I.RefinedMin(i, LowEnd(min, mindir).0, LowEnd(min, mindir).1).0;
      (r.empty <==> BelowLow(i, min, mindir)) && r.integer == i.integer && r.max == i.max
  {
  }

  /** The bounded interval holds exactly what it held before and the request allows, unless an end wraps to effect. */
  lemma BoundExactUnlessWraps(i: I.Interval, min: I.U32, mindir: int, max: I.U32, maxdir: int)
    requires I.Live(i) && I.Normal(i)
    ensures BoundExact(i, min, mindir, max, maxdir)
            <==> !LowWraps(i, min, mindir) && (BelowLow(i, min, mindir) || !HighWraps(i, max, maxdir))
  {
    hide BoundExact, BelowLow, LowWraps, LowEnd, I.RefinedMin;
    BoundExactAfterLow(i, min, mindir, max, maxdir);
    if !LowWraps(i, min, mindir) { LowLeaves(i, min, mindir); }
  }

  /** When bounding is exact, it fails if and only if the interval held nothing that was requested. */
  lemma BoundFailsIffNothing(i: I.Interval, min: I.U32, mindir: int, max: I.U32, maxdir: int)
    requires I.Live(i) && I.Normal(i) && BoundExact(i, min, mindir, max, maxdir)
    ensures BoundInterval(i, min, mindir, max, maxdir).1 < 0
            <==> !exists x :: I.Has(i, x) && Requested(x, min, mindir, max, maxdir)
  {
    hide I.RefinedMin, I.RefinedMax, Requested, LowEnd, HighEnd;
    var (low, c1) := I.RefinedMin(i, LowEnd(min, mindir).0, LowEnd(min, mindir).1);
    I.OneSidedShape(i, LowEnd(min, mindir).0, LowEnd(min, mindir).1);
    if !low.empty { I.OneSidedShape(low, HighEnd(max, maxdir).0, HighEnd(max, maxdir).1); }
    var (r, code) := BoundInterval(i, min, mindir, max, maxdir);
    assert code < 0 <==> r.empty;
    if !r.empty {
      var x := I.LiveHasMember(r);
      assert I.Has(i, x) && Requested(x, min, mindir, max, maxdir);
    } else {
      forall x ensures !(I.Has(i, x) && Requested(x, min, mindir, max, maxdir)) { assert !I.Has(r, x); }
    }
  }

  // ---------- result codes ----------

  /** Refining again by what has just been met reports no change. */
  lemma BoundAgain(i: I.Interval, min: I.U32, mindir: int, max: I.U32, maxdir: int)
    requires I.Live(i) && I.Normal(i) && BoundInterval(i, min, mindir, max, maxdir).1 >= 0
    ensures BoundInterval(BoundInterval(i, min, mindir, max, maxdir).0, min, mindir, max, maxdir).1 == 0
            <==> !LowWraps(i, min, mindir) && !(i.integer && NothingBelow(max, maxdir))
  {
    hide LowEnd, HighEnd;
    var (low, openlow) := LowEnd(min, mindir);
    var (high, openhigh) := HighEnd(max, maxdir);
    LowWrapsOnEnd(i, min, mindir);
    I.BothAgain(i, low, openlow, high, openhigh);
  }

  lemma LowWrapsOnEnd(i: I.Interval, min: I.U32, mindir: int)
    ensures LowWraps(i, min, mindir) <==> i.integer && LowEnd(min, mindir) == (I.UINT_MAX, true)
  {
  }

  /** Bounding reports a change only when the parameter has changed, and none only when it is as it was. */
  lemma BoundCodeTells(i: I.Interval, min: I.U32, mindir: int, max: I.U32, maxdir: int)
    requires I.Live(i) && I.Normal(i) && BoundInterval(i, min, mindir, max, maxdir).1 >= 0
    requires !LowWraps(i, min, mindir) && !(i.integer && NothingBelow(max, maxdir))
    ensures BoundInterval(i, min, mindir, max, maxdir).1 == 0 <==> BoundInterval(i, min, mindir, max, maxdir).0 == i
  {
    hide LowEnd, HighEnd;
    LowWrapsOnEnd(i, min, mindir);
    var (low, openlow) := LowEnd(min, mindir);
    var (high, openhigh) := HighEnd(max, maxdir);
    I.MinCodeTells(i, low, openlow);
    I.OneSidedShape(i, low, openlow);
    var r1 := I.RefinedMin(i, low, openlow).0;
    I.MaxCodeTells(r1, high, openhigh);
    I.BothCodesTell(i, low, openlow, high, openhigh);
  }

  // ---------- the block itself ----------

  function Upto(n: nat): (ks: set<nat>)
    ensures forall k :: k in ks <==> 0 <= k < n
  {
    if n == 0 then {} else Upto(n - 1) + {n - 1}
  }

  method FullMask() returns (m: M.SndMask)
    ensures fresh(m) && fresh(m.bits) && m.Valid() && forall u: nat :: M.Has(m.bits[..], u) <==> u < M.MASK_MAX
  {
    m := new M.SndMask();
    m.Any();
  }

  method AnyIntervals(n: nat) returns (list: seq<I.SndInterval>)
    ensures |list| == n && forall j :: 0 <= j < n ==> fresh(list[j]) && list[j].Value() == I.ANY
    ensures forall i, j :: 0 <= i < j < n ==> list[i] != list[j]
  {
    list := [];
    for k := 0 to n
      invariant |list| == k && forall j :: 0 <= j < k ==> fresh(list[j]) && list[j].Value() == I.ANY
      invariant forall i, j :: 0 <= i < j < k ==> list[i] != list[j]
    {
      var i := new I.SndInterval(I.ANY);
      list := list + [i];
    }
  }

  class HwParams {
    const masks: seq<M.SndMask>
    const intervals: seq<I.SndInterval>
    var cmask: set<nat>
    var rmask: set<nat>

    ghost predicate Valid()
      reads this, masks, set m: M.SndMask | m in masks :: m.bits
    {
      && |masks| == 3 && |intervals| == 12
      && (forall k :: 0 <= k < 3 ==> masks[k].Valid())
      && (forall j, k :: 0 <= j < k < 3 ==> masks[j] != masks[k] && masks[j].bits != masks[k].bits)
      && (forall j, k :: 0 <= j < k < 12 ==> intervals[j] != intervals[k])
    }

    /** Everything allowed, as after `pcm_hw_params_any`. */
    constructor Any()
      ensures Valid() && cmask == {} && rmask == Upto(32)
      ensures forall k :: 0 <= k < 3 ==> fresh(masks[k]) && fresh(masks[k].bits)
      ensures forall k :: 0 <= k < 12 ==> fresh(intervals[k]) && intervals[k].Value() == I.ANY
      ensures forall k, u: nat :: 0 <= k < 3 ==> (M.Has(masks[k].bits[..], u) <==> u < M.MASK_MAX)
    {
      var m0 := FullMask();
      var m1 := FullMask();
      var m2 := FullMask();
      var list := AnyIntervals(12);
      masks, intervals := [m0, m1, m2], list;
      cmask, rmask := {}, Upto(32);
    }

    method Get(v: nat) returns (code: int, val: int, dir: int)
      requires Valid()
      ensures IsInterval(v) ==> (code, val, dir) == GetInterval(intervals[v - FIRST_INTERVAL].Value())
      ensures IsMask(v) ==>
                var words := masks[v - FIRST_MASK].bits[..];
                && (code == 0 <==> !M.IsEmpty(words) && M.AtMostOne(words))
                && (code == 0 ==> 0 <= val && M.Has(words, val) && dir == 0)
      ensures !IsInterval(v) && !IsMask(v) ==> code == -EINVAL
      ensures code == 0 || code == -EINVAL
    {
      dir, val := 0, 0;
      if IsMask(v) {
        var m := masks[v - FIRST_MASK];
        var none := m.Empty();
        if none { return -EINVAL, 0, 0; }
        var single := m.Single();
        if !single { return -EINVAL, 0, 0; }
        val := m.Min();
        return 0, val, 0;
      } else if IsInterval(v) {
        var i := intervals[v - FIRST_INTERVAL];
        if i.empty || !(i.min == i.max || (I.Inc(i.min) == i.max && i.openmax)) { return -EINVAL, 0, 0; }
        return 0, i.min, if i.openmin then 1 else 0;
      }
      return -EINVAL, 0, 0;
    }

    /** Interval parameters; the changed and requested flags are set unless nothing changed. */
    method SetIntervalParam(v: nat, val: I.U32, dir: int) returns (code: int)
      requires Valid() && IsInterval(v)
      modifies this`cmask, this`rmask, intervals[v - FIRST_INTERVAL]
      ensures Valid()
      ensures (intervals[v - FIRST_INTERVAL].Value(), code)
              == SetInterval(old(intervals[v - FIRST_INTERVAL].Value()), val, dir)
      ensures cmask == old(cmask) + (if code != 0 then {v} else {})
      ensures rmask == old(rmask) + (if code != 0 then {v} else {})
    {
      var i := intervals[v - FIRST_INTERVAL];
      if val == 0 && dir < 0 {
        code := -EINVAL;
        i.empty := true;
      } else if dir == 0 {
        code := i.RefineSet(val);
      } else {
        var t := new I.SndInterval(
          if dir < 0 then I.Interval(I.Dec(val), val, true, true, false, false)
          else I.Interval(val, I.Inc(val), true, true, false, false));
        code := i.Refine(t);
      }
      Flag(v, code);
    }

    method BoundIntervalParam(v: nat, min: I.U32, mindir: int, max: I.U32, maxdir: int) returns (code: int)
      requires Valid() && IsInterval(v)
      modifies this`cmask, this`rmask, intervals[v - FIRST_INTERVAL]
      ensures Valid()
      ensures (intervals[v - FIRST_INTERVAL].Value(), code)
              == BoundInterval(old(intervals[v - FIRST_INTERVAL].Value()), min, mindir, max, maxdir)
      ensures cmask == old(cmask) + (if code != 0 then {v} else {})
      ensures rmask == old(rmask) + (if code != 0 then {v} else {})
    {
      var i := intervals[v - FIRST_INTERVAL];
      var (low, openmin) := LowEnd(min, mindir);
      var (high, openmax) := HighEnd(max, maxdir);
      var c1 := i.RefineMin(low, openmin);
      if c1 < 0 {
        code := c1;
      } else {
        var c2 := i.RefineMax(high, openmax);
        code := if c2 < 0 then c2 else if c1 != 0 || c2 != 0 then 1 else 0;
      }
      Flag(v, code);
    }

    /** Mask parameters: exactly the requested index is left, or nothing at all. */
    method SetMaskParam(v: nat, val: I.U32, dir: int) returns (overrun: bool, code: int)
      requires Valid() && IsMask(v)
      modifies this`cmask, this`rmask, masks[v - FIRST_MASK].bits
      ensures Valid()
      ensures overrun <==> !(val == 0 && dir < 0) && !M.IsEmpty(old(masks[v - FIRST_MASK].bits[..]))
                           && M.MASK_MAX <= MaskTarget(val, dir)
      ensures var was, words := old(masks[v - FIRST_MASK].bits[..]), masks[v - FIRST_MASK].bits[..];
        && (forall u: nat :: M.Has(words, u) <==> code >= 0 && u == MaskTarget(val, dir))
        && (code >= 0 <==> !(val == 0 && dir < 0) && M.Has(was, MaskTarget(val, dir)))
        && (code == 0 ==> M.AtMostOne(was))
      ensures code >= 0 ==> (MaskTarget(val, dir) == MaskAsked(val, dir) <==> !(dir > 0 && val == I.UINT_MAX))
      ensures cmask == old(cmask) + (if code != 0 then {v} else {})
      ensures rmask == old(rmask) + (if code != 0 then {v} else {})
    {
      var m := masks[v - FIRST_MASK];
      if val == 0 && dir < 0 {
        overrun, code := false, -EINVAL;
        m.Clear();
      } else {
        overrun, code := m.RefineSet(if dir > 0 then I.Inc(val) else if dir < 0 then val - 1 else val);
      }
      Flag(v, code);
    }

    /** A mask parameter set successfully reads back as what was asked, unless that was just above UINT_MAX. */
    method SetMaskReadsBack(v: nat, val: I.U32, dir: int) returns (overrun: bool, code: int, got: int, gotDir: int)
      requires Valid() && IsMask(v)
      modifies this`cmask, this`rmask, masks[v - FIRST_MASK].bits
      ensures overrun ==> M.MASK_MAX <= MaskTarget(val, dir)
      ensures code >= 0 <==> !(val == 0 && dir < 0)
                             && M.Has(old(masks[v - FIRST_MASK].bits[..]), MaskTarget(val, dir))
      ensures code >= 0 ==> gotDir == 0 && (got == MaskAsked(val, dir) <==> !(dir > 0 && val == I.UINT_MAX))
      ensures code >= 0 && dir > 0 && val == I.UINT_MAX ==> got == 0
    {
      overrun, code := SetMaskParam(v, val, dir);
      var status;
      status, got, gotDir := Get(v);
      assert code >= 0 ==> M.Has(masks[v - FIRST_MASK].bits[..], MaskTarget(val, dir));
    }

    /** Bounding a mask parameter leaves of it what `Allowed` says; `MaskBoundIff` says when that was requested. */
    method BoundMaskParam(v: nat, min: I.U32, mindir: int, max: I.U32, maxdir: int) returns (overrun: bool, code: int)
      requires Valid() && IsMask(v)
      modifies this`cmask, this`rmask, masks[v - FIRST_MASK].bits
      ensures Valid()
      ensures var was := old(masks[v - FIRST_MASK].bits[..]);
        overrun <==> !NothingBelow(max, maxdir) && !M.IsEmpty(was)
                     && (M.MASK_MAX < FirstIndex(min, mindir)
                         || exists u: nat ::
                              M.Has(was, u) && FirstIndex(min, mindir) <= u && LastIndex(max, maxdir) < u)
      ensures var was, words := old(masks[v - FIRST_MASK].bits[..]), masks[v - FIRST_MASK].bits[..];
        && (forall u: nat :: M.Has(words, u) <==> M.Has(was, u) && Allowed(u, min, mindir, max, maxdir))
        && (code < 0 <==> M.IsEmpty(words))
        && (code == 0 ==> forall u: nat :: M.Has(was, u) ==> M.Has(words, u))
      ensures cmask == old(cmask) + (if code != 0 then {v} else {})
      ensures rmask == old(rmask) + (if code != 0 then {v} else {})
    {
      var m := masks[v - FIRST_MASK];
      ghost var was := m.bits[..];
      overrun := false;
      if NothingBelow(max, maxdir) {
        m.Clear();
        code := -EINVAL;
      } else {
        overrun, code := m.RefineMin(FirstIndex(min, mindir));
        ghost var narrowed := m.bits[..];
        if code >= 0 {
          if code == 0 { assert forall u: nat :: M.Has(was, u) ==> M.Has(narrowed, u); }
          assert forall u: nat :: M.Has(was, u) ==> u < M.MASK_MAX by { M.OnlyIndices(was); }
          var c1 := code;
          var c2;
          overrun, c2 := m.RefineMax(LastIndex(max, maxdir));
          code := if c2 < 0 then c2 else if c1 != 0 || c2 != 0 then 1 else 0;
        }
      }
      Flag(v, code);
    }

    method Flag(v: nat, code: int)
      modifies this`cmask, this`rmask
      ensures cmask == old(cmask) + (if code != 0 then {v} else {})
      ensures rmask == old(rmask) + (if code != 0 then {v} else {})
    {
      if code != 0 {
        cmask := cmask + {v};
        rmask := rmask + {v};
      }
    }
  }
}
