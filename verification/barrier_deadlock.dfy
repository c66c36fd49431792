/**
 What an undrained opening costs in the end: a process that has overtaken stays a round ahead
 for good, runs out of calls first, and leaves the others waiting for it.
 */
module BarrierDeadlock {
  import opened Barrier
  import opened BarrierReuse

  // ---------- between rounds no arrival is left over ----------

  /** Unless a leader is collecting, all arrivals belong to collected rounds. */
  ghost predicate Tidy(s: State)
    requires WellFormed(s)
  {
    HasCollector(s) || Total(s.arrivals) == |s.pc| * s.rounds
  }

  lemma TidyStep(calls: nat, s: State, p: nat)
    requires Ledger(s) && Tidy(s) && Enabled(calls, s, p)
    ensures Tidy(Next(calls, s, p))
  {
    var t := Next(calls, s, p);
    LedgerStep(calls, s, p);
    if s.pc[p] == TestActive {
      TestKeepsCollector(calls, s, p);
    } else if s.pc[p] == Collect(0) {
      AllInside(t, p);
    } else {
      SameCollectors(calls, s, p);
    }
  }

  /** After the test of `active` there is a collecting leader: the one found, or the process itself. */
  lemma TestKeepsCollector(calls: nat, s: State, p: nat)
    requires Ledger(s) && Enabled(calls, s, p) && s.pc[p] == TestActive
    ensures HasCollector(Next(calls, s, p)) && (s.active ==> HasCollector(s))
  {
    var t := Next(calls, s, p);
    if s.active {
      JoinsOpenRound(s, p);
      var l :| 0 <= l < |s.pc| && Collecting(s.pc[l]);
      assert Collecting(t.pc[l]);
    } else {
      assert Collecting(t.pc[p]);
    }
  }

  /** Steps other than testing `active` and ending the collection change neither the leaders nor the arrivals. */
  lemma SameCollectors(calls: nat, s: State, p: nat)
    requires WellFormed(s) && Enabled(calls, s, p) && s.pc[p] != TestActive && s.pc[p] != Collect(0)
    ensures var t := Next(calls, s, p);
      && HasCollector(t) == HasCollector(s) && t.arrivals == s.arrivals && t.rounds == s.rounds
  {
    var t := Next(calls, s, p);
    assert forall q :: 0 <= q < |s.pc| ==> Collecting(t.pc[q]) == Collecting(s.pc[q]);
  }

  lemma {:induction false} TidyRun(calls: nat, s: State, sched: seq<nat>)
    requires Ledger(s) && Tidy(s) && ValidRun(calls, s, sched)
    ensures Tidy(Exec(calls, s, sched))
    decreases |sched|
  {
    if sched != [] {
      hide Ledger, Tidy, Enabled, Next;
      TidyStep(calls, s, sched[0]);
      LedgerStep(calls, s, sched[0]);
      TidyRun(calls, Next(calls, s, sched[0]), sched[1..]);
    }
  }

  lemma InitTidy(n: nat)
    requires 0 < n
    ensures Tidy(Init(n))
  {
    TotalConst(Init(n).arrivals, 0);
  }

  // ---------- whoever is a round ahead stays so ----------

  /** Process `x` has departed once more than rounds have been collected, not counting a round it still waits in. */
  ghost predicate Ahead(s: State, x: nat)
    requires WellFormed(s)
  {
    x < |s.pc| && s.rounds + (if Inside(s.pc[x]) && !HasCollector(s) then 0 else 1) <= s.departures[x]
  }

  /** Opening a round with no token queued finds everybody outside. */
  lemma OpensOutside(s: State, p: nat, x: nat)
    requires Ledger(s) && Tidy(s) && Opens(s, p) && s.depart == 0 && x < |s.pc|
    ensures !Inside(s.pc[x])
  {
    OwesNothing(s, p);
    InsideCount(s);
    TotalsApart(s.arrivals, s.departures);
    assert Local(|s.pc|, s.active, s.pc[x], s.arrivals[x], s.departures[x]);
  }

  lemma CollectedAhead(calls: nat, s: State, p: nat, x: nat)
    requires Ledger(s) && Enabled(calls, s, p) && s.pc[p] == Collect(0) && Ahead(s, x)
    ensures Ahead(Next(calls, s, p), x)
  {
    var t := Next(calls, s, p);
    LedgerStep(calls, s, p);
    AllInside(t, p);
    assert Local(|t.pc|, t.active, t.pc[x], t.arrivals[x], t.departures[x]);
    forall l | 0 <= l < |t.pc| ensures !Collecting(t.pc[l]) {
      if l != p && Collecting(s.pc[l]) { OneCollector(s, l, p); }
    }
    assert Collecting(s.pc[p]);
  }

  lemma MovesAhead(calls: nat, s: State, p: nat, x: nat)
    requires WellFormed(s) && Enabled(calls, s, p) && s.pc[p] != TestActive && s.pc[p] != Collect(0) && Ahead(s, x)
    ensures Ahead(Next(calls, s, p), x)
  {
    hide HasCollector;
    SameCollectors(calls, s, p);
  }

  lemma AheadStep(calls: nat, s: State, p: nat, x: nat)
    requires Ledger(s) && Tidy(s) && Enabled(calls, s, p) && (Opens(s, p) ==> s.depart == 0) && Ahead(s, x)
    ensures Ahead(Next(calls, s, p), x)
  {
    hide Ledger, Tidy, HasCollector;
    LedgerIsWellFormed(s);
    if s.pc[p] == TestActive {
      TestKeepsCollector(calls, s, p);
      if !s.active { OpensOutside(s, p, x); }
    } else if s.pc[p] == Collect(0) {
      CollectedAhead(calls, s, p, x);
    } else {
      MovesAhead(calls, s, p, x);
    }
  }

  lemma AheadNotReturned(calls: nat, s: State, x: nat)
    requires WellFormed(s) && Ahead(s, x)
    ensures !AllReturned(calls, s)
  {
  }

  // ---------- some drained run ends where nobody can move ----------

  /** At an opening there is a waiting process for every token queued. */
  lemma WaiterForToken(s: State, p: nat) returns (w: nat)
    requires Ledger(s) && Opens(s, p) && s.depart > 0
    ensures w < |s.pc| && s.pc[w] == WaitDepart
  {
    var n := |s.pc|;
    OwesNothing(s, p);
    InsideCount(s);
    if forall q :: 0 <= q < n ==> s.pc[q] != WaitDepart {
      NobodyWaits(s, p);
    }
    w :| 0 <= w < n && s.pc[w] == WaitDepart;
  }

  /** If nobody waits, every arrival inside has its arrive token still to post. */
  lemma NobodyWaits(s: State, p: nat)
    requires Ledger(s) && Opens(s, p) && forall q :: 0 <= q < |s.pc| ==> s.pc[q] != WaitDepart
    ensures s.depart == 0
  {
    var n := |s.pc|;
    OwesNothing(s, p);
    forall q | 0 <= q < n
      ensures s.arrivals[q] <= s.departures[q] + Weight(Uncollected, n, s.pc[q])
    {
      assert Local(n, s.active, s.pc[q], s.arrivals[q], s.departures[q]);
      SumAtLeast(MutexHeld, n, s.pc, q);
      if q != p { SumPair(MutexHeld, n, s.pc, p, q); }
    }
    TotalsWithin(s.arrivals, s.departures, n, s.pc);
  }

  lemma {:induction false} TotalsWithin(xs: seq<nat>, ys: seq<nat>, n: nat, pcs: seq<Pc>)
    requires |xs| == |ys| == |pcs| && forall q :: 0 <= q < |xs| ==> xs[q] <= ys[q] + Weight(Uncollected, n, pcs[q])
    ensures Total(xs) <= Total(ys) + Sum(Uncollected, n, pcs)
  {
    hide Weight;
    if xs != [] {
      forall q | 0 <= q < |xs| - 1 ensures xs[1..][q] <= ys[1..][q] + Weight(Uncollected, n, pcs[1..][q]) {
        assert xs[q + 1] <= ys[q + 1] + Weight(Uncollected, n, pcs[q + 1]);
      }
      TotalsWithin(xs[1..], ys[1..], n, pcs[1..]);
    }
  }

  /** From any state a run that never opens undrained leads to a stuck one; and whoever was ahead still is. */
  lemma {:induction false} RunDown(calls: nat, s: State, x: nat) returns (sched: seq<nat>, t: State)
    requires Ledger(s) && Quota(calls, s) && Tidy(s) && Ahead(s, x)
    ensures Path(calls, s, sched, t) && Stuck(calls, t) && WellFormed(t) && Ahead(t, x)
    decreases Potential(calls, s)
  {
    hide Ledger, Tidy, Ahead, Quota, Next, Potential, Path, Opens;
    LedgerIsWellFormed(s);
    if Stuck(calls, s) {
      Stay(calls, s);
      sched, t := [], s;
    } else {
      var p := DrainedMove(calls, s);
      PotentialNonNegative(calls, s);
      LocalsOf(s);
      PotentialDrops(calls, s, p);
      LedgerStep(calls, s, p);
      QuotaStep(calls, s, p);
      TidyStep(calls, s, p);
      AheadStep(calls, s, p, x);
      sched, t := RunDown(calls, Next(calls, s, p), x);
      Prepend(calls, s, p, sched, t);
      sched := [p] + sched;
    }
  }

  lemma LocalsOf(s: State)
    requires Ledger(s)
    ensures WellFormed(s) && Locals(s)
  {
  }

  /** Who can move need not open a round undrained: a waiting process can take the token instead. */
  lemma DrainedMove(calls: nat, s: State) returns (p: nat)
    requires Ledger(s) && !Stuck(calls, s)
    ensures p < |s.pc| && Enabled(calls, s, p) && (Opens(s, p) ==> s.depart == 0)
  {
    p :| 0 <= p < |s.pc| && Enabled(calls, s, p);
    if Opens(s, p) && s.depart > 0 { p := WaiterForToken(s, p); }
  }

  // ---------- the barrier deadlocks exactly when it is reused undrained ----------

  /** Every run from `s` that opens further rounds only when drained ends with everybody back. */
  ghost predicate Completes(calls: nat, s: State) {
    forall sched: seq<nat>, t: State ::
      Path(calls, s, sched, t) && Stuck(calls, t) ==> WellFormed(t) && AllReturned(calls, t)
  }

  lemma {:induction false} PathJoin(calls: nat, s: State, a: seq<nat>, t: State, b: seq<nat>, u: State)
    requires Path(calls, s, a, t) && Path(calls, t, b, u)
    ensures Path(calls, s, a + b, u)
    decreases |a|
  {
    if a == [] {
      assert a + b == b;
    } else {
      PathJoin(calls, Next(calls, s, a[0]), a[1..], t, b, u);
      assert (a + b)[0] == a[0] && (a + b)[1..] == a[1..] + b;
    }
  }

  /** Once a round is opened with a token queued, some run ends with processes waiting for good. */
  lemma UndrainedDeadlocks(calls: nat, s: State, p: nat) returns (sched: seq<nat>, t: State)
    requires Ledger(s) && InRounds(s) && Quota(calls, s) && Tidy(s)
    requires 3 <= |s.pc| && Opens(s, p) && s.depart > 0
    ensures Path(calls, Next(calls, s, p), sched, t) && Stuck(calls, t) && WellFormed(t) && !AllReturned(calls, t)
  {
    hide Path, Stuck, Tidy, Ahead, InRounds, AllReturned, Overtaking;
    var v := Next(calls, s, p);
    LedgerStep(calls, s, p);
    QuotaStep(calls, s, p);
    TidyStep(calls, s, p);
    var q, x := BehindAndRunner(calls, s, p);
    OpenedIsOvertaking(calls, s, p, q, x);
    var a, u := Overtake(calls, v, p, q, x);
    PathKeeps(calls, v, a, u);
    OvertakerIsAhead(u, x);
    var b;
    b, t := RunDown(calls, u, x);
    PathJoin(calls, v, a, u, b, t);
    sched := a + b;
    AheadNotReturned(calls, t, x);
  }

  lemma OvertakerIsAhead(u: State, x: nat)
    requires WellFormed(u) && x < |u.pc| && u.rounds < u.departures[x] && u.pc[x] == RelockTable
    ensures Ahead(u, x)
  {
  }

  lemma PathKeeps(calls: nat, s: State, sched: seq<nat>, t: State)
    requires Ledger(s) && Quota(calls, s) && Tidy(s) && Path(calls, s, sched, t)
    ensures Ledger(t) && Quota(calls, t) && Tidy(t)
  {
    LedgerRun(calls, s, sched);
    TidyRun(calls, s, sched);
  }

  /**
   Progress, for three or more processes in a run drained so far: after an opening every run
   that stays drained completes if and only if no departure token was queued at it.
   */
  lemma OpeningCompletesIffDrained(n: nat, calls: nat, sched: seq<nat>, p: nat)
    requires 3 <= n && ValidRun(calls, Init(n), sched) && Drained(calls, Init(n), sched)
    requires Opens(Exec(calls, Init(n), sched), p)
    ensures
      var s := Exec(calls, Init(n), sched);
      Completes(calls, Next(calls, s, p)) <==> s.depart == 0
  {
    var s := Exec(calls, Init(n), sched);
    InitOrderly(n, calls);
    InitTidy(n);
    LedgerRun(calls, Init(n), sched);
    InRoundsRun(calls, Init(n), sched);
    TidyRun(calls, Init(n), sched);
    var v := Next(calls, s, p);
    if s.depart == 0 {
      DrainedCompletes(calls, s, p);
    } else {
      var more, t := UndrainedDeadlocks(calls, s, p);
      assert Path(calls, v, more, t) && Stuck(calls, t);
    }
  }

  lemma DrainedCompletes(calls: nat, s: State, p: nat)
    requires Ledger(s) && InRounds(s) && Quota(calls, s) && Opens(s, p) && s.depart == 0
    ensures Completes(calls, Next(calls, s, p))
  {
    var v := Next(calls, s, p);
    LedgerStep(calls, s, p);
    QuotaStep(calls, s, p);
    InRoundsStep(calls, s, p);
    forall more: seq<nat>, t: State | Path(calls, v, more, t) && Stuck(calls, t)
      ensures WellFormed(t) && AllReturned(calls, t)
    {
      LedgerRun(calls, v, more);
      InRoundsRun(calls, v, more);
      StuckMeansReturned(calls, t);
    }
  }

  /** Three or more processes calling twice or more can end up waiting for each other for good. */
  lemma DeadlockReachable(n: nat, calls: nat) returns (sched: seq<nat>)
    requires 3 <= n && 2 <= calls
    ensures ValidRun(calls, Init(n), sched)
    ensures Stuck(calls, Exec(calls, Init(n), sched)) && !AllReturned(calls, Exec(calls, Init(n), sched))
  {
    UndrainedOpeningReachable(n, calls);
    var a: seq<nat>, s: State :| Path(calls, Init(n), a, s) && Opens(s, 0) && s.depart == n - 1;
    InitOrderly(n, calls);
    InitTidy(n);
    PathKeeps(calls, Init(n), a, s);
    InRoundsRun(calls, Init(n), a);
    var b, t := UndrainedDeadlocks(calls, s, 0);
    Opened(calls, s, b, t);
    RunJoin(calls, Init(n), a, [0] + b);
    sched := a + ([0] + b);
  }

  ghost predicate AlwaysReturns(n: nat, calls: nat)
    requires 0 < n
  {
    forall sched: seq<nat> :: ValidRun(calls, Init(n), sched) && Stuck(calls, Exec(calls, Init(n), sched)) ==>
      AllReturned(calls, Exec(calls, Init(n), sched))
  }

  /** With no premise on the runs: the barrier never deadlocks if and only if it is for two or is called once. */
  lemma AlwaysReturnsIff(n: nat, calls: nat)
    requires 0 < n
    ensures AlwaysReturns(n, calls) <==> n <= 2 || calls <= 1
  {
    if n <= 2 || calls <= 1 {
      forall sched: seq<nat> | ValidRun(calls, Init(n), sched) && Stuck(calls, Exec(calls, Init(n), sched))
        ensures AllReturned(calls, Exec(calls, Init(n), sched))
      {
        BarrierNeverDeadlocks(n, calls, sched);
      }
    } else {
      var sched := DeadlockReachable(n, calls);
    }
  }
}
