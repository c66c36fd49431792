/**
 Re-entering the barrier while departure tokens of the previous round are still queued.

 With two processes this is harmless (`Barrier.BarrierSeparates`).  With three or more it
 is not: there is no generation count, so a fast process can take a slow one's token.
 The condition is exact: opening a round is safe if and only if the departure semaphore
 is empty at that moment.
 */
module BarrierReuse {
  import opened Barrier

  /** `sched` drives `s` to `t`, opening further rounds only when drained. */
  ghost predicate Path(calls: nat, s: State, sched: seq<nat>, t: State) {
    ValidRun(calls, s, sched) && Drained(calls, s, sched) && Exec(calls, s, sched) == t
  }

  ghost predicate KeepsApart(calls: nat, s: State) {
    forall sched: seq<nat>, t: State :: Path(calls, s, sched, t) ==> WellFormed(t) && Separated(t)
  }

  lemma Stay(calls: nat, s: State)
    requires WellFormed(s)
    ensures Path(calls, s, [], s)
  {
  }

  lemma Prepend(calls: nat, s: State, p: nat, sched: seq<nat>, t: State)
    requires WellFormed(s) && Enabled(calls, s, p) && (Opens(s, p) ==> s.depart == 0)
    requires Path(calls, Next(calls, s, p), sched, t)
    ensures Path(calls, s, [p] + sched, t)
  {
    assert ([p] + sched)[0] == p && ([p] + sched)[1..] == sched;
  }

  // ---------- a fast process overtakes a slow one ----------

  predicate HoldsNothing(n: nat, c: Pc) {
    Weight(TableHeld, n, c) == 0 && Weight(MutexHeld, n, c) == 0 && Weight(Owed, n, c) == 0
  }

  /** A place from which a process reaches its next `sem_wait(depart)` on its own. */
  predicate OnTheWay(c: Pc) {
    c.RelockTable? || c.UnlockTable? || c.Idle? || c.LockTable? || c.LockBarrier? || c.TestActive?
    || c.JoinUnlockBarrier? || c.JoinUnlockTable? || c.PostArrive? || c.WaitDepart?
  }

  /** Leader `p` has opened a round, `q` has not left the last one, `x` is free to run. */
  ghost predicate Overtaking(calls: nat, u: State, p: nat, q: nat, x: nat) {
    && Ledger(u)
    && p < |u.pc| && q < |u.pc| && x < |u.pc| && p != q && p != x && q != x
    && Collecting(u.pc[p]) && OnTheWay(u.pc[x])
    && (u.pc[p].Collect? || HoldsNothing(|u.pc|, u.pc[x]))
    && (forall y :: 0 <= y < |u.pc| && y != p && y != x ==> HoldsNothing(|u.pc|, u.pc[y]))
    && (forall y :: 0 <= y < |u.pc| ==> u.departures[y] <= u.rounds)
    && u.departures[q] < u.rounds == u.arrivals[q] && u.rounds < calls
    && (u.active <==> u.pc[p] != SetActive)
  }

  lemma NextMoverEnabled(calls: nat, u: State, p: nat, q: nat, x: nat)
    requires Overtaking(calls, u, p, q, x)
    ensures !u.pc[p].Collect? ==> Enabled(calls, u, p)
    ensures u.pc[p].Collect? ==> Enabled(calls, u, x)
  {
    var n := |u.pc|;
    if u.pc[p].Collect? {
      if u.pc[x].WaitDepart? {
        SumZero(Owed, n, u.pc);
        BehindHasToken(u, q);
      } else if u.pc[x].LockTable? || u.pc[x].RelockTable? {
        SumZero(TableHeld, n, u.pc);
      } else if u.pc[x].LockBarrier? {
        SumZero(MutexHeld, n, u.pc);
      }
      assert Local(n, u.active, u.pc[x], u.arrivals[x], u.departures[x]);
    }
  }

  lemma LeaderMove(calls: nat, u: State, p: nat)
    requires WellFormed(u) && p < |u.pc| && Collecting(u.pc[p]) && !u.pc[p].Collect?
    ensures
      var t := Next(calls, u, p);
      && Collecting(t.pc[p]) && StepsLeft(|u.pc|, t.pc[p]) < StepsLeft(|u.pc|, u.pc[p])
      && t.rounds == u.rounds && t.departures == u.departures && t.arrivals == u.arrivals
      && t.pc[p] != SetActive && (t.active <==> u.active || u.pc[p] == SetActive)
      && t.pc == u.pc[p := t.pc[p]]
  {
    assert u.refcount == |u.pc|;
  }

  lemma RunnerMove(calls: nat, u: State, x: nat)
    requires WellFormed(u) && Enabled(calls, u, x) && OnTheWay(u.pc[x]) && u.active
    ensures
      var t := Next(calls, u, x);
      && OnTheWay(t.pc[x]) && t.rounds == u.rounds && t.active
      && t.pc == u.pc[x := t.pc[x]] && t.departures == u.departures[x := t.departures[x]]
      && t.arrivals == u.arrivals[x := t.arrivals[x]]
      && (if u.pc[x] == WaitDepart then t.departures[x] == u.departures[x] + 1 && t.pc[x] == RelockTable
          else t.departures[x] == u.departures[x] && StepsLeft(|u.pc|, t.pc[x]) < StepsLeft(|u.pc|, u.pc[x]))
  {
  }

  /** Until the leader is collecting, its steps leave everyone else where they are. */
  lemma LeaderKeepsOvertaking(calls: nat, u: State, p: nat, q: nat, x: nat)
    requires Overtaking(calls, u, p, q, x) && !u.pc[p].Collect? && Enabled(calls, u, p)
    ensures Overtaking(calls, Next(calls, u, p), p, q, x)
  {
    hide HoldsNothing, OnTheWay, Next, Ledger, Enabled;
    LedgerIsWellFormed(u);
    LedgerStep(calls, u, p);
    LeaderMove(calls, u, p);
  }

  lemma LedgerIsWellFormed(u: State)
    requires Ledger(u)
    ensures WellFormed(u)
  {
  }

  /** From then on the runner may go round, as long as it has not overtaken. */
  lemma RunnerKeepsOvertaking(calls: nat, u: State, p: nat, q: nat, x: nat)
    requires Overtaking(calls, u, p, q, x) && u.pc[p].Collect? && Enabled(calls, u, x)
    requires !(u.pc[x] == WaitDepart && u.departures[x] == u.rounds)
    ensures Overtaking(calls, Next(calls, u, x), p, q, x)
  {
    hide HoldsNothing, OnTheWay, Next, Ledger, Enabled;
    LedgerIsWellFormed(u);
    LedgerStep(calls, u, x);
    RunnerMove(calls, u, x);
    RunnerHasNotArrived(calls, u, p, q, x);
  }

  lemma RunnerHasNotArrived(calls: nat, u: State, p: nat, q: nat, x: nat)
    requires Overtaking(calls, u, p, q, x) && Enabled(calls, u, x)
    ensures Next(calls, u, x).arrivals[q] == u.arrivals[q]
  {
  }

  lemma {:induction false} Overtake(calls: nat, u: State, p: nat, q: nat, x: nat)
    returns (sched: seq<nat>, t: State)
    requires Overtaking(calls, u, p, q, x)
    ensures Path(calls, u, sched, t) && WellFormed(t) && !Separated(t)
    ensures x < |t.pc| && t.rounds < t.departures[x] && t.pc[x] == RelockTable
    decreases StepsLeft(|u.pc|, u.pc[p]), u.rounds - u.departures[x], StepsLeft(|u.pc|, u.pc[x])
  {
    hide HoldsNothing, Next, Ledger, Enabled, Local, StepsLeft;
    LedgerIsWellFormed(u);
    NextMoverEnabled(calls, u, p, q, x);
    var mover := if u.pc[p].Collect? then x else p;
    var v := Next(calls, u, mover);
    if mover == p {
      LeaderMove(calls, u, p);
      LeaderKeepsOvertaking(calls, u, p, q, x);
      sched, t := Overtake(calls, v, p, q, x);
    } else {
      RunnerMove(calls, u, x);
      if u.pc[x] == WaitDepart && u.departures[x] == u.rounds {
        RunnerHasNotArrived(calls, u, p, q, x);
        assert v.departures[x] > v.arrivals[q];
        Stay(calls, v);
        sched, t := [], v;
      } else {
        RunnerKeepsOvertaking(calls, u, p, q, x);
        sched, t := Overtake(calls, v, p, q, x);
      }
    }
    Prepend(calls, u, mover, sched, t);
    sched := [mover] + sched;
  }

  /** When the last arrival is about to open a round, everyone else is past arriving and owes nothing. */
  lemma AllThere(calls: nat, s: State, p: nat, y: nat)
    requires Ledger(s) && InRounds(s) && Opens(s, p) && y < |s.pc|
    ensures s.departures[y] <= s.rounds == s.arrivals[y]
    ensures if y == p then s.departures[y] == s.rounds else HoldsNothing(|s.pc|, s.pc[y]) && OnTheWay(s.pc[y])
  {
    var n := |s.pc|;
    OwesNothing(s, p);
    assert InRound(s, y) && Local(n, s.active, s.pc[y], s.arrivals[y], s.departures[y]);
    SumAtLeast(Owed, n, s.pc, y);
  }

  /** Once opened, the round can be overtaken through anyone who still owes a departure. */
  lemma OpenedIsOvertaking(calls: nat, s: State, p: nat, q: nat, x: nat)
    requires Ledger(s) && InRounds(s) && Quota(calls, s) && Opens(s, p)
    requires q < |s.pc| && x < |s.pc| && p != q && p != x && q != x && s.departures[q] < s.rounds
    ensures Overtaking(calls, Next(calls, s, p), p, q, x)
  {
    var n := |s.pc|;
    LedgerStep(calls, s, p);
    forall y | 0 <= y < n
      ensures s.departures[y] <= s.rounds == s.arrivals[y]
      ensures y != p ==> HoldsNothing(n, s.pc[y]) && OnTheWay(s.pc[y])
    {
      AllThere(calls, s, p, y);
    }
    hide HoldsNothing, OnTheWay, Ledger, InRounds;
    assert WithinQuota(calls, s.pc[p], s.arrivals[p], s.departures[p]);
  }

  lemma SomeoneBehind(s: State, p: nat)
    requires Ledger(s) && Opens(s, p) && s.depart > 0
    requires forall y :: 0 <= y < |s.pc| ==> s.departures[y] <= s.rounds
    ensures exists q :: 0 <= q < |s.pc| && s.departures[q] < s.rounds
  {
    OwesNothing(s, p);
    if forall y :: 0 <= y < |s.pc| ==> s.departures[y] == s.rounds { TotalConst(s.departures, s.rounds); }
  }

  /** A process that still has to leave the old round, and one to run past it. */
  lemma BehindAndRunner(calls: nat, s: State, p: nat) returns (q: nat, x: nat)
    requires Ledger(s) && InRounds(s) && 3 <= |s.pc| && Opens(s, p) && s.depart > 0
    ensures q < |s.pc| && x < |s.pc| && p != q && p != x && q != x && s.departures[q] < s.rounds
  {
    forall y | 0 <= y < |s.pc| ensures s.departures[y] <= s.rounds && (y == p ==> s.departures[y] == s.rounds) {
      AllThere(calls, s, p, y);
    }
    SomeoneBehind(s, p);
    q :| 0 <= q < |s.pc| && s.departures[q] < s.rounds;
    x := if p != 0 && q != 0 then 0 else if p != 1 && q != 1 then 1 else 2;
  }

  lemma UndrainedOvertakes(calls: nat, s: State, p: nat)
    requires Ledger(s) && InRounds(s) && Quota(calls, s) && 3 <= |s.pc| && Opens(s, p) && s.depart > 0
    ensures !KeepsApart(calls, Next(calls, s, p))
  {
    hide Overtaking, InRounds, Quota, Next, KeepsApart;
    var q, x := BehindAndRunner(calls, s, p);
    OpenedIsOvertaking(calls, s, p, q, x);
    var sched, t := Overtake(calls, Next(calls, s, p), p, q, x);
    NotApart(calls, Next(calls, s, p), sched, t);
  }

  lemma NotApart(calls: nat, s: State, sched: seq<nat>, t: State)
    requires Path(calls, s, sched, t) && WellFormed(t) && !Separated(t)
    ensures !KeepsApart(calls, s)
  {
  }

  /**
   For three or more processes, in any run that has been drained so far: whatever happens
   after a process opens a round, rounds stay apart if and only if no departure token was
   queued when it did.
   */
  lemma OpeningSafeIffDrained(n: nat, calls: nat, sched: seq<nat>, p: nat)
    requires 3 <= n && ValidRun(calls, Init(n), sched) && Drained(calls, Init(n), sched)
    requires Opens(Exec(calls, Init(n), sched), p)
    ensures
      var s := Exec(calls, Init(n), sched);
      KeepsApart(calls, Next(calls, s, p)) <==> s.depart == 0
  {
    var s := Exec(calls, Init(n), sched);
    InitOrderly(n, calls);
    LedgerRun(calls, Init(n), sched);
    InRoundsRun(calls, Init(n), sched);
    if s.depart == 0 {
      LedgerStep(calls, s, p);
      QuotaStep(calls, s, p);
      InRoundsStep(calls, s, p);
      forall more: seq<nat>, t: State | Path(calls, Next(calls, s, p), more, t)
        ensures WellFormed(t) && Separated(t)
      {
        InRoundsRun(calls, Next(calls, s, p), more);
        forall a, b | 0 <= a < |t.pc| && 0 <= b < |t.pc| ensures t.departures[a] <= t.arrivals[b] {
          assert InRound(t, a) && InRound(t, b);
        }
      }
    } else {
      UndrainedOvertakes(calls, s, p);
    }
  }

  // ---------- undrained openings do occur ----------

  predicate Joining(c: Pc) {
    c.Idle? || c.LockTable? || c.LockBarrier? || c.TestActive?
    || c.JoinUnlockBarrier? || c.JoinUnlockTable? || c.PostArrive?
  }

  predicate Entering(c: Pc) {
    c.Idle? || c.LockTable? || c.LockBarrier? || c.TestActive?
  }

  /** Where process 0 is, and what that says about the round it leads. */
  ghost predicate LeaderPhase(u: State, x: nat)
    requires WellFormed(u)
  {
    var c, n := u.pc[0], |u.pc|;
    if u.departures[0] > 0 then
      u.departures[0] == 1 && u.rounds == 1 && x == n && !u.active && (Entering(c) || c.RelockTable? || c.UnlockTable?)
    else if Entering(c) then
      u.rounds == 0 && x == 1 && !u.active
    else if Collecting(c) then
      u.rounds == 0 && (c.Collect? || x == 1) && (c.Collect? ==> u.active)
    else
      u.rounds == 1 && x == n && (c.LeadDone? ==> !u.active)
      && (c.RelockBarrier? || c.ReloadCount? || c.Release? || c.ClearActive? || c.LeadDone?)
  }

  predicate FollowerPhase(c: Pc, y: nat, x: nat, started: bool) {
    if y < x then c == WaitDepart else if y == x && started then Joining(c) else c == Idle
  }

  /**
   The first round, run as far as it goes with every follower left waiting: process 0
   leads, processes below `x` wait, `x` is joining, the rest have not started.
   */
  ghost predicate FirstRound(u: State, x: nat) {
    && Ledger(u) && 2 <= |u.pc| && 1 <= x <= |u.pc|
    && LeaderPhase(u, x)
    && forall y :: 1 <= y < |u.pc| ==> u.departures[y] == 0 && FollowerPhase(u.pc[y], y, x, u.pc[0].Collect?)
  }

  lemma OthersHoldNoLock(u: State, x: nat, y: nat)
    requires FirstRound(u, x) && y < |u.pc| && y != if u.pc[0].Collect? && x < |u.pc| then x else 0
    ensures Weight(TableHeld, |u.pc|, u.pc[y]) == 0 && Weight(MutexHeld, |u.pc|, u.pc[y]) == 0
  {
    hide Ledger;
    if y > 0 { assert FollowerPhase(u.pc[y], y, x, u.pc[0].Collect?); }
  }

  lemma EveryoneArrived(u: State, x: nat, y: nat)
    requires FirstRound(u, x) && u.pc[0].Collect? && x == |u.pc| && y < |u.pc|
    ensures u.arrivals[y] == 1 && (u.pc[y] == WaitDepart || u.pc[y].Collect?)
  {
    assert Local(|u.pc|, u.active, u.pc[y], u.arrivals[y], u.departures[y]);
    if y > 0 { assert FollowerPhase(u.pc[y], y, x, u.pc[0].Collect?); }
  }

  lemma FirstRoundMoves(calls: nat, u: State, x: nat)
    requires 2 <= calls && FirstRound(u, x) && !(u.pc[0] == TestActive && u.departures[0] == 1)
    ensures Enabled(calls, u, if u.pc[0].Collect? && x < |u.pc| then x else 0)
  {
    var n := |u.pc|;
    var mover := if u.pc[0].Collect? && x < n then x else 0;
    var c := u.pc[mover];
    forall y | 0 <= y < n && y != mover
      ensures Weight(TableHeld, n, u.pc[y]) == 0 && Weight(MutexHeld, n, u.pc[y]) == 0
    {
      OthersHoldNoLock(u, x, y);
    }
    if c.LockTable? || c.RelockTable? {
      assert Weight(TableHeld, n, c) == 0;
      SumZero(TableHeld, n, u.pc);
    } else if c.LockBarrier? || c.RelockBarrier? {
      assert Weight(MutexHeld, n, c) == 0;
      SumZero(MutexHeld, n, u.pc);
    } else if c.Collect? {
      CollectorMoves(calls, u);
    }
  }

  lemma CollectorMoves(calls: nat, u: State)
    requires FirstRound(u, |u.pc|) && u.pc[0].Collect?
    ensures Enabled(calls, u, 0)
  {
    var n := |u.pc|;
    forall y | 0 <= y < n ensures u.arrivals[y] == 1 && (u.pc[y] == WaitDepart || u.pc[y].Collect?) {
      EveryoneArrived(u, n, y);
    }
    hide FollowerPhase, LeaderPhase;
    TotalConst(u.arrivals, 1);
    OnlyLeaderUncollected(u, 0);
    assert Local(n, u.active, u.pc[0], u.arrivals[0], u.departures[0]);
  }

  lemma LeaderAdvances(calls: nat, u: State, x: nat)
    requires FirstRound(u, x) && !(u.pc[0] == TestActive && u.departures[0] == 1)
    requires u.pc[0].Collect? ==> x == |u.pc|
    requires Enabled(calls, u, 0)
    ensures
      var v := Next(calls, u, 0);
      && LeaderPhase(v, x) && v.pc == u.pc[0 := v.pc[0]] && v.departures == u.departures[0 := v.departures[0]]
      && (if u.pc[0] == LeadDone then v.departures[0] == u.departures[0] + 1
          else v.departures[0] == u.departures[0] && StepsLeft(|u.pc|, v.pc[0]) < StepsLeft(|u.pc|, u.pc[0]))
  {
    assert Local(|u.pc|, u.active, u.pc[0], u.arrivals[0], u.departures[0]);
  }

  lemma FollowerAdvances(calls: nat, u: State, x: nat)
    requires FirstRound(u, x) && u.pc[0].Collect? && x < |u.pc| && Enabled(calls, u, x)
    ensures
      var v := Next(calls, u, x);
      && v.pc == u.pc[x := v.pc[x]] && v.departures == u.departures && v.rounds == u.rounds && v.active == u.active
      && (v.pc[x] == WaitDepart || Joining(v.pc[x]))
      && StepsLeft(|u.pc|, v.pc[x]) < StepsLeft(|u.pc|, u.pc[x])
  {
    LedgerIsWellFormed(u);
    assert FollowerPhase(u.pc[x], x, x, u.pc[0].Collect?);
    hide Ledger, LeaderPhase;
  }

  lemma LeaderKeepsFirstRound(calls: nat, u: State, x: nat)
    requires FirstRound(u, x) && !(u.pc[0] == TestActive && u.departures[0] == 1)
    requires u.pc[0].Collect? ==> x == |u.pc|
    requires Enabled(calls, u, 0)
    ensures FirstRound(Next(calls, u, 0), x)
  {
    LedgerStep(calls, u, 0);
    LeaderAdvances(calls, u, x);
  }

  lemma FollowerKeepsFirstRound(calls: nat, u: State, x: nat)
    requires FirstRound(u, x) && u.pc[0].Collect? && x < |u.pc| && Enabled(calls, u, x)
    ensures var v := Next(calls, u, x); FirstRound(v, if v.pc[x] == WaitDepart then x + 1 else x)
  {
    LedgerStep(calls, u, x);
    FollowerAdvances(calls, u, x);
  }

  lemma {:induction false} DriveFirstRound(calls: nat, u: State, x: nat) returns (sched: seq<nat>, t: State)
    requires 2 <= calls && FirstRound(u, x)
    ensures Path(calls, u, sched, t) && FirstRound(t, |t.pc|) && t.pc[0] == TestActive && t.departures[0] == 1
    ensures |t.pc| == |u.pc|
    decreases 1 - u.departures[0], StepsLeft(|u.pc|, u.pc[0]), |u.pc| - x,
              if x < |u.pc| then StepsLeft(|u.pc|, u.pc[x]) else 0
  {
    hide Next, Enabled, StepsLeft, FollowerPhase, Path;
    if u.pc[0] == TestActive && u.departures[0] == 1 {
      Stay(calls, u);
      sched, t := [], u;
    } else {
      FirstRoundMoves(calls, u, x);
      if u.pc[0].Collect? && x < |u.pc| {
        var v := Next(calls, u, x);
        FollowerAdvances(calls, u, x);
        FollowerKeepsFirstRound(calls, u, x);
        sched, t := DriveFirstRound(calls, v, if v.pc[x] == WaitDepart then x + 1 else x);
        Prepend(calls, u, x, sched, t);
        sched := [x] + sched;
      } else {
        LeaderAdvances(calls, u, x);
        LeaderKeepsFirstRound(calls, u, x);
        sched, t := DriveFirstRound(calls, Next(calls, u, 0), x);
        Prepend(calls, u, 0, sched, t);
        sched := [0] + sched;
      }
    }
  }

  /**
   The premise of `OpeningSafeIffDrained` is not idle: with any number of processes and
   two calls each or more, the first leader can be back and about to open a round while all the
   tokens of its own round are still queued.
   */
  lemma UndrainedOpeningReachable(n: nat, calls: nat)
    requires 2 <= n && 2 <= calls
    ensures exists sched: seq<nat>, t: State ::
              Path(calls, Init(n), sched, t) && Opens(t, 0) && t.depart == n - 1
  {
    hide Path, FirstRound;
    InitFirstRound(n);
    var sched, t := DriveFirstRound(calls, Init(n), 1);
    TokensQueued(t);
  }

  lemma InitFirstRound(n: nat)
    requires 2 <= n
    ensures FirstRound(Init(n), 1)
  {
    InitOrderly(n, 2);
  }

  /** Back from its first call, the leader has left a token for everyone else. */
  lemma TokensQueued(t: State)
    requires FirstRound(t, |t.pc|) && t.pc[0] == TestActive && t.departures[0] == 1
    ensures Opens(t, 0) && t.depart == |t.pc| - 1
  {
    var n := |t.pc|;
    SumZero(Owed, n, t.pc);
    TotalUpdate(t.departures, 0, 0);
    TotalConst(t.departures[0 := 0], 0);
  }

  lemma {:induction false} RunJoin(calls: nat, s: State, a: seq<nat>, b: seq<nat>)
    requires ValidRun(calls, s, a) && ValidRun(calls, Exec(calls, s, a), b)
    ensures ValidRun(calls, s, a + b) && Exec(calls, s, a + b) == Exec(calls, Exec(calls, s, a), b)
    decreases |a|
  {
    hide Next, Enabled;
    if a == [] {
      assert a + b == b;
    } else {
      RunJoin(calls, Next(calls, s, a[0]), a[1..], b);
      assert (a + b)[0] == a[0] && (a + b)[1..] == a[1..] + b;
    }
  }

  lemma Opened(calls: nat, s: State, b: seq<nat>, t: State)
    requires WellFormed(s) && Enabled(calls, s, 0) && Path(calls, Next(calls, s, 0), b, t)
    ensures ValidRun(calls, s, [0] + b) && Exec(calls, s, [0] + b) == t
  {
    assert ([0] + b)[0] == 0 && ([0] + b)[1..] == b;
  }

  /** Three or more processes calling twice or more: some run departs ahead of an arrival. */
  lemma OvertakingReachable(n: nat, calls: nat) returns (sched: seq<nat>)
    requires 3 <= n && 2 <= calls
    ensures ValidRun(calls, Init(n), sched) && !Separated(Exec(calls, Init(n), sched))
  {
    hide Next, Enabled, InRounds, Separated;
    UndrainedOpeningReachable(n, calls);
    var a: seq<nat>, s: State :| Path(calls, Init(n), a, s) && Opens(s, 0) && s.depart == n - 1;
    InitOrderly(n, calls);
    LedgerRun(calls, Init(n), a);
    InRoundsRun(calls, Init(n), a);
    OpenerMoves(calls, s);
    UndrainedOvertakes(calls, s, 0);
    var b: seq<nat>, t: State :| Path(calls, Next(calls, s, 0), b, t) && !(WellFormed(t) && Separated(t));
    Opened(calls, s, b, t);
    RunJoin(calls, Init(n), a, [0] + b);
    sched := a + ([0] + b);
  }

  lemma OpenerMoves(calls: nat, s: State)
    requires WellFormed(s) && Opens(s, 0)
    ensures Enabled(calls, s, 0)
  {
  }

  ghost predicate AlwaysSeparates(n: nat, calls: nat)
    requires 0 < n
  {
    forall sched: seq<nat> :: ValidRun(calls, Init(n), sched) ==> Separated(Exec(calls, Init(n), sched))
  }

  /** With no premise on the runs: rounds are kept apart if and only if the barrier is for two or is called once. */
  lemma AlwaysSeparatesIff(n: nat, calls: nat)
    requires 0 < n
    ensures AlwaysSeparates(n, calls) <==> n <= 2 || calls <= 1
  {
    if n <= 2 || calls <= 1 {
      forall sched: seq<nat> | ValidRun(calls, Init(n), sched) ensures Separated(Exec(calls, Init(n), sched)) {
        BarrierSeparates(n, calls, sched);
      }
    } else {
      var sched := OvertakingReachable(n, calls);
    }
  }
}
