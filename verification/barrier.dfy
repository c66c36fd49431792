/**
 The multi-process barrier: `blts_sync_anon` around `barrier_sync`, as a step relation.

 Every process has one program counter, one shared-memory access or semaphore operation
 is one step, and the steps of different processes interleave freely.  `arrivals`,
 `departures`, `led` and `rounds` are history: how often each process has read `active`,
 how often it has got past its last wait, how many times the leader branch was taken, and
 how many leaders have collected all their arrival tokens.
 */
module Barrier {

  datatype Pc =
    | Idle                            // outside blts_sync_anon
    | LockTable                       // sync_mutex_lock of the caller
    | LockBarrier                     // barrier_mutex_lock on entry
    | TestActive                      // if(!b->active)
    | SetActive                       // b->active = 1
    | LoadCount                       // i = b->refcount - 1
    | LeadUnlockBarrier(left: nat)
    | LeadUnlockTable(left: nat)
    | Collect(left: nat)              // while(i--) sem_wait(arrive)
    | RelockBarrier
    | ReloadCount                     // i = b->refcount - 1, again
    | Release(left: nat)              // while(i--) sem_post(depart)
    | ClearActive                     // b->active = 0
    | LeadDone                        // last barrier_mutex_unlock
    | JoinUnlockBarrier
    | JoinUnlockTable
    | PostArrive
    | WaitDepart
    | RelockTable                     // sync_mutex_lock on the way out
    | UnlockTable                     // sync_mutex_unlock of the caller

  datatype State = State(
    refcount: nat, table: nat, mutex: nat, active: bool, arrive: nat, depart: nat,
    pc: seq<Pc>, arrivals: seq<nat>, departures: seq<nat>, led: nat, rounds: nat)

  ghost predicate WellFormed(s: State) {
    0 < s.refcount == |s.pc| == |s.arrivals| == |s.departures|
  }

  /** The state `barrier_init` and `blts_sync_master_init` leave behind for `n` clients. */
  function Init(n: nat): State
    requires 0 < n
  {
    State(n, 1, 1, false, 0, 0, seq(n, _ => Idle), seq(n, _ => 0), seq(n, _ => 0), 0, 0)
  }

  /** May process `p` take its next step?  Each process calls the barrier `calls` times. */
  predicate Enabled(calls: nat, s: State, p: nat) {
    p < |s.pc| && p < |s.departures| && match s.pc[p]
      case Idle => s.departures[p] < calls
      case LockTable | RelockTable => s.table > 0
      case LockBarrier | RelockBarrier => s.mutex > 0
      case Collect(left) => left == 0 || s.arrive > 0
      case WaitDepart => s.depart > 0
      case _ => true
  }

  function Goto(s: State, p: nat, c: Pc): State
    requires p < |s.pc|
  {
    s.(pc := s.pc[p := c])
  }

  function Arrived(s: State, p: nat): State
    requires p < |s.arrivals|
  {
    s.(arrivals := s.arrivals[p := s.arrivals[p] + 1])
  }

  function Departed(s: State, p: nat): State
    requires p < |s.departures|
  {
    s.(departures := s.departures[p := s.departures[p] + 1])
  }

  function Next(calls: nat, s: State, p: nat): (t: State)
    requires WellFormed(s) && Enabled(calls, s, p)
    ensures WellFormed(t) && |t.pc| == |s.pc|
  {
    match s.pc[p]
    case Idle => Goto(s, p, LockTable)
    case LockTable => Goto(s, p, LockBarrier).(table := s.table - 1)
    case LockBarrier => Goto(s, p, TestActive).(mutex := s.mutex - 1)
    case TestActive =>
      var t := Arrived(s, p);
      if s.active then Goto(t, p, JoinUnlockBarrier) else Goto(t, p, SetActive).(led := s.led + 1)
    case SetActive => Goto(s, p, LoadCount).(active := true)
    case LoadCount => Goto(s, p, LeadUnlockBarrier(s.refcount - 1))
    case LeadUnlockBarrier(i) => Goto(s, p, LeadUnlockTable(i)).(mutex := s.mutex + 1)
    case LeadUnlockTable(i) => Goto(s, p, Collect(i)).(table := s.table + 1)
    case Collect(i) =>
      if i == 0 then Goto(s, p, RelockBarrier).(rounds := s.rounds + 1)
      else Goto(s, p, Collect(i - 1)).(arrive := s.arrive - 1)
    case RelockBarrier => Goto(s, p, ReloadCount).(mutex := s.mutex - 1)
    case ReloadCount => Goto(s, p, Release(s.refcount - 1))
    case Release(i) =>
      if i == 0 then Goto(s, p, ClearActive)
      else Goto(s, p, Release(i - 1)).(depart := s.depart + 1)
    case ClearActive => Goto(s, p, LeadDone).(active := false)
    case LeadDone => Goto(Departed(s, p), p, RelockTable).(mutex := s.mutex + 1)
    case JoinUnlockBarrier => Goto(s, p, JoinUnlockTable).(mutex := s.mutex + 1)
    case JoinUnlockTable => Goto(s, p, PostArrive).(table := s.table + 1)
    case PostArrive => Goto(s, p, WaitDepart).(arrive := s.arrive + 1)
    case WaitDepart => Goto(Departed(s, p), p, RelockTable).(depart := s.depart - 1)
    case RelockTable => Goto(s, p, UnlockTable).(table := s.table - 1)
    case UnlockTable => Goto(s, p, Idle).(table := s.table + 1)
  }

  /** A run is fixed by its schedule: which process moves at each step. */
  ghost predicate ValidRun(calls: nat, s: State, sched: seq<nat>)
    decreases |sched|
  {
    WellFormed(s) &&
    (sched == [] || (Enabled(calls, s, sched[0]) && ValidRun(calls, Next(calls, s, sched[0]), sched[1..])))
  }

  ghost function Exec(calls: nat, s: State, sched: seq<nat>): (t: State)
    requires ValidRun(calls, s, sched)
    ensures WellFormed(t) && |t.pc| == |s.pc|
    decreases |sched|
  {
    if sched == [] then s else Exec(calls, Next(calls, s, sched[0]), sched[1..])
  }

  /** Process `p` is about to take the leader branch, opening a new round. */
  predicate Opens(s: State, p: nat) {
    p < |s.pc| && s.pc[p] == TestActive && !s.active
  }

  /** In this run every round is opened with no departure token left over. */
  ghost predicate Drained(calls: nat, s: State, sched: seq<nat>)
    requires ValidRun(calls, s, sched)
    decreases |sched|
  {
    sched == [] ||
    ((Opens(s, sched[0]) ==> s.depart == 0) && Drained(calls, Next(calls, s, sched[0]), sched[1..]))
  }

  // ---------- weights summed over all processes ----------

  datatype Measure = TableHeld | MutexHeld | Owner | Collector | Uncollected | Owed | Steps

  function Weight(m: Measure, n: nat, c: Pc): (w: nat) {
    match m
    case TableHeld =>
      if c.LockBarrier? || c.TestActive? || c.SetActive? || c.LoadCount? || c.LeadUnlockBarrier?
         || c.LeadUnlockTable? || c.JoinUnlockBarrier? || c.JoinUnlockTable? || c.UnlockTable? then 1 else 0
    case MutexHeld =>
      if c.TestActive? || c.SetActive? || c.LoadCount? || c.LeadUnlockBarrier? || c.ReloadCount?
         || c.Release? || c.ClearActive? || c.LeadDone? || c.JoinUnlockBarrier? then 1 else 0
    case Owner =>
      if c.LoadCount? || c.LeadUnlockBarrier? || c.LeadUnlockTable? || c.Collect? || c.RelockBarrier?
         || c.ReloadCount? || c.Release? || c.ClearActive? then 1 else 0
    case Collector => if Collecting(c) then 1 else 0
    case Uncollected =>
      if c.SetActive? || c.LoadCount? || c.JoinUnlockBarrier? || c.JoinUnlockTable? || c.PostArrive? then 1
      else if c.LeadUnlockBarrier? || c.LeadUnlockTable? || c.Collect? then (if c.left < n then n - c.left else 0)
      else 0
    case Owed =>
      if c.RelockBarrier? || c.ReloadCount? then n
      else if c.Release? then c.left + 1
      else if c.ClearActive? || c.LeadDone? then 1
      else 0
    case Steps => StepsLeft(n, c)
  }

  /** A leader that has not yet collected all its arrival tokens. */
  predicate Collecting(c: Pc) {
    c.SetActive? || c.LoadCount? || c.LeadUnlockBarrier? || c.LeadUnlockTable? || c.Collect?
  }

  /** Between arriving and departing. */
  predicate Inside(c: Pc) {
    !(c.Idle? || c.LockTable? || c.LockBarrier? || c.TestActive? || c.RelockTable? || c.UnlockTable?)
  }

  /** A bound on the steps left before the next departure; smallest just before departing. */
  function StepsLeft(n: nat, c: Pc): nat {
    match c
    case RelockTable => 2 * n + 15
    case UnlockTable => 2 * n + 14
    case Idle => 2 * n + 13
    case LockTable => 2 * n + 12
    case LockBarrier => 2 * n + 11
    case TestActive => 2 * n + 10
    case SetActive => 2 * n + 9
    case LoadCount => 2 * n + 8
    case LeadUnlockBarrier(i) => n + i + 7
    case LeadUnlockTable(i) => n + i + 6
    case Collect(i) => n + i + 5
    case RelockBarrier => n + 4
    case ReloadCount => n + 3
    case Release(i) => i + 3
    case ClearActive => 2
    case LeadDone => 1
    case JoinUnlockBarrier => 4
    case JoinUnlockTable => 3
    case PostArrive => 2
    case WaitDepart => 1
  }

  function Sum(m: Measure, n: nat, pcs: seq<Pc>): nat {
    if pcs == [] then 0 else Weight(m, n, pcs[0]) + Sum(m, n, pcs[1..])
  }

  function Total(xs: seq<nat>): nat {
    if xs == [] then 0 else xs[0] + Total(xs[1..])
  }

  lemma {:induction false} SumUpdate(m: Measure, n: nat, pcs: seq<Pc>, p: nat, c: Pc)
    requires p < |pcs|
    ensures Sum(m, n, pcs[p := c]) + Weight(m, n, pcs[p]) == Sum(m, n, pcs) + Weight(m, n, c)
  {
    if p == 0 {
      assert pcs[p := c][1..] == pcs[1..];
    } else {
      assert pcs[p := c][1..] == pcs[1..][p - 1 := c];
      SumUpdate(m, n, pcs[1..], p - 1, c);
    }
  }

  lemma {:induction false} SumAtLeast(m: Measure, n: nat, pcs: seq<Pc>, p: nat)
    requires p < |pcs|
    ensures Weight(m, n, pcs[p]) <= Sum(m, n, pcs)
  {
    if p > 0 { SumAtLeast(m, n, pcs[1..], p - 1); }
  }

  lemma {:induction false} SumPair(m: Measure, n: nat, pcs: seq<Pc>, p: nat, q: nat)
    requires p < |pcs| && q < |pcs| && p != q
    ensures Weight(m, n, pcs[p]) + Weight(m, n, pcs[q]) <= Sum(m, n, pcs)
  {
    if p == 0 {
      SumAtLeast(m, n, pcs[1..], q - 1);
    } else if q == 0 {
      SumAtLeast(m, n, pcs[1..], p - 1);
    } else {
      SumPair(m, n, pcs[1..], p - 1, q - 1);
    }
  }

  lemma {:induction false} SumZero(m: Measure, n: nat, pcs: seq<Pc>)
    requires forall p :: 0 <= p < |pcs| ==> Weight(m, n, pcs[p]) == 0
    ensures Sum(m, n, pcs) == 0
  {
    if pcs != [] { SumZero(m, n, pcs[1..]); }
  }

  lemma {:induction false} TotalUpdate(xs: seq<nat>, p: nat, x: nat)
    requires p < |xs|
    ensures Total(xs[p := x]) + xs[p] == Total(xs) + x
  {
    if p == 0 {
      assert xs[p := x][1..] == xs[1..];
    } else {
      assert xs[p := x][1..] == xs[1..][p - 1 := x];
      TotalUpdate(xs[1..], p - 1, x);
    }
  }

  /** Terms bounded by `b` that sum to at least |xs| * b are all equal to `b`. */
  lemma {:induction false} TotalTight(xs: seq<nat>, b: nat)
    requires forall p :: 0 <= p < |xs| ==> xs[p] <= b
    ensures Total(xs) <= |xs| * b
    ensures Total(xs) == |xs| * b ==> forall p :: 0 <= p < |xs| ==> xs[p] == b
  {
    if xs != [] {
      TotalTight(xs[1..], b);
      assert |xs| * b == b + |xs[1..]| * b;
      if Total(xs) == |xs| * b {
        forall p | 0 <= p < |xs| ensures xs[p] == b {
          if p > 0 { assert xs[p] == xs[1..][p - 1]; }
        }
      }
    }
  }

  lemma {:induction false} TotalConst(xs: seq<nat>, b: nat)
    requires forall p :: 0 <= p < |xs| ==> xs[p] == b
    ensures Total(xs) == |xs| * b
  {
    if xs != [] {
      TotalConst(xs[1..], b);
      assert |xs| * b == b + |xs[1..]| * b;
    }
  }

  // ---------- the ledger: what every step of every run keeps ----------

  /** One process, seen on its own. */
  ghost predicate Local(n: nat, active: bool, c: Pc, arrived: nat, departed: nat) {
    && arrived == departed + (if Inside(c) then 1 else 0)
    && (c.LeadUnlockBarrier? || c.LeadUnlockTable? || c.Collect? || c.Release? ==> c.left < n)
    && (c.LeadUnlockBarrier? || c.LeadUnlockTable? ==> c.left == n - 1)
    && (c.SetActive? ==> !active)
  }

  ghost predicate TableBook(s: State) {
    s.table + Sum(TableHeld, |s.pc|, s.pc) == 1
  }

  ghost predicate MutexBook(s: State) {
    s.mutex + Sum(MutexHeld, |s.pc|, s.pc) == 1
  }

  ghost predicate OwnerBook(s: State) {
    Sum(Owner, |s.pc|, s.pc) == if s.active then 1 else 0
  }

  ghost predicate LeaderBook(s: State) {
    s.led == s.rounds + Sum(Collector, |s.pc|, s.pc)
  }

  ghost predicate ArrivalBook(s: State) {
    Total(s.arrivals) == |s.pc| * s.rounds + s.arrive + Sum(Uncollected, |s.pc|, s.pc)
  }

  ghost predicate DepartureBook(s: State) {
    |s.pc| * s.rounds == Total(s.departures) + s.depart + Sum(Owed, |s.pc|, s.pc)
  }

  ghost predicate Locals(s: State)
    requires WellFormed(s)
  {
    forall p :: 0 <= p < |s.pc| ==> Local(|s.pc|, s.active, s.pc[p], s.arrivals[p], s.departures[p])
  }

  /**
   Both mutexes are held by at most one process and `active` has one owner; every arrival
   is a token in `arrive`, a token still owed to it, or part of a collected round; every
   collected round is departures, tokens in `depart`, and departures still owed.
   */
  ghost predicate Ledger(s: State) {
    && WellFormed(s)
    && TableBook(s) && MutexBook(s) && OwnerBook(s) && LeaderBook(s)
    && ArrivalBook(s) && DepartureBook(s)
    && Locals(s)
  }

  lemma LedgerInit(n: nat)
    requires 0 < n
    ensures Ledger(Init(n))
  {
    var s := Init(n);
    forall m: Measure | m != Steps ensures Sum(m, n, s.pc) == 0 { SumZero(m, n, s.pc); }
    TotalConst(s.arrivals, 0);
  }

  /** The step of `p` rewrites only `p`'s own program counter. */
  lemma StepSum(calls: nat, s: State, p: nat, m: Measure)
    requires WellFormed(s) && Enabled(calls, s, p)
    ensures
      var t, n := Next(calls, s, p), |s.pc|;
      Sum(m, n, t.pc) + Weight(m, n, s.pc[p]) == Sum(m, n, s.pc) + Weight(m, n, t.pc[p])
  {
    var t := Next(calls, s, p);
    assert t.pc == s.pc[p := t.pc[p]];
    SumUpdate(m, |s.pc|, s.pc, p, t.pc[p]);
  }

  /** What one step moves between the semaphores and the process's own obligations. */
  lemma LockMove(calls: nat, s: State, p: nat)
    requires WellFormed(s) && Enabled(calls, s, p)
    ensures
      var t, n := Next(calls, s, p), |s.pc|;
      && t.table + Weight(TableHeld, n, t.pc[p]) == s.table + Weight(TableHeld, n, s.pc[p])
      && t.mutex + Weight(MutexHeld, n, t.pc[p]) == s.mutex + Weight(MutexHeld, n, s.pc[p])
  {
  }

  lemma ArrivalMove(calls: nat, s: State, p: nat)
    requires WellFormed(s) && Enabled(calls, s, p)
    requires Local(|s.pc|, s.active, s.pc[p], s.arrivals[p], s.departures[p])
    ensures
      var t, n := Next(calls, s, p), |s.pc|;
      && t.arrivals == s.arrivals[p := t.arrivals[p]]
      && t.arrivals[p] - t.arrive - Weight(Uncollected, n, t.pc[p])
         == s.arrivals[p] - s.arrive - Weight(Uncollected, n, s.pc[p]) + (if s.pc[p] == Collect(0) then n else 0)
  {
  }

  lemma DepartureMove(calls: nat, s: State, p: nat)
    requires WellFormed(s) && Enabled(calls, s, p)
    ensures
      var t, n := Next(calls, s, p), |s.pc|;
      && t.departures == s.departures[p := t.departures[p]]
      && t.departures[p] + t.depart + Weight(Owed, n, t.pc[p])
         == s.departures[p] + s.depart + Weight(Owed, n, s.pc[p]) + (if s.pc[p] == Collect(0) then n else 0)
  {
  }

  lemma TableStep(calls: nat, s: State, p: nat)
    requires WellFormed(s) && Enabled(calls, s, p) && TableBook(s)
    ensures TableBook(Next(calls, s, p))
  {
    StepSum(calls, s, p, TableHeld);
    LockMove(calls, s, p);
  }

  lemma MutexStep(calls: nat, s: State, p: nat)
    requires WellFormed(s) && Enabled(calls, s, p) && MutexBook(s)
    ensures MutexBook(Next(calls, s, p))
  {
    StepSum(calls, s, p, MutexHeld);
    LockMove(calls, s, p);
  }

  lemma OwnerStep(calls: nat, s: State, p: nat)
    requires WellFormed(s) && Enabled(calls, s, p) && OwnerBook(s)
    requires s.pc[p].SetActive? ==> !s.active
    ensures OwnerBook(Next(calls, s, p))
  {
    StepSum(calls, s, p, Owner);
    SumAtLeast(Owner, |s.pc|, s.pc, p);
  }

  lemma LeaderStep(calls: nat, s: State, p: nat)
    requires WellFormed(s) && Enabled(calls, s, p) && LeaderBook(s)
    ensures LeaderBook(Next(calls, s, p))
  {
    StepSum(calls, s, p, Collector);
  }

  /** Uncollected arrivals: only the last wait of a leader retires any, and it retires one per process. */
  lemma ArrivalDelta(calls: nat, s: State, p: nat)
    requires WellFormed(s) && Enabled(calls, s, p)
    requires Local(|s.pc|, s.active, s.pc[p], s.arrivals[p], s.departures[p])
    ensures
      var t, n := Next(calls, s, p), |s.pc|;
      && t.rounds == s.rounds + (if s.pc[p] == Collect(0) then 1 else 0)
      && Total(t.arrivals) - t.arrive - Sum(Uncollected, n, t.pc)
         == Total(s.arrivals) - s.arrive - Sum(Uncollected, n, s.pc) + (if s.pc[p] == Collect(0) then n else 0)
  {
    StepSum(calls, s, p, Uncollected);
    ArrivalMove(calls, s, p);
    TotalUpdate(s.arrivals, p, Next(calls, s, p).arrivals[p]);
  }

  lemma NextRound(n: nat, r: nat)
    ensures n * (r + 1) == n * r + n
  {
  }

  lemma ArrivalStep(calls: nat, s: State, p: nat)
    requires WellFormed(s) && Enabled(calls, s, p) && ArrivalBook(s)
    requires Local(|s.pc|, s.active, s.pc[p], s.arrivals[p], s.departures[p])
    ensures ArrivalBook(Next(calls, s, p))
  {
    ArrivalDelta(calls, s, p);
    NextRound(|s.pc|, s.rounds);
  }

  lemma DepartureDelta(calls: nat, s: State, p: nat)
    requires WellFormed(s) && Enabled(calls, s, p)
    ensures
      var t, n := Next(calls, s, p), |s.pc|;
      && t.rounds == s.rounds + (if s.pc[p] == Collect(0) then 1 else 0)
      && Total(t.departures) + t.depart + Sum(Owed, n, t.pc)
         == Total(s.departures) + s.depart + Sum(Owed, n, s.pc) + (if s.pc[p] == Collect(0) then n else 0)
  {
    StepSum(calls, s, p, Owed);
    DepartureMove(calls, s, p);
    TotalUpdate(s.departures, p, Next(calls, s, p).departures[p]);
  }

  lemma DepartureStep(calls: nat, s: State, p: nat)
    requires WellFormed(s) && Enabled(calls, s, p) && DepartureBook(s)
    ensures DepartureBook(Next(calls, s, p))
  {
    DepartureDelta(calls, s, p);
    NextRound(|s.pc|, s.rounds);
  }

  /** Arriving enters the round and departing leaves it. */
  lemma HistoryMove(calls: nat, s: State, p: nat)
    requires WellFormed(s) && Enabled(calls, s, p)
    requires s.arrivals[p] == s.departures[p] + (if Inside(s.pc[p]) then 1 else 0)
    ensures
      var t := Next(calls, s, p);
      t.arrivals[p] == t.departures[p] + (if Inside(t.pc[p]) then 1 else 0)
  {
  }

  lemma LocalStep(calls: nat, s: State, p: nat)
    requires WellFormed(s) && Enabled(calls, s, p)
    requires Local(|s.pc|, s.active, s.pc[p], s.arrivals[p], s.departures[p])
    ensures
      var t := Next(calls, s, p);
      Local(|s.pc|, t.active, t.pc[p], t.arrivals[p], t.departures[p])
  {
    HistoryMove(calls, s, p);
  }

  /** A process that does not move keeps its part of the invariant: only the mutex holder writes `active`. */
  lemma OtherStep(calls: nat, s: State, p: nat, q: nat)
    requires WellFormed(s) && Enabled(calls, s, p) && q < |s.pc| && q != p && MutexBook(s)
    requires Local(|s.pc|, s.active, s.pc[q], s.arrivals[q], s.departures[q])
    ensures
      var t := Next(calls, s, p);
      Local(|s.pc|, t.active, t.pc[q], t.arrivals[q], t.departures[q])
  {
    SumPair(MutexHeld, |s.pc|, s.pc, p, q);
  }

  lemma LedgerStep(calls: nat, s: State, p: nat)
    requires Ledger(s) && Enabled(calls, s, p)
    ensures Ledger(Next(calls, s, p))
  {
    var t := Next(calls, s, p);
    assert Local(|s.pc|, s.active, s.pc[p], s.arrivals[p], s.departures[p]);
    StepSum(calls, s, p, Steps);
    TableStep(calls, s, p);
    MutexStep(calls, s, p);
    OwnerStep(calls, s, p);
    LeaderStep(calls, s, p);
    ArrivalStep(calls, s, p);
    DepartureStep(calls, s, p);
    forall q | 0 <= q < |s.pc|
      ensures Local(|s.pc|, t.active, t.pc[q], t.arrivals[q], t.departures[q])
    {
      if q == p { LocalStep(calls, s, p); } else { OtherStep(calls, s, p, q); }
    }
  }

  // ---------- separation of rounds ----------

  ghost predicate HasCollector(s: State) {
    exists l :: 0 <= l < |s.pc| && Collecting(s.pc[l])
  }

  /** No k-th departure before every k-th arrival. */
  ghost predicate Separated(s: State)
    requires WellFormed(s)
  {
    forall p, q :: 0 <= p < |s.pc| && 0 <= q < |s.pc| ==> s.departures[p] <= s.arrivals[q]
  }

  ghost predicate InRound(s: State, p: nat)
    requires WellFormed(s) && p < |s.pc|
  {
    && s.departures[p] <= s.rounds <= s.arrivals[p]
    && (Collecting(s.pc[p]) ==> s.departures[p] == s.rounds)
    && (s.arrivals[p] > s.rounds ==> HasCollector(s))
  }

  /** With three or more processes, a round is only being collected once the last one has emptied. */
  ghost predicate Emptied(s: State)
    requires WellFormed(s)
  {
    |s.pc| > 2 && HasCollector(s) ==> forall p :: 0 <= p < |s.pc| ==> s.departures[p] == s.rounds
  }

  ghost predicate InRounds(s: State)
    requires WellFormed(s)
  {
    (forall p :: 0 <= p < |s.pc| ==> InRound(s, p)) && Emptied(s)
  }

  lemma OneCollector(s: State, p: nat, q: nat)
    requires Ledger(s) && p < |s.pc| && q < |s.pc| && Collecting(s.pc[p]) && Collecting(s.pc[q])
    ensures p == q
  {
    var n := |s.pc|;
    assert Local(n, s.active, s.pc[p], s.arrivals[p], s.departures[p]);
    assert Local(n, s.active, s.pc[q], s.arrivals[q], s.departures[q]);
    SumAtLeast(Owner, n, s.pc, p);
    SumAtLeast(Owner, n, s.pc, q);
    if p != q {
      SumPair(Owner, n, s.pc, p, q);
      SumPair(MutexHeld, n, s.pc, p, q);
    }
  }

  /** Counters that are at most one ahead of others: how far apart the totals can be, and what the extremes mean. */
  lemma {:induction false} TotalsApart(xs: seq<nat>, ys: seq<nat>)
    requires |xs| == |ys| && forall p :: 0 <= p < |xs| ==> ys[p] <= xs[p] <= ys[p] + 1
    ensures Total(ys) <= Total(xs) <= Total(ys) + |xs|
    ensures Total(xs) == Total(ys) ==> forall p :: 0 <= p < |xs| ==> xs[p] == ys[p]
    ensures Total(xs) == Total(ys) + |xs| ==> forall p :: 0 <= p < |xs| ==> xs[p] == ys[p] + 1
  {
    if xs != [] {
      TotalsApart(xs[1..], ys[1..]);
      if Total(xs) == Total(ys) {
        forall p | 0 <= p < |xs| ensures xs[p] == ys[p] { if p > 0 { assert xs[1..][p - 1] == ys[1..][p - 1]; } }
      }
      if Total(xs) == Total(ys) + |xs| {
        forall p | 0 <= p < |xs| ensures xs[p] == ys[p] + 1 {
          if p > 0 { assert xs[1..][p - 1] == ys[1..][p - 1] + 1; }
        }
      }
    }
  }

  lemma InsideCount(s: State)
    requires Ledger(s)
    ensures forall p :: 0 <= p < |s.pc| ==> s.departures[p] <= s.arrivals[p] <= s.departures[p] + 1
    ensures Total(s.departures) <= Total(s.arrivals) <= Total(s.departures) + |s.pc|
  {
    forall p | 0 <= p < |s.pc| ensures s.departures[p] <= s.arrivals[p] <= s.departures[p] + 1 {
      assert Local(|s.pc|, s.active, s.pc[p], s.arrivals[p], s.departures[p]);
    }
    TotalsApart(s.arrivals, s.departures);
  }

  /** When a leader has just collected, every process is inside, and no token is left anywhere, in any run. */
  lemma AllInside(s: State, l: nat)
    requires Ledger(s) && l < |s.pc| && (s.pc[l] == RelockBarrier || s.pc[l] == ReloadCount)
    ensures forall q :: 0 <= q < |s.pc| ==> s.arrivals[q] == s.departures[q] + 1
    ensures Total(s.arrivals) == |s.pc| * s.rounds && s.depart == 0
  {
    SumAtLeast(Owed, |s.pc|, s.pc, l);
    InsideCount(s);
    TotalsApart(s.arrivals, s.departures);
  }

  /** Whoever finds `active` set joins a round that is still being collected, in any run. */
  lemma JoinsOpenRound(s: State, p: nat)
    requires Ledger(s) && p < |s.pc| && s.pc[p] == TestActive && s.active
    ensures HasCollector(s)
  {
    var n := |s.pc|;
    assert Local(n, s.active, s.pc[p], s.arrivals[p], s.departures[p]);
    if forall l :: 0 <= l < n ==> Weight(Owner, n, s.pc[l]) == 0 { SumZero(Owner, n, s.pc); }
    var l :| 0 <= l < n && Weight(Owner, n, s.pc[l]) != 0;
    SumPair(MutexHeld, n, s.pc, p, l);
    if s.pc[l] == RelockBarrier { AllInside(s, l); }
  }

  /** When the leader's last wait is over, everybody has arrived once more. */
  lemma AllArrived(s: State, p: nat)
    requires Ledger(s) && InRounds(s) && p < |s.pc| && s.pc[p] == Collect(0)
    ensures forall q :: 0 <= q < |s.pc| ==> s.arrivals[q] == s.rounds + 1
  {
    var n := |s.pc|;
    SumAtLeast(Uncollected, n, s.pc, p);
    NextRound(n, s.rounds);
    forall q | 0 <= q < n ensures s.arrivals[q] <= s.rounds + 1 {
      assert InRound(s, q) && Local(n, s.active, s.pc[q], s.arrivals[q], s.departures[q]);
    }
    TotalTight(s.arrivals, s.rounds + 1);
  }

  /** A departing process leaves a collected round. */
  lemma DepartsOldRound(s: State, p: nat)
    requires Ledger(s) && InRounds(s) && p < |s.pc|
    requires s.pc[p] == LeadDone || (s.pc[p] == WaitDepart && s.depart > 0)
    ensures s.departures[p] < s.rounds
  {
    var n := |s.pc|;
    SumAtLeast(Owed, n, s.pc, p);
    assert InRound(s, p) && Local(n, s.active, s.pc[p], s.arrivals[p], s.departures[p]);
    if s.departures[p] == s.rounds {
      var l :| 0 <= l < n && Collecting(s.pc[l]);
      assert InRound(s, l);
      if forall q :: 0 <= q < n ==> s.departures[q] == s.rounds { TotalConst(s.departures, s.rounds); }
      // p, the leader l and the process still in the old round would be three
      assert false;
    }
  }

  /** A round opened with no token left over finds every process out of the previous one. */
  lemma OpensEmpty(s: State, p: nat)
    requires Ledger(s) && InRounds(s) && Opens(s, p) && s.depart == 0
    ensures forall q :: 0 <= q < |s.pc| ==> s.departures[q] == s.rounds
  {
    OwesNothing(s, p);
    forall q | 0 <= q < |s.pc| ensures s.departures[q] <= s.rounds { assert InRound(s, q); }
    TotalTight(s.departures, s.rounds);
  }

  lemma OwesNothing(s: State, p: nat)
    requires Ledger(s) && Opens(s, p)
    ensures Sum(Owed, |s.pc|, s.pc) == 0
    ensures !HasCollector(s)
    ensures forall q :: 0 <= q < |s.pc| && q != p ==>
              Weight(TableHeld, |s.pc|, s.pc[q]) == 0 && Weight(MutexHeld, |s.pc|, s.pc[q]) == 0
              && Weight(Owner, |s.pc|, s.pc[q]) == 0
  {
    var n := |s.pc|;
    forall q | 0 <= q < n
      ensures Weight(Owed, n, s.pc[q]) == 0 && !Collecting(s.pc[q])
      ensures q != p ==> Weight(TableHeld, n, s.pc[q]) == 0 && Weight(MutexHeld, n, s.pc[q]) == 0
                         && Weight(Owner, n, s.pc[q]) == 0
    {
      SumAtLeast(Owner, n, s.pc, q);
      if q != p {
        SumPair(MutexHeld, n, s.pc, p, q);
        SumPair(TableHeld, n, s.pc, p, q);
      }
    }
    SumZero(Owed, n, s.pc);
  }

  lemma QuietMove(calls: nat, s: State, p: nat)
    requires WellFormed(s) && Enabled(calls, s, p)
    requires s.pc[p] != TestActive && s.pc[p] != Collect(0) && s.pc[p] != LeadDone && s.pc[p] != WaitDepart
    ensures var t := Next(calls, s, p);
      && t.arrivals == s.arrivals && t.departures == s.departures && t.rounds == s.rounds
      && forall q :: 0 <= q < |s.pc| ==> Collecting(t.pc[q]) == Collecting(s.pc[q])
  {
  }

  lemma QuietStep(calls: nat, s: State, p: nat)
    requires Ledger(s) && InRounds(s) && Enabled(calls, s, p)
    requires s.pc[p] != TestActive && s.pc[p] != Collect(0) && s.pc[p] != LeadDone && s.pc[p] != WaitDepart
    ensures InRounds(Next(calls, s, p))
  {
    hide InRounds, Next, Enabled, Collecting;
    QuietMove(calls, s, p);
    SameRounds(s, Next(calls, s, p));
  }

  lemma SameRounds(s: State, t: State)
    requires WellFormed(s) && WellFormed(t) && InRounds(s) && |s.pc| == |t.pc|
    requires t.arrivals == s.arrivals && t.departures == s.departures && t.rounds == s.rounds
    requires forall q :: 0 <= q < |s.pc| ==> Collecting(t.pc[q]) == Collecting(s.pc[q])
    ensures InRounds(t)
  {
    assert HasCollector(s) == HasCollector(t);
    forall q | 0 <= q < |s.pc| ensures InRound(t, q) { assert InRound(s, q); }
  }

  lemma TestStep(calls: nat, s: State, p: nat)
    requires Ledger(s) && InRounds(s) && Enabled(calls, s, p) && s.pc[p] == TestActive
    requires Opens(s, p) && |s.pc| > 2 ==> s.depart == 0
    ensures InRounds(Next(calls, s, p))
  {
    var t, n := Next(calls, s, p), |s.pc|;
    assert Local(n, s.active, s.pc[p], s.arrivals[p], s.departures[p]) && InRound(s, p);
    if s.active {
      JoinsOpenRound(s, p);
      var l :| 0 <= l < n && Collecting(s.pc[l]);
      assert Collecting(t.pc[l]);
    } else {
      OwesNothing(s, p);
      if n > 2 { OpensEmpty(s, p); }
      assert Collecting(t.pc[p]);
    }
    forall q | 0 <= q < n ensures InRound(t, q) { assert InRound(s, q); }
  }

  lemma CollectedStep(calls: nat, s: State, p: nat)
    requires Ledger(s) && InRounds(s) && Enabled(calls, s, p) && s.pc[p] == Collect(0)
    ensures InRounds(Next(calls, s, p))
  {
    var t, n := Next(calls, s, p), |s.pc|;
    AllArrived(s, p);
    forall q | 0 <= q < n ensures InRound(t, q) && !Collecting(t.pc[q]) {
      assert InRound(s, q);
      if q != p && Collecting(s.pc[q]) { OneCollector(s, p, q); }
    }
  }

  lemma DepartStep(calls: nat, s: State, p: nat)
    requires Ledger(s) && InRounds(s) && Enabled(calls, s, p)
    requires s.pc[p] == LeadDone || s.pc[p] == WaitDepart
    ensures InRounds(Next(calls, s, p))
  {
    var t, n := Next(calls, s, p), |s.pc|;
    DepartsOldRound(s, p);
    assert forall q :: 0 <= q < n ==> Collecting(t.pc[q]) == Collecting(s.pc[q]);
    assert HasCollector(s) == HasCollector(t);
    forall q | 0 <= q < n ensures InRound(t, q) { assert InRound(s, q); }
  }

  lemma InRoundsStep(calls: nat, s: State, p: nat)
    requires Ledger(s) && InRounds(s) && Enabled(calls, s, p)
    requires Opens(s, p) && |s.pc| > 2 ==> s.depart == 0
    ensures InRounds(Next(calls, s, p))
  {
    var c := s.pc[p];
    if c == TestActive {
      TestStep(calls, s, p);
    } else if c == Collect(0) {
      CollectedStep(calls, s, p);
    } else if c == LeadDone || c == WaitDepart {
      DepartStep(calls, s, p);
    } else {
      QuietStep(calls, s, p);
    }
  }

  // ---------- whole runs ----------

  /** No process makes more than `calls` calls. */
  ghost predicate Quota(calls: nat, s: State)
    requires WellFormed(s)
  {
    forall p :: 0 <= p < |s.pc| ==> WithinQuota(calls, s.pc[p], s.arrivals[p], s.departures[p])
  }

  predicate WithinQuota(calls: nat, c: Pc, arrived: nat, departed: nat) {
    arrived <= calls && (c.LockTable? || c.LockBarrier? || c.TestActive? ==> departed < calls)
  }

  lemma QuotaMove(calls: nat, s: State, p: nat)
    requires WellFormed(s) && Enabled(calls, s, p)
    requires WithinQuota(calls, s.pc[p], s.arrivals[p], s.departures[p])
    requires s.pc[p] == TestActive ==> s.arrivals[p] == s.departures[p]
    ensures var t := Next(calls, s, p); WithinQuota(calls, t.pc[p], t.arrivals[p], t.departures[p])
  {
  }

  lemma QuotaStep(calls: nat, s: State, p: nat)
    requires WellFormed(s) && Locals(s) && Quota(calls, s) && Enabled(calls, s, p)
    ensures Quota(calls, Next(calls, s, p))
  {
    var t := Next(calls, s, p);
    assert Local(|s.pc|, s.active, s.pc[p], s.arrivals[p], s.departures[p]);
    QuotaMove(calls, s, p);
    forall q | 0 <= q < |s.pc| ensures WithinQuota(calls, t.pc[q], t.arrivals[q], t.departures[q]) {
      assert WithinQuota(calls, s.pc[q], s.arrivals[q], s.departures[q]);
    }
  }

  /** When each process calls once, the only round ever opened finds no token. */
  lemma SingleCallDrained(s: State, p: nat)
    requires Ledger(s) && InRounds(s) && Quota(1, s) && Opens(s, p)
    ensures s.depart == 0
  {
    assert InRound(s, p) && Local(|s.pc|, s.active, s.pc[p], s.arrivals[p], s.departures[p]);
  }

  /** The cases in which rounds are kept apart: two processes, one call each, or drained reuse. */
  ghost predicate Orderly(calls: nat, s: State, sched: seq<nat>)
    requires ValidRun(calls, s, sched)
  {
    |s.pc| <= 2 || calls <= 1 || Drained(calls, s, sched)
  }

  lemma {:induction false} LedgerRun(calls: nat, s: State, sched: seq<nat>)
    requires Ledger(s) && Quota(calls, s) && ValidRun(calls, s, sched)
    ensures var t := Exec(calls, s, sched); Ledger(t) && Quota(calls, t)
    decreases |sched|
  {
    if sched != [] {
      LedgerStep(calls, s, sched[0]);
      QuotaStep(calls, s, sched[0]);
      LedgerRun(calls, Next(calls, s, sched[0]), sched[1..]);
    }
  }

  lemma {:induction false} InRoundsRun(calls: nat, s: State, sched: seq<nat>)
    requires Ledger(s) && Quota(calls, s) && InRounds(s) && ValidRun(calls, s, sched)
    requires Orderly(calls, s, sched)
    ensures InRounds(Exec(calls, s, sched))
    decreases |sched|
  {
    if sched != [] {
      if Opens(s, sched[0]) && calls <= 1 { SingleCallDrained(s, sched[0]); }
      LedgerStep(calls, s, sched[0]);
      QuotaStep(calls, s, sched[0]);
      InRoundsStep(calls, s, sched[0]);
      InRoundsRun(calls, Next(calls, s, sched[0]), sched[1..]);
    }
  }

  lemma InitOrderly(n: nat, calls: nat)
    requires 0 < n
    ensures Ledger(Init(n)) && Quota(calls, Init(n)) && InRounds(Init(n))
  {
    LedgerInit(n);
    forall p | 0 <= p < n ensures InRound(Init(n), p) {}
  }

  /**
   Every run of any number of rounds, with no premise: departures never exceed one per
   process and collected round, arrivals never fall below it, `led` counts the collected
   rounds and the one being collected, and each mutex is free or held once.
   */
  lemma BarrierAccounting(n: nat, calls: nat, sched: seq<nat>)
    requires 0 < n && ValidRun(calls, Init(n), sched)
    ensures
      var t := Exec(calls, Init(n), sched);
      && Total(t.departures) <= n * t.rounds <= Total(t.arrivals)
      && t.rounds <= t.led <= t.rounds + 1
      && (t.led == t.rounds + 1 <==> HasCollector(t))
      && t.table <= 1 && t.mutex <= 1
  {
    InitOrderly(n, calls);
    LedgerRun(calls, Init(n), sched);
    var t := Exec(calls, Init(n), sched);
    if HasCollector(t) {
      var l :| 0 <= l < n && Collecting(t.pc[l]);
      SumAtLeast(Collector, n, t.pc, l);
      OneLeader(t, l);
    } else {
      SumZero(Collector, n, t.pc);
    }
  }

  /** No process outside the two critical sections, blocked on a signal semaphore or not, holds a lock. */
  lemma WaitersHoldNoLock(n: nat, calls: nat, sched: seq<nat>)
    requires 0 < n && ValidRun(calls, Init(n), sched)
    ensures
      var t := Exec(calls, Init(n), sched);
      && (t.table == 1 <==> forall p :: 0 <= p < n ==> Weight(TableHeld, n, t.pc[p]) == 0)
      && (t.mutex == 1 <==> forall p :: 0 <= p < n ==> Weight(MutexHeld, n, t.pc[p]) == 0)
  {
    InitOrderly(n, calls);
    LedgerRun(calls, Init(n), sched);
    var t := Exec(calls, Init(n), sched);
    forall m: Measure
      ensures Sum(m, n, t.pc) == 0 <==> forall p :: 0 <= p < n ==> Weight(m, n, t.pc[p]) == 0
    {
      forall p | 0 <= p < n ensures Weight(m, n, t.pc[p]) <= Sum(m, n, t.pc) { SumAtLeast(m, n, t.pc, p); }
      if forall p :: 0 <= p < n ==> Weight(m, n, t.pc[p]) == 0 { SumZero(m, n, t.pc); }
    }
  }

  lemma OneLeader(t: State, l: nat)
    requires Ledger(t) && l < |t.pc| && Collecting(t.pc[l])
    ensures Sum(Collector, |t.pc|, t.pc) == 1
  {
    var pcs := t.pc[l := Idle];
    SumUpdate(Collector, |t.pc|, t.pc, l, Idle);
    forall q | 0 <= q < |pcs| ensures Weight(Collector, |t.pc|, pcs[q]) == 0 {
      if Collecting(pcs[q]) { OneCollector(t, l, q); }
    }
    SumZero(Collector, |t.pc|, pcs);
  }

  /**
   The barrier separates rounds: in an orderly run a process's k-th departure comes after
   every process's k-th arrival.
   */
  lemma BarrierSeparates(n: nat, calls: nat, sched: seq<nat>)
    requires 0 < n && ValidRun(calls, Init(n), sched) && Orderly(calls, Init(n), sched)
    ensures Separated(Exec(calls, Init(n), sched))
  {
    InitOrderly(n, calls);
    LedgerRun(calls, Init(n), sched);
    InRoundsRun(calls, Init(n), sched);
    var t := Exec(calls, Init(n), sched);
    forall p, q | 0 <= p < n && 0 <= q < n ensures t.departures[p] <= t.arrivals[q] {
      assert InRound(t, p) && InRound(t, q);
    }
  }

  // ---------- progress ----------

  ghost predicate Stuck(calls: nat, s: State) {
    forall p :: 0 <= p < |s.pc| ==> !Enabled(calls, s, p)
  }

  /** Everybody is back from the last call and the barrier is as `barrier_init` left it. */
  ghost predicate AllReturned(calls: nat, s: State)
    requires WellFormed(s)
  {
    && (forall p :: 0 <= p < |s.pc| ==> s.pc[p] == Idle && s.departures[p] == calls)
    && s.rounds == s.led == calls
    && !s.active && s.arrive == 0 && s.depart == 0 && s.table == 1 && s.mutex == 1
  }

  /** Nobody ever waits for a mutex for good: only the two signal semaphores can block a stuck state. */
  lemma StuckOnSignals(calls: nat, s: State)
    requires Ledger(s) && Stuck(calls, s)
    ensures s.table == 1 && s.mutex == 1
    ensures forall p :: 0 <= p < |s.pc| ==>
              s.pc[p] == Idle || s.pc[p] == WaitDepart || (s.pc[p].Collect? && s.pc[p].left > 0)
  {
    var n := |s.pc|;
    forall p | 0 <= p < n ensures Weight(MutexHeld, n, s.pc[p]) == 0 { assert !Enabled(calls, s, p); }
    SumZero(MutexHeld, n, s.pc);
    forall p | 0 <= p < n ensures Weight(TableHeld, n, s.pc[p]) == 0 { assert !Enabled(calls, s, p); }
    SumZero(TableHeld, n, s.pc);
    forall p | 0 <= p < n
      ensures s.pc[p] == Idle || s.pc[p] == WaitDepart || (s.pc[p].Collect? && s.pc[p].left > 0)
    {
      assert !Enabled(calls, s, p);
    }
  }

  /** A process still behind the collected rounds has its departure token waiting, unless a leader owes it. */
  lemma BehindHasToken(s: State, q: nat)
    requires Ledger(s) && q < |s.pc| && s.departures[q] < s.rounds && Sum(Owed, |s.pc|, s.pc) == 0
    requires forall p :: 0 <= p < |s.pc| ==> s.departures[p] <= s.rounds
    ensures s.depart > 0
  {
    TotalTight(s.departures, s.rounds);
  }

  lemma StuckMeansNobodyWaits(calls: nat, s: State)
    requires Ledger(s) && InRounds(s) && Quota(calls, s) && Stuck(calls, s)
    ensures forall p :: 0 <= p < |s.pc| ==> s.pc[p] == Idle
  {
    var n := |s.pc|;
    StuckOnSignals(calls, s);
    SumZero(Owed, n, s.pc);
    forall p | 0 <= p < n
      ensures s.departures[p] <= s.rounds <= s.arrivals[p] <= s.departures[p] + (if Inside(s.pc[p]) then 1 else 0)
      ensures s.pc[p] == WaitDepart ==> s.departures[p] == s.rounds
    {
      assert InRound(s, p) && Local(n, s.active, s.pc[p], s.arrivals[p], s.departures[p]);
      if s.pc[p] == WaitDepart {
        assert !Enabled(calls, s, p);
        if s.departures[p] < s.rounds {
          assert forall q :: 0 <= q < n ==> InRound(s, q) ==> s.departures[q] <= s.rounds;
          BehindHasToken(s, p);
        }
      }
    }
    if l :| 0 <= l < n && s.pc[l] != Idle {
      assert InRound(s, l) && Local(n, s.active, s.pc[l], s.arrivals[l], s.departures[l]);
      StuckLeaderHasToken(calls, s);
    }
  }

  lemma StuckInNewRound(calls: nat, s: State, q: nat)
    requires Ledger(s) && InRounds(s) && Quota(calls, s) && Stuck(calls, s) && q < |s.pc|
    requires s.pc[q] == Idle || s.pc[q] == WaitDepart || s.pc[q].Collect?
    requires s.pc[q] == WaitDepart ==> s.departures[q] == s.rounds
    requires s.rounds < calls
    ensures s.arrivals[q] == s.rounds + 1
  {
    assert InRound(s, q) && WithinQuota(calls, s.pc[q], s.arrivals[q], s.departures[q])
           && Local(|s.pc|, s.active, s.pc[q], s.arrivals[q], s.departures[q]) && !Enabled(calls, s, q);
  }

  lemma OnlyLeaderUncollected(s: State, l: nat)
    requires Ledger(s) && l < |s.pc| && Collecting(s.pc[l])
    requires forall p :: 0 <= p < |s.pc| ==> s.pc[p] == Idle || s.pc[p] == WaitDepart || s.pc[p].Collect?
    ensures Sum(Uncollected, |s.pc|, s.pc) == Weight(Uncollected, |s.pc|, s.pc[l])
  {
    var n := |s.pc|;
    var idle := s.pc[l := Idle];
    SumUpdate(Uncollected, n, s.pc, l, Idle);
    forall q | 0 <= q < n ensures Weight(Uncollected, n, idle[q]) == 0 {
      if q != l && Collecting(s.pc[q]) { OneCollector(s, l, q); }
    }
    SumZero(Uncollected, n, idle);
  }

  lemma StuckLeaderHasToken(calls: nat, s: State)
    requires Ledger(s) && InRounds(s) && Quota(calls, s) && Stuck(calls, s)
    requires forall p :: 0 <= p < |s.pc| ==>
               s.pc[p] == Idle || s.pc[p] == WaitDepart || (s.pc[p].Collect? && s.pc[p].left > 0)
    requires forall p :: 0 <= p < |s.pc| && s.pc[p] == WaitDepart ==> s.departures[p] == s.rounds
    ensures !HasCollector(s)
  {
    if l :| 0 <= l < |s.pc| && Collecting(s.pc[l]) {
      assert InRound(s, l) && WithinQuota(calls, s.pc[l], s.arrivals[l], s.departures[l])
             && Local(|s.pc|, s.active, s.pc[l], s.arrivals[l], s.departures[l]) && !Enabled(calls, s, l);
      forall q | 0 <= q < |s.pc| ensures s.arrivals[q] == s.rounds + 1 { StuckInNewRound(calls, s, q); }
      NextRound(|s.pc|, s.rounds);
      OnlyLeaderUncollected(s, l);
      TotalConst(s.arrivals, s.rounds + 1);
    }
  }

  lemma StuckMeansReturned(calls: nat, s: State)
    requires Ledger(s) && InRounds(s) && Quota(calls, s) && Stuck(calls, s)
    ensures AllReturned(calls, s)
  {
    var n := |s.pc|;
    StuckOnSignals(calls, s);
    StuckMeansNobodyWaits(calls, s);
    forall p | 0 <= p < n ensures s.departures[p] == s.arrivals[p] == calls == s.rounds {
      assert InRound(s, p) && WithinQuota(calls, s.pc[p], s.arrivals[p], s.departures[p])
             && Local(n, s.active, s.pc[p], s.arrivals[p], s.departures[p]) && !Enabled(calls, s, p);
    }
    TotalConst(s.arrivals, calls);
    TotalConst(s.departures, calls);
    forall m: Measure | m != Steps ensures Sum(m, n, s.pc) == 0 { SumZero(m, n, s.pc); }
    assert s.departures[0] == s.rounds;
  }

  /**
   No deadlock: an orderly run that cannot go on has taken every process through all its
   calls, one leader per round, and leaves the barrier clean.
   */
  lemma BarrierNeverDeadlocks(n: nat, calls: nat, sched: seq<nat>)
    requires 0 < n && ValidRun(calls, Init(n), sched) && Orderly(calls, Init(n), sched)
    requires Stuck(calls, Exec(calls, Init(n), sched))
    ensures AllReturned(calls, Exec(calls, Init(n), sched))
  {
    InitOrderly(n, calls);
    LedgerRun(calls, Init(n), sched);
    InRoundsRun(calls, Init(n), sched);
    StuckMeansReturned(calls, Exec(calls, Init(n), sched));
  }

  /** Steps any run from `s` can still take, at most. */
  ghost function Potential(calls: nat, s: State): int {
    (2 * |s.pc| + 16) * (|s.pc| * calls - Total(s.departures)) + Sum(Steps, |s.pc|, s.pc)
  }

  lemma StepsMove(calls: nat, s: State, p: nat)
    requires WellFormed(s) && Enabled(calls, s, p) && s.pc[p] != LeadDone && s.pc[p] != WaitDepart
    requires Local(|s.pc|, s.active, s.pc[p], s.arrivals[p], s.departures[p])
    ensures
      var t, n := Next(calls, s, p), |s.pc|;
      t.departures == s.departures && Weight(Steps, n, t.pc[p]) < Weight(Steps, n, s.pc[p])
  {
  }

  lemma DepartingMove(calls: nat, s: State, p: nat)
    requires WellFormed(s) && Enabled(calls, s, p) && (s.pc[p] == LeadDone || s.pc[p] == WaitDepart)
    ensures
      var t, n := Next(calls, s, p), |s.pc|;
      && Total(t.departures) == Total(s.departures) + 1
      && Weight(Steps, n, t.pc[p]) < Weight(Steps, n, s.pc[p]) + 2 * n + 16
  {
    TotalUpdate(s.departures, p, s.departures[p] + 1);
  }

  lemma PotentialDrops(calls: nat, s: State, p: nat)
    requires WellFormed(s) && Enabled(calls, s, p)
    requires Local(|s.pc|, s.active, s.pc[p], s.arrivals[p], s.departures[p])
    ensures Potential(calls, Next(calls, s, p)) < Potential(calls, s)
  {
    hide Next, Weight, Local, StepsLeft;
    StepSum(calls, s, p, Steps);
    if s.pc[p] == LeadDone || s.pc[p] == WaitDepart {
      DepartingMove(calls, s, p);
      OneLess(2 * |s.pc| + 16, |s.pc| * calls - Total(s.departures));
    } else {
      StepsMove(calls, s, p);
    }
  }

  lemma OneLess(a: nat, x: int)
    ensures a * (x - 1) == a * x - a
    ensures 0 <= x ==> 0 <= a * x
  {
  }

  lemma PotentialNonNegative(calls: nat, s: State)
    requires Ledger(s) && Quota(calls, s)
    ensures 0 <= Potential(calls, s)
  {
    forall p | 0 <= p < |s.pc| ensures s.departures[p] <= calls {
      assert Local(|s.pc|, s.active, s.pc[p], s.arrivals[p], s.departures[p])
             && WithinQuota(calls, s.pc[p], s.arrivals[p], s.departures[p]);
    }
    TotalTight(s.departures, calls);
    OneLess(2 * |s.pc| + 16, |s.pc| * calls - Total(s.departures));
  }

  /** Every run is finite: at most this many steps, however they are interleaved. */
  lemma {:induction false} BarrierTerminates(calls: nat, s: State, sched: seq<nat>)
    requires Ledger(s) && Quota(calls, s) && ValidRun(calls, s, sched)
    ensures |sched| <= Potential(calls, s)
    decreases |sched|
  {
    if sched == [] {
      PotentialNonNegative(calls, s);
    } else {
      assert Local(|s.pc|, s.active, s.pc[sched[0]], s.arrivals[sched[0]], s.departures[sched[0]]);
      PotentialDrops(calls, s, sched[0]);
      LedgerStep(calls, s, sched[0]);
      QuotaStep(calls, s, sched[0]);
      BarrierTerminates(calls, Next(calls, s, sched[0]), sched[1..]);
    }
  }

  /** From the initial state: at most 2n + 16 steps for each of the n * calls departures and 2n + 13 a process. */
  lemma RunsAreBounded(n: nat, calls: nat, sched: seq<nat>)
    requires 0 < n && ValidRun(calls, Init(n), sched)
    ensures |sched| <= (2 * n + 16) * (n * calls) + n * (2 * n + 13)
  {
    var s := Init(n);
    InitOrderly(n, calls);
    BarrierTerminates(calls, s, sched);
    TotalConst(s.departures, 0);
    SumConst(Steps, n, s.pc, Idle);
  }

  lemma {:induction false} SumConst(m: Measure, n: nat, pcs: seq<Pc>, c: Pc)
    requires forall p :: 0 <= p < |pcs| ==> pcs[p] == c
    ensures Sum(m, n, pcs) == |pcs| * Weight(m, n, c)
  {
    if pcs != [] {
      SumConst(m, n, pcs[1..], c);
      OneMore(|pcs| - 1, Weight(m, n, c));
    }
  }

  lemma OneMore(a: nat, x: nat)
    ensures (a + 1) * x == a * x + x
  {
  }

  // ---------- the table mutex, call by call ----------

  /** Coming back from a call is releasing the table mutex, held until then. */
  lemma ReturnsHoldingTable(calls: nat, s: State, p: nat)
    requires Ledger(s) && Enabled(calls, s, p) && Next(calls, s, p).pc[p] == Idle
    ensures s.table == 0 && Weight(TableHeld, |s.pc|, s.pc[p]) == 1 && Next(calls, s, p).table == s.table + 1
    ensures forall q :: 0 <= q < |s.pc| && q != p ==> Weight(TableHeld, |s.pc|, s.pc[q]) == 0
  {
    SumAtLeast(TableHeld, |s.pc|, s.pc, p);
    forall q | 0 <= q < |s.pc| && q != p ensures Weight(TableHeld, |s.pc|, s.pc[q]) == 0 {
      SumPair(TableHeld, |s.pc|, s.pc, p, q);
    }
  }

  /** How often process `p` takes the table mutex in a run, and how often it gives it back. */
  ghost function TableTakes(calls: nat, s: State, sched: seq<nat>, p: nat): (takes: nat)
    requires ValidRun(calls, s, sched)
    decreases |sched|
  {
    if sched == [] then 0
    else
      var t := Next(calls, s, sched[0]);
      (if sched[0] == p && t.table < s.table then 1 else 0) + TableTakes(calls, t, sched[1..], p)
  }

  ghost function TableReleases(calls: nat, s: State, sched: seq<nat>, p: nat): (releases: nat)
    requires ValidRun(calls, s, sched)
    decreases |sched|
  {
    if sched == [] then 0
    else
      var t := Next(calls, s, sched[0]);
      (if sched[0] == p && t.table > s.table then 1 else 0) + TableReleases(calls, t, sched[1..], p)
  }

  /** How many times more often than twice a departure a process has taken, or released, the table mutex. */
  function TakenMore(c: Pc): int {
    if c.RelockTable? then -1
    else if c.Idle? || c.LockTable? || c.UnlockTable? then 0
    else 1
  }

  function ReleasedMore(c: Pc): int { TakenMore(c) - Weight(TableHeld, 0, c) }

  lemma TakesMove(calls: nat, s: State, p: nat)
    requires WellFormed(s) && Enabled(calls, s, p)
    ensures var t := Next(calls, s, p);
      (if t.table < s.table then 1 else 0)
      == 2 * (t.departures[p] - s.departures[p]) + TakenMore(t.pc[p]) - TakenMore(s.pc[p])
  {
  }

  lemma ReleasesMove(calls: nat, s: State, p: nat)
    requires WellFormed(s) && Enabled(calls, s, p)
    ensures var t := Next(calls, s, p);
      (if t.table > s.table then 1 else 0)
      == 2 * (t.departures[p] - s.departures[p]) + ReleasedMore(t.pc[p]) - ReleasedMore(s.pc[p])
  {
  }

  lemma OthersStay(calls: nat, s: State, p: nat, q: nat)
    requires WellFormed(s) && Enabled(calls, s, p) && q < |s.pc| && q != p
    ensures var t := Next(calls, s, p); t.pc[q] == s.pc[q] && t.departures[q] == s.departures[q]
  {
  }

  lemma {:induction false} TableHistory(calls: nat, s: State, sched: seq<nat>, p: nat)
    requires ValidRun(calls, s, sched) && p < |s.pc|
    ensures var t := Exec(calls, s, sched);
      && TableTakes(calls, s, sched, p)
         == 2 * (t.departures[p] - s.departures[p]) + TakenMore(t.pc[p]) - TakenMore(s.pc[p])
      && TableReleases(calls, s, sched, p)
         == 2 * (t.departures[p] - s.departures[p]) + ReleasedMore(t.pc[p]) - ReleasedMore(s.pc[p])
    decreases |sched|
  {
    hide Next, TakenMore, ReleasedMore, Enabled;
    if sched != [] {
      TableHistory(calls, Next(calls, s, sched[0]), sched[1..], p);
      if sched[0] == p {
        TakesMove(calls, s, p);
        ReleasesMove(calls, s, p);
      } else {
        OthersStay(calls, s, sched[0], p);
      }
    }
  }

  /** In any run, a process that is back has taken and released the table mutex twice a call, leader or not. */
  lemma EveryCallRetakesTable(n: nat, calls: nat, sched: seq<nat>, p: nat)
    requires 0 < n && ValidRun(calls, Init(n), sched) && p < n
    requires Exec(calls, Init(n), sched).pc[p] == Idle
    ensures var done := Exec(calls, Init(n), sched).departures[p];
      TableTakes(calls, Init(n), sched, p) == TableReleases(calls, Init(n), sched, p) == 2 * done
  {
    TableHistory(calls, Init(n), sched, p);
  }
}
