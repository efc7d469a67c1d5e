/**
  Runs of the worker pool that never end. In every one of them in which neither the dispatcher nor a
  worker is passed over for ever, an update that was handed to the worker is processed; and in every
  one in which the mutex is fair as well, the dispatcher is done with every update, or gets stuck.
 */
module WorkerFairness {
  import opened Wrappers
  import opened Sequences
  import opened WorkerPool

  type Run = nat -> State
  type Schedule = nat -> Event

  ghost predicate IsRun(run: Run, schedule: Schedule) {
    Init(run(0)) && forall n: nat :: Next(run(n), schedule(n)) == Some(run(n + 1))
  }

  predicate Enabled(s: State, e: Event) {
    Next(s, e).Some?
  }

  ghost predicate AlwaysEnabled(run: Run, n: nat, e: Event) {
    forall m: nat :: n <= m ==> Enabled(run(m), e)
  }

  ghost predicate TakenAfter(schedule: Schedule, n: nat, e: Event) {
    exists m: nat :: n <= m && schedule(m) == e
  }

  /** A step that can be taken from some point on, whatever the others do, is taken. */
  ghost predicate WeaklyFair(run: Run, schedule: Schedule, e: Event) {
    forall n: nat :: AlwaysEnabled(run, n, e) ==> TakenAfter(schedule, n, e)
  }

  lemma {:induction false} AlwaysInv(run: Run, schedule: Schedule, n: nat)
    requires IsRun(run, schedule)
    ensures Inv(run(n)) && |run(n).workers| == |run(0).workers|
  {
    if n == 0 {
      InitInv(run(0));
    } else {
      AlwaysInv(run, schedule, n - 1);
      NextKeeps(run(n - 1), schedule(n - 1), run(n));
    }
  }

  // ----- one step, seen from a worker with an update -----

  predicate Pending(s: State, i: nat) {
    i < |s.workers| && s.workers[i].hasUpdate
  }

  /** The worker, and what the dispatcher does with it, are as they were. */
  predicate Same(s: State, t: State, i: nat)
    requires i < |s.workers| && i < |t.workers|
  {
    t.workers[i] == s.workers[i] && StageOf(t.dispatcher, i) == StageOf(s.dispatcher, i)
  }

  predicate Done(s: State, t: State, i: nat)
    requires i < |s.workers| && i < |t.workers|
  {
    t.workers[i].processed == s.workers[i].processed + [s.workers[i].update]
  }

  predicate Closer(s: State, t: State, i: nat)
    requires i < |s.workers| && i < |t.workers|
  {
    var w, v := s.workers[i], t.workers[i];
    v.hasUpdate && v.update == w.update && v.processed == w.processed &&
    Distance(v, StageOf(t.dispatcher, i)) < Distance(w, StageOf(s.dispatcher, i))
  }

  lemma WorkMoves(w: Worker, isPrimary: bool, stage: Stage, onStack: bool)
    requires WorkerOk(w, isPrimary, stage, onStack) && w.hasUpdate && WorkerStep(w, isPrimary).Some?
    ensures var v := WorkerStep(w, isPrimary).value;
      if w.pc.Handling? then v.processed == w.processed + [w.update]
      else v.hasUpdate && v.update == w.update && v.processed == w.processed && Distance(v, stage) < Distance(w, stage)
  {
    HelpfulWorks(w, isPrimary, stage, onStack, 0);
  }

  lemma TimeoutMoves(w: Worker, stage: Stage)
    requires w.hasUpdate && TimeoutStep(w).Some?
    ensures var v := TimeoutStep(w).value;
      v.hasUpdate && v.update == w.update && v.processed == w.processed && Distance(v, stage) < Distance(w, stage)
  {}

  lemma DispatchMoves(w: Worker, isPrimary: bool, stage: Stage, onStack: bool, u: Update)
    requires WorkerOk(w, isPrimary, stage, onStack) && w.hasUpdate && DispatchStep(stage, w, u).Some?
    ensures var (next, v) := DispatchStep(stage, w, u).value;
      v.hasUpdate && v.update == w.update && v.processed == w.processed && Distance(v, next) < Distance(w, stage)
  {}

  lemma NotPopped(s: State, i: nat)
    requires Inv(s) && Pending(s, i)
    ensures i !in s.primary && i !in s.extra
  {
    assert WorkerOk(s.workers[i], i < s.concurrency, StageOf(s.dispatcher, i), OnStack(s, i));
  }

  /** Every step leaves the worker as it is, or brings the end of its update closer, or is the end. */
  lemma EveryStepHelps(s: State, e: Event, t: State, i: nat)
    requires Inv(s) && Pending(s, i) && Next(s, e) == Some(t)
    ensures i < |t.workers| && (Same(s, t, i) || Closer(s, t, i) || Done(s, t, i))
  {
    hide WorkerOk, WorkerStep, TimeoutStep, DispatchStep, Distance, Distinct, Within;
    var w, stage := s.workers[i], StageOf(s.dispatcher, i);
    assert WorkerOk(w, i < s.concurrency, stage, OnStack(s, i));
    NotPopped(s, i);
    if e == Work(i) {
      WorkMoves(w, i < s.concurrency, stage, OnStack(s, i));
    } else if e == Timeout(i) {
      TimeoutMoves(w, stage);
    } else if e.Dispatch? && s.dispatcher.At? && s.dispatcher.i == i {
      DispatchMoves(w, i < s.concurrency, stage, OnStack(s, i), s.dispatcher.update);
    }
  }

  /** There is always someone whose turn it is, and whose step makes a difference. */
  lemma SomeoneHelps(s: State, i: nat)
    requires Inv(s) && Pending(s, i)
    ensures var e := Helpful(s.workers[i], StageOf(s.dispatcher, i), i);
      (e == Dispatch || e == Work(i)) && Enabled(s, e)
  {
    hide WorkerOk, WorkerStep, DispatchStep, Distance, Distinct, Within;
    var w, stage := s.workers[i], StageOf(s.dispatcher, i);
    assert WorkerOk(w, i < s.concurrency, stage, OnStack(s, i));
    if Helpful(w, stage, i).Work? {
      HelpfulWorks(w, i < s.concurrency, stage, OnStack(s, i), i);
    } else {
      HelpfulDispatches(w, i < s.concurrency, stage, OnStack(s, i), UpdateOf(s.dispatcher), i);
    }
  }

  lemma HelpMakesADifference(s: State, t: State, i: nat)
    requires Inv(s) && Pending(s, i) && Next(s, Helpful(s.workers[i], StageOf(s.dispatcher, i), i)) == Some(t)
    ensures i < |t.workers| && !Same(s, t, i)
  {
    hide WorkerOk, WorkerStep, DispatchStep, Distinct, Within;
    var w, stage := s.workers[i], StageOf(s.dispatcher, i);
    assert WorkerOk(w, i < s.concurrency, stage, OnStack(s, i));
    if Helpful(w, stage, i).Work? {
      HelpfulWorks(w, i < s.concurrency, stage, OnStack(s, i), i);
    } else {
      HelpfulDispatches(w, i < s.concurrency, stage, OnStack(s, i), UpdateOf(s.dispatcher), i);
    }
  }

  // ----- runs -----

  ghost predicate Fair(run: Run, schedule: Schedule, i: nat) {
    IsRun(run, schedule) && WeaklyFair(run, schedule, Dispatch) && WeaklyFair(run, schedule, Work(i))
  }

  /** Things do not stay as they are. */
  lemma NotForEver(run: Run, schedule: Schedule, n: nat, i: nat) returns (m: nat)
    requires Fair(run, schedule, i) && Pending(run(n), i)
    ensures n < m && i < |run(m).workers| && !Same(run(n), run(m), i)
  {
    hide Inv, Init, Next, Same;
    AlwaysInv(run, schedule, n);
    forall k: nat
      ensures i < |run(k).workers|
    {
      AlwaysInv(run, schedule, k);
    }
    var e := Helpful(run(n).workers[i], StageOf(run(n).dispatcher, i), i);
    SameIsSame(run(n), i);
    if forall k: nat :: n <= k ==> Same(run(n), run(k), i) {
      SomeoneHelps(run(n), i);
      forall k: nat | n <= k
        ensures Enabled(run(k), e)
      {
        AlwaysInv(run, schedule, k);
        SameHelp(run(n), run(k), i);
        SomeoneHelps(run(k), i);
      }
      assert AlwaysEnabled(run, n, e);
      assert TakenAfter(schedule, n, e);
      var k: nat :| n <= k && schedule(k) == e;
      AlwaysInv(run, schedule, k);
      SameHelp(run(n), run(k), i);
      HelpMakesADifference(run(k), run(k + 1), i);
      SameTwice(run(n), run(k), run(k + 1), i);
      assert false;
    }
    m :| n <= m && !Same(run(n), run(m), i);
  }

  lemma SameIsSame(s: State, i: nat)
    requires i < |s.workers|
    ensures Same(s, s, i)
  {}

  lemma SameHelp(s: State, t: State, i: nat)
    requires i < |s.workers| && i < |t.workers| && Same(s, t, i) && Pending(s, i)
    ensures Pending(t, i)
    ensures Helpful(t.workers[i], StageOf(t.dispatcher, i), i) == Helpful(s.workers[i], StageOf(s.dispatcher, i), i)
  {}

  lemma SameTwice(s: State, t: State, u: State, i: nat)
    requires i < |s.workers| && i < |t.workers| && i < |u.workers| && Same(s, t, i) && Same(s, u, i)
    ensures Same(t, u, i)
  {}

  /** The first point at which things are not as they were. */
  lemma {:induction false} FirstChange(run: Run, n: nat, m: nat, i: nat) returns (k: nat)
    requires n < m && i < |run(0).workers|
    requires forall j: nat :: |run(j).workers| == |run(0).workers|
    requires !Same(run(n), run(m), i)
    ensures n <= k < m && Same(run(n), run(k), i) && !Same(run(n), run(k + 1), i)
    decreases m
  {
    hide Same;
    SameIsSame(run(n), i);
    if m == n + 1 || Same(run(n), run(m - 1), i) {
      k := m - 1;
    } else {
      k := FirstChange(run, n, m - 1, i);
    }
  }

  /** An update that was handed to a worker is processed in every fair run. */
  lemma {:induction false} EventuallyProcessed(run: Run, schedule: Schedule, n: nat, i: nat) returns (m: nat)
    requires Fair(run, schedule, i) && Pending(run(n), i)
    ensures n < m && i < |run(m).workers|
    ensures run(m).workers[i].processed == run(n).workers[i].processed + [run(n).workers[i].update]
    decreases Distance(run(n).workers[i], StageOf(run(n).dispatcher, i))
  {
    hide Inv, Init, Next, Distance;
    forall k: nat
      ensures |run(k).workers| == |run(0).workers|
    {
      AlwaysInv(run, schedule, k);
    }
    var changed := NotForEver(run, schedule, n, i);
    var k := FirstChange(run, n, changed, i);
    AlwaysInv(run, schedule, k);
    EveryStepHelps(run(k), schedule(k), run(k + 1), i);
    if Done(run(k), run(k + 1), i) {
      m := k + 1;
    } else {
      m := EventuallyProcessed(run, schedule, k + 1, i);
    }
  }

  // ----- the dispatcher in fair runs -----

  /** A step that can be taken again and again is taken. */
  ghost predicate StronglyFair(run: Run, schedule: Schedule, e: Event) {
    forall n: nat :: EnabledAgain(run, n, e) ==> TakenAfter(schedule, n, e)
  }

  ghost predicate EnabledAgain(run: Run, n: nat, e: Event) {
    forall m: nat :: n <= m ==> EnabledAfter(run, m, e)
  }

  ghost predicate EnabledAfter(run: Run, m: nat, e: Event) {
    exists k: nat :: m <= k && Enabled(run(k), e)
  }

  ghost predicate FairToDispatcher(run: Run, schedule: Schedule, i: nat) {
    IsRun(run, schedule) && StronglyFair(run, schedule, Dispatch) && WeaklyFair(run, schedule, Work(i))
  }

  predicate Busy(s: State, i: nat) {
    s.dispatcher.At? && s.dispatcher.i == i < |s.workers|
  }

  function Rank(stage: Stage): nat {
    match stage
    case Nothing => 0
    case Popped => 8
    case Sent => 7
    case SawOffline => 6
    case Joining => 5
    case Spawning => 4
    case Created => 3
    case Assigned => 2
    case Settling => 1
  }

  /** While the dispatcher is busy, only its own step changes what it does, and that goes forward. */
  lemma BusyStep(s: State, e: Event, t: State, i: nat)
    requires Inv(s) && Busy(s, i) && Next(s, e) == Some(t)
    ensures if e.Dispatch?
      then t.dispatcher.Idle? || (Busy(t, i) && Rank(t.dispatcher.stage) < Rank(s.dispatcher.stage))
      else t.dispatcher == s.dispatcher && |t.workers| == |s.workers|
  {
    hide Inv, WorkerStep, TimeoutStep;
  }

  /** While it is blocked and not stuck, its worker can make a step, and only that step changes the worker. */
  lemma BlockedStep(s: State, e: Event, t: State, i: nat)
    requires Inv(s) && Busy(s, i) && !Stuck(s) && !Enabled(s, Dispatch) && Next(s, e) == Some(t)
    ensures Enabled(s, Work(i)) && Busy(t, i) && t.dispatcher == s.dispatcher && t.concurrency == s.concurrency
    ensures if e == Work(i)
      then Remaining(t.workers[i], t.dispatcher.stage) < Remaining(s.workers[i], s.dispatcher.stage)
      else t.workers[i] == s.workers[i]
  {
    hide WorkerOk, WorkerStep, TimeoutStep, DispatchStep, Remaining, Doomed, OnStack, Distinct, Within;
    var w, stage := s.workers[i], s.dispatcher.stage;
    assert WorkerOk(w, i < s.concurrency, stage, OnStack(s, i));
    DispatcherWaits(w, i < s.concurrency, stage, OnStack(s, i), s.dispatcher.update);
    NoTimeout(w, i < s.concurrency, stage, OnStack(s, i), s.dispatcher.update);
  }

  lemma NoTimeout(w: Worker, isPrimary: bool, stage: Stage, onStack: bool, u: Update)
    requires WorkerOk(w, isPrimary, stage, onStack) && !stage.Nothing? && DispatchStep(stage, w, u).None?
    ensures TimeoutStep(w).None?
  {}

  /** The first time from some point on that a step is taken. */
  lemma {:induction false} FirstTaken(schedule: Schedule, n: nat, m: nat, e: Event) returns (k: nat)
    requires n <= m && schedule(m) == e
    ensures n <= k <= m && schedule(k) == e && forall j: nat :: n <= j < k ==> schedule(j) != e
    decreases m - n
  {
    if schedule(n) == e {
      return n;
    }
    k := FirstTaken(schedule, n + 1, m, e);
  }

  /** A dispatcher that gets no turn stays where it is. */
  lemma {:induction false} StaysBusy(run: Run, schedule: Schedule, n: nat, m: nat, i: nat)
    requires IsRun(run, schedule) && Busy(run(n), i) && n <= m
    requires forall j: nat :: n <= j < m ==> schedule(j) != Dispatch
    ensures Busy(run(m), i) && run(m).dispatcher == run(n).dispatcher
    decreases m
  {
    hide Inv, Init, Next;
    if n < m {
      StaysBusy(run, schedule, n, m - 1, i);
      AlwaysInv(run, schedule, m - 1);
      BusyStep(run(m - 1), schedule(m - 1), run(m), i);
    }
  }

  predicate Blocked(s: State, i: nat) {
    Busy(s, i) && !Stuck(s) && !Enabled(s, Dispatch)
  }

  lemma StillBlocked(s: State, t: State, i: nat)
    requires Blocked(s, i) && Busy(t, i) && t.concurrency == s.concurrency
    requires t.dispatcher == s.dispatcher && t.workers[i] == s.workers[i]
    ensures Blocked(t, i)
  {}

  /** A blocked dispatcher whose worker gets no turn stays blocked. */
  lemma {:induction false} StaysBlocked(run: Run, schedule: Schedule, n: nat, m: nat, i: nat)
    requires IsRun(run, schedule) && Blocked(run(n), i) && n <= m
    requires forall j: nat :: n <= j < m ==> schedule(j) != Work(i)
    ensures Blocked(run(m), i) && Enabled(run(m), Work(i))
    ensures run(m).dispatcher == run(n).dispatcher && run(m).workers[i] == run(n).workers[i]
    decreases m
  {
    hide Inv, Init, Next, Enabled, Stuck;
    if n < m {
      StaysBlocked(run, schedule, n, m - 1, i);
      AlwaysInv(run, schedule, m - 1);
      BlockedStep(run(m - 1), schedule(m - 1), run(m), i);
      StillBlocked(run(m - 1), run(m), i);
    }
    AlwaysInv(run, schedule, m);
    BlockedStep(run(m), schedule(m), run(m + 1), i);
  }

  /** A blocked dispatcher does not remain so, unless it is stuck. */
  lemma {:induction false} Unblocked(run: Run, schedule: Schedule, n: nat, i: nat) returns (m: nat)
    requires FairToDispatcher(run, schedule, i) && Busy(run(n), i)
    ensures n <= m && !Blocked(run(m), i) && Busy(run(m), i) && run(m).dispatcher == run(n).dispatcher
    decreases Remaining(run(n).workers[i], run(n).dispatcher.stage)
  {
    hide Inv, Init, Next, Enabled, Stuck, Remaining;
    if !Blocked(run(n), i) {
      return n;
    }
    if !TakenAfter(schedule, n, Work(i)) {
      assert !AlwaysEnabled(run, n, Work(i));
      var k: nat :| n <= k && !Enabled(run(k), Work(i));
      StaysBlocked(run, schedule, n, k, i);
      assert false;
    }
    var taken: nat :| n <= taken && schedule(taken) == Work(i);
    var k := FirstTaken(schedule, n, taken, Work(i));
    StaysBlocked(run, schedule, n, k, i);
    AlwaysInv(run, schedule, k);
    BlockedStep(run(k), schedule(k), run(k + 1), i);
    m := Unblocked(run, schedule, k + 1, i);
  }

  /** The dispatcher gets a turn, or gets stuck. */
  lemma GetsATurn(run: Run, schedule: Schedule, n: nat, i: nat) returns (m: nat)
    requires FairToDispatcher(run, schedule, i) && Busy(run(n), i)
    ensures n <= m && Busy(run(m), i) && run(m).dispatcher == run(n).dispatcher
    ensures Stuck(run(m)) || schedule(m) == Dispatch
  {
    hide Inv, Init, Next, Enabled, Stuck;
    if TakenAfter(schedule, n, Dispatch) {
      var taken: nat :| n <= taken && schedule(taken) == Dispatch;
      m := FirstTaken(schedule, n, taken, Dispatch);
      StaysBusy(run, schedule, n, m, i);
      return;
    }
    assert !EnabledAgain(run, n, Dispatch);
    var k: nat :| n <= k && !EnabledAfter(run, k, Dispatch);
    StaysBusy(run, schedule, n, k, i);
    m := Unblocked(run, schedule, k, i);
  }

  /**
    In a run that is fair to the dispatcher and to the worker it deals with, it is done with that worker
    some time, unless it gets stuck.
   */
  lemma {:induction false} EventuallyIdle(run: Run, schedule: Schedule, n: nat, i: nat) returns (m: nat)
    requires FairToDispatcher(run, schedule, i) && Busy(run(n), i)
    ensures n <= m && (run(m).dispatcher.Idle? || Stuck(run(m)))
    decreases Rank(run(n).dispatcher.stage)
  {
    hide Inv, Init, Next, Enabled, Stuck, Rank;
    m := GetsATurn(run, schedule, n, i);
    if !Stuck(run(m)) {
      AlwaysInv(run, schedule, m);
      BusyStep(run(m), schedule(m), run(m + 1), i);
      if run(m + 1).dispatcher.Idle? {
        return m + 1;
      }
      m := EventuallyIdle(run, schedule, m + 1, i);
    }
  }

  ghost predicate FairToAll(run: Run, schedule: Schedule) {
    && IsRun(run, schedule) && StronglyFair(run, schedule, Dispatch)
    && forall i: nat :: WeaklyFair(run, schedule, Work(i))
  }

  lemma {:induction false} StaysNoPrimary(run: Run, schedule: Schedule, n: nat, m: nat)
    requires IsRun(run, schedule) && run(n).dispatcher.NoPrimary? && n <= m
    requires forall j: nat :: n <= j < m ==> schedule(j) != Dispatch
    ensures run(m).dispatcher.NoPrimary? && Enabled(run(m), Dispatch)
    decreases m
  {
    hide Init, WorkerStep, TimeoutStep, DispatchStep;
    if n < m {
      StaysNoPrimary(run, schedule, n, m - 1);
      assert Next(run(m - 1), schedule(m - 1)) == Some(run(m));
    }
  }

  /** Whatever the dispatcher is doing with an update, in a fair run it is done some time, unless it gets stuck. */
  lemma EventuallyDispatched(run: Run, schedule: Schedule, n: nat) returns (m: nat)
    requires FairToAll(run, schedule)
    ensures n <= m && (run(m).dispatcher.Idle? || Stuck(run(m)))
  {
    hide Init, Next, Inv, Stuck, WorkerOk;
    m := n;
    if run(n).dispatcher.NoPrimary? {
      if !TakenAfter(schedule, n, Dispatch) {
        assert !EnabledAgain(run, n, Dispatch);
        var k: nat :| n <= k && !EnabledAfter(run, k, Dispatch);
        StaysNoPrimary(run, schedule, n, k);
        assert false;
      }
      var taken: nat :| n <= taken && schedule(taken) == Dispatch;
      var k := FirstTaken(schedule, n, taken, Dispatch);
      StaysNoPrimary(run, schedule, n, k);
      LeavesNoPrimary(run(k), run(k + 1));
      m := k + 1;
    }
    AlwaysInv(run, schedule, m);
    if run(m).dispatcher.At? {
      var i := run(m).dispatcher.i;
      BusyInRange(run(m));
      m := EventuallyIdle(run, schedule, m, i);
    }
  }

  lemma LeavesNoPrimary(s: State, t: State)
    requires s.dispatcher.NoPrimary? && Next(s, Dispatch) == Some(t)
    ensures !t.dispatcher.NoPrimary?
  {}

  lemma BusyInRange(s: State)
    requires Inv(s) && s.dispatcher.At?
    ensures Busy(s, s.dispatcher.i)
  {}

  // ----- the mutex has to be fair -----

  /** A primary worker that times out again and again. */
  function StarvingWorker(n: nat): Worker {
    if n <= 1 then SPAWNED
    else if n == 2 then SPAWNED.(pc := Ready)
    else if n % 3 == 0 then SPAWNED.(pc := Checking, lock := ByWorker)
    else if n % 3 == 1 then SPAWNED.(pc := Waiting)
    else SPAWNED.(pc := Woken(false), lock := ByWorker)
  }

  function Starving(n: nat): State {
    var workers := seq(100, i => if i == 0 then StarvingWorker(n) else CONSTRUCTED);
    if n == 0 then State(workers, 1, [0], Descending(1, 100), Idle, [])
    else State(workers, 1, [], Descending(1, 100), At(Popped, 0, 0), [])
  }

  function StarvingStep(n: nat): Event {
    if n == 0 then Arrive(0) else if 3 < n && n % 3 == 1 then Timeout(0) else Work(0)
  }

  lemma StarvingIsRun()
    ensures IsRun(Starving, StarvingStep)
  {
    assert Starving(0).primary == Descending(0, 1);
    forall n: nat
      ensures Next(Starving(n), StarvingStep(n)) == Some(Starving(n + 1))
    {
      var s, t := Starving(n), Starving(n + 1);
      if n == 0 {
        assert s.workers == t.workers;
      } else {
        assert s.workers[0 := StarvingWorker(n + 1)] == t.workers;
      }
    }
  }

  /**
    Weak fairness to the dispatcher is not enough: it can wait for the mutex for ever while the worker
    takes it after every timeout.
   */
  lemma WeakIsNotEnough()
    ensures IsRun(Starving, StarvingStep) && WeaklyFair(Starving, StarvingStep, Dispatch)
    ensures forall i: nat :: WeaklyFair(Starving, StarvingStep, Work(i))
    ensures forall n: nat :: 0 < n ==> Starving(n).dispatcher == At(Popped, 0, 0)
  {
    hide IsRun;
    StarvingIsRun();
    forall n: nat
      ensures !AlwaysEnabled(Starving, n, Dispatch)
    {
      assert !Enabled(Starving(3 * n + 3), Dispatch);
    }
    forall n: nat, i: nat
      ensures AlwaysEnabled(Starving, n, Work(i)) ==> TakenAfter(StarvingStep, n, Work(i))
    {
      if i == 0 {
        assert StarvingStep(3 * n + 3) == Work(0);
      } else {
        assert !Enabled(Starving(n), Work(i));
      }
    }
  }
}
