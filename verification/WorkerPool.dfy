/**
  The worker pool as a protocol of steps: one dispatcher hands updates to workers, which wait for
  them under a mutex of their own, time out when nothing comes, and are resurrected when they are
  needed (Worker.cpp, Worker.hpp, Main.cpp).

  A step is what a thread does between two points where others can interfere: a critical section, or
  one access to a flag outside of the mutex. Nobody closes a worker.
 */
module WorkerPool {
  import opened Wrappers
  import opened Sequences

  type Update = nat

  /** How often an extra worker waits in vain before it leaves. */
  const MAX_TIMEOUT_COUNT: nat := 20

  // ----- states -----

  /** Where the thread of a worker is. */
  datatype Pc =
    | Absent     // there is no thread, or it has returned
    | Starting   // the thread was created
    | Unstopped  // stopEventLoop_ was reset
    | Announced  // isOnline_ was set; now it waits until thread_ is set
    | Ready      // about to enter runWorker
    | Checking   // at the top of the event loop
    | Waiting    // in waitForEvent
    | Woken(event: bool)
    | Handling
    | Handled    // hasUpdate_ was reset; not back on its stack yet
    | Leaving    // out of the event loop
    | Left       // isOnline_ was reset

  datatype Lock = Free | ByWorker | ByDispatcher

  datatype Worker = Worker(
    pc: Pc, lock: Lock, hasThread: bool, online: bool, stop: bool, hasUpdate: bool, update: Update, timeouts: nat,
    handed: seq<Update>, processed: seq<Update>)

  /** How far the dispatcher is with a worker. */
  datatype Stage =
    | Nothing | Popped | Sent | SawOffline | Joining | Spawning
    | Created   // the thread runs, thread_ is not set
    | Assigned  // thread_ is set
    | Settling  // waiting until the thread is online

  datatype Dispatcher = Idle | NoPrimary(update: Update) | At(stage: Stage, update: Update, i: nat)

  datatype State = State(
    workers: seq<Worker>, concurrency: nat, primary: seq<nat>, extra: seq<nat>, dispatcher: Dispatcher,
      dropped: seq<Update>)

  function HasEvent(w: Worker): bool {
    w.hasUpdate || w.stop
  }

  // ----- steps of a worker -----

  /** The next step of the thread, if it is not blocked. */
  function WorkerStep(w: Worker, isPrimary: bool): Option<Worker> {
    match w.pc
    case Absent => None
    case Starting => Some(w.(stop := false, pc := Unstopped))
    case Unstopped => Some(w.(online := true, pc := Announced))
    case Announced => if w.lock.Free? && w.hasThread then Some(w.(pc := Ready)) else None
    case Ready => if w.lock.Free? then Some(w.(lock := ByWorker, timeouts := 0, pc := Checking)) else None
    case Checking =>
      if w.stop then Some(w.(pc := Leaving))
      else if HasEvent(w) then Some(w.(pc := Woken(true)))
      else Some(w.(lock := Free, pc := Waiting))
    case Waiting => if w.lock.Free? && HasEvent(w) then Some(w.(lock := ByWorker, pc := Woken(true))) else None
    case Woken(event) =>
      if !event then
        if isPrimary then Some(w.(pc := Checking))
        else if w.timeouts + 1 < MAX_TIMEOUT_COUNT then Some(w.(timeouts := w.timeouts + 1, pc := Checking))
        else Some(w.(timeouts := w.timeouts + 1, stop := true, pc := Leaving))
      else if w.stop then Some(w.(pc := Leaving))
      else Some(w.(pc := Handling))
    case Handling => Some(w.(processed := w.processed + [w.update], hasUpdate := false, pc := Handled))
    case Handled => Some(w.(timeouts := if isPrimary then w.timeouts else 0, pc := Checking))
    case Leaving => Some(w.(online := false, pc := Left))
    case Left => Some(w.(lock := Free, pc := Absent))
  }

  /** Waiting has taken ten seconds. */
  function TimeoutStep(w: Worker): Option<Worker> {
    if w.pc.Waiting? && w.lock.Free? then Some(w.(lock := ByWorker, pc := Woken(HasEvent(w)))) else None
  }

  // ----- steps of the dispatcher -----

  /** The dispatcher's next step with a worker: what becomes of both; at stage Nothing it is done. */
  function DispatchStep(stage: Stage, w: Worker, u: Update): Option<(Stage, Worker)> {
    match stage
    case Nothing => None
    case Popped =>
      if w.lock.Free? then Some((Sent, w.(update := u, hasUpdate := true, handed := w.handed + [u]))) else None
    case Sent => Some((if w.online then Nothing else SawOffline, w))
    case SawOffline => Some((if w.online then Nothing else if w.hasThread then Joining else Spawning, w))
    case Joining => if w.pc.Absent? then Some((Spawning, w.(hasThread := false))) else None
    case Spawning => if w.lock.Free? then Some((Created, w.(lock := ByDispatcher, pc := Starting))) else None
    case Created => Some((Assigned, w.(hasThread := true)))
    case Assigned => Some((if w.online then Nothing else Settling, w.(lock := Free)))
    case Settling => if w.online && w.lock.Free? then Some((Nothing, w)) else None
  }

  // ----- steps of the system -----

  datatype Event = Arrive(update: Update) | Dispatch | Work(i: nat) | Timeout(i: nat)

  function Top(s: seq<nat>): nat requires s != [] { s[|s| - 1] }

  function Next(s: State, e: Event): Option<State> {
    match e
    case Arrive(u) =>
      if !s.dispatcher.Idle? then None
      else if s.primary == [] then Some(s.(dispatcher := NoPrimary(u)))
      else Some(s.(primary := s.primary[..|s.primary| - 1], dispatcher := At(Popped, u, Top(s.primary))))
    case Dispatch =>
      (match s.dispatcher
       case Idle => None
       case NoPrimary(u) =>
         if s.extra == [] then Some(s.(dispatcher := Idle, dropped := s.dropped + [u]))
         else Some(s.(extra := s.extra[..|s.extra| - 1], dispatcher := At(Popped, u, Top(s.extra))))
       case At(stage, u, i) =>
         if i < |s.workers| then
           var step := DispatchStep(stage, s.workers[i], u);
           if step.None? then None
           else Some(s.(workers := s.workers[i := step.value.1],
                        dispatcher := if step.value.0.Nothing? then Idle else At(step.value.0, u, i)))
         else None)
    case Work(i) =>
      if i < |s.workers| then
        var step := WorkerStep(s.workers[i], i < s.concurrency);
        if step.None? then None
        else
          var t := s.(workers := s.workers[i := step.value]);
          if !s.workers[i].pc.Handled? then Some(t)
          else if i < s.concurrency then Some(t.(primary := s.primary + [i]))
          else Some(t.(extra := s.extra + [i]))
      else None
    case Timeout(i) =>
      if i < |s.workers| then
        var step := TimeoutStep(s.workers[i]);
        if step.None? then None else Some(s.(workers := s.workers[i := step.value]))
      else None
  }

  // ----- the invariant -----

  /** The thread has the mutex. */
  predicate InSection(pc: Pc) {
    pc.Checking? || pc.Woken? || pc.Handling? || pc.Handled? || pc.Leaving? || pc.Left?
  }

  predicate InLoop(pc: Pc) {
    pc.Announced? || pc.Ready? || pc.Checking? || pc.Waiting? || pc.Woken? || pc.Handling? || pc.Handled?
  }

  /** Where a worker is to be found, with the dispatcher at this stage of dealing with it. */
  predicate WorkerOk(w: Worker, isPrimary: bool, stage: Stage, onStack: bool) {
    // who has the mutex
    && (w.lock.ByWorker? <==> InSection(w.pc)) && (w.lock.ByDispatcher? <==> stage.Created? || stage.Assigned?)
    // the flags tell where the thread is
    && (w.online <==> InLoop(w.pc) || w.pc.Leaving?)
    && (w.stop <==> w.pc.Absent? || w.pc.Starting? || w.pc.Leaving? || w.pc.Left?)
    && (w.pc.Starting? || w.pc.Unstopped? ==> stage.Created? || stage.Assigned? || stage.Settling?)
    && (stage.Spawning? ==> w.pc.Absent? && !w.hasThread)
    && (stage.Joining? ==> w.pc.Absent? || w.pc.Left?)
    && (stage.Created? ==> w.pc.Starting? || w.pc.Unstopped? || w.pc.Announced?)
    && (stage.Assigned? ==> w.hasThread && (w.pc.Starting? || w.pc.Unstopped? || w.pc.Announced?))
    && (!w.pc.Absent? && !stage.Created? ==> w.hasThread)
    // a primary worker stays
    && (isPrimary ==> InLoop(w.pc))
    && (w.pc.Waiting? || (w.online && InSection(w.pc) && !w.pc.Leaving?) ==>
      w.timeouts < MAX_TIMEOUT_COUNT || isPrimary)
    // no update gets lost, and none is handled twice
    && w.handed == w.processed + (if w.hasUpdate then [w.update] else [])
    && (w.hasUpdate ==> !stage.Popped? && !w.pc.Handled? && !w.pc.Leaving? && !w.pc.Left? && w.pc != Woken(false))
    && (stage.Popped? ==> !w.pc.Handled?)
    && (w.pc.Handling? || w.pc == Woken(true) ==> w.hasUpdate)
    && (stage.Settling? && w.pc.Absent? ==> !w.hasUpdate)
    && (w.hasUpdate && !w.online ==>
          stage.Sent? || stage.SawOffline? || stage.Joining? || stage.Spawning? || stage.Created? || stage.Assigned? ||
            stage.Settling?)
    // on the stack exactly while free
    && (onStack <==> !w.hasUpdate && !stage.Popped? && !w.pc.Handled?)
  }

  function UpdateOf(d: Dispatcher): Update {
    if d.At? then d.update else 0
  }

  function StageOf(d: Dispatcher, i: nat): Stage {
    if d.At? && d.i == i then d.stage else Nothing
  }

  predicate OnStack(s: State, i: nat) {
    if i < s.concurrency then i in s.primary else i in s.extra
  }

  predicate Within(s: seq<nat>, lo: nat, hi: nat) {
    forall k :: 0 <= k < |s| ==> lo <= s[k] < hi
  }

  ghost predicate Inv(s: State) {
    && s.concurrency <= |s.workers| &&
      (s.dispatcher.At? ==> s.dispatcher.i < |s.workers| && !s.dispatcher.stage.Nothing?)
    && Distinct(s.primary) && Within(s.primary, 0, s.concurrency)
    && Distinct(s.extra) && Within(s.extra, s.concurrency, |s.workers|)
    && forall i :: 0 <= i < |s.workers| ==>
         WorkerOk(s.workers[i], i < s.concurrency, StageOf(s.dispatcher, i), OnStack(s, i))
  }

  // ----- one worker -----

  lemma WorkerStepOk(w: Worker, isPrimary: bool, stage: Stage, onStack: bool)
    requires WorkerOk(w, isPrimary, stage, onStack) && WorkerStep(w, isPrimary).Some?
    ensures WorkerOk(WorkerStep(w, isPrimary).value, isPrimary, stage, onStack || w.pc.Handled?)
    ensures w.pc.Handled? ==> !onStack
  {
    match w.pc
    case Absent =>
    case Starting =>
    case Unstopped =>
    case Announced =>
    case Ready =>
    case Checking =>
    case Waiting =>
    case Woken(_) =>
    case Handling =>
    case Handled =>
    case Leaving =>
    case Left =>
  }

  lemma TimeoutStepOk(w: Worker, isPrimary: bool, stage: Stage, onStack: bool)
    requires WorkerOk(w, isPrimary, stage, onStack) && TimeoutStep(w).Some?
    ensures WorkerOk(TimeoutStep(w).value, isPrimary, stage, onStack)
  {}

  lemma DispatchStepOk(w: Worker, isPrimary: bool, stage: Stage, onStack: bool, u: Update)
    requires WorkerOk(w, isPrimary, stage, onStack) && DispatchStep(stage, w, u).Some?
    ensures WorkerOk(DispatchStep(stage, w, u).value.1, isPrimary, DispatchStep(stage, w, u).value.0, onStack)
  {}

  lemma PoppedOk(w: Worker, isPrimary: bool)
    requires WorkerOk(w, isPrimary, Nothing, true)
    ensures WorkerOk(w, isPrimary, Popped, false)
  {}

  // ----- the system -----

  lemma OthersOk(s: State, t: State, i: nat)
    requires Inv(s) && i < |s.workers| == |t.workers| && t.concurrency == s.concurrency
    requires forall j :: 0 <= j < |s.workers| && j != i ==>
      t.workers[j] == s.workers[j] && StageOf(t.dispatcher, j) == StageOf(s.dispatcher, j) &&
        (OnStack(t, j) <==> OnStack(s, j))
    ensures forall j :: 0 <= j < |s.workers| && j != i ==>
      WorkerOk(t.workers[j], j < t.concurrency, StageOf(t.dispatcher, j), OnStack(t, j))
  {
    hide WorkerOk, OnStack;
  }

  lemma PopOk(s: seq<nat>, lo: nat, hi: nat)
    requires Distinct(s) && Within(s, lo, hi) && s != []
    ensures Distinct(s[..|s| - 1]) && Within(s[..|s| - 1], lo, hi) && lo <= Top(s) < hi
    ensures forall j :: j in s[..|s| - 1] <==> j in s && j != Top(s)
  {
    var rest := s[..|s| - 1];
    assert s == rest + [Top(s)];
    forall j | j in s && j != Top(s)
      ensures j in rest
    {
      var k :| 0 <= k < |s| && s[k] == j;
      assert rest[k] == j;
    }
  }

  lemma PushOk(s: seq<nat>, i: nat, lo: nat, hi: nat)
    requires Distinct(s) && Within(s, lo, hi) && i !in s && lo <= i < hi
    ensures Distinct(s + [i]) && Within(s + [i], lo, hi)
    ensures forall j :: j in s + [i] <==> j in s || j == i
  {}

  lemma PopKeeps(s: State, t: State, u: Update, primary: bool)
    requires Inv(s) && !s.dispatcher.At? && t.workers == s.workers && t.concurrency == s.concurrency
    requires if primary
      then s.primary != [] && t.extra == s.extra && t.primary == s.primary[..|s.primary| - 1]
      else s.extra != [] && t.primary == s.primary && t.extra == s.extra[..|s.extra| - 1]
    requires t.dispatcher == At(Popped, u, Top(if primary then s.primary else s.extra))
    ensures Inv(t)
  {
    hide WorkerOk, Distinct, Within;
    if primary {
      PopOk(s.primary, 0, s.concurrency);
    } else {
      PopOk(s.extra, s.concurrency, |s.workers|);
    }
    var i := t.dispatcher.i;
    OthersOk(s, t, i);
    PoppedOk(s.workers[i], i < s.concurrency);
  }

  lemma DispatchKeeps(s: State, t: State)
    requires Inv(s) && s.dispatcher.At? && Next(s, Dispatch) == Some(t)
    ensures Inv(t)
  {
    hide WorkerOk, Distinct, Within, DispatchStep;
    var i := s.dispatcher.i;
    OthersOk(s, t, i);
    DispatchStepOk(s.workers[i], i < s.concurrency, s.dispatcher.stage, OnStack(s, i), s.dispatcher.update);
  }

  lemma WorkKeeps(s: State, t: State, i: nat)
    requires Inv(s) && Next(s, Work(i)) == Some(t)
    ensures Inv(t)
  {
    hide WorkerOk, Distinct, Within, WorkerStep;
    var w := s.workers[i];
    WorkerStepOk(w, i < s.concurrency, StageOf(s.dispatcher, i), OnStack(s, i));
    if w.pc.Handled? {
      if i < s.concurrency {
        PushOk(s.primary, i, 0, s.concurrency);
      } else {
        PushOk(s.extra, i, s.concurrency, |s.workers|);
      }
    }
    OthersOk(s, t, i);
  }

  lemma TimeoutKeeps(s: State, t: State, i: nat)
    requires Inv(s) && Next(s, Timeout(i)) == Some(t)
    ensures Inv(t)
  {
    hide WorkerOk, Distinct, Within, TimeoutStep;
    TimeoutStepOk(s.workers[i], i < s.concurrency, StageOf(s.dispatcher, i), OnStack(s, i));
    OthersOk(s, t, i);
  }

  /** Every step of every thread keeps the invariant. */
  lemma NextKeeps(s: State, e: Event, t: State)
    requires Inv(s) && Next(s, e) == Some(t)
    ensures Inv(t)
  {
    match e
    case Arrive(u) =>
      if s.primary != [] {
        PopKeeps(s, t, u, true);
      } else {
        ToNobody(s, t);
      }
    case Dispatch =>
      if s.dispatcher.At? {
        DispatchKeeps(s, t);
      } else if s.extra != [] {
        PopKeeps(s, t, s.dispatcher.update, false);
      } else {
        ToNobody(s, t);
      }
    case Work(i) => WorkKeeps(s, t, i);
    case Timeout(i) => TimeoutKeeps(s, t, i);
  }

  lemma ToNobody(s: State, t: State)
    requires Inv(s) && !s.dispatcher.At? && !t.dispatcher.At?
    requires t.workers == s.workers && t.concurrency == s.concurrency && t.primary == s.primary && t.extra == s.extra
    ensures Inv(t)
  {
    hide WorkerOk, Distinct, Within;
    forall i | 0 <= i < |t.workers|
      ensures WorkerOk(t.workers[i], i < t.concurrency, StageOf(t.dispatcher, i), OnStack(t, i))
    {
      assert OnStack(t, i) <==> OnStack(s, i);
    }
  }

  // ----- the beginning -----

  const CONSTRUCTED := Worker(Absent, Free, false, false, true, false, 0, 0, [], [])

  /** A worker when spawn() returns for the first time; its thread is already running. */
  const SPAWNED := CONSTRUCTED.(pc := Announced, hasThread := true, online := true, stop := false)

  /** The numbers from hi down to lo. */
  function Descending(lo: nat, hi: nat): (s: seq<nat>)
    requires lo <= hi
    ensures |s| == hi - lo && forall k :: 0 <= k < |s| ==> s[k] == hi - 1 - k
  {
    seq(hi - lo, k requires 0 <= k < hi - lo => hi - 1 - k)
  }

  predicate Init(s: State) {
    && 0 < s.concurrency && |s.workers| == 100 * s.concurrency && s.dispatcher.Idle? && s.dropped == []
    && s.primary == Descending(0, s.concurrency) && s.extra == Descending(s.concurrency, |s.workers|)
    && forall i :: 0 <= i < |s.workers| ==> s.workers[i] == if i < s.concurrency then SPAWNED else CONSTRUCTED
  }

  method SpawnThreads(hardwareConcurrency: nat) returns (s: State)
    ensures Init(s) && s.concurrency == if hardwareConcurrency == 0 then 2 else hardwareConcurrency
  {
    var hc := if hardwareConcurrency == 0 then 2 else hardwareConcurrency;
    var max := hc * 100;
    var workers: seq<Worker> := [];
    for i := 0 to max
      invariant |workers| == i
      invariant forall k :: 0 <= k < i ==> workers[k] == if k < hc then SPAWNED else CONSTRUCTED
    {
      workers := workers + [if i < hc then SPAWNED else CONSTRUCTED];
    }
    var primary, extra: seq<nat> := [], [];
    for i := hc downto 0
      invariant primary == Descending(i, hc)
    {
      primary := primary + [i];
    }
    for i := max downto hc
      invariant extra == Descending(i, max)
    {
      extra := extra + [i];
    }
    s := State(workers, hc, primary, extra, Idle, []);
  }

  lemma InitInv(s: State)
    requires Init(s)
    ensures Inv(s)
  {
    forall i | 0 <= i < |s.workers|
      ensures OnStack(s, i)
    {
      if i < s.concurrency {
        assert s.primary[s.concurrency - 1 - i] == i;
      } else {
        assert s.extra[|s.workers| - 1 - i] == i;
      }
    }
  }

  // ----- runs -----

  function Run(s: State, events: seq<Event>): Option<State>
    decreases |events|
  {
    if events == [] then Some(s)
    else
      var t := Next(s, events[0]);
      if t.None? then None else Run(t.value, events[1..])
  }

  function Arrivals(events: seq<Event>): seq<Update>
    decreases |events|
  {
    if events == [] then []
    else (if events[0].Arrive? then [events[0].update] else []) + Arrivals(events[1..])
  }

  /** All that was ever handed to workers. */
  function AllHanded(workers: seq<Worker>): multiset<Update> {
    if workers == [] then multiset{} else AllHanded(workers[..|workers| - 1]) + multiset(workers[|workers| - 1].handed)
  }

  function InHand(s: State): multiset<Update> {
    match s.dispatcher
    case Idle => multiset{}
    case NoPrimary(u) => multiset{u}
    case At(stage, u, _) => if stage.Popped? then multiset{u} else multiset{}
  }

  /** Where the updates that arrived are. */
  function Everywhere(s: State): multiset<Update> {
    AllHanded(s.workers) + multiset(s.dropped) + InHand(s)
  }

  lemma {:induction false} AllHandedUpdate(workers: seq<Worker>, i: nat, w: Worker, more: seq<Update>)
    requires i < |workers| && w.handed == workers[i].handed + more
    ensures AllHanded(workers[i := w]) == AllHanded(workers) + multiset(more)
  {
    var last := |workers| - 1;
    if i == last {
      assert workers[i := w][..last] == workers[..last];
    } else {
      assert workers[i := w][..last] == workers[..last][i := w];
      AllHandedUpdate(workers[..last], i, w, more);
    }
  }

  lemma StepsHand(w: Worker, isPrimary: bool, stage: Stage, u: Update)
    ensures WorkerStep(w, isPrimary).Some? ==> WorkerStep(w, isPrimary).value.handed == w.handed + []
    ensures TimeoutStep(w).Some? ==> TimeoutStep(w).value.handed == w.handed + []
    ensures DispatchStep(stage, w, u).Some? ==> !DispatchStep(stage, w, u).value.0.Popped?
    ensures DispatchStep(stage, w, u).Some? ==>
      DispatchStep(stage, w, u).value.1.handed == w.handed + if stage.Popped? then [u] else []
  {}

  lemma DispatchConserves(s: State, t: State)
    requires Next(s, Dispatch) == Some(t)
    ensures Everywhere(t) == Everywhere(s)
  {
    hide AllHanded, DispatchStep;
    if s.dispatcher.At? {
      var i, u, stage := s.dispatcher.i, s.dispatcher.update, s.dispatcher.stage;
      StepsHand(s.workers[i], true, stage, u);
      AllHandedUpdate(s.workers, i, t.workers[i], if stage.Popped? then [u] else []);
    } else {
      assert t.workers == s.workers;
    }
  }

  lemma WorkConserves(s: State, t: State, i: nat)
    requires i < |s.workers| == |t.workers| && t.workers == s.workers[i := t.workers[i]]
    requires t.dropped == s.dropped && t.dispatcher == s.dispatcher
    requires t.workers[i].handed == s.workers[i].handed + []
    ensures Everywhere(t) == Everywhere(s)
  {
    hide AllHanded;
    AllHandedUpdate(s.workers, i, t.workers[i], []);
  }

  lemma NextConserves(s: State, e: Event, t: State)
    requires Next(s, e) == Some(t)
    ensures Everywhere(t) == Everywhere(s) + multiset(if e.Arrive? then [e.update] else [])
  {
    hide AllHanded, DispatchStep, WorkerStep, TimeoutStep;
    match e
    case Arrive(_) =>
      assert t.workers == s.workers && t.dropped == s.dropped;
    case Dispatch => DispatchConserves(s, t);
    case Work(i) =>
      StepsHand(s.workers[i], i < s.concurrency, Nothing, 0);
      WorkConserves(s, t, i);
    case Timeout(i) =>
      StepsHand(s.workers[i], i < s.concurrency, Nothing, 0);
      WorkConserves(s, t, i);
  }

  /** Whatever happens, the invariant holds, and every update that arrived is at exactly one place. */
  lemma {:induction false} RunKeeps(s: State, events: seq<Event>, t: State)
    requires Inv(s) && Run(s, events) == Some(t)
    ensures Inv(t)
    ensures Everywhere(t) == Everywhere(s) + multiset(Arrivals(events))
    decreases |events|
  {
    hide Inv, Next, Everywhere;
    if events != [] {
      var next := Next(s, events[0]).value;
      NextKeeps(s, events[0], next);
      NextConserves(s, events[0], next);
      RunKeeps(next, events[1..], t);
    }
  }

  // ----- what follows -----

  /** From the start on, an update handed to a worker was processed once or is the one it has still to process. */
  lemma ExactlyOnce(s: State, events: seq<Event>, t: State, i: nat)
    requires Init(s) && Run(s, events) == Some(t) && i < |t.workers|
    ensures t.workers[i].handed == t.workers[i].processed + if t.workers[i].hasUpdate then [t.workers[i].update] else []
    ensures multiset(Arrivals(events)) == Everywhere(t)
  {
    InitInv(s);
    RunKeeps(s, events, t);
    NothingHanded(s.workers);
    assert WorkerOk(t.workers[i], i < t.concurrency, StageOf(t.dispatcher, i), OnStack(t, i));
  }

  lemma {:induction false} NothingHanded(workers: seq<Worker>)
    requires forall i :: 0 <= i < |workers| ==> workers[i].handed == []
    ensures AllHanded(workers) == multiset{}
  {
    if workers != [] {
      NothingHanded(workers[..|workers| - 1]);
    }
  }

  /** A worker is on its stack, once, exactly while it has no update, is not taken, and is done with the last one. */
  lemma OnStackWhileFree(s: State, i: nat)
    requires Inv(s) && i < |s.workers|
    ensures OnStack(s, i) <==>
      !s.workers[i].hasUpdate && StageOf(s.dispatcher, i) != Popped && !s.workers[i].pc.Handled?
    ensures multiset(s.primary)[i] + multiset(s.extra)[i] == if OnStack(s, i) then 1 else 0
  {
    assert WorkerOk(s.workers[i], i < s.concurrency, StageOf(s.dispatcher, i), OnStack(s, i));
    CountDistinct(s.primary, i);
    CountDistinct(s.extra, i);
  }

  lemma {:induction false} CountDistinct(s: seq<nat>, i: nat)
    requires Distinct(s)
    ensures multiset(s)[i] == if i in s then 1 else 0
  {
    if s != [] {
      assert s == s[..|s| - 1] + [s[|s| - 1]];
      PopDistinct(s);
      CountDistinct(s[..|s| - 1], i);
    }
  }

  lemma PopDistinct(s: seq<nat>)
    requires Distinct(s) && s != []
    ensures Distinct(s[..|s| - 1]) && s[|s| - 1] !in s[..|s| - 1]
  {}

  /** Once the dispatcher is done with a worker, the worker is online if it has something to process. */
  lemma NoneForgotten(s: State, i: nat)
    requires Inv(s) && i < |s.workers| && s.workers[i].hasUpdate && StageOf(s.dispatcher, i).Nothing?
    ensures s.workers[i].online && !s.workers[i].stop && s.workers[i].hasThread
  {
    assert WorkerOk(s.workers[i], i < s.concurrency, StageOf(s.dispatcher, i), OnStack(s, i));
  }

  /** Primary workers are always online. */
  lemma PrimariesStay(s: State, i: nat)
    requires Inv(s) && i < s.concurrency
    ensures s.workers[i].online && !s.workers[i].stop
  {
    assert WorkerOk(s.workers[i], i < s.concurrency, StageOf(s.dispatcher, i), OnStack(s, i));
  }

  /** What the program asserts along the way. */
  lemma AssertionsHold(s: State, i: nat)
    requires Inv(s) && i < |s.workers|
    ensures var w, stage := s.workers[i], StageOf(s.dispatcher, i);
      && (stage.Popped? ==> !w.hasUpdate)                                    // sendUpdate
      && (stage.SawOffline? && !w.online && w.hasThread ==> w.stop)           // spawn
      && (stage.Spawning? ==> !w.online)                                      // doSpawn
      && (w.pc.Ready? ==> w.online)                                           // runWorker
      && (w.pc.Left? ==> !w.online && !w.hasUpdate && w.stop)
      && (w.pc.Handling? ==> w.hasUpdate)                                     // the event loops
      && (w.pc.Handled? ==> !w.hasUpdate)
    ensures |s.primary| <= s.concurrency && |s.extra| <= |s.workers| - s.concurrency // putPrimaryWorker, putExtraWorker
  {
    assert WorkerOk(s.workers[i], i < s.concurrency, StageOf(s.dispatcher, i), OnStack(s, i));
    DistinctFit(s.primary, 0, s.concurrency);
    DistinctFit(s.extra, s.concurrency, |s.workers|);
  }

  lemma DistinctFit(s: seq<nat>, lo: nat, hi: nat)
    requires Distinct(s) && Within(s, lo, hi) && lo <= hi
    ensures |s| <= hi - lo
  {
    RangeSize(lo, hi);
    SizeOfElements(s);
    forall x | x in s
      ensures x in Range(lo, hi)
    {
      InRange(x, lo, hi);
    }
    assert Elements(s) <= Range(lo, hi);
    SubsetSize(Elements(s), Range(lo, hi));
  }

  lemma {:induction false} SizeOfElements(s: seq<nat>)
    requires Distinct(s)
    ensures |Elements(s)| == |s|
  {
    if s != [] {
      var rest, last := s[..|s| - 1], s[|s| - 1];
      PopDistinct(s);
      SizeOfElements(rest);
      OneMore(rest, last);
      assert s == rest + [last];
    }
  }

  lemma OneMore(rest: seq<nat>, last: nat)
    requires last !in rest
    ensures Elements(rest + [last]) == Elements(rest) + {last} && last !in Elements(rest)
  {}

  function Range(lo: nat, hi: nat): set<nat>
    decreases hi - lo
  {
    if lo < hi then {lo} + Range(lo + 1, hi) else {}
  }

  lemma {:induction false} InRange(x: nat, lo: nat, hi: nat)
    ensures x in Range(lo, hi) <==> lo <= x < hi
    decreases hi - lo
  {
    if lo < hi {
      InRange(x, lo + 1, hi);
    }
  }

  lemma {:induction false} RangeSize(lo: nat, hi: nat)
    requires lo <= hi
    ensures |Range(lo, hi)| == hi - lo
    decreases hi - lo
  {
    if lo < hi {
      RangeSize(lo + 1, hi);
      InRange(lo, lo + 1, hi);
    }
  }

  lemma {:induction false} SubsetSize(a: set<nat>, b: set<nat>)
    requires a <= b
    ensures |a| <= |b|
  {
    if a != {} {
      var x :| x in a;
      SubsetSize(a - {x}, b - {x});
    }
  }

  // ----- progress -----

  /** How many steps it takes at most until a pending update is processed, if nobody else gets a turn. */
  function Distance(w: Worker, stage: Stage): nat {
    (match w.pc
     case Absent => 80
     case Starting => 70
     case Unstopped => 60
     case Announced => 50
     case Ready => 40
     case Checking => 30
     case Waiting => 30
     case Woken(_) => 20
     case _ => 10) +
    (match stage
     case Sent => 7
     case SawOffline => 6
     case Joining => 5
     case Spawning => 4
     case Created => 3
     case Assigned => 2
     case Settling => 1
     case _ => 0)
  }

  /** Whose turn it is. */
  function Helpful(w: Worker, stage: Stage, i: nat): Event {
    if w.pc.Absent? || (w.pc.Announced? && !w.lock.Free?) then Dispatch else Work(i)
  }

  lemma HelpfulWorks(w: Worker, isPrimary: bool, stage: Stage, onStack: bool, i: nat)
    requires WorkerOk(w, isPrimary, stage, onStack) && w.hasUpdate && Helpful(w, stage, i).Work?
    ensures WorkerStep(w, isPrimary).Some?
    ensures w.pc.Handling? ==> WorkerStep(w, isPrimary).value.processed == w.processed + [w.update]
    ensures !w.pc.Handling? ==> var v := WorkerStep(w, isPrimary).value;
      v.hasUpdate && v.update == w.update && v.processed == w.processed && Distance(v, stage) < Distance(w, stage)
  {
    match w.pc
    case Starting =>
    case Unstopped =>
    case Announced =>
    case Ready =>
    case Checking =>
    case Waiting =>
    case Woken(_) =>
    case Handling =>
  }

  lemma HelpfulDispatches(w: Worker, isPrimary: bool, stage: Stage, onStack: bool, u: Update, i: nat)
    requires WorkerOk(w, isPrimary, stage, onStack) && w.hasUpdate && Helpful(w, stage, i).Dispatch?
    ensures !stage.Nothing? && DispatchStep(stage, w, u).Some?
    ensures var v := DispatchStep(stage, w, u).value;
      v.1.hasUpdate && v.1.update == w.update && v.1.processed == w.processed && Distance(v.1, v.0) < Distance(w, stage)
  {}

  /** From every state that can be reached, a pending update can be processed within a bounded number of steps. */
  lemma {:induction false} Progress(s: State, i: nat) returns (events: seq<Event>, t: State)
    requires Inv(s) && i < |s.workers| && s.workers[i].hasUpdate
    ensures Run(s, events) == Some(t) && Inv(t) && |events| <= 87 && i < |t.workers|
    ensures t.workers[i].processed == s.workers[i].processed + [s.workers[i].update]
  {
    events, t := ProgressWithin(s, i);
  }

  lemma {:induction false} ProgressWithin(s: State, i: nat) returns (events: seq<Event>, t: State)
    requires Inv(s) && i < |s.workers| && s.workers[i].hasUpdate
    ensures Run(s, events) == Some(t) && Inv(t) && |events| <= Distance(s.workers[i], StageOf(s.dispatcher, i)) &&
      i < |t.workers|
    ensures t.workers[i].processed == s.workers[i].processed + [s.workers[i].update]
    decreases Distance(s.workers[i], StageOf(s.dispatcher, i))
  {
    hide WorkerOk, WorkerStep, DispatchStep, Distance, Helpful, OnStack, Distinct, Within;
    var w, stage := s.workers[i], StageOf(s.dispatcher, i);
    assert WorkerOk(w, i < s.concurrency, stage, OnStack(s, i));
    var e := Helpful(w, stage, i);
    HelpfulIs(w, stage, i);
    if e.Work? {
      HelpfulWorks(w, i < s.concurrency, stage, OnStack(s, i), i);
    } else {
      HelpfulDispatches(w, i < s.concurrency, stage, OnStack(s, i), UpdateOf(s.dispatcher), i);
    }
    var next := Next(s, e).value;
    NextKeeps(s, e, next);
    OneStep(s, e, next);
    if w.pc.Handling? {
      return [e], next;
    }
    var more;
    more, t := ProgressWithin(next, i);
    events := [e] + more;
    RunOn(s, e, next, more);
  }

  lemma HelpfulIs(w: Worker, stage: Stage, i: nat)
    ensures Helpful(w, stage, i) == Work(i) || (Helpful(w, stage, i) == Dispatch && !w.pc.Handling?)
    ensures Distance(w, stage) >= 1
  {}

  lemma OneStep(s: State, e: Event, t: State)
    requires Next(s, e) == Some(t)
    ensures Run(s, [e]) == Some(t)
  {
    assert [e][1..] == [] && Run(t, []) == Some(t);
  }

  lemma RunOn(s: State, e: Event, t: State, events: seq<Event>)
    requires Next(s, e) == Some(t)
    ensures Run(s, [e] + events) == Run(t, events)
  {
    assert ([e] + events)[1..] == events;
  }

  // ----- the dispatcher -----

  /** The thread is about to leave, or has left. */
  predicate Doomed(w: Worker, isPrimary: bool) {
    || w.pc.Absent? || w.pc.Leaving? || w.pc.Left?
    || (w.pc == Woken(false) && !isPrimary && w.timeouts + 1 >= MAX_TIMEOUT_COUNT)
  }

  /** The dispatcher waits for a thread to come online that was online, and has timed out since. */
  predicate Stuck(s: State) {
    && s.dispatcher.At? && s.dispatcher.i < |s.workers| && s.dispatcher.stage.Settling?
    && Doomed(s.workers[s.dispatcher.i], s.dispatcher.i < s.concurrency)
  }

  /** A stuck dispatcher remains so, whatever happens. */
  lemma {:induction false} StuckForGood(s: State, events: seq<Event>, t: State)
    requires Inv(s) && Stuck(s) && Run(s, events) == Some(t)
    ensures Stuck(t) && t.dispatcher == s.dispatcher
    decreases |events|
  {
    if events != [] {
      var e, next := events[0], Next(s, events[0]).value;
      var i := s.dispatcher.i;
      assert WorkerOk(s.workers[i], i < s.concurrency, Settling, OnStack(s, i));
      StillDoomed(s.workers[i], i < s.concurrency, OnStack(s, i));
      NextKeeps(s, e, next);
      StuckForGood(next, events[1..], t);
    }
  }

  lemma StillDoomed(w: Worker, isPrimary: bool, onStack: bool)
    requires WorkerOk(w, isPrimary, Settling, onStack) && Doomed(w, isPrimary)
    ensures WorkerStep(w, isPrimary).Some? ==> Doomed(WorkerStep(w, isPrimary).value, isPrimary) && !w.pc.Handled?
    ensures TimeoutStep(w).None? && DispatchStep(Settling, w, 0).None?
  {}

  /** How far the dispatcher is from being done, if it gets the next turn, or else the worker it waits for. */
  function Remaining(w: Worker, stage: Stage): nat {
    (match stage
     case Nothing => 0
     case Popped => 90
     case Sent => 80
     case SawOffline => 70
     case Joining => 60
     case Spawning => 50
     case Created => 40
     case Assigned => 30
     case Settling => 20) +
    (match w.pc
     case Starting => 9
     case Unstopped => 8
     case Checking => if w.hasUpdate then 7 else 3
     case Woken(event) => if event then 6 else 4
     case Handling => 5
     case Handled => 4
     case Leaving => 2
     case Left => 1
     case _ => 0)
  }

  lemma DispatcherMoves(w: Worker, isPrimary: bool, stage: Stage, onStack: bool, u: Update)
    requires WorkerOk(w, isPrimary, stage, onStack) && !stage.Nothing? && DispatchStep(stage, w, u).Some?
    ensures Remaining(DispatchStep(stage, w, u).value.1, DispatchStep(stage, w, u).value.0) < Remaining(w, stage)
    ensures DispatchStep(stage, w, u).value.0.Settling? ==> !Doomed(DispatchStep(stage, w, u).value.1, isPrimary)
  {}

  lemma DispatcherWaits(w: Worker, isPrimary: bool, stage: Stage, onStack: bool, u: Update)
    requires WorkerOk(w, isPrimary, stage, onStack) && !stage.Nothing? && DispatchStep(stage, w, u).None?
    requires stage.Settling? ==> !Doomed(w, isPrimary)
    ensures WorkerStep(w, isPrimary).Some?
    ensures var v := WorkerStep(w, isPrimary).value;
      Remaining(v, stage) < Remaining(w, stage) && (stage.Settling? ==> !Doomed(v, isPrimary))
  {
    match w.pc
    case Absent =>
    case Starting =>
    case Unstopped =>
    case Announced =>
    case Ready =>
    case Checking =>
    case Waiting =>
    case Woken(_) =>
    case Handling =>
    case Handled =>
    case Leaving =>
    case Left =>
  }

  /** A dispatcher that is not stuck can be done with its worker within a bounded number of steps. */
  lemma {:induction false} DispatchCompletes(s: State) returns (events: seq<Event>, t: State)
    requires Inv(s) && s.dispatcher.At? && !Stuck(s)
    ensures Run(s, events) == Some(t) && Inv(t) && t.dispatcher.Idle?
    ensures |events| <= Remaining(s.workers[s.dispatcher.i], s.dispatcher.stage)
    decreases Remaining(s.workers[s.dispatcher.i], s.dispatcher.stage)
  {
    hide WorkerOk, WorkerStep, DispatchStep, Remaining, Doomed, OnStack, Distinct, Within;
    var i, stage, u := s.dispatcher.i, s.dispatcher.stage, s.dispatcher.update;
    var w, isPrimary := s.workers[i], i < s.concurrency;
    assert WorkerOk(w, isPrimary, stage, OnStack(s, i));
    var e := if DispatchStep(stage, w, u).Some? then Dispatch else Work(i);
    if e.Dispatch? {
      DispatcherMoves(w, isPrimary, stage, OnStack(s, i), u);
    } else {
      DispatcherWaits(w, isPrimary, stage, OnStack(s, i), u);
    }
    var next := Next(s, e).value;
    NextKeeps(s, e, next);
    OneStep(s, e, next);
    if next.dispatcher.Idle? {
      return [e], next;
    }
    var more;
    more, t := DispatchCompletes(next);
    events := [e] + more;
    RunOn(s, e, next, more);
  }

  // ----- how the dispatcher can get stuck -----

  /** What the thread of one worker does on its own; true stands for a timeout. */
  function Solo(w: Worker, isPrimary: bool, moves: seq<bool>): Option<Worker>
    decreases |moves|
  {
    if moves == [] then Some(w)
    else
      var v := if moves[0] then TimeoutStep(w) else WorkerStep(w, isPrimary);
      if v.None? then None else Solo(v.value, isPrimary, moves[1..])
  }

  lemma {:induction false} SoloRuns(s: State, i: nat, moves: seq<bool>, v: Worker) 
      returns (events: seq<Event>, t: State)
    requires i < |s.workers| && Solo(s.workers[i], i < s.concurrency, moves) == Some(v)
    ensures Run(s, events) == Some(t) && t.workers == s.workers[i := v] && t.dispatcher == s.dispatcher &&
      t.concurrency == s.concurrency
    decreases |moves|
  {
    hide WorkerStep, TimeoutStep;
    if moves == [] {
      return [], s;
    }
    var e := if moves[0] then Timeout(i) else Work(i);
    var next := Next(s, e).value;
    var more;
    more, t := SoloRuns(next, i, moves[1..], v);
    events := [e] + more;
    RunOn(s, e, next, more);
  }

  lemma SoloOn(w: Worker, isPrimary: bool, move: bool, v: Worker, moves: seq<bool>)
    requires (if move then TimeoutStep(w) else WorkerStep(w, isPrimary)) == Some(v)
    ensures Solo(w, isPrimary, [move] + moves) == Solo(v, isPrimary, moves)
  {
    assert ([move] + moves)[1..] == moves;
  }

  /** An extra worker with nothing to do leaves in the end. */
  lemma {:induction false} TimesOut(w: Worker) returns (moves: seq<bool>, v: Worker)
    requires w.pc.Waiting? && w.lock.Free? && !HasEvent(w) && w.timeouts < MAX_TIMEOUT_COUNT
    ensures Solo(w, false, moves) == Some(v) && v.pc.Absent? && v.hasUpdate == w.hasUpdate
    decreases MAX_TIMEOUT_COUNT - w.timeouts
  {
    var woken := TimeoutStep(w).value;
    var third := WorkerStep(woken, false).value;
    var fourth := WorkerStep(third, false).value;
    if w.timeouts + 1 < MAX_TIMEOUT_COUNT {
      moves, v := TimesOut(fourth);
    } else {
      v := WorkerStep(fourth, false).value;
      SoloOn(fourth, false, false, v, []);
      moves := [false] + [];
    }
    SoloOn(third, false, false, fourth, moves);
    SoloOn(woken, false, false, third, [false] + moves);
    SoloOn(w, false, true, woken, [false] + ([false] + moves));
    moves := [true] + ([false] + ([false] + moves));
  }

  /** A thread that was just created handles its update, and leaves when nothing else comes. */
  lemma ComesAndGoes(w: Worker) returns (moves: seq<bool>, v: Worker)
    requires w.pc.Starting? && w.lock.Free? && w.hasThread && w.hasUpdate
    ensures Solo(w, false, moves) == Some(v) && v.pc.Absent?
  {
    var w1 := WorkerStep(w, false).value;
    var w2 := WorkerStep(w1, false).value;
    var w3 := WorkerStep(w2, false).value;
    var w4 := WorkerStep(w3, false).value;
    var w5 := WorkerStep(w4, false).value;
    var w6 := WorkerStep(w5, false).value;
    var w7 := WorkerStep(w6, false).value;
    var w8 := WorkerStep(w7, false).value;
    var w9 := WorkerStep(w8, false).value;
    moves, v := TimesOut(w9);
    moves := SoloNine([w, w1, w2, w3, w4, w5, w6, w7, w8, w9], moves);
  }

  lemma {:induction false} SoloNine(ws: seq<Worker>, moves: seq<bool>) returns (more: seq<bool>)
    requires ws != [] && forall k :: 0 <= k < |ws| - 1 ==> WorkerStep(ws[k], false) == Some(ws[k + 1])
    ensures Solo(ws[0], false, more) == Solo(ws[|ws| - 1], false, moves)
    decreases |ws|
  {
    hide WorkerStep;
    if |ws| == 1 {
      return moves;
    }
    more := SoloNine(ws[1..], moves);
    SoloOn(ws[0], false, false, ws[1], more);
    more := [false] + more;
  }

  lemma {:induction false} Chain(states: seq<State>, events: seq<Event>)
    requires |states| == |events| + 1 && forall k :: 0 <= k < |events| ==>
      Next(states[k], events[k]) == Some(states[k + 1])
    ensures Run(states[0], events) == Some(states[|events|])
    decreases |events|
  {
    hide Next;
    if events != [] {
      Chain(states[1..], events[1..]);
    }
  }

  lemma {:induction false} RunBoth(s: State, first: seq<Event>, t: State, second: seq<Event>)
    requires Run(s, first) == Some(t)
    ensures Run(s, first + second) == Run(t, second)
    decreases |first|
  {
    hide Next;
    if first == [] {
      assert first + second == second;
    } else {
      assert (first + second)[0] == first[0] && (first + second)[1..] == first[1..] + second;
      RunBoth(Next(s, first[0]).value, first[1..], t, second);
    }
  }

  /** With one primary worker, the first update keeps it busy. */
  lemma KeepsPrimaryBusy(s: State) returns (events: seq<Event>, t: State)
    requires Init(s) && s.concurrency == 1
    ensures Run(s, events) == Some(t) && t.dispatcher.Idle? && t.primary == [] && t.extra == s.extra
    ensures |t.workers| == 100 && t.concurrency == 1 && t.workers[1] == CONSTRUCTED
  {
    events := [Arrive(1), Dispatch, Dispatch];
    var s1 := Next(s, Arrive(1)).value;
    var s2 := Next(s1, Dispatch).value;
    t := Next(s2, Dispatch).value;
    Chain([s, s1, s2, t], events);
  }

  lemma GoesToExtra(s: State) returns (events: seq<Event>, t: State)
    requires s.dispatcher.Idle? && s.primary == [] && s.extra != [] && Top(s.extra) == 1 && |s.workers| == 100 &&
      s.workers[1] == CONSTRUCTED
    ensures Run(s, events) == Some(t) && t.dispatcher == At(Sent, 2, 1) && |t.workers| == 100 &&
      t.concurrency == s.concurrency
    ensures t.workers[1] == CONSTRUCTED.(hasUpdate := true, update := 2, handed := [2])
  {
    events := [Arrive(2), Dispatch, Dispatch];
    var s1 := Next(s, Arrive(2)).value;
    var s2 := Next(s1, Dispatch).value;
    t := Next(s2, Dispatch).value;
    Chain([s, s1, s2, t], events);
  }

  /** The extra worker is offline, so that the dispatcher spawns it and waits for it. */
  lemma Spawns(s: State) returns (events: seq<Event>, t: State)
    requires s.dispatcher == At(Sent, 2, 1) && |s.workers| == 100
    requires s.workers[1] == CONSTRUCTED.(hasUpdate := true, update := 2, handed := [2])
    ensures Run(s, events) == Some(t) && t.dispatcher == At(Settling, 2, 1) && |t.workers| == 100 &&
      t.concurrency == s.concurrency
    ensures t.workers[1].pc.Starting? && t.workers[1].lock.Free? && t.workers[1].hasThread && t.workers[1].hasUpdate
  {
    events := [Dispatch, Dispatch, Dispatch, Dispatch, Dispatch];
    var s1 := Next(s, Dispatch).value;
    var s2 := Next(s1, Dispatch).value;
    var s3 := Next(s2, Dispatch).value;
    var s4 := Next(s3, Dispatch).value;
    t := Next(s4, Dispatch).value;
    Chain([s, s1, s2, s3, s4, t], events);
  }

  /** The dispatcher can get stuck: if it is slow to notice that the thread is online, the thread may be gone again. */
  lemma CanGetStuck(s: State) returns (events: seq<Event>, t: State)
    requires Init(s) && s.concurrency == 1
    ensures Run(s, events) == Some(t) && Stuck(t)
  {
    hide Next, Run;
    var first, s1 := KeepsPrimaryBusy(s);
    var second, s2 := GoesToExtra(s1);
    var third, s3 := Spawns(s2);
    var moves, v := ComesAndGoes(s3.workers[1]);
    var fourth;
    fourth, t := SoloRuns(s3, 1, moves, v);
    RunBoth(s, first, s1, second);
    RunBoth(s, first + second, s2, third);
    RunBoth(s, first + second + third, s3, fourth);
    events := first + second + third + fourth;
  }
}
