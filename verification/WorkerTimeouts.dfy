/** When an extra worker leaves, and when an update is dropped. */
module WorkerTimeouts {
  import opened Wrappers
  import opened WorkerPool

  /** How often the worker has waited in vain since its thread began its loop or since its last update. */
  function VainAfter(count: nat, before: Worker, after: Worker): nat {
    if before.pc.Waiting? && after.pc == Woken(false) then count + 1
    else if after.processed != before.processed || (before.pc.Ready? && after.pc.Checking?) then 0
    else count
  }

  /** The same over a run, counted from the events. */
  function Vain(count: nat, s: State, events: seq<Event>, i: nat): nat
    decreases |events|
  {
    if events == [] then count
    else
      var t := Next(s, events[0]);
      if t.None? || i >= |s.workers| || i >= |t.value.workers| then count
      else Vain(VainAfter(count, s.workers[i], t.value.workers[i]), t.value, events[1..], i)
  }

  predicate CountOk(w: Worker, count: nat) {
    match w.pc
    case Checking => w.timeouts == count < 20
    case Waiting => w.timeouts == count < 20
    case Woken(event) => w.timeouts < 20 && count == if event then w.timeouts else w.timeouts + 1
    case Handling => w.timeouts == count < 20
    case Handled => count == 0
    case Leaving => count == 20
    case _ => true
  }

  lemma CountStep(s: State, e: Event, t: State, i: nat, count: nat)
    requires Inv(s) && Next(s, e) == Some(t) && s.concurrency <= i < |s.workers| && CountOk(s.workers[i], count)
    ensures |t.workers| == |s.workers| && t.concurrency == s.concurrency
    ensures CountOk(t.workers[i], VainAfter(count, s.workers[i], t.workers[i]))
  {
    hide WorkerOk, WorkerStep, TimeoutStep, DispatchStep, CountOk, VainAfter;
    assert WorkerOk(s.workers[i], false, StageOf(s.dispatcher, i), OnStack(s, i));
    CountSame(s.workers[i], count);
    if e == Work(i) {
      CountWork(s.workers[i], StageOf(s.dispatcher, i), OnStack(s, i), count);
    } else if e == Timeout(i) {
      CountTimeout(s.workers[i], count);
    } else if e.Dispatch? && s.dispatcher.At? && s.dispatcher.i == i {
      CountDispatch(s.workers[i], s.dispatcher.stage, OnStack(s, i), s.dispatcher.update, count);
    }
  }

  lemma CountSame(w: Worker, count: nat)
    ensures VainAfter(count, w, w) == count
  {}

  lemma CountWork(w: Worker, stage: Stage, onStack: bool, count: nat)
    requires WorkerOk(w, false, stage, onStack) && WorkerStep(w, false).Some? && CountOk(w, count)
    ensures CountOk(WorkerStep(w, false).value, VainAfter(count, w, WorkerStep(w, false).value))
  {
    assert w.processed + [w.update] != w.processed;
  }

  lemma CountTimeout(w: Worker, count: nat)
    requires TimeoutStep(w).Some? && CountOk(w, count)
    ensures CountOk(TimeoutStep(w).value, VainAfter(count, w, TimeoutStep(w).value))
  {}

  lemma CountDispatch(w: Worker, stage: Stage, onStack: bool, u: Update, count: nat)
    requires WorkerOk(w, false, stage, onStack) && DispatchStep(stage, w, u).Some? && CountOk(w, count)
    ensures CountOk(DispatchStep(stage, w, u).value.1, VainAfter(count, w, DispatchStep(stage, w, u).value.1))
  {}

  lemma {:induction false} CountRun(s: State, events: seq<Event>, t: State, i: nat, count: nat)
    requires Inv(s) && Run(s, events) == Some(t) && s.concurrency <= i < |s.workers| && CountOk(s.workers[i], count)
    ensures i < |t.workers| && CountOk(t.workers[i], Vain(count, s, events, i))
    decreases |events|
  {
    hide Inv, Next, CountOk, VainAfter;
    if events != [] {
      var next := Next(s, events[0]).value;
      CountStep(s, events[0], next, i, count);
      NextKeeps(s, events[0], next);
      CountRun(next, events[1..], t, i, VainAfter(count, s.workers[i], next.workers[i]));
    }
  }

  /** An extra worker leaves exactly when it has waited in vain twenty times in a row. */
  lemma LeavesAfterTwenty(s: State, events: seq<Event>, t: State, i: nat)
    requires Init(s) && Run(s, events) == Some(t) && s.concurrency <= i < |s.workers|
    ensures i < |t.workers|
    ensures var w, vain := t.workers[i], Vain(0, s, events, i);
      && (w.pc.Leaving? ==> vain == 20)
      && (w.pc.Waiting? || w.pc.Checking? || w.pc.Handling? ==> vain < 20)
      && (w.pc == Woken(false) ==> WorkerStep(w, false).Some?)
      && (w.pc == Woken(false) ==> (WorkerStep(w, false).value.pc.Leaving? <==> vain == 20))
  {
    hide Next, Vain;
    InitInv(s);
    CountRun(s, events, t, i, 0);
  }

  // ----- dropped updates -----

  predicate Occupied(s: State, i: nat)
    requires i < |s.workers|
  {
    s.workers[i].hasUpdate || s.workers[i].pc.Handled?
  }

  /** An update is handed on to the extra workers only if every primary one is occupied. */
  lemma PrimariesOccupied(s: State, u: Update, t: State)
    requires Inv(s) && Next(s, Arrive(u)) == Some(t) && t.dispatcher.NoPrimary?
    ensures forall i :: 0 <= i < s.concurrency ==> Occupied(s, i)
  {
    forall i | 0 <= i < s.concurrency
      ensures Occupied(s, i)
    {
      OnStackWhileFree(s, i);
    }
  }

  /** It is dropped only if every extra worker is occupied as well. */
  lemma DroppedWhenOccupied(s: State, e: Event, t: State)
    requires Inv(s) && Next(s, e) == Some(t) && t.dropped != s.dropped
    ensures s.dispatcher.NoPrimary? && t.dropped == s.dropped + [s.dispatcher.update] && t.dispatcher.Idle?
    ensures forall i :: s.concurrency <= i < |s.workers| ==> Occupied(s, i)
  {
    forall i | s.concurrency <= i < |s.workers|
      ensures Occupied(s, i)
    {
      OnStackWhileFree(s, i);
    }
  }

  /** Otherwise a free worker gets it, and that is the one given back last. */
  lemma HandedToTop(s: State, e: Event, t: State)
    requires Inv(s) && Next(s, e) == Some(t) && !s.dispatcher.At? && t.dispatcher.At?
    ensures var i := t.dispatcher.i;
      i < |s.workers| && !Occupied(s, i) && t.dispatcher.stage.Popped? &&
      i == Top(if e.Arrive? then s.primary else s.extra) &&
      (if e.Arrive? then i < s.concurrency && t.dispatcher.update == e.update
       else s.concurrency <= i && s.dispatcher.NoPrimary? && t.dispatcher.update == s.dispatcher.update)
  {
    var i := t.dispatcher.i;
    assert i in (if e.Arrive? then s.primary else s.extra);
    OnStackWhileFree(s, i);
  }
}
