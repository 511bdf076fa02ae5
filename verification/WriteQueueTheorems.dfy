/** What callers of the write queue can rely on, over every interleaving. */
module WriteQueueTheorems {
  import opened Wrappers
  import opened Ordering
  import opened WriteQueue
  import opened WriteQueueInvariant
  import opened WriteQueueSteps

  // ----- the recorded jobs are the ones the steps accepted and dequeued -----

  function AcceptedOf(s: State, key: Key): seq<nat> {
    if key in s.workers then s.workers[key].accepted else []
  }

  function TakenOf(s: State, key: Key): seq<nat> {
    if key in s.workers then s.workers[key].taken else []
  }

  lemma CallStepLogs(s: State, step: Step, key: Key)
    requires Inv(s) && Enabled(s, step)
    requires step.ReadWorker? || step.CheckClosed? || step.FindWorker? || step.TakeLock?
          || step.Create? || step.Register?
    ensures AcceptedOf(ApplyCall(s, step), key) == AcceptedOf(s, key)
    ensures TakenOf(ApplyCall(s, step), key) == TakenOf(s, key)
  {
    assert CallOk(s, step.id);
  }

  lemma EnqueueLogs(s: State, id: nat, key: Key)
    requires Enabled(s, Enqueue(id))
    ensures AcceptedOf(Apply(s, Enqueue(id)), key) == AcceptedOf(s, key) +
              (if s.calls[id].key == key && !(s.closed && !s.calls[id].pc.reentrant) then [id] else [])
    ensures TakenOf(Apply(s, Enqueue(id)), key) == TakenOf(s, key)
  {
    FreeCallerSame(s, id);
    hide FreeCaller;
    assert AcceptedOf(s, key) + [] == AcceptedOf(s, key);
  }

  lemma DequeueLogs(s: State, other: Key, key: Key)
    requires Enabled(s, Dequeue(other))
    ensures AcceptedOf(Apply(s, Dequeue(other)), key) == AcceptedOf(s, key)
    ensures TakenOf(Apply(s, Dequeue(other)), key) ==
              TakenOf(s, key) + (if other == key then Jobs([s.workers[key].queue[0]]) else [])
  {
    DequeuedWorker(s, other);
    hide Enabled, Apply, Jobs;
    assert TakenOf(s, key) + [] == TakenOf(s, key);
  }

  lemma DequeuedWorker(s: State, key: Key)
    requires Enabled(s, Dequeue(key))
    ensures var t := Apply(s, Dequeue(key));
      && key in t.workers && t.workers == s.workers[key := t.workers[key]]
      && t.workers[key].accepted == s.workers[key].accepted
      && t.workers[key].taken == s.workers[key].taken + Jobs([s.workers[key].queue[0]])
  {
    var item := s.workers[key].queue[0];
    assert Jobs([item]) == Front(item) by { JobsFront([item]); assert Jobs([item][1..]) == []; }
    hide Jobs;
    assert s.workers[key].taken + [] == s.workers[key].taken;
    match item
    case Stop =>
    case Job(_) =>
  }

  lemma WriterStepLogs(s: State, step: Step, key: Key)
    requires Enabled(s, step) && (step.StartJob? || step.Resolve? || step.MarkResolved?)
    ensures AcceptedOf(ApplyWriter(s, step), key) == AcceptedOf(s, key)
    ensures TakenOf(ApplyWriter(s, step), key) == TakenOf(s, key)
  {
    WriterStepWorkers(s, step);
    hide ApplyWriter, Enabled;
  }

  lemma WriterStepWorkers(s: State, step: Step)
    requires Enabled(s, step) && (step.StartJob? || step.Resolve? || step.MarkResolved?)
    ensures var t := ApplyWriter(s, step);
      && step.key in s.workers && step.key in t.workers
      && t.workers == s.workers[step.key := t.workers[step.key]]
      && t.workers[step.key].accepted == s.workers[step.key].accepted
      && t.workers[step.key].taken == s.workers[step.key].taken
  {
    assert step.key in s.workers;
    match step
    case StartJob(_) =>
    case Resolve(_) =>
    case MarkResolved(_) =>
  }

  lemma CloserStepLogs(s: State, step: Step, key: Key)
    requires Enabled(s, step)
    requires step.BeginClose? || step.SetClosed? || step.TakeSnapshot? || step.PutStop? || step.BeginJoin?
          || step.Join? || step.Return?
    ensures AcceptedOf(ApplyCloser(s, step), key) == AcceptedOf(s, key)
    ensures TakenOf(ApplyCloser(s, step), key) == TakenOf(s, key)
  {
  }

  lemma ClientStepLogs(s: State, step: Step, key: Key)
    requires Enabled(s, step) && (step.Submit? || step.Cancel?)
    ensures AcceptedOf(Apply(s, step), key) == AcceptedOf(s, key)
    ensures TakenOf(Apply(s, step), key) == TakenOf(s, key)
  {
  }

  lemma OtherStepLogs(s: State, step: Step, key: Key)
    requires Inv(s) && Enabled(s, step) && !step.Enqueue? && !step.Dequeue?
    ensures AcceptedOf(Apply(s, step), key) == AcceptedOf(s, key)
    ensures TakenOf(Apply(s, step), key) == TakenOf(s, key)
  {
    hide Inv, Enabled, AcceptedOf, TakenOf, ApplyCall, ApplyWriter, ApplyCloser;
    if step.Submit? || step.Cancel? {
      ClientStepLogs(s, step, key);
    } else if step.StartJob? || step.Resolve? || step.MarkResolved? {
      WriterStepLogs(s, step, key);
    } else if step.BeginClose? || step.SetClosed? || step.TakeSnapshot? || step.PutStop? || step.BeginJoin?
           || step.Join? || step.Return? {
      CloserStepLogs(s, step, key);
    } else {
      CallStepLogs(s, step, key);
    }
  }

  lemma {:induction false} LogsAreHistory(steps: seq<Step>, s: State, key: Key)
    requires Run(steps, s)
    ensures AcceptedOf(s, key) == AcceptedBy(steps, key)
    ensures TakenOf(s, key) == TakenBy(steps, key)
  {
    if steps != [] {
      var k := |steps| - 1;
      var r := After(steps[..k]).value;
      LogsAreHistory(steps[..k], r, key);
      RunInv(steps[..k], r);
      var step := steps[k];
      assert Enabled(r, step) && s == Apply(r, step);
      hide Inv, Enabled, Apply, AcceptedOf, TakenOf;
      if step.Enqueue? {
        EnqueueLogs(r, step.id, key);
      } else if step.Dequeue? {
        DequeueLogs(r, step.key, key);
      } else {
        OtherStepLogs(r, step, key);
      }
    }
  }

  // ----- safety -----

  /**
   At every moment `_in_flight` counts the queued jobs and the one in hand, jobs are taken in
   the order they were accepted and each once, and no job is queued behind a stop.
   */
  lemma QueueDiscipline(steps: seq<Step>, s: State, key: Key)
    requires Run(steps, s) && key in s.workers
    ensures s.workers[key].inFlight == |Jobs(s.workers[key].queue)| + (if s.workers[key].phase.Idle? then 0 else 1)
    ensures AcceptedBy(steps, key) == TakenBy(steps, key) + Jobs(s.workers[key].queue)
    ensures Distinct(AcceptedBy(steps, key))
    ensures forall i, j :: 0 <= i < j < |s.workers[key].queue| && s.workers[key].queue[i].Stop? ==>
              s.workers[key].queue[j].Stop?
  {
    RunInv(steps, s);
    LogsAreHistory(steps, s, key);
    assert WorkerOk(s, key);
  }

  /** When a writer thread takes its stop, every job ever accepted for it has been taken and settled. */
  lemma StopIsLast(steps: seq<Step>, s: State, key: Key)
    requires Run(steps, s) && Enabled(s, Dequeue(key)) && s.workers[key].queue[0].Stop?
    ensures TakenBy(steps, key) == AcceptedBy(steps, key)
    ensures forall id :: id in AcceptedBy(steps, key) ==> id in s.futures && Settled(s.futures[id])
  {
    RunInv(steps, s);
    LogsAreHistory(steps, s, key);
    DequeueStopKeeps(s, key);
    assert WorkerOk(s, key);
    var w := s.workers[key];
    JobsNoneAfterStop(w.queue);
    forall id | id in w.accepted ensures id in s.futures && Settled(s.futures[id]) {
      assert JobOk(s, key, w, id);
    }
  }

  /** Once `close` has its snapshot, every repository that ever accepted a job is in it. */
  lemma SnapshotIsComplete(steps: seq<Step>, s: State, c: nat, key: Key)
    requires Run(steps, s) && c in s.closers
    requires s.closers[c].Stopping? || s.closers[c].Joining? || s.closers[c].Returned?
    requires AcceptedBy(steps, key) != []
    ensures key in s.closers[c].snapshot
  {
    RunInv(steps, s);
    LogsAreHistory(steps, s, key);
    assert CloserOk(s, c);
  }

  /** When an untimed `close` has returned, no accepted job anywhere is unsettled or still queued. */
  lemma CloseDrains(steps: seq<Step>, s: State, c: nat, key: Key)
    requires Run(steps, s) && c in s.closers && s.closers[c].Returned?
    ensures TakenBy(steps, key) == AcceptedBy(steps, key)
    ensures forall id :: id in AcceptedBy(steps, key) ==> id in s.futures && Settled(s.futures[id])
    ensures key in s.workers && AcceptedBy(steps, key) != [] ==> s.workers[key].stopped
  {
    RunInv(steps, s);
    LogsAreHistory(steps, s, key);
    if key in s.workers { assert WorkerOk(s, key); }
    if AcceptedBy(steps, key) != [] {
      assert CloserOk(s, c);
      var snapshot := s.closers[c].snapshot;
      assert key in snapshot;
      var i :| 0 <= i < |snapshot| && snapshot[i] == key;
      var w := s.workers[key];
      assert w.accepted == w.taken;
      forall id | id in w.accepted ensures id in s.futures && Settled(s.futures[id]) {
        assert JobOk(s, key, w, id);
      }
    }
  }

  /** After a repository's stop is queued, every submit for it is refused, whoever makes it. */
  lemma NothingAfterStop(steps: seq<Step>, s: State, id: nat)
    requires Run(steps, s) && Enabled(s, Enqueue(id)) && HasStop(s.workers[s.calls[id].key])
    ensures Apply(s, Enqueue(id)).calls[id].pc == Refused
    ensures Apply(s, Enqueue(id)).futures[id] == Rejected
  {
    RunInv(steps, s);
    if !(s.closed && !s.calls[id].pc.reentrant) { AcceptedBeforeStop(s, id); }
  }

  // ----- progress -----

  /** The next step of a submit call, or of the call holding the creation lock it waits for. */
  function CallStep(s: State, id: nat): Step
    requires id in s.calls
  {
    match s.calls[id].pc
    case Entered => ReadWorker(id)
    case KnowsReentrancy(_) => CheckClosed(id)
    case WantsWorker(_) => FindWorker(id)
    case WantsLock(_) =>
      if s.calls[id].key in s.locks then HolderStep(s, s.locks[s.calls[id].key]) else TakeLock(id)
    case HoldsLock(_) => Create(id, true)
    case StartedWorker(_) => Register(id)
    case _ => Enqueue(id)
  }

  function HolderStep(s: State, id: nat): Step {
    if id in s.calls && s.calls[id].pc.HoldsLock? then Create(id, true) else Register(id)
  }

  /** The next step of a writer thread, or of the submit call its job or callback is making. */
  function WriterStep(s: State, key: Key): Step
    requires key in s.workers
  {
    var w := s.workers[key];
    if w.calling.Some? && w.calling.value in s.calls then CallStep(s, w.calling.value)
    else match w.phase
      case Idle => Dequeue(key)
      case Taken(_) => StartJob(key)
      case Executing(_) => Resolve(key)
      case CallingBack(_) => MarkResolved(key)
      case Skipped(_) => MarkResolved(key)
  }

  /** How many of its own steps a submit call has left at most. */
  function Ahead(pc: Pc): nat {
    match pc
    case Entered => 7
    case KnowsReentrancy(_) => 6
    case WantsWorker(_) => 5
    case WantsLock(_) => 4
    case HoldsLock(_) => 3
    case StartedWorker(_) => 2
    case HasWorker(_) => 1
    case _ => 0
  }

  /** The steps the holder of this repository's creation lock takes before it releases it. */
  function HolderAhead(s: State, key: Key): nat {
    if key in s.locks && s.locks[key] in s.calls && s.calls[s.locks[key]].pc.HoldsLock? then 2
    else if key in s.locks then 1
    else 0
  }

  /** How far a submit call is from its end, waiting for the creation lock included. */
  function Rank(s: State, id: nat): nat
    requires id in s.calls
  {
    var call := s.calls[id];
    3 * Ahead(call.pc) + if call.pc.WantsLock? then HolderAhead(s, call.key) else 0
  }

  function PhaseRank(phase: Phase): nat {
    match phase
    case Idle => 0
    case Taken(_) => 3
    case Executing(_) => 2
    case CallingBack(_) => 1
    case Skipped(_) => 1
  }

  /** How far a writer thread is from being idle with nothing queued, if nobody else submits. */
  function WriterRank(s: State, key: Key): nat
    requires key in s.workers
  {
    var w := s.workers[key];
    4 * |w.queue| + PhaseRank(w.phase)
    + if w.calling.Some? && w.calling.value in s.calls then Rank(s, w.calling.value) + 5 else 0
  }

  /** A submit call that has not ended is never stuck: some step is possible that brings it nearer to its end. */
  lemma CallNeverStuck(s: State, id: nat)
    requires Inv(s) && id in s.calls && !s.calls[id].pc.Ended()
    ensures Enabled(s, CallStep(s, id))
    ensures var t := Apply(s, CallStep(s, id)); id in t.calls && Rank(t, id) < Rank(s, id)
  {
    CallEnabled(s, id);
    CallAdvances(s, id);
  }

  lemma CallEnabled(s: State, id: nat)
    requires Inv(s) && id in s.calls && !s.calls[id].pc.Ended()
    ensures Enabled(s, CallStep(s, id))
    ensures CallOk(s, id)
    ensures s.calls[id].pc.WantsLock? && s.calls[id].key in s.locks ==> LockOk(s, s.calls[id].key)
  {
    assert CallOk(s, id);
    if s.calls[id].pc.WantsLock? && s.calls[id].key in s.locks { assert LockOk(s, s.calls[id].key); }
  }

  lemma CallAdvances(s: State, id: nat)
    requires id in s.calls && !s.calls[id].pc.Ended() && Enabled(s, CallStep(s, id))
    requires s.calls[id].pc.WantsLock? && s.calls[id].key in s.locks ==> LockOk(s, s.calls[id].key)
    ensures var t := Apply(s, CallStep(s, id)); id in t.calls && Rank(t, id) < Rank(s, id)
  {
    if s.calls[id].pc.WantsLock? && s.calls[id].key in s.locks {
      HolderAdvances(s, s.calls[id].key);
    } else {
      OwnStepAdvances(s, id);
    }
    hide Apply, Enabled, HolderStep, LockOk;
  }

  /** A step of the call itself leaves it fewer steps. */
  lemma OwnStepAdvances(s: State, id: nat)
    requires id in s.calls && !s.calls[id].pc.Ended() && Enabled(s, CallStep(s, id))
    requires s.calls[id].pc.WantsLock? ==> s.calls[id].key !in s.locks
    ensures var t := Apply(s, CallStep(s, id)); id in t.calls && Ahead(t.calls[id].pc) < Ahead(s.calls[id].pc)
  {
    hide Apply, Enabled, HolderStep;
    match s.calls[id].pc
    case Entered => AfterReadWorker(s, id);
    case KnowsReentrancy(_) => AfterCheckClosed(s, id);
    case WantsWorker(_) => AfterFindWorker(s, id);
    case WantsLock(_) => AfterTakeLock(s, id);
    case HoldsLock(_) => AfterCreate(s, id);
    case StartedWorker(_) => AfterRegister(s, id);
    case HasWorker(_) => AfterEnqueue(s, id);
  }

  lemma AfterReadWorker(s: State, id: nat)
    requires Enabled(s, ReadWorker(id))
    ensures var t := Apply(s, ReadWorker(id)); id in t.calls && var pc := t.calls[id].pc; pc.KnowsReentrancy?
  {
  }

  lemma AfterCheckClosed(s: State, id: nat)
    requires Enabled(s, CheckClosed(id))
    ensures var t := Apply(s, CheckClosed(id));
      id in t.calls && var pc := t.calls[id].pc; pc.WantsWorker? || pc.Refused?
  {
    CallEnds(s, id);
    hide Refuse, AcceptJob;
  }

  lemma AfterFindWorker(s: State, id: nat)
    requires Enabled(s, FindWorker(id))
    ensures var t := Apply(s, FindWorker(id)); id in t.calls && var pc := t.calls[id].pc; pc.HasWorker? || pc.WantsLock?
  {
  }

  lemma AfterTakeLock(s: State, id: nat)
    requires Enabled(s, TakeLock(id))
    ensures var t := Apply(s, TakeLock(id)); id in t.calls && var pc := t.calls[id].pc; pc.HoldsLock?
  {
  }

  lemma AfterRegister(s: State, id: nat)
    requires Enabled(s, Register(id))
    ensures var t := Apply(s, Register(id)); id in t.calls && var pc := t.calls[id].pc; pc.HasWorker?
  {
  }

  lemma AfterEnqueue(s: State, id: nat)
    requires Enabled(s, Enqueue(id))
    ensures var t := Apply(s, Enqueue(id)); id in t.calls && var pc := t.calls[id].pc; pc.Refused? || pc.Accepted?
  {
    CallEnds(s, id);
    hide Refuse, AcceptJob;
  }

  lemma AfterCreate(s: State, id: nat)
    requires Enabled(s, Create(id, true))
    ensures var t := Apply(s, Create(id, true));
      id in t.calls && var pc := t.calls[id].pc; pc.HasWorker? || pc.StartedWorker?
  {
    hide Refuse;
  }

  lemma CallEnds(s: State, id: nat)
    requires id in s.calls
    ensures Refuse(s, id).calls == s.calls[id := s.calls[id].(pc := Refused)]
    ensures s.calls[id].key in s.workers ==>
              id in AcceptJob(s, id).calls && AcceptJob(s, id).calls[id].pc == Accepted
  {
    FreeCallerSame(s, id);
    hide FreeCaller;
  }

  /** The holder of the creation lock moves, and no other call does. */
  lemma HolderAdvances(s: State, key: Key)
    requires LockOk(s, key) && Enabled(s, HolderStep(s, s.locks[key]))
    ensures var t := Apply(s, HolderStep(s, s.locks[key]));
      && HolderAhead(t, key) < HolderAhead(s, key)
      && t.calls.Keys == s.calls.Keys
      && forall o {:trigger t.calls[o]} :: o in s.calls && o != s.locks[key] ==> t.calls[o] == s.calls[o]
  {
  }

  /**
   `close` never waits on a writer thread that cannot move, reentrant submits included: a step is
   possible that brings the thread nearer to an empty queue. No deadlock, and no livelock unless
   others keep submitting.
   */
  lemma BusyWriterNeverStuck(steps: seq<Step>, s: State, key: Key)
    requires Run(steps, s) && key in s.workers
    requires s.workers[key].inFlight != 0 || (Stop in s.workers[key].queue && !s.workers[key].stopped)
    ensures Enabled(s, WriterStep(s, key))
    ensures var t := Apply(s, WriterStep(s, key)); key in t.workers && WriterRank(t, key) < WriterRank(s, key)
  {
    RunInv(steps, s);
    assert WorkerOk(s, key);
    var w := s.workers[key];
    if w.calling.Some? {
      CallNeverStuck(s, w.calling.value);
      CallerAdvances(s, key, w.calling.value);
    } else {
      if !w.phase.Idle? {
        TakenIsAccepted(w);
        assert JobOk(s, key, w, Current(w).value);
      } else if w.inFlight != 0 {
        assert w.queue != [];
      }
      WriterAdvances(s, key);
    }
  }

  lemma WriterAdvances(s: State, key: Key)
    requires key in s.workers && s.workers[key].calling.None? && Enabled(s, WriterStep(s, key))
    ensures var t := Apply(s, WriterStep(s, key)); key in t.workers && WriterRank(t, key) < WriterRank(s, key)
  {
    var w := s.workers[key];
    if w.phase.Idle? {
      DequeueAdvances(s, key);
    } else {
      PhaseAdvances(s, key);
    }
    hide Apply, Enabled;
  }

  lemma DequeueAdvances(s: State, key: Key)
    requires Enabled(s, Dequeue(key))
    ensures var t := Apply(s, Dequeue(key));
      && key in t.workers && t.workers[key].calling.None?
      && |t.workers[key].queue| < |s.workers[key].queue| && PhaseRank(t.workers[key].phase) <= 3
  {
    match s.workers[key].queue[0]
    case Stop =>
    case Job(_) =>
  }

  lemma PhaseAdvances(s: State, key: Key)
    requires key in s.workers && s.workers[key].calling.None? && !s.workers[key].phase.Idle?
    requires Enabled(s, WriterStep(s, key))
    ensures var t := Apply(s, WriterStep(s, key));
      && key in t.workers && t.workers[key].calling.None? && t.workers[key].queue == s.workers[key].queue
      && PhaseRank(t.workers[key].phase) < PhaseRank(s.workers[key].phase)
  {
    hide Apply, Enabled;
    match s.workers[key].phase
    case Taken(_) => AfterStartJob(s, key);
    case Executing(_) => AfterResolve(s, key);
    case CallingBack(_) => AfterMarkResolved(s, key);
    case Skipped(_) => AfterMarkResolved(s, key);
  }

  /** The thread is in another phase, and nothing else about it has changed but the count of jobs in flight. */
  ghost predicate OnlyPhase(s: State, t: State, key: Key) {
    && key in s.workers && key in t.workers
    && t.workers[key] == s.workers[key].(phase := t.workers[key].phase, inFlight := t.workers[key].inFlight)
  }

  lemma AfterStartJob(s: State, key: Key)
    requires Enabled(s, StartJob(key))
    ensures var t := Apply(s, StartJob(key));
      OnlyPhase(s, t, key) && (t.workers[key].phase.Executing? || t.workers[key].phase.Skipped?)
  {
  }

  lemma AfterResolve(s: State, key: Key)
    requires Enabled(s, Resolve(key))
    ensures var t := Apply(s, Resolve(key)); OnlyPhase(s, t, key) && t.workers[key].phase.CallingBack?
  {
  }

  lemma AfterMarkResolved(s: State, key: Key)
    requires Enabled(s, MarkResolved(key))
    ensures var t := Apply(s, MarkResolved(key)); OnlyPhase(s, t, key) && t.workers[key].phase.Idle?
  {
  }

  /** What the steps of the call it is inside do to a writer thread: at most they let it go with one job more. */
  lemma CallStepOnCaller(s: State, key: Key, id: nat)
    requires Inv(s) && key in s.workers && s.workers[key].calling == Some(id)
    requires id in s.calls && !s.calls[id].pc.Ended() && s.calls[id].caller == Some(key) && Enabled(s, CallStep(s, id))
    ensures var t := Apply(s, CallStep(s, id));
      && key in t.workers && t.workers[key].phase == s.workers[key].phase
      && (t.workers[key] == s.workers[key]
          || (t.workers[key].calling.None? && |t.workers[key].queue| <= |s.workers[key].queue| + 1))
  {
    if s.calls[id].pc.WantsLock? && s.calls[id].key in s.locks {
      assert LockOk(s, s.calls[id].key);
      var h := s.locks[s.calls[id].key];
      assert CallOk(s, h);
      hide Inv, CallOk, LockOk;
    } else {
      assert CallOk(s, id);
      hide Inv, LockOk;
      match s.calls[id].pc
      case Entered =>
      case KnowsReentrancy(_) =>
      case WantsWorker(_) =>
      case WantsLock(_) =>
      case HoldsLock(_) =>
      case StartedWorker(_) =>
      case HasWorker(_) =>
    }
  }

  /** A thread inside a submit call comes nearer with that call: accepting its job costs less than the call. */
  lemma CallerAdvances(s: State, key: Key, id: nat)
    requires Inv(s) && key in s.workers && s.workers[key].calling == Some(id)
    requires id in s.calls && !s.calls[id].pc.Ended() && s.calls[id].caller == Some(key) && Enabled(s, CallStep(s, id))
    requires id in Apply(s, CallStep(s, id)).calls && Rank(Apply(s, CallStep(s, id)), id) < Rank(s, id)
    ensures var t := Apply(s, WriterStep(s, key)); key in t.workers && WriterRank(t, key) < WriterRank(s, key)
  {
    CallStepOnCaller(s, key, id);
    hide Apply, Enabled, Inv, CallStep, Rank;
  }
}
