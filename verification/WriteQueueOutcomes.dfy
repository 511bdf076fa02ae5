/** How submit calls end and what becomes of the jobs accepted, over every interleaving of the write queue. */
module WriteQueueOutcomes {
  import opened Wrappers
  import opened WriteQueue
  import opened WriteQueueInvariant
  import opened WriteQueueSteps
  import opened WriteQueueTheorems

  // ----- who is refused -----

  predicate IsCallStep(step: Step) {
    step.ReadWorker? || step.CheckClosed? || step.FindWorker? || step.TakeLock? || step.Create?
    || step.Register? || step.Enqueue?
  }

  /** Whether the call knows that it comes from its repository's own writer thread. */
  function ReentrancyKnown(pc: Pc): Option<bool> {
    match pc
    case KnowsReentrancy(r) => Some(r)
    case WantsWorker(r) => Some(r)
    case WantsLock(r) => Some(r)
    case HoldsLock(r) => Some(r)
    case StartedWorker(r) => Some(r)
    case HasWorker(r) => Some(r)
    case _ => None
  }

  ghost predicate FromOwnWriter(call: Call) {
    call.caller == Some(call.key)
  }

  ghost predicate KnowsItself(call: Call) {
    ReentrancyKnown(call.pc).Some? ==> (ReentrancyKnown(call.pc).value <==> FromOwnWriter(call))
  }

  lemma RefuseCalls(s: State, id: nat)
    requires id in s.calls
    ensures Refuse(s, id).calls == s.calls[id := s.calls[id].(pc := Refused)]
    ensures Refuse(s, id).closed == s.closed && Refuse(s, id).futures == s.futures[id := Rejected]
  {
    FreeCallerSame(s, id);
    hide FreeCaller;
  }

  lemma AcceptCalls(s: State, id: nat)
    requires id in s.calls && s.calls[id].key in s.workers
    ensures AcceptJob(s, id).calls == s.calls[id := s.calls[id].(pc := Accepted)]
    ensures AcceptJob(s, id).closed == s.closed && AcceptJob(s, id).futures == s.futures
  {
    FreeCallerSame(s, id);
    hide FreeCaller;
  }

  /** Only this call moved, and no future changed but its own, to rejected. */
  ghost predicate Moved(s: State, t: State, id: nat) {
    && id in s.calls && id in t.calls && t.closed == s.closed && !s.calls[id].pc.Ended()
    && t.calls == s.calls[id := s.calls[id].(pc := t.calls[id].pc)]
    && t.futures == if t.calls[id].pc.Refused? then s.futures[id := Rejected] else s.futures
  }

  /** It goes on knowing whose thread it is on, and is not refused. */
  ghost predicate GoesOn(s: State, t: State, id: nat) {
    && Moved(s, t, id) && !t.calls[id].pc.Refused?
    && (ReentrancyKnown(s.calls[id].pc).Some? && ReentrancyKnown(t.calls[id].pc).Some? ==>
          ReentrancyKnown(t.calls[id].pc) == ReentrancyKnown(s.calls[id].pc))
  }

  lemma ReadWorkerMoves(s: State, id: nat)
    requires Enabled(s, ReadWorker(id)) && CallOk(s, id)
    ensures var t := Apply(s, ReadWorker(id));
      GoesOn(s, t, id) && t.calls[id].pc == KnowsReentrancy(FromOwnWriter(s.calls[id]))
  {
  }

  lemma FindWorkerMoves(s: State, id: nat)
    requires Enabled(s, FindWorker(id))
    ensures GoesOn(s, Apply(s, FindWorker(id)), id)
    ensures ReentrancyKnown(s.calls[id].pc).Some?
  {
  }

  lemma TakeLockMoves(s: State, id: nat)
    requires Enabled(s, TakeLock(id))
    ensures GoesOn(s, Apply(s, TakeLock(id)), id)
    ensures ReentrancyKnown(s.calls[id].pc).Some?
  {
  }

  lemma RegisterMoves(s: State, id: nat)
    requires Enabled(s, Register(id))
    ensures GoesOn(s, Apply(s, Register(id)), id)
    ensures ReentrancyKnown(s.calls[id].pc).Some?
  {
  }

  lemma RefuseMoves(s: State, id: nat)
    requires id in s.calls && !s.calls[id].pc.Ended()
    ensures Moved(s, Refuse(s, id), id) && Refuse(s, id).calls[id].pc == Refused
  {
    RefuseCalls(s, id);
    hide Refuse;
  }

  lemma MoveGoesOn(s: State, id: nat, pc: Pc, key: Key)
    requires id in s.calls && !s.calls[id].pc.Ended() && ReentrancyKnown(s.calls[id].pc) == ReentrancyKnown(pc)
    ensures ReentrancyKnown(pc).Some? ==> GoesOn(s, Move(s, id, pc), id) && GoesOn(s, Unlock(Move(s, id, pc), key), id)
  {
  }

  lemma UnlockMoves(s: State, t: State, id: nat, key: Key)
    requires Moved(s, t, id)
    ensures Moved(s, Unlock(t, key), id) && Unlock(t, key).calls == t.calls
  {
  }

  lemma CreateMoves(s: State, id: nat, ok: bool)
    requires Enabled(s, Create(id, ok))
    ensures var t := Apply(s, Create(id, ok)); GoesOn(s, t, id) || (!ok && Moved(s, t, id) && t.calls[id].pc == Refused)
    ensures ReentrancyKnown(s.calls[id].pc).Some?
  {
    var r, key := s.calls[id].pc.reentrant, s.calls[id].key;
    MoveGoesOn(s, id, HasWorker(r), key);
    MoveGoesOn(s, id, StartedWorker(r), key);
    RefuseMoves(s, id);
    UnlockMoves(s, Refuse(s, id), id, key);
    hide Refuse, Unlock, Move, GoesOn, Moved;
  }

  lemma CheckClosedMoves(s: State, id: nat)
    requires Enabled(s, CheckClosed(id))
    ensures var t := Apply(s, CheckClosed(id));
      if s.closed && ReentrancyKnown(s.calls[id].pc) == Some(false) then Moved(s, t, id) && t.calls[id].pc == Refused
      else GoesOn(s, t, id)
    ensures ReentrancyKnown(s.calls[id].pc).Some?
  {
    RefuseMoves(s, id);
    hide Refuse;
  }

  lemma EnqueueMoves(s: State, id: nat)
    requires Enabled(s, Enqueue(id))
    ensures var t := Apply(s, Enqueue(id));
      if s.closed && ReentrancyKnown(s.calls[id].pc) == Some(false) then Moved(s, t, id) && t.calls[id].pc == Refused
      else GoesOn(s, t, id)
    ensures ReentrancyKnown(s.calls[id].pc).Some?
  {
    RefuseMoves(s, id);
    AcceptCalls(s, id);
    hide Refuse, AcceptJob;
  }

  /** A call is refused only where a writer could not be started, or at a closed queue it calls from outside. */
  lemma CallStepMoves(s: State, step: Step)
    requires Enabled(s, step) && IsCallStep(step) && CallOk(s, step.id)
    ensures Moved(s, Apply(s, step), step.id)
    ensures var t, id := Apply(s, step), step.id;
      KnowsItself(s.calls[id]) ==>
        && KnowsItself(t.calls[id])
        && (t.calls[id].pc.Refused? ==> step == Create(id, false) || (s.closed && !FromOwnWriter(s.calls[id])))
  {
    hide Enabled, Apply, ReentrancyKnown, CallOk;
    match step
    case ReadWorker(id) => ReadWorkerMoves(s, id); KnowsByReading(FromOwnWriter(s.calls[id]));
    case CheckClosed(id) => CheckClosedMoves(s, id); EndedKnowsNothing();
    case FindWorker(id) => FindWorkerMoves(s, id);
    case TakeLock(id) => TakeLockMoves(s, id);
    case Create(id, ok) => CreateMoves(s, id, ok); EndedKnowsNothing();
    case Register(id) => RegisterMoves(s, id);
    case Enqueue(id) => EnqueueMoves(s, id); EndedKnowsNothing();
  }

  lemma KnowsByReading(reentrant: bool)
    ensures ReentrancyKnown(KnowsReentrancy(reentrant)) == Some(reentrant)
  {
  }

  lemma EndedKnowsNothing()
    ensures ReentrancyKnown(Refused) == None
  {
  }

  /** Steps of writer threads move no call; the end of a job resolves its future. */
  lemma WriterStepMoves(s: State, step: Step)
    requires Enabled(s, step) && (step.Dequeue? || step.StartJob? || step.Resolve? || step.MarkResolved?)
    ensures var t := ApplyWriter(s, step);
      && step.key in s.workers && t.calls == s.calls && t.closed == s.closed
      && t.futures == match step
                      case StartJob(key) =>
                        if s.futures[s.workers[key].phase.job].Cancelled? then s.futures
                        else s.futures[s.workers[key].phase.job := Running]
                      case Resolve(key) => s.futures[s.workers[key].phase.job := Resolved]
                      case _ => s.futures
  {
    match step
    case Dequeue(key) => match s.workers[key].queue[0] { case Job(_) => case Stop => }
    case StartJob(_) =>
    case Resolve(_) =>
    case MarkResolved(_) =>
  }

  lemma CloserStepMoves(s: State, step: Step)
    requires Enabled(s, step)
    requires step.BeginClose? || step.SetClosed? || step.TakeSnapshot? || step.PutStop? || step.BeginJoin?
          || step.Join? || step.Return?
    ensures var t := ApplyCloser(s, step);
      t.calls == s.calls && t.futures == s.futures && (s.closed ==> t.closed)
  {
  }

  predicate IsWriterStep(step: Step) {
    step.Dequeue? || step.StartJob? || step.Resolve? || step.MarkResolved?
  }

  lemma SubmitMoves(s: State, id: nat, key: Key, caller: Option<Key>)
    requires Enabled(s, Submit(id, key, caller))
    ensures var t := Apply(s, Submit(id, key, caller));
      && t.closed == s.closed && id !in s.calls && t.calls == s.calls[id := Call(key, caller, Entered)]
      && id !in s.futures && t.futures == s.futures[id := Pending]
  {
  }

  lemma CancelMoves(s: State, id: nat)
    requires Enabled(s, Cancel(id))
    ensures var t := Apply(s, Cancel(id));
      && t.closed == s.closed && t.calls == s.calls
      && id in s.futures && s.futures[id].Pending? && t.futures == s.futures[id := Cancelled]
  {
  }

  /** Other steps move no call. */
  lemma OtherStepMoves(s: State, step: Step)
    requires Enabled(s, step) && !IsCallStep(step)
    ensures var t := Apply(s, step);
      && (s.closed ==> t.closed)
      && (if step.Submit? then
            step.id !in s.calls && t.calls == s.calls[step.id := Call(step.key, step.caller, Entered)]
          else t.calls == s.calls)
  {
    hide Enabled, ApplyWriter, ApplyCloser;
    if step.Submit? { SubmitMoves(s, step.id, step.key, step.caller); }
    else if step.Cancel? { CancelMoves(s, step.id); }
    else if IsWriterStep(step) { WriterStepMoves(s, step); }
    else { CloserStepMoves(s, step); }
  }

  /** A call was refused for one of the two reasons the queue has. */
  ghost predicate RefusedForReason(steps: seq<Step>, s: State, id: nat)
    requires id in s.calls
  {
    Create(id, false) in steps || (s.closed && !FromOwnWriter(s.calls[id]))
  }

  lemma {:induction false} RefusedOnlyFor(steps: seq<Step>, s: State, id: nat)
    requires Run(steps, s) && id in s.calls
    ensures KnowsItself(s.calls[id])
    ensures s.calls[id].pc.Refused? ==> RefusedForReason(steps, s, id)
  {
    if steps != [] {
      var k := |steps| - 1;
      var r, step := After(steps[..k]).value, steps[k];
      assert steps == steps[..k] + [step];
      RunInv(steps[..k], r);
      assert Enabled(r, step) && s == Apply(r, step);
      hide Inv, Enabled, Apply, KnowsItself;
      if IsCallStep(step) {
        StepCallOk(r, step);
        CallStepMoves(r, step);
      } else {
        OtherStepMoves(r, step);
      }
      if id in r.calls {
        RefusedOnlyFor(steps[..k], r, id);
      } else {
        assert step.Submit? && s.calls[id].pc == Entered;
        FreshKnowsNothing(s.calls[id]);
      }
    }
  }

  lemma StepCallOk(s: State, step: Step)
    requires Inv(s) && Enabled(s, step) && IsCallStep(step)
    ensures CallOk(s, step.id)
  {
  }

  lemma FreshKnowsNothing(call: Call)
    requires call.pc.Entered?
    ensures KnowsItself(call)
  {
  }

  /**
   A submit call that has ended was accepted, and its job is queued or taken, unless a writer could
   not be started for it, or the queue was closed and the call came from elsewhere than its
   repository's own writer thread. Then its future holds the error. So an open queue accepts
   everything, and a closed one still accepts what its jobs and their callbacks submit.
   */
  lemma AcceptedUnless(steps: seq<Step>, s: State, id: nat)
    requires Run(steps, s) && id in s.calls && s.calls[id].pc.Ended()
    ensures s.calls[id].pc.Refused? ==> RefusedForReason(steps, s, id)
    ensures s.calls[id].pc.Refused? <==> id in s.futures && s.futures[id].Rejected?
    ensures s.calls[id].pc.Accepted? <==> id in AcceptedBy(steps, s.calls[id].key)
  {
    RunInv(steps, s);
    RefusedOnlyFor(steps, s, id);
    var key := s.calls[id].key;
    LogsAreHistory(steps, s, key);
    assert CallOk(s, id);
    if key in s.workers {
      assert WorkerOk(s, key);
      if id in s.workers[key].accepted { assert JobOk(s, key, s.workers[key], id); AcceptedNotRejected(s, key, id); }
    }
    hide Inv;
  }

  lemma AcceptedNotRejected(s: State, key: Key, id: nat)
    requires key in s.workers && WorkerOk(s, key) && id in s.workers[key].accepted
    ensures id in s.calls && s.calls[id].pc.Accepted? && id in s.futures && !s.futures[id].Rejected?
  {
    var w := s.workers[key];
    assert JobOk(s, key, w, id);
  }

  // ----- what becomes of the jobs -----

  /** The jobs a repository's writer thread ran to their end, in order. */
  function RanBy(steps: seq<Step>, key: Key): seq<nat>
    requires After(steps).Some?
    decreases |steps|
  {
    if steps == [] then []
    else
      var k := |steps| - 1;
      var s := After(steps[..k]).value;
      RanBy(steps[..k], key) +
      (match steps[k]
       case Resolve(other) => if other == key then [s.workers[key].phase.job] else []
       case _ => [])
  }

  predicate Done(futures: map<nat, FutureState>, id: nat) {
    id in futures && futures[id].Resolved?
  }

  function ResolvedOf(ids: seq<nat>, futures: map<nat, FutureState>): seq<nat> {
    if ids == [] then []
    else
      var last := ids[|ids| - 1];
      ResolvedOf(ids[..|ids| - 1], futures)
      + (if Done(futures, last) then [last] else [])
  }

  lemma {:induction false} SameResolved(ids: seq<nat>, f: map<nat, FutureState>, g: map<nat, FutureState>)
    requires forall id :: id in ids ==> (Done(f, id) <==> Done(g, id))
    ensures ResolvedOf(ids, f) == ResolvedOf(ids, g)
  {
    if ids != [] {
      assert ids == ids[..|ids| - 1] + [ids[|ids| - 1]];
      SameResolved(ids[..|ids| - 1], f, g);
    }
  }

  lemma ResolvedPush(ids: seq<nat>, id: nat, f: map<nat, FutureState>)
    ensures ResolvedOf(ids + [id], f) == ResolvedOf(ids, f) + if Done(f, id) then [id] else []
  {
    assert (ids + [id])[..|ids|] == ids;
  }

  /** Nothing but the end of a job resolves a future, and nothing un-resolves one. */
  lemma DoneStays(s: State, step: Step, id: nat)
    requires Inv(s) && Enabled(s, step)
    requires step.Resolve? ==> s.workers[step.key].phase.job != id
    ensures Done(Apply(s, step).futures, id) <==> Done(s.futures, id)
  {
    FuturesMove(s, step);
    hide Inv, Enabled, Apply;
  }

  /** The futures a step changes: which one, from what and to what. */
  lemma FuturesMove(s: State, step: Step)
    requires Inv(s) && Enabled(s, step)
    ensures var t := Apply(s, step);
      || t.futures == s.futures
      || (step.Submit? && step.id !in s.futures && t.futures == s.futures[step.id := Pending])
      || (step.Cancel? && step.id in s.futures && s.futures[step.id].Pending?
          && t.futures == s.futures[step.id := Cancelled])
      || (IsCallStep(step) && step.id in s.futures && s.futures[step.id].Pending?
          && t.futures == s.futures[step.id := Rejected])
      || (step.StartJob? && step.key in s.workers && var id := Current(s.workers[step.key]);
          id.Some? && id.value in s.futures && s.futures[id.value].Pending?
          && t.futures == s.futures[id.value := Running])
      || (step.Resolve? && step.key in s.workers && s.workers[step.key].phase.Executing?
          && var id := s.workers[step.key].phase.job;
          id in s.futures && s.futures[id].Running? && t.futures == s.futures[id := Resolved])
  {
    if IsCallStep(step) {
      StepCallOk(s, step);
      CallStepMoves(s, step);
      PendingUntilEnded(s, step.id);
      hide Inv, Enabled, Apply;
    } else if step.Submit? {
      SubmitMoves(s, step.id, step.key, step.caller);
      hide Inv, Enabled, Apply;
    } else if step.Cancel? {
      CancelMoves(s, step.id);
      hide Inv, Enabled, Apply;
    } else if IsWriterStep(step) {
      WriterStepMoves(s, step);
      if step.StartJob? || step.Resolve? { CurrentFuture(s, step.key); }
      hide Inv, ApplyWriter;
    } else {
      CloserStepMoves(s, step);
      hide Inv, Enabled, ApplyCloser;
    }
  }

  lemma PendingUntilEnded(s: State, id: nat)
    requires CallOk(s, id) && !s.calls[id].pc.Ended()
    ensures id in s.futures && s.futures[id].Pending?
  {
  }

  /** The job a writer thread has in hand is its last taken, and no other repository's. */
  lemma CurrentFuture(s: State, key: Key)
    requires Inv(s) && key in s.workers && !s.workers[key].phase.Idle?
    ensures var w := s.workers[key];
      && w.taken != [] && w.taken[|w.taken| - 1] == w.phase.job && w.phase.job in s.futures
      && w.phase.job !in w.taken[..|w.taken| - 1]
      && w.phase.job in s.calls && s.calls[w.phase.job].key == key
      && PhaseFuture(w, s.futures[w.phase.job])
  {
    assert WorkerOk(s, key);
    var w := s.workers[key];
    TakenIsAccepted(w);
    assert JobOk(s, key, w, w.phase.job);
    TakenDistinct(w);
    assert w.taken == w.taken[..|w.taken| - 1] + [w.phase.job];
  }

  lemma TakenDistinct(w: Worker)
    requires QueueOk(w) && w.taken != []
    ensures w.taken[|w.taken| - 1] !in w.taken[..|w.taken| - 1]
  {
    var n := |w.taken| - 1;
    forall i | 0 <= i < n ensures w.taken[i] != w.taken[n] { assert w.accepted[i] != w.accepted[n]; }
  }

  /** The end of a job: its future resolves, and it was the last one taken there. */
  lemma ResolveRuns(s: State, other: Key, key: Key)
    requires Inv(s) && Enabled(s, Resolve(other))
    ensures ResolvedOf(TakenOf(s, key), Apply(s, Resolve(other)).futures) ==
            ResolvedOf(TakenOf(s, key), s.futures) + if other == key then [s.workers[key].phase.job] else []
  {
    var t, id := Apply(s, Resolve(other)), s.workers[other].phase.job;
    var taken := TakenOf(s, key);
    CurrentFuture(s, other);
    forall o | o != id ensures Done(t.futures, o) <==> Done(s.futures, o) { DoneStays(s, Resolve(other), o); }
    assert Done(t.futures, id) && !Done(s.futures, id);
    if other == key {
      var before := taken[..|taken| - 1];
      assert taken == before + [id];
      hide Inv, Enabled, Apply, TakenOf;
      ResolvedPush(before, id, s.futures);
      ResolvedPush(before, id, t.futures);
      SameResolved(before, s.futures, t.futures);
    } else {
      forall o | o in taken ensures o != id { TakenElsewhere(s, key, o); }
      hide Inv, Enabled, Apply, TakenOf;
      SameResolved(taken, s.futures, t.futures);
    }
  }

  lemma TakenElsewhere(s: State, key: Key, id: nat)
    requires Inv(s) && id in TakenOf(s, key)
    ensures id in s.calls && s.calls[id].key == key
  {
    assert WorkerOk(s, key);
    var w := s.workers[key];
    assert id in w.accepted;
    assert JobOk(s, key, w, id);
  }

  /** Taking a job from the queue: its future is not resolved yet. */
  lemma DequeueRunsNothing(s: State, other: Key, key: Key)
    requires Inv(s) && Enabled(s, Dequeue(other))
    ensures var t := Apply(s, Dequeue(other));
      ResolvedOf(TakenOf(t, key), t.futures) == ResolvedOf(TakenOf(s, key), s.futures)
  {
    var t, taken := Apply(s, Dequeue(other)), TakenOf(s, key);
    var item := s.workers[other].queue[0];
    DequeueLogs(s, other, key);
    forall id ensures Done(t.futures, id) <==> Done(s.futures, id) { DoneStays(s, Dequeue(other), id); }
    if item.Job? { QueuedNotDone(s, other, item.id); }
    hide Inv, Enabled, Apply, TakenOf;
    SameResolved(taken, s.futures, t.futures);
    NoneAdded(taken, item, t.futures);
    assert taken + [] == taken;
  }

  lemma NoneAdded(ids: seq<nat>, item: Item, f: map<nat, FutureState>)
    requires item.Job? ==> !Done(f, item.id)
    ensures ResolvedOf(ids + Jobs([item]), f) == ResolvedOf(ids, f)
  {
    JobsFront([item]);
    assert Jobs([item][1..]) == [];
    match item
    case Job(id) =>
      ResolvedPush(ids, id, f);
      assert ids + Jobs([item]) == ids + [id];
    case Stop => assert ids + Jobs([item]) == ids;
  }

  lemma QueuedNotDone(s: State, key: Key, id: nat)
    requires Inv(s) && key in s.workers && s.workers[key].queue != [] && s.workers[key].queue[0] == Job(id)
    ensures !Done(s.futures, id)
  {
    assert WorkerOk(s, key);
    var w := s.workers[key];
    JobsFront(w.queue);
    assert w.accepted[|w.taken|] == id;
    forall i | 0 <= i < |w.taken| ensures w.taken[i] != id { assert w.accepted[i] != w.accepted[|w.taken|]; }
    assert JobOk(s, key, w, id);
  }

  lemma OtherStepRunsNothing(s: State, step: Step, key: Key)
    requires Inv(s) && Enabled(s, step) && !step.Dequeue? && !step.Resolve?
    ensures var t := Apply(s, step);
      ResolvedOf(TakenOf(t, key), t.futures) == ResolvedOf(TakenOf(s, key), s.futures)
  {
    var t := Apply(s, step);
    if step.Enqueue? { EnqueueLogs(s, step.id, key); } else { OtherStepLogs(s, step, key); }
    forall id ensures Done(t.futures, id) <==> Done(s.futures, id) { DoneStays(s, step, id); }
    hide Inv, Enabled, Apply, TakenOf;
    SameResolved(TakenOf(s, key), s.futures, t.futures);
  }

  /**
   The jobs a repository's writer thread has run to their end are exactly the taken ones whose
   futures are resolved, each once and in the order they were accepted.
   */
  lemma {:induction false} RanAreResolved(steps: seq<Step>, s: State, key: Key)
    requires Run(steps, s)
    ensures RanBy(steps, key) == ResolvedOf(TakenBy(steps, key), s.futures)
  {
    LogsAreHistory(steps, s, key);
    if steps != [] {
      var k := |steps| - 1;
      var r, step := After(steps[..k]).value, steps[k];
      RanAreResolved(steps[..k], r, key);
      LogsAreHistory(steps[..k], r, key);
      RunInv(steps[..k], r);
      assert Enabled(r, step) && s == Apply(r, step);
      hide Inv, Enabled, Apply, TakenOf, ResolvedOf, TakenBy;
      if step.Resolve? {
        OtherStepLogs(r, step, key);
        ResolveRuns(r, step.key, key);
      } else if step.Dequeue? {
        DequeueRunsNothing(r, step.key, key);
      } else {
        OtherStepRunsNothing(r, step, key);
      }
    }
  }

  /** Settled and rejected futures stay as they are: a cancelled job never runs, and no job runs twice. */
  lemma FinalStays(s: State, step: Step, id: nat)
    requires Inv(s) && Enabled(s, step)
    requires id in s.futures && (Settled(s.futures[id]) || s.futures[id].Rejected?)
    ensures var t := Apply(s, step); id in t.futures && t.futures[id] == s.futures[id]
  {
    FuturesMove(s, step);
    hide Inv, Enabled, Apply;
  }
}
