/** Each step of the write queue keeps the invariant. */
module WriteQueueSteps {
  import opened Wrappers
  import opened WriteQueue
  import opened WriteQueueInvariant

  // ----- submit calls -----

  ghost predicate LocksKeptExcept(s: State, t: State, id: nat) {
    forall o {:trigger o in s.calls} :: o in s.calls && o != id && LockHolder(s.calls[o].pc) ==>
      s.calls[o].key in t.locks && s.calls[o].key in s.locks && t.locks[s.calls[o].key] == s.locks[s.calls[o].key]
  }

  /** A call that has not ended is not among the accepted jobs. */
  lemma NotAccepted(s: State, id: nat, key: Key)
    requires Inv(s) && id in s.calls && !s.calls[id].pc.Accepted? && key in s.workers
    ensures id !in s.workers[key].accepted
    ensures forall j {:trigger JobOk(s, key, s.workers[key], j)} :: JobOk(s, key, s.workers[key], j) ==> j != id
  {
    assert WorkerOk(s, key);
    assert id in s.workers[key].accepted ==> JobOk(s, key, s.workers[key], id);
  }

  lemma MoveWorkers(s: State, t: State, id: nat, pc: Pc)
    requires Inv(s) && id in s.calls && !s.calls[id].pc.Ended() && !pc.Ended()
    requires t == s.(calls := s.calls[id := s.calls[id].(pc := pc)], locks := t.locks)
    ensures WorkersOk(t)
  {
    forall k | k in t.workers ensures WorkerOk(t, k) {
      assert WorkerOk(s, k);
      NotAccepted(s, id, k);
      SameWorkerOk(s, t, k);
    }
  }

  lemma MoveKeeps(s: State, t: State, id: nat, pc: Pc)
    requires Inv(s) && id in s.calls && !s.calls[id].pc.Ended() && !pc.Ended()
    requires t == s.(calls := s.calls[id := s.calls[id].(pc := pc)], locks := t.locks)
    requires CallOk(t, id) && LocksOk(t) && LocksKeptExcept(s, t, id)
    ensures Inv(t)
  {
    MoveWorkers(s, t, id, pc);
    forall o | o in t.calls ensures CallOk(t, o) {
      if o != id { assert CallOk(s, o); }
    }
    ClosersStay(s, t);
  }

  lemma LocksFollow(s: State, t: State, id: nat, pc: Pc)
    requires Inv(s) && id in s.calls && LockHolder(s.calls[id].pc) == LockHolder(pc)
    requires t == s.(calls := s.calls[id := s.calls[id].(pc := pc)])
    ensures LocksOk(t) && LocksKeptExcept(s, t, id)
  {
    forall k | k in t.locks ensures LockOk(t, k) { assert LockOk(s, k); }
    forall o | o in s.calls && o != id && LockHolder(s.calls[o].pc)
      ensures s.calls[o].key in s.locks
    { assert CallOk(s, o); }
  }

  lemma LockReleases(s: State, t: State, id: nat, pc: Pc)
    requires Inv(s) && id in s.calls && LockHolder(s.calls[id].pc) && !LockHolder(pc)
    requires t == s.(calls := s.calls[id := s.calls[id].(pc := pc)], locks := s.locks - {s.calls[id].key})
    ensures LocksOk(t) && LocksKeptExcept(s, t, id)
  {
    assert CallOk(s, id);
    forall k | k in t.locks ensures LockOk(t, k) { assert LockOk(s, k); }
    forall o | o in s.calls && o != id && LockHolder(s.calls[o].pc)
      ensures s.calls[o].key in s.locks && s.calls[o].key != s.calls[id].key
    { assert CallOk(s, o); }
  }

  lemma TakeLockKeeps(s: State, id: nat)
    requires Inv(s) && Enabled(s, TakeLock(id))
    ensures Inv(Apply(s, TakeLock(id)))
  {
    var t := Apply(s, TakeLock(id));
    var key := s.calls[id].key;
    assert CallOk(s, id);
    forall k | k in t.locks ensures LockOk(t, k) {
      if k != key { assert LockOk(s, k); }
    }
    forall o | o in s.calls && o != id && LockHolder(s.calls[o].pc)
      ensures s.calls[o].key in s.locks && s.calls[o].key != key
    { assert CallOk(s, o); }
    MoveKeeps(s, t, id, HoldsLock(s.calls[id].pc.reentrant));
  }

  /** A refused call leaves its thread free and touches no accepted job. */
  lemma RefuseWorkers(s: State, t: State, id: nat)
    requires Inv(s) && id in s.calls && !s.calls[id].pc.Ended()
    requires t == Refuse(s, id).(locks := t.locks)
    ensures WorkersOk(t)
  {
    assert WorkersOk(s) && CallOk(s, id);
    forall k | k in s.workers ensures WorkerOk(t, k) {
      NotAccepted(s, id, k);
      RefuseWorker(s, t, id, k);
    }
    FreeCallerSame(s, id);
    hide FreeCaller, WorkerOk;
  }

  lemma RefuseWorker(s: State, t: State, id: nat, k: Key)
    requires WorkersOk(s) && id in s.calls && id in s.futures && k in s.workers
    requires forall j {:trigger JobOk(s, k, s.workers[k], j)} :: JobOk(s, k, s.workers[k], j) ==> j != id
    requires t == Refuse(s, id).(locks := t.locks)
    ensures WorkerOk(t, k)
  {
    FreeCallerWorkers(s, id);
    FreeCallerLeaves(s, id, k);
    FreeCallerSame(s, id);
    hide WorkersOk, FreeCaller, QueueOk;
    var m := FreeCaller(s, id);
    assert WorkerOk(m, k) by { EachWorkerOk(m, k); }
    forall j | JobOk(m, k, m.workers[k], j)
      ensures j in t.calls && t.calls[j] == m.calls[j] && j in t.futures && t.futures[j] == m.futures[j]
    {
      assert JobOk(s, k, s.workers[k], j);
    }
    SameWorkerOk(m, t, k);
  }

  lemma EachWorkerOk(s: State, k: Key)
    requires WorkersOk(s) && k in s.workers
    ensures WorkerOk(s, k)
  {
  }

  lemma RefuseStops(s: State, t: State, id: nat)
    requires id in s.calls && t == Refuse(s, id).(locks := t.locks)
    ensures StopsKept(s, t) && NoFirstJob(s, t)
  {
    FreeCallerSame(s, id);
    hide FreeCaller;
  }

  /** Leaving a call changes no more of any worker than the call its thread is inside. */
  lemma FreeCallerSame(s: State, id: nat)
    requires id in s.calls
    ensures var t := FreeCaller(s, id);
      && t == s.(workers := t.workers) && t.workers.Keys == s.workers.Keys
      && forall k {:trigger t.workers[k]} {:trigger s.workers[k]} :: k in s.workers ==>
           t.workers[k] == s.workers[k].(calling := t.workers[k].calling)
  {
  }

  lemma RefuseCalls(s: State, t: State, id: nat)
    requires CallsOk(s) && id in s.calls && !s.calls[id].pc.Ended()
    requires t == Refuse(s, id).(locks := t.locks) && LocksKeptExcept(s, t, id)
    ensures CallsOk(t)
  {
    assert t.calls.Keys == s.calls.Keys by { FreeCallerSame(s, id); }
    forall o | o in t.calls ensures CallOk(t, o) { RefuseCall(s, t, id, o); }
    hide CallOk, Refuse;
  }

  lemma RefuseCall(s: State, t: State, id: nat, o: nat)
    requires CallsOk(s) && id in s.calls && !s.calls[id].pc.Ended() && o in s.calls
    requires t == Refuse(s, id).(locks := t.locks) && LocksKeptExcept(s, t, id)
    ensures CallOk(t, o)
  {
    assert CallOk(s, id) && CallOk(s, o);
    hide CallsOk;
  }

  lemma RefuseKeeps(s: State, t: State, id: nat)
    requires Inv(s) && id in s.calls && !s.calls[id].pc.Ended()
    requires t == Refuse(s, id).(locks := t.locks)
    requires LocksOk(t) && LocksKeptExcept(s, t, id)
    ensures Inv(t)
  {
    hide WorkersOk, CallsOk, LocksOk, LocksKeptExcept;
    RefuseWorkers(s, t, id);
    RefuseStops(s, t, id);
    RefuseCalls(s, t, id);
    ClosersStay(s, t);
  }

  lemma RefuseLocks(s: State, id: nat)
    requires Inv(s) && id in s.calls && !LockHolder(s.calls[id].pc)
    ensures LocksOk(Refuse(s, id)) && LocksKeptExcept(s, Refuse(s, id), id)
  {
    var t := Refuse(s, id);
    forall k | k in t.locks ensures LockOk(t, k) { assert LockOk(s, k); }
    forall o | o in s.calls && o != id && LockHolder(s.calls[o].pc) ensures s.calls[o].key in s.locks {
      assert CallOk(s, o);
    }
  }

  lemma ReadWorkerKeeps(s: State, id: nat)
    requires Inv(s) && Enabled(s, ReadWorker(id))
    ensures Inv(Apply(s, ReadWorker(id)))
  {
    var t := Apply(s, ReadWorker(id));
    assert CallOk(s, id);
    LocksFollow(s, t, id, t.calls[id].pc);
    MoveKeeps(s, t, id, t.calls[id].pc);
  }

  lemma CheckClosedKeeps(s: State, id: nat)
    requires Inv(s) && Enabled(s, CheckClosed(id))
    ensures Inv(Apply(s, CheckClosed(id)))
  {
    var t := Apply(s, CheckClosed(id));
    assert CallOk(s, id);
    if s.closed && !s.calls[id].pc.reentrant {
      RefuseLocks(s, id);
      RefuseKeeps(s, t, id);
    } else {
      LocksFollow(s, t, id, t.calls[id].pc);
      MoveKeeps(s, t, id, t.calls[id].pc);
    }
  }

  lemma FindWorkerKeeps(s: State, id: nat)
    requires Inv(s) && Enabled(s, FindWorker(id))
    ensures Inv(Apply(s, FindWorker(id)))
  {
    var t := Apply(s, FindWorker(id));
    assert CallOk(s, id);
    LocksFollow(s, t, id, t.calls[id].pc);
    MoveKeeps(s, t, id, t.calls[id].pc);
  }

  lemma CreateKeeps(s: State, id: nat, ok: bool)
    requires Inv(s) && Enabled(s, Create(id, ok))
    ensures Inv(Apply(s, Create(id, ok)))
  {
    var t := Apply(s, Create(id, ok));
    assert CallOk(s, id);
    var key := s.calls[id].key;
    if key in s.workers {
      LockReleases(s, t, id, t.calls[id].pc);
      MoveKeeps(s, t, id, t.calls[id].pc);
    } else if !ok {
      var m := s.(calls := s.calls[id := s.calls[id].(pc := Refused)], locks := s.locks - {key});
      LockReleases(s, m, id, Refused);
      forall k | k in t.locks ensures LockOk(t, k) { assert LockOk(m, k); }
      RefuseKeeps(s, t, id);
    } else {
      LocksFollow(s, t, id, t.calls[id].pc);
      MoveKeeps(s, t, id, t.calls[id].pc);
    }
  }

  /** Registering the worker: nobody else can hold this repository's creation lock. */
  lemma RegisterKeeps(s: State, id: nat)
    requires Inv(s) && Enabled(s, Register(id))
    ensures Inv(Apply(s, Register(id)))
  {
    var t := Apply(s, Register(id));
    var key := s.calls[id].key;
    assert CallOk(s, id);
    var m := Unlock(Move(s, id, HasWorker(s.calls[id].pc.reentrant)), key);
    assert t == SetWorker(m, key, FRESH_WORKER) && key !in m.workers;
    LockReleases(s, m, id, m.calls[id].pc);
    MoveWorkers(s, m, id, m.calls[id].pc);
    RegisterCalls(s, m, t, id);
    hide Enabled, CallOk;
    forall k | k in t.locks ensures LockOk(t, k) { assert LockOk(m, k); }
    RegisterWorkers(m, t, key);
    assert StopsKept(s, t) && NoFirstJob(s, t);
    ClosersStay(s, t);
  }

  lemma RegisterCalls(s: State, m: State, t: State, id: nat)
    requires Inv(s) && Enabled(s, Register(id)) && t == Apply(s, Register(id))
    requires m == Unlock(Move(s, id, HasWorker(s.calls[id].pc.reentrant)), s.calls[id].key) && LocksOk(m)
    ensures CallsOk(t)
  {
    hide WorkersOk, ClosersOk;
    forall o | o in t.calls ensures CallOk(t, o) {
      assert CallOk(s, id) && CallOk(s, o);
    }
  }

  /** A new worker is idle and empty; the others stay as they are. */
  lemma RegisterWorkers(m: State, t: State, key: Key)
    requires WorkersOk(m) && key !in m.workers && t == SetWorker(m, key, FRESH_WORKER)
    ensures WorkersOk(t)
  {
    forall k | k in t.workers ensures WorkerOk(t, k) {
      if k != key {
        assert WorkerOk(m, k);
        SameWorkerOk(m, t, k);
      }
    }
  }

  // ----- accepting a job -----

  lemma EnqueueQueue(w: Worker, id: nat)
    requires QueueOk(w) && id !in w.accepted && !HasStop(w)
    ensures QueueOk(PutJob(w, id))
  {
    JobsAppend(w.queue, Job(id));
    assert w.accepted + [id] == w.taken + (Jobs(w.queue) + [id]);
  }

  /** An enqueue that passes the locked check never lands behind a stop. */
  lemma AcceptedBeforeStop(s: State, id: nat)
    requires Inv(s) && Enabled(s, Enqueue(id)) && !(s.closed && !s.calls[id].pc.reentrant)
    ensures !HasStop(s.workers[s.calls[id].key])
    ensures s.closed ==> s.workers[s.calls[id].key].accepted != []
  {
    var key := s.calls[id].key;
    assert CallOk(s, id) && WorkerOk(s, key);
    var w := s.workers[key];
    if s.closed {
      assert w.calling == Some(id);
      assert w.taken != [];
    }
  }

  lemma NotTaken(w: Worker, id: nat)
    requires QueueOk(w) && id !in w.accepted
    ensures id !in w.taken && Current(w) != Some(id)
  {
    forall j | j in w.taken ensures j in w.accepted { }
    if w.taken != [] { assert w.taken[|w.taken| - 1] in w.taken; }
  }

  /** The worker that accepts the job. */
  lemma EnqueueAccepts(s: State, t: State, id: nat, key: Key)
    requires WorkerOk(s, key) && id in s.calls && s.calls[id].key == key && id in s.futures && s.futures[id].Pending?
    requires id !in s.workers[key].accepted && !HasStop(s.workers[key])
    requires t == SetWorker(Move(s, id, Accepted), key, PutJob(s.workers[key], id))
    requires s.workers[key].calling != Some(id)
    ensures WorkerOk(t, key)
  {
    var w, w' := s.workers[key], t.workers[key];
    EnqueueQueue(w, id);
    NotTaken(w, id);
    hide QueueOk;
    forall j | j in w'.accepted ensures JobOk(t, key, w', j) {
      if j != id { assert JobOk(s, key, w, j); }
    }
  }

  lemma FreeCallerWorkers(s: State, id: nat)
    requires WorkersOk(s) && id in s.calls
    ensures WorkersOk(FreeCaller(s, id))
  {
    hide QueueOk;
    var m := FreeCaller(s, id);
    forall k | k in m.workers ensures WorkerOk(m, k) {
      assert WorkerOk(s, k);
      SameWorkerOk(s, m, k);
    }
  }

  /** No thread is inside the call once its caller has left it. */
  lemma FreeCallerLeaves(s: State, id: nat, key: Key)
    requires WorkersOk(s) && id in s.calls && key in s.workers
    ensures FreeCaller(s, id).workers[key].calling != Some(id)
  {
    hide QueueOk;
    assert WorkerOk(s, key);
  }

  lemma EnqueueWorkers(s: State, t: State, id: nat)
    requires Inv(s) && Enabled(s, Enqueue(id)) && !HasStop(s.workers[s.calls[id].key])
    requires t == AcceptJob(s, id)
    ensures WorkersOk(t)
  {
    assert WorkersOk(s) && CallOk(s, id);
    forall k | k in s.workers ensures WorkerOk(t, k) {
      NotAccepted(s, id, k);
      EnqueueWorker(s, t, id, k);
    }
    AcceptedKeys(s, id);
    hide AcceptJob, WorkerOk;
  }

  lemma AcceptedKeys(s: State, id: nat)
    requires id in s.calls && s.calls[id].key in s.workers
    ensures AcceptJob(s, id).workers.Keys == s.workers.Keys
  {
    FreeCallerSame(s, id);
    hide FreeCaller;
  }

  lemma EnqueueWorker(s: State, t: State, id: nat, k: Key)
    requires WorkersOk(s) && Enabled(s, Enqueue(id)) && !HasStop(s.workers[s.calls[id].key]) && k in s.workers
    requires CallOk(s, id) && id !in s.workers[k].accepted && t == AcceptJob(s, id)
    ensures WorkerOk(t, k)
  {
    var key, m := s.calls[id].key, FreeCaller(s, id);
    FreeCallerWorkers(s, id);
    FreeCallerLeaves(s, id, k);
    FreeCallerSame(s, id);
    assert s.futures[id].Pending? && id in s.futures;
    hide WorkersOk, FreeCaller, QueueOk, JobOk, CallOk;
    assert WorkerOk(m, k) by { EachWorkerOk(m, k); }
    if k == key { EnqueueAccepts(m, t, id, key); } else { EnqueueOther(m, t, id, key, k); }
  }

  lemma EnqueueOther(m: State, t: State, id: nat, key: Key, k: Key)
    requires WorkerOk(m, k) && k != key && key in m.workers && id in m.calls
    requires id !in m.workers[k].accepted && m.workers[k].calling != Some(id) && !m.calls[id].pc.Accepted?
    requires t == SetWorker(Move(m, id, Accepted), key, PutJob(m.workers[key], id))
    ensures WorkerOk(t, k)
  {
    hide QueueOk;
    assert forall j {:trigger JobOk(m, k, m.workers[k], j)} :: JobOk(m, k, m.workers[k], j) ==> j != id;
    SameWorkerOk(m, t, k);
  }

  lemma EnqueueKeeps(s: State, id: nat)
    requires Inv(s) && Enabled(s, Enqueue(id))
    ensures Inv(Apply(s, Enqueue(id)))
  {
    var t := Apply(s, Enqueue(id));
    if s.closed && !s.calls[id].pc.reentrant {
      RefuseLocks(s, id);
      RefuseKeeps(s, t, id);
    } else {
      AcceptedBeforeStop(s, id);
      EnqueueWorkers(s, t, id);
      EnqueueRest(s, id);
    }
  }

  /** What accepting a job does to each worker. */
  lemma AcceptedWorker(s: State, id: nat, k: Key)
    requires id in s.calls && s.calls[id].key in s.workers
    ensures var t := AcceptJob(s, id);
      && (k in t.workers <==> k in s.workers)
      && (k in s.workers ==>
            && t.workers[k].stopped == s.workers[k].stopped
            && (HasStop(s.workers[k]) ==> HasStop(t.workers[k]))
            && t.workers[k].accepted == s.workers[k].accepted + if k == s.calls[id].key then [id] else [])
  {
    FreeCallerSame(s, id);
    hide FreeCaller;
  }

  lemma EnqueueStops(s: State, id: nat)
    requires CallsOk(s) && Enabled(s, Enqueue(id))
    requires s.closed ==> s.workers[s.calls[id].key].accepted != []
    ensures StopsKept(s, AcceptJob(s, id))
    ensures s.closed ==> NoFirstJob(s, AcceptJob(s, id))
  {
    hide CallsOk, HasStop;
    var t := AcceptJob(s, id);
    forall k ensures (k in t.workers <==> k in s.workers)
                     && (k in s.workers ==>
                           && t.workers[k].stopped == s.workers[k].stopped
                           && (HasStop(s.workers[k]) ==> HasStop(t.workers[k]))
                           && t.workers[k].accepted
                              == s.workers[k].accepted + if k == s.calls[id].key then [id] else [])
    {
      AcceptedWorker(s, id, k);
    }
    hide AcceptJob;
  }

  lemma EnqueueCalls(s: State, id: nat)
    requires CallsOk(s) && Enabled(s, Enqueue(id))
    ensures CallsOk(AcceptJob(s, id))
  {
    hide CallsOk;
    var t := AcceptJob(s, id);
    forall o | o in t.calls ensures CallOk(t, o) { EnqueueCall(s, id, o); }
    assert CallsOk(t) by { AllCallsOk(t); }
  }

  lemma AllCallsOk(t: State)
    requires forall o :: o in t.calls ==> CallOk(t, o)
    ensures CallsOk(t)
  {
  }

  lemma EnqueueCall(s: State, id: nat, o: nat)
    requires CallsOk(s) && Enabled(s, Enqueue(id)) && o in AcceptJob(s, id).calls
    ensures CallOk(AcceptJob(s, id), o)
  {
    assert CallOk(s, id) && CallOk(s, o);
    hide CallsOk;
  }

  lemma EnqueueRest(s: State, id: nat)
    requires Inv(s) && Enabled(s, Enqueue(id))
    requires s.closed ==> s.workers[s.calls[id].key].accepted != []
    ensures CallsOk(AcceptJob(s, id)) && LocksOk(AcceptJob(s, id)) && ClosersOk(AcceptJob(s, id))
  {
    hide WorkersOk, ClosersOk, StopsKept, NoFirstJob;
    var t := AcceptJob(s, id);
    EnqueueCalls(s, id);
    forall k | k in t.locks ensures LockOk(t, k) { assert LockOk(s, k); }
    EnqueueStops(s, id);
    ClosersStay(s, t);
  }

  lemma SubmitWorkers(s: State, t: State, id: nat, key: Key, caller: Option<Key>)
    requires Inv(s) && Enabled(s, Submit(id, key, caller)) && t == Apply(s, Submit(id, key, caller))
    ensures WorkersOk(t)
  {
    hide QueueOk, LocksOk, ClosersOk;
    forall k | k in t.workers ensures WorkerOk(t, k) {
      assert WorkerOk(s, k);
      assert forall j {:trigger JobOk(s, k, s.workers[k], j)} :: JobOk(s, k, s.workers[k], j) ==> j != id;
      SameWorkerOk(s, t, k);
    }
  }

  lemma SubmitKeeps(s: State, id: nat, key: Key, caller: Option<Key>)
    requires Inv(s) && Enabled(s, Submit(id, key, caller))
    ensures Inv(Apply(s, Submit(id, key, caller)))
  {
    hide QueueOk, JobOk, WorkerOk;
    var t := Apply(s, Submit(id, key, caller));
    SubmitWorkers(s, t, id, key, caller);
    forall o | o in t.calls ensures CallOk(t, o) { if o != id { assert CallOk(s, o); } }
    forall k | k in t.locks ensures LockOk(t, k) { assert LockOk(s, k); }
    ClosersStay(s, t);
  }

  lemma CancelKeeps(s: State, id: nat)
    requires Inv(s) && Enabled(s, Cancel(id))
    ensures Inv(Apply(s, Cancel(id)))
  {
    var t := Apply(s, Cancel(id));
    forall k | k in t.workers ensures WorkerOk(t, k) {
      assert WorkerOk(s, k);
      forall j | j in t.workers[k].accepted ensures JobOk(t, k, t.workers[k], j) {
        assert JobOk(s, k, s.workers[k], j);
      }
    }
    forall o | o in t.calls ensures CallOk(t, o) { assert CallOk(s, o); }
    forall k | k in t.locks ensures LockOk(t, k) { assert LockOk(s, k); }
    ClosersStay(s, t);
  }

  // ----- writer threads -----

  /** A writer step changes its own worker and at most the future of its current job. */
  lemma WriterOthers(s: State, t: State, key: Key, j: nat, k: Key)
    requires WorkerOk(s, k) && k != key && key in s.workers && j in s.calls && s.calls[j].key == key
    requires key in t.workers && t == s.(workers := s.workers[key := t.workers[key]], futures := t.futures)
    requires forall o {:trigger o in t.futures} :: o in s.futures && o != j ==>
               o in t.futures && t.futures[o] == s.futures[o]
    ensures WorkerOk(t, k)
  {
    hide QueueOk;
    forall o | JobOk(s, k, s.workers[k], o)
      ensures o in t.calls && t.calls[o] == s.calls[o] && o in t.futures && t.futures[o] == s.futures[o]
    {
      assert o != j;
      assert o in s.futures;
      assert o in t.futures;
    }
    assert t.workers[k] == s.workers[k];
    SameWorkerOk(s, t, k);
  }

  ghost predicate WriterChange(s: State, t: State, key: Key, j: nat) {
    && key in s.workers && key in t.workers
    && t == s.(workers := s.workers[key := t.workers[key]], futures := t.futures)
    && t.workers[key].calling == s.workers[key].calling
    && t.workers[key].accepted == s.workers[key].accepted
    && (HasStop(s.workers[key]) ==> HasStop(t.workers[key]))
    && (s.workers[key].stopped ==> t.workers[key].stopped)
    && (forall o {:trigger o in t.futures} :: o in s.futures ==>
          o in t.futures && (o != j ==> t.futures[o] == s.futures[o]))
  }

  lemma WriterRest(s: State, t: State, key: Key, j: nat)
    requires Inv(s) && WriterChange(s, t, key, j) && j in s.calls && s.calls[j].pc.Accepted?
    ensures CallsOk(t) && LocksOk(t) && ClosersOk(t)
  {
    hide WorkersOk, ClosersOk, HasStop;
    forall o | o in t.calls ensures CallOk(t, o) {
      assert CallOk(s, o);
      assert o in t.futures;
      assert o != j ==> t.futures[o] == s.futures[o];
    }
    forall k | k in t.locks ensures LockOk(t, k) { assert LockOk(s, k); }
    assert StopsKept(s, t) && NoFirstJob(s, t);
    ClosersStay(s, t);
  }

  lemma WriterKeeps(s: State, t: State, key: Key, j: nat)
    requires Inv(s) && WriterChange(s, t, key, j) && j in s.workers[key].accepted && WorkerOk(t, key)
    ensures Inv(t)
  {
    hide CallsOk, LocksOk, ClosersOk, QueueOk, HasStop;
    assert WorkerOk(s, key) && JobOk(s, key, s.workers[key], j);
    forall k | k in t.workers ensures WorkerOk(t, k) {
      assert WorkerOk(s, k);
      if k != key { WriterOthers(s, t, key, j, k); }
    }
    WriterRest(s, t, key, j);
  }

  lemma TakenIsAccepted(w: Worker)
    requires QueueOk(w) && !w.phase.Idle?
    ensures Current(w).Some? && Current(w).value in w.accepted && Current(w).value in w.taken
  {
    var j := w.taken[|w.taken| - 1];
    assert j in w.taken;
    assert j in w.taken + Jobs(w.queue);
  }

  /** Dequeuing a job: it is the oldest accepted job not yet taken. */
  lemma DequeueQueue(w: Worker, id: nat)
    requires QueueOk(w) && w.phase.Idle? && w.queue != [] && w.queue[0] == Job(id)
    ensures QueueOk(w.(queue := w.queue[1..], phase := Taken(id), taken := w.taken + [id]))
    ensures id in w.accepted && id !in w.taken
  {
    var w' := w.(queue := w.queue[1..], phase := Taken(id), taken := w.taken + [id]);
    assert Jobs(w.queue) == [id] + Jobs(w'.queue);
    assert w.accepted == w'.taken + Jobs(w'.queue);
    assert w.accepted[|w.taken|] == id;
    forall i | 0 <= i < |w.taken| ensures w.taken[i] != id { assert w.accepted[i] == w.taken[i]; }
    assert HasStop(w') ==> HasStop(w);
  }

  lemma DequeueJobKeeps(s: State, key: Key)
    requires Inv(s) && Enabled(s, Dequeue(key)) && s.workers[key].queue[0].Job?
    ensures Inv(Apply(s, Dequeue(key)))
  {
    var t := Apply(s, Dequeue(key));
    assert WorkerOk(s, key);
    var w, w' := s.workers[key], t.workers[key];
    var id := w.queue[0].id;
    DequeueQueue(w, id);
    assert HasStop(w) <==> HasStop(w') by {
      assert w.queue == [w.queue[0]] + w'.queue;
    }
    forall j | j in w'.accepted ensures JobOk(t, key, w', j) { assert JobOk(s, key, w, j); }
    WriterKeeps(s, t, key, id);
  }

  /** Consuming the stop: nothing is queued behind it and nothing is unresolved. */
  lemma DequeueStopKeeps(s: State, key: Key)
    requires Inv(s) && Enabled(s, Dequeue(key)) && s.workers[key].queue[0].Stop?
    ensures Inv(Apply(s, Dequeue(key)))
    ensures Apply(s, Dequeue(key)).workers[key].taken == Apply(s, Dequeue(key)).workers[key].accepted
  {
    var t := Apply(s, Dequeue(key));
    assert WorkerOk(s, key);
    var w, w' := s.workers[key], t.workers[key];
    JobsNoneAfterStop(w.queue);
    assert Jobs(w'.queue) == [];
    assert w.queue[0] in w.queue;
    assert QueueOk(w');
    forall j | j in w'.accepted ensures JobOk(t, key, w', j) { assert JobOk(s, key, w, j); }
    assert WorkerOk(t, key);
    hide QueueOk, JobOk;
    forall k | k in t.workers ensures WorkerOk(t, k) {
      assert WorkerOk(s, k);
      if k != key { DequeueStopOther(s, t, key, k); }
    }
    DequeueStopRest(s, t, key);
  }

  lemma DequeueStopOther(s: State, t: State, key: Key, k: Key)
    requires WorkerOk(s, k) && k != key && key in t.workers && t == SetWorker(s, key, t.workers[key])
    ensures WorkerOk(t, k)
  {
    hide QueueOk;
    SameWorkerOk(s, t, k);
  }

  lemma DequeueStopRest(s: State, t: State, key: Key)
    requires Inv(s) && key in s.workers && key in t.workers && t == SetWorker(s, key, t.workers[key])
    requires t.workers[key].stopped && t.workers[key].calling == s.workers[key].calling
    requires t.workers[key].accepted == s.workers[key].accepted
    ensures CallsOk(t) && LocksOk(t) && ClosersOk(t)
  {
    hide WorkersOk, ClosersOk;
    forall o | o in t.calls ensures CallOk(t, o) { assert CallOk(s, o); }
    forall k | k in t.locks ensures LockOk(t, k) { assert LockOk(s, k); }
    assert StopsKept(s, t) && NoFirstJob(s, t);
    ClosersStay(s, t);
  }

  /** The job in hand advances; the queue is untouched. */
  lemma PhaseKeeps(s: State, t: State, key: Key, phase: Phase)
    requires Inv(s) && key in s.workers && !s.workers[key].phase.Idle? && !phase.Idle?
    requires t == SetWorker(s, key, s.workers[key].(phase := phase)).(futures := t.futures)
    requires Current(s.workers[key].(phase := phase)) == Current(s.workers[key])
    requires s.workers[key].calling.None?
    requires var j := Current(s.workers[key]).value;
      t.futures.Keys == s.futures.Keys
      && (forall o {:trigger t.futures[o]} :: o in s.futures && o != j ==> t.futures[o] == s.futures[o])
      && (j in t.futures ==> PhaseFuture(t.workers[key], t.futures[j]))
    ensures Inv(t)
  {
    assert WorkerOk(s, key);
    var w, w' := s.workers[key], t.workers[key];
    TakenIsAccepted(w);
    var j := Current(w).value;
    assert QueueOk(w');
    forall o | o in w'.accepted ensures JobOk(t, key, w', o) { assert JobOk(s, key, w, o); }
    hide QueueOk, JobOk, CallsOk, LocksOk, ClosersOk;
    WriterKeeps(s, t, key, j);
  }

  lemma StartJobKeeps(s: State, key: Key)
    requires Inv(s) && Enabled(s, StartJob(key))
    ensures Inv(Apply(s, StartJob(key)))
  {
    var t := Apply(s, StartJob(key));
    var w, id := s.workers[key], s.workers[key].phase.job;
    if s.futures[id].Cancelled? {
      assert t == SetWorker(s, key, w.(phase := Skipped(id)));
      hide Inv, Enabled, Apply;
      PhaseKeeps(s, t, key, Skipped(id));
    } else {
      assert t == SetWorker(s, key, w.(phase := Executing(id))).(futures := s.futures[id := Running]);
      hide Inv, Enabled, Apply;
      assert t.futures.Keys == s.futures.Keys;
      PhaseKeeps(s, t, key, Executing(id));
    }
  }

  lemma ResolveKeeps(s: State, key: Key)
    requires Inv(s) && Enabled(s, Resolve(key))
    ensures Inv(Apply(s, Resolve(key)))
  {
    var t := Apply(s, Resolve(key));
    assert WorkerOk(s, key);
    TakenIsAccepted(s.workers[key]);
    assert JobOk(s, key, s.workers[key], s.workers[key].phase.job);
    PhaseKeeps(s, t, key, t.workers[key].phase);
  }

  lemma MarkResolvedKeeps(s: State, key: Key)
    requires Inv(s) && Enabled(s, MarkResolved(key))
    ensures Inv(Apply(s, MarkResolved(key)))
  {
    var t := Apply(s, MarkResolved(key));
    assert WorkerOk(s, key);
    var w, w' := s.workers[key], t.workers[key];
    TakenIsAccepted(w);
    assert QueueOk(w');
    forall o | o in w'.accepted ensures JobOk(t, key, w', o) { assert JobOk(s, key, w, o); }
    WriterKeeps(s, t, key, Current(w).value);
  }

  // ----- close -----

  lemma CloserMoves(s: State, t: State, c: nat)
    requires Inv(s) && c in t.closers && t == s.(closers := s.closers[c := t.closers[c]], closed := t.closed)
    requires s.closed ==> t.closed
    requires CloserOk(t, c)
    ensures Inv(t)
  {
    forall k | k in t.workers ensures WorkerOk(t, k) {
      assert WorkerOk(s, k);
      SameWorkerOk(s, t, k);
    }
    hide WorkersOk, ClosersOk;
    forall o | o in t.calls ensures CallOk(t, o) { assert CallOk(s, o); }
    forall k | k in t.locks ensures LockOk(t, k) { assert LockOk(s, k); }
    var m := s.(closed := t.closed);
    assert StopsKept(s, m) && NoFirstJob(s, m);
    ClosersStay(s, m);
    ClosersPlus(m, t, c);
  }

  lemma ClosersPlus(m: State, t: State, c: nat)
    requires ClosersOk(m) && c in t.closers && t == m.(closers := m.closers[c := t.closers[c]]) && CloserOk(t, c)
    ensures ClosersOk(t)
  {
    forall d | d in t.closers ensures CloserOk(t, d) {
      if d != c { assert CloserOk(m, d); }
    }
  }

  lemma SnapshotCovers(s: State, order: seq<Key>)
    requires s.closed && (set k | k in order) == s.workers.Keys
    ensures SnapshotOk(s, order, 0, 0)
  {
    forall k | k in order ensures k in s.workers { assert k in (set x | x in order); }
    forall k | k in s.workers ensures k in order { assert k in (set x | x in order); }
  }

  lemma CloserStepKeeps(s: State, step: Step)
    requires Inv(s) && Enabled(s, step)
    requires step.BeginClose? || step.SetClosed? || step.TakeSnapshot? || step.BeginJoin? || step.Join? || step.Return?
    ensures Inv(Apply(s, step))
  {
    var t := Apply(s, step);
    var c := step.c;
    if c in s.closers { assert CloserOk(s, c); }
    hide WorkersOk, CallsOk, LocksOk;
    if step.TakeSnapshot? { SnapshotCovers(s, step.order); }
    assert CloserOk(t, c);
    hide ClosersOk, SnapshotOk;
    CloserMoves(s, t, c);
  }

  /** Putting the stop on a quiescent queue. */
  lemma PutStopWorker(s: State, t: State, key: Key)
    requires WorkerOk(s, key) && s.closed && s.workers[key].inFlight == 0 && key in t.workers
    requires t == SetWorker(s, key, s.workers[key].(queue := s.workers[key].queue + [Stop])).(closers := t.closers)
    ensures WorkerOk(t, key)
  {
    var w, w' := s.workers[key], t.workers[key];
    JobsAppend(w.queue, Stop);
    assert Jobs(w.queue) == [];
    NoJobsAllStop(w.queue);
    assert QueueOk(w');
    forall o | o in w'.accepted ensures JobOk(t, key, w', o) { assert JobOk(s, key, w, o); }
  }

  lemma {:induction false} NoJobsAllStop(q: seq<Item>)
    requires Jobs(q) == []
    ensures forall i :: 0 <= i < |q| ==> q[i].Stop?
  {
    if q != [] {
      NoJobsAllStop(q[1..]);
      forall i | 0 <= i < |q| ensures q[i].Stop? { if i > 0 { assert q[i] == q[1..][i - 1]; } }
    }
  }

  lemma PutStopKeeps(s: State, c: nat)
    requires Inv(s) && Enabled(s, PutStop(c))
    ensures Inv(Apply(s, PutStop(c)))
  {
    hide QueueOk;
    var t := Apply(s, PutStop(c));
    var Stopping(snapshot, next) := s.closers[c];
    var key := snapshot[next];
    assert WorkerOk(s, key) && CloserOk(s, c);
    PutStopWorker(s, t, key);
    var m := s.(workers := t.workers);
    forall k | k in t.workers ensures WorkerOk(t, k) {
      assert WorkerOk(s, k);
      if k != key { SameWorkerOk(s, t, k); }
    }
    hide WorkersOk, ClosersOk;
    forall o | o in t.calls ensures CallOk(t, o) { assert CallOk(s, o); }
    forall k | k in t.locks ensures LockOk(t, k) { assert LockOk(s, k); }
    PutStopClosers(s, t, c);
  }

  lemma PutStopClosers(s: State, t: State, c: nat)
    requires ClosersOk(s) && Enabled(s, PutStop(c)) && t == Apply(s, PutStop(c))
    ensures ClosersOk(t)
  {
    var Stopping(snapshot, next) := s.closers[c];
    var key := snapshot[next];
    assert CloserOk(s, c);
    var m := s.(workers := t.workers);
    assert HasStop(m.workers[key]) by { assert Stop in m.workers[key].queue; }
    assert StopsKept(s, m) && NoFirstJob(s, m);
    ClosersStay(s, m);
    assert CloserOk(m, c);
    assert t == m.(closers := m.closers[c := Stopping(snapshot, next + 1)]);
    assert CloserOk(t, c) by { hide ClosersOk, StopsKept, NoFirstJob, Enabled; }
    hide CloserOk, StopsKept, NoFirstJob, Enabled;
    ClosersPlus(m, t, c);
  }

  // ----- every run -----

  lemma StepKeeps(s: State, step: Step)
    requires Inv(s) && Enabled(s, step)
    ensures Inv(Apply(s, step))
  {
    hide Inv, Enabled, Apply;
    match step
    case Submit(id, key, caller) => SubmitKeeps(s, id, key, caller);
    case ReadWorker(id) => ReadWorkerKeeps(s, id);
    case CheckClosed(id) => CheckClosedKeeps(s, id);
    case FindWorker(id) => FindWorkerKeeps(s, id);
    case TakeLock(id) => TakeLockKeeps(s, id);
    case Create(id, ok) => CreateKeeps(s, id, ok);
    case Register(id) => RegisterKeeps(s, id);
    case Enqueue(id) => EnqueueKeeps(s, id);
    case Cancel(id) => CancelKeeps(s, id);
    case Dequeue(key) =>
      DequeueHead(s, key);
      if s.workers[key].queue[0].Job? { DequeueJobKeeps(s, key); } else { DequeueStopKeeps(s, key); }
    case StartJob(key) => StartJobKeeps(s, key);
    case Resolve(key) => ResolveKeeps(s, key);
    case MarkResolved(key) => MarkResolvedKeeps(s, key);
    case PutStop(c) => PutStopKeeps(s, c);
    case _ => CloserStepKeeps(s, step);
  }

  lemma DequeueHead(s: State, key: Key)
    requires Enabled(s, Dequeue(key))
    ensures key in s.workers && s.workers[key].queue != []
  {
  }

  /** The invariant holds in every state any interleaving reaches. */
  lemma {:induction false} RunInv(steps: seq<Step>, s: State)
    requires Run(steps, s)
    ensures Inv(s)
  {
    if steps == [] {
      InitInv();
    } else {
      var k := |steps| - 1;
      var r := After(steps[..k]).value;
      RunInv(steps[..k], r);
      StepKeeps(r, steps[k]);
    }
  }
}
