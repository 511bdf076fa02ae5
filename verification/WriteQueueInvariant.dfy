/** What every interleaving of the write queue keeps. */
module WriteQueueInvariant {
  import opened Wrappers
  import opened Ordering
  import opened WriteQueue

  ghost predicate HasStop(w: Worker) {
    w.stopped || Stop in w.queue
  }

  function Current(w: Worker): Option<nat> {
    match w.phase
    case Idle => None
    case Taken(j) => Some(j)
    case Executing(j) => Some(j)
    case CallingBack(j) => Some(j)
    case Skipped(j) => Some(j)
  }

  /** One worker's own bookkeeping. */
  ghost predicate QueueOk(w: Worker) {
    && (forall i, j :: 0 <= i < j < |w.queue| && w.queue[i].Stop? ==> w.queue[j].Stop?)
    && w.inFlight == |Jobs(w.queue)| + (if w.phase.Idle? then 0 else 1)
    && w.accepted == w.taken + Jobs(w.queue)
    && Distinct(w.accepted)
    && (!w.phase.Idle? ==> w.taken != [] && Current(w) == Some(w.taken[|w.taken| - 1]))
    && (HasStop(w) ==> w.inFlight == 0)
  }

  ghost predicate Settled(f: FutureState) {
    f.Resolved? || f.Cancelled?
  }

  ghost predicate PhaseFuture(w: Worker, f: FutureState) {
    match w.phase
    case Idle => true
    case Taken(_) => f.Pending? || f.Cancelled?
    case Executing(_) => f.Running?
    case CallingBack(_) => f.Resolved?
    case Skipped(_) => f.Cancelled?
  }

  /** The future of one accepted job is where the job is. */
  ghost predicate JobOk(s: State, key: Key, w: Worker, id: nat) {
    && id in s.calls && s.calls[id].pc == Accepted && s.calls[id].key == key && id in s.futures
    && (id in w.taken && Some(id) != Current(w) ==> Settled(s.futures[id]))
    && (Some(id) == Current(w) ==> PhaseFuture(w, s.futures[id]))
    && (id !in w.taken ==> s.futures[id].Pending? || s.futures[id].Cancelled?)
  }

  /** Only a thread inside a job or its callbacks makes submit calls. */
  ghost predicate InJob(w: Worker) {
    w.phase.Executing? || w.phase.CallingBack?
  }

  ghost predicate CallingOk(s: State, key: Key, id: nat) {
    id in s.calls && s.calls[id].caller == Some(key) && !s.calls[id].pc.Ended()
  }

  ghost predicate WorkerOk(s: State, key: Key) {
    key in s.workers &&
    var w := s.workers[key];
    && QueueOk(w)
    && (HasStop(w) ==> s.closed)
    && (w.calling.Some? ==> InJob(w) && CallingOk(s, key, w.calling.value))
    && (forall id {:trigger JobOk(s, key, w, id)} :: id in w.accepted ==> JobOk(s, key, w, id))
  }

  ghost predicate Reentrant(pc: Pc) {
    match pc
    case KnowsReentrancy(r) => r
    case WantsWorker(r) => r
    case WantsLock(r) => r
    case HoldsLock(r) => r
    case StartedWorker(r) => r
    case HasWorker(r) => r
    case _ => false
  }

  ghost predicate LockHolder(pc: Pc) {
    pc.HoldsLock? || pc.StartedWorker?
  }

  ghost predicate CallOk(s: State, id: nat) {
    id in s.calls && id in s.futures &&
    var call := s.calls[id];
    && (call.caller.Some? && !call.pc.Ended() ==>
          call.caller.value in s.workers && s.workers[call.caller.value].calling == Some(id))
    && (call.pc.HasWorker? || call.pc.Accepted? ==> call.key in s.workers)
    && (Reentrant(call.pc) ==> call.caller == Some(call.key) && call.key in s.workers)
    && (LockHolder(call.pc) ==> call.key in s.locks && s.locks[call.key] == id)
    && (call.pc.StartedWorker? ==> call.key !in s.workers)
    && (!call.pc.Ended() ==> s.futures[id].Pending?)
    && (call.pc.Refused? ==> s.futures[id].Rejected?)
    && (call.pc.Accepted? ==> call.key in s.workers && id in s.workers[call.key].accepted)
  }

  ghost predicate LockOk(s: State, key: Key) {
    && key in s.locks && s.locks[key] in s.calls
    && s.calls[s.locks[key]].key == key && LockHolder(s.calls[s.locks[key]].pc)
  }

  ghost predicate SnapshotOk(s: State, snapshot: seq<Key>, stopped: nat, joined: nat) {
    && s.closed && stopped <= |snapshot| && joined <= stopped
    && (forall k {:trigger k in snapshot} :: k in snapshot ==> k in s.workers)
    && (forall k {:trigger k in s.workers} :: k in s.workers && s.workers[k].accepted != [] ==> k in snapshot)
    && (forall i {:trigger snapshot[i]} :: 0 <= i < stopped ==>
          snapshot[i] in s.workers && HasStop(s.workers[snapshot[i]]))
    && (forall i {:trigger snapshot[i]} :: 0 <= i < joined ==>
          snapshot[i] in s.workers && s.workers[snapshot[i]].stopped)
  }

  ghost predicate CloserOk(s: State, c: nat) {
    c in s.closers &&
    match s.closers[c]
    case Closing => true
    case FlagSet => s.closed
    case Stopping(snapshot, next) => SnapshotOk(s, snapshot, next, 0)
    case Joining(snapshot, next) => SnapshotOk(s, snapshot, |snapshot|, next)
    case Returned(snapshot) => SnapshotOk(s, snapshot, |snapshot|, |snapshot|)
  }

  ghost predicate WorkersOk(s: State) {
    forall k {:trigger WorkerOk(s, k)} :: k in s.workers ==> WorkerOk(s, k)
  }

  ghost predicate CallsOk(s: State) {
    forall id {:trigger CallOk(s, id)} :: id in s.calls ==> CallOk(s, id)
  }

  ghost predicate LocksOk(s: State) {
    forall k {:trigger LockOk(s, k)} :: k in s.locks ==> LockOk(s, k)
  }

  ghost predicate ClosersOk(s: State) {
    forall c {:trigger CloserOk(s, c)} :: c in s.closers ==> CloserOk(s, c)
  }

  ghost predicate Inv(s: State) {
    WorkersOk(s) && CallsOk(s) && LocksOk(s) && ClosersOk(s)
  }

  lemma InitInv()
    ensures Inv(INITIAL)
  {
  }

  // ----- queues -----

  lemma {:induction false} JobsAppend(q: seq<Item>, item: Item)
    ensures Jobs(q + [item]) == Jobs(q) + (match item case Job(id) => [id] case Stop => [])
  {
    if q == [] {
      assert q + [item] == [item];
      assert Jobs([item][1..]) == [];
    } else {
      var one := match item case Job(id) => [id] case Stop => [];
      JobsAppend(q[1..], item);
      JobsFront(q);
      JobsFront(q + [item]);
      hide Jobs;
      assert (q + [item])[1..] == q[1..] + [item];
      assert Front(q[0]) + (Jobs(q[1..]) + one) == (Front(q[0]) + Jobs(q[1..])) + one;
    }
  }

  function Front(item: Item): seq<nat> {
    match item case Job(id) => [id] case Stop => []
  }

  lemma JobsFront(q: seq<Item>)
    requires q != []
    ensures Jobs(q) == Front(q[0]) + Jobs(q[1..])
  {
  }

  lemma {:induction false} JobsNoneAfterStop(q: seq<Item>)
    requires forall i, j :: 0 <= i < j < |q| && q[i].Stop? ==> q[j].Stop?
    requires q != [] && q[0].Stop?
    ensures Jobs(q) == []
  {
    if |q| > 1 {
      assert q[1] == q[1..][0];
      JobsNoneAfterStop(q[1..]);
    }
  }

  // ----- what one step leaves alone -----

  /** Of worker `key` at most the call its thread is inside has changed. */
  ghost predicate SameWorker(s: State, t: State, key: Key) {
    && key in s.workers && key in t.workers
    && t.workers[key] == s.workers[key].(calling := t.workers[key].calling)
    && (s.closed ==> t.closed)
    && (forall id {:trigger JobOk(s, key, s.workers[key], id)} :: JobOk(s, key, s.workers[key], id) ==>
          id in t.calls && t.calls[id] == s.calls[id] && id in t.futures && t.futures[id] == s.futures[id])
    && (t.workers[key].calling.Some? ==>
          InJob(t.workers[key]) && CallingOk(t, key, t.workers[key].calling.value))
  }

  lemma SameWorkerOk(s: State, t: State, key: Key)
    requires WorkerOk(s, key) && SameWorker(s, t, key)
    ensures WorkerOk(t, key)
  {
    var w, w' := s.workers[key], t.workers[key];
    assert QueueOk(w');
    forall id | id in w'.accepted ensures JobOk(t, key, w', id) { assert JobOk(s, key, w, id); }
  }

  /** No worker disappears or loses its stop mark. */
  ghost predicate StopsKept(s: State, t: State) {
    forall k {:trigger k in s.workers} :: k in s.workers ==>
      && k in t.workers
      && (HasStop(s.workers[k]) ==> HasStop(t.workers[k]))
      && (s.workers[k].stopped ==> t.workers[k].stopped)
  }

  /** No worker receives its first job. */
  ghost predicate NoFirstJob(s: State, t: State) {
    forall k {:trigger k in t.workers} :: k in t.workers && t.workers[k].accepted != [] ==>
      k in s.workers && s.workers[k].accepted != []
  }

  lemma SnapshotStays(s: State, t: State, snapshot: seq<Key>, stopped: nat, joined: nat)
    requires SnapshotOk(s, snapshot, stopped, joined) && t.closed && StopsKept(s, t) && NoFirstJob(s, t)
    ensures SnapshotOk(t, snapshot, stopped, joined)
  {
  }

  /** `close` calls in progress notice only first jobs and lost stop marks. */
  lemma ClosersStay(s: State, t: State)
    requires ClosersOk(s) && t.closers == s.closers && (s.closed ==> t.closed)
    requires StopsKept(s, t) && (s.closed ==> NoFirstJob(s, t))
    ensures ClosersOk(t)
  {
    forall c | c in t.closers ensures CloserOk(t, c) {
      assert CloserOk(s, c);
      match s.closers[c]
      case Stopping(snapshot, next) => SnapshotStays(s, t, snapshot, next, 0);
      case Joining(snapshot, next) => SnapshotStays(s, t, snapshot, |snapshot|, next);
      case Returned(snapshot) => SnapshotStays(s, t, snapshot, |snapshot|, |snapshot|);
      case _ =>
    }
  }
}
