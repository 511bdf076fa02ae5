/**
 The per-repository write queue as interleaved steps, one step per lock section or atomic
 read: submitting callers, writer threads running jobs and their completion callbacks,
 clients cancelling futures, and any number of untimed `close` calls.

 `accepted` and `taken` record, per worker, the jobs enqueued and dequeued so far.
 */
module WriteQueue {
  import opened Wrappers

  type Key = string

  datatype Item = Job(id: nat) | Stop

  datatype FutureState = Pending | Running | Resolved | Cancelled | Rejected

  /** Where a writer thread is in its loop. */
  datatype Phase =
    | Idle
    | Taken(job: nat)      // dequeued, before set_running_or_notify_cancel
    | Executing(job: nat)  // inside fn(conn)
    | CallingBack(job: nat) // inside set_result / set_exception
    | Skipped(job: nat)    // found cancelled

  datatype Worker = Worker(
    queue: seq<Item>,
    inFlight: int,
    phase: Phase,
    calling: Option<nat>,  // the submit call this thread is inside, if any
    stopped: bool,
    accepted: seq<nat>,
    taken: seq<nat>)

  /** Where a submit call is. */
  datatype Pc =
    | Entered
    | KnowsReentrancy(reentrant: bool)
    | WantsWorker(reentrant: bool)
    | WantsLock(reentrant: bool)
    | HoldsLock(reentrant: bool)
    | StartedWorker(reentrant: bool)
    | HasWorker(reentrant: bool)
    | Accepted
    | Refused
  {
    predicate Ended() { Accepted? || Refused? }
  }

  /** A submit call; `caller` is the key of the writer thread making it, if it is one. */
  datatype Call = Call(key: Key, caller: Option<Key>, pc: Pc)

  datatype Closer =
    | Closing
    | FlagSet
    | Stopping(snapshot: seq<Key>, next: nat)
    | Joining(snapshot: seq<Key>, next: nat)
    | Returned(snapshot: seq<Key>)

  datatype State = State(
    closed: bool,
    workers: map<Key, Worker>,
    locks: map<Key, nat>,     // creation locks held, and by which call
    calls: map<nat, Call>,
    futures: map<nat, FutureState>,
    closers: map<nat, Closer>)

  datatype Step =
    | Submit(id: nat, key: Key, caller: Option<Key>)
    | ReadWorker(id: nat)
    | CheckClosed(id: nat)
    | FindWorker(id: nat)
    | TakeLock(id: nat)
    | Create(id: nat, ok: bool)
    | Register(id: nat)
    | Enqueue(id: nat)
    | Cancel(id: nat)
    | Dequeue(key: Key)
    | StartJob(key: Key)
    | Resolve(key: Key)
    | MarkResolved(key: Key)
    | BeginClose(c: nat)
    | SetClosed(c: nat)
    | TakeSnapshot(c: nat, order: seq<Key>)
    | PutStop(c: nat)
    | BeginJoin(c: nat)
    | Join(c: nat)
    | Return(c: nat)

  const INITIAL := State(false, map[], map[], map[], map[], map[])

  const FRESH_WORKER := Worker([], 0, Idle, None, false, [], [])

  function Jobs(queue: seq<Item>): seq<nat> {
    if queue == [] then []
    else (match queue[0] case Job(id) => [id] case Stop => []) + Jobs(queue[1..])
  }

  /** The writer thread is not inside a submit call. */
  predicate Free(s: State, key: Key) {
    key in s.workers && s.workers[key].calling.None?
  }

  predicate Enabled(s: State, step: Step) {
    match step
    case Submit(id, key, caller) =>
      && id !in s.calls && id !in s.futures
      && (caller.Some? ==>
            && Free(s, caller.value)
            && (s.workers[caller.value].phase.Executing? || s.workers[caller.value].phase.CallingBack?))
    case ReadWorker(id) => id in s.calls && s.calls[id].pc.Entered?
    case CheckClosed(id) => id in s.calls && s.calls[id].pc.KnowsReentrancy?
    case FindWorker(id) => id in s.calls && s.calls[id].pc.WantsWorker?
    case TakeLock(id) => id in s.calls && s.calls[id].pc.WantsLock? && s.calls[id].key !in s.locks
    case Create(id, ok) => id in s.calls && s.calls[id].pc.HoldsLock?
    case Register(id) => id in s.calls && s.calls[id].pc.StartedWorker?
    case Enqueue(id) => id in s.calls && s.calls[id].pc.HasWorker? && s.calls[id].key in s.workers
    case Cancel(id) => id in s.calls && s.calls[id].pc.Accepted? && id in s.futures && s.futures[id].Pending?
    case Dequeue(key) =>
      Free(s, key) && s.workers[key].phase.Idle? && !s.workers[key].stopped && s.workers[key].queue != []
    case StartJob(key) => Free(s, key) && s.workers[key].phase.Taken? && s.workers[key].phase.job in s.futures
    case Resolve(key) => Free(s, key) && s.workers[key].phase.Executing?
    case MarkResolved(key) => Free(s, key) && (s.workers[key].phase.CallingBack? || s.workers[key].phase.Skipped?)
    case BeginClose(c) => c !in s.closers
    case SetClosed(c) => c in s.closers && s.closers[c].Closing?
    case TakeSnapshot(c, order) =>
      && c in s.closers && s.closers[c].FlagSet?
      && (set k | k in order) == s.workers.Keys && |order| == |s.workers|
    case PutStop(c) =>
      && c in s.closers && s.closers[c].Stopping?
      && var Stopping(snapshot, next) := s.closers[c];
         next < |snapshot| && snapshot[next] in s.workers && s.workers[snapshot[next]].inFlight == 0
    case BeginJoin(c) => c in s.closers && s.closers[c].Stopping? && s.closers[c].next == |s.closers[c].snapshot|
    case Join(c) =>
      && c in s.closers && s.closers[c].Joining?
      && var Joining(snapshot, next) := s.closers[c];
         next < |snapshot| && snapshot[next] in s.workers && s.workers[snapshot[next]].stopped
    case Return(c) => c in s.closers && s.closers[c].Joining? && s.closers[c].next == |s.closers[c].snapshot|
  }

  /** A call moves on. */
  function Move(s: State, id: nat, pc: Pc): State
    requires id in s.calls
  {
    s.(calls := s.calls[id := s.calls[id].(pc := pc)])
  }

  /** The thread making the call, about to leave it. */
  function FreeCaller(s: State, id: nat): State
    requires id in s.calls
  {
    match s.calls[id].caller
    case Some(k) => if k in s.workers then SetWorker(s, k, s.workers[k].(calling := None)) else s
    case None => s
  }

  /** A call ends; if a writer thread was making it, that thread is free again. */
  function Finish(s: State, id: nat, pc: Pc): State
    requires id in s.calls
  {
    Move(FreeCaller(s, id), id, pc)
  }

  function Refuse(s: State, id: nat): State
    requires id in s.calls
  {
    Finish(s, id, Refused).(futures := s.futures[id := Rejected])
  }

  function SetWorker(s: State, key: Key, w: Worker): State {
    s.(workers := s.workers[key := w])
  }

  function PutJob(w: Worker, id: nat): Worker {
    w.(inFlight := w.inFlight + 1, queue := w.queue + [Job(id)], accepted := w.accepted + [id])
  }

  function AcceptJob(s: State, id: nat): State
    requires id in s.calls && s.calls[id].key in s.workers
  {
    var key := s.calls[id].key;
    var freed := FreeCaller(s, id);
    SetWorker(Move(freed, id, Accepted), key, PutJob(freed.workers[key], id))
  }

  function Unlock(s: State, key: Key): State {
    s.(locks := s.locks - {key})
  }

  function ApplyCall(s: State, step: Step): State
    requires Enabled(s, step)
    requires step.ReadWorker? || step.CheckClosed? || step.FindWorker? || step.TakeLock? || step.Create?
          || step.Register? || step.Enqueue?
  {
    var id := step.id;
    var call := s.calls[id];
    match step
    case ReadWorker(_) =>
      Move(s, id, KnowsReentrancy(call.key in s.workers && call.caller == Some(call.key)))
    case CheckClosed(_) =>
      if s.closed && !call.pc.reentrant then Refuse(s, id) else Move(s, id, WantsWorker(call.pc.reentrant))
    case FindWorker(_) =>
      Move(s, id, if call.key in s.workers then HasWorker(call.pc.reentrant) else WantsLock(call.pc.reentrant))
    case TakeLock(_) =>
      Move(s, id, HoldsLock(call.pc.reentrant)).(locks := s.locks[call.key := id])
    case Create(_, ok) =>
      if call.key in s.workers then Unlock(Move(s, id, HasWorker(call.pc.reentrant)), call.key)
      else if !ok then Unlock(Refuse(s, id), call.key)
      else Move(s, id, StartedWorker(call.pc.reentrant))
    case Register(_) =>
      SetWorker(Unlock(Move(s, id, HasWorker(call.pc.reentrant)), call.key), call.key, FRESH_WORKER)
    case Enqueue(_) =>
      if s.closed && !call.pc.reentrant then Refuse(s, id) else AcceptJob(s, id)
  }

  function ApplyWriter(s: State, step: Step): State
    requires Enabled(s, step)
    requires step.Dequeue? || step.StartJob? || step.Resolve? || step.MarkResolved?
  {
    var key := step.key;
    var w := s.workers[key];
    match step
    case Dequeue(_) =>
      (match w.queue[0]
       case Stop => SetWorker(s, key, w.(queue := w.queue[1..], stopped := true))
       case Job(id) => SetWorker(s, key, w.(queue := w.queue[1..], phase := Taken(id), taken := w.taken + [id])))
    case StartJob(_) =>
      var id := w.phase.job;
      if s.futures[id].Cancelled? then SetWorker(s, key, w.(phase := Skipped(id)))
      else SetWorker(s, key, w.(phase := Executing(id))).(futures := s.futures[id := Running])
    case Resolve(_) =>
      var id := w.phase.job;
      SetWorker(s, key, w.(phase := CallingBack(id))).(futures := s.futures[id := Resolved])
    case MarkResolved(_) =>
      SetWorker(s, key, w.(phase := Idle, inFlight := w.inFlight - 1))
  }

  function SetCloser(s: State, c: nat, closer: Closer): State {
    s.(closers := s.closers[c := closer])
  }

  function ApplyCloser(s: State, step: Step): State
    requires Enabled(s, step)
    requires step.BeginClose? || step.SetClosed? || step.TakeSnapshot? || step.PutStop? || step.BeginJoin?
          || step.Join? || step.Return?
  {
    match step
    case BeginClose(c) => SetCloser(s, c, Closing)
    case SetClosed(c) => SetCloser(s, c, FlagSet).(closed := true)
    case TakeSnapshot(c, order) => SetCloser(s, c, Stopping(order, 0))
    case PutStop(c) =>
      var Stopping(snapshot, next) := s.closers[c];
      var w := s.workers[snapshot[next]];
      SetWorker(SetCloser(s, c, Stopping(snapshot, next + 1)), snapshot[next], w.(queue := w.queue + [Stop]))
    case BeginJoin(c) => SetCloser(s, c, Joining(s.closers[c].snapshot, 0))
    case Join(c) => SetCloser(s, c, Joining(s.closers[c].snapshot, s.closers[c].next + 1))
    case Return(c) => SetCloser(s, c, Returned(s.closers[c].snapshot))
  }

  function Apply(s: State, step: Step): State
    requires Enabled(s, step)
  {
    match step
    case Submit(id, key, caller) =>
      var s' := s.(calls := s.calls[id := Call(key, caller, Entered)], futures := s.futures[id := Pending]);
      (match caller
       case Some(k) => SetWorker(s', k, s.workers[k].(calling := Some(id)))
       case None => s')
    case Cancel(id) => s.(futures := s.futures[id := Cancelled])
    case Dequeue(_) => ApplyWriter(s, step)
    case StartJob(_) => ApplyWriter(s, step)
    case Resolve(_) => ApplyWriter(s, step)
    case MarkResolved(_) => ApplyWriter(s, step)
    case BeginClose(_) => ApplyCloser(s, step)
    case SetClosed(_) => ApplyCloser(s, step)
    case TakeSnapshot(_, _) => ApplyCloser(s, step)
    case PutStop(_) => ApplyCloser(s, step)
    case BeginJoin(_) => ApplyCloser(s, step)
    case Join(_) => ApplyCloser(s, step)
    case Return(_) => ApplyCloser(s, step)
    case _ => ApplyCall(s, step)
  }

  /** The state an interleaving reaches, if all its steps are possible. */
  function After(steps: seq<Step>): Option<State>
    decreases |steps|
  {
    if steps == [] then Some(INITIAL)
    else
      var k := |steps| - 1;
      match After(steps[..k])
      case Some(s) => if Enabled(s, steps[k]) then Some(Apply(s, steps[k])) else None
      case None => None
  }

  ghost predicate Run(steps: seq<Step>, s: State) {
    After(steps) == Some(s)
  }

  /** The jobs an interleaving accepted for one repository, in order of acceptance. */
  function AcceptedBy(steps: seq<Step>, key: Key): seq<nat>
    requires After(steps).Some?
    decreases |steps|
  {
    if steps == [] then []
    else
      var k := |steps| - 1;
      var s := After(steps[..k]).value;
      AcceptedBy(steps[..k], key) +
      (match steps[k]
       case Enqueue(id) => if s.calls[id].key == key && !(s.closed && !s.calls[id].pc.reentrant) then [id] else []
       case _ => [])
  }

  /** The jobs its writer thread dequeued, in order. */
  function TakenBy(steps: seq<Step>, key: Key): seq<nat>
    requires After(steps).Some?
    decreases |steps|
  {
    if steps == [] then []
    else
      var k := |steps| - 1;
      var s := After(steps[..k]).value;
      TakenBy(steps[..k], key) +
      (match steps[k]
       case Dequeue(other) => if other == key then Jobs([s.workers[key].queue[0]]) else []
       case _ => [])
  }
}
