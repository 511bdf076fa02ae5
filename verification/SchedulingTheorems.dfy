/** What every run of the enrichment scheduler keeps. */
module SchedulingTheorems {
  import opened Wrappers
  import opened Scheduling

  // ----- every event keeps the invariant -----

  lemma ClearKeeps(d: Delays, s: State, r: Repo, q: Repo)
    requires OldTokens(s) && TimingInv(d, s, q) && TokenInv(s, q)
    requires r in s.quiet ==> r in s.quietTokens && s.quiet[r].token == s.quietTokens[r]
    requires r in s.maxWait ==> r in s.maxTokens && s.maxWait[r].token == s.maxTokens[r]
    requires TokenInv(s, r)
    ensures OldTokens(ClearTiming(s, r)) && TimingInv(d, ClearTiming(s, r), q) && TokenInv(ClearTiming(s, r), q)
  {
  }

  lemma FireKeeps(d: Delays, s: State, r: Repo, q: Repo)
    requires OldTokens(s) && RepoInv(d, s, r) && RepoInv(d, s, q)
    ensures OldTokens(Fire(s, r)) && RepoInv(d, Fire(s, r), q)
  {
    if r !in s.running { ClearKeeps(d, s, r, q); }
  }

  lemma StartClockKeeps(d: Delays, s: State, r: Repo, now: int, q: Repo)
    requires OldTokens(s) && RepoInv(d, s, r) && RepoInv(d, s, q)
    ensures var t := StartClock(s, r, now);
      && OldTokens(t) && PassInv(t, q) && TokenInv(t, q) && (q != r ==> TimingInv(d, t, q))
      && t.quiet == s.quiet && t.maxWait == s.maxWait && t.quietTokens == s.quietTokens
      && (r in s.first ==> t == s) && (r !in s.first ==> t.first[r] == now)
  {
  }

  lemma EditKeeps(d: Delays, s: State, r: Repo, now: int, q: Repo)
    requires OldTokens(s) && RepoInv(d, s, r) && RepoInv(d, s, q)
    ensures OldTokens(Edited(d, s, r, now)) && RepoInv(d, Edited(d, s, r, now), q)
  {
    var t := StartClock(s, r, now);
    StartClockKeeps(d, s, r, now, q);
    StartClockKeeps(d, s, r, now, r);
    if now - t.first[r] >= d.maxWait {
      ClearedClock(d, s, t, r, now, q);
      ClearedClock(d, s, t, r, now, r);
      FireKeeps(d, ClearTiming(t, r), r, q);
    }
  }

  lemma ClearedClock(d: Delays, s: State, t: State, r: Repo, now: int, q: Repo)
    requires OldTokens(s) && RepoInv(d, s, r) && RepoInv(d, s, q) && t == StartClock(s, r, now)
    ensures OldTokens(ClearTiming(t, r)) && RepoInv(d, ClearTiming(t, r), q)
  {
    StartClockKeeps(d, s, r, now, q);
    StartClockKeeps(d, s, r, now, r);
  }

  lemma MaxWaitKeeps(d: Delays, s: State, r: Repo, token: nat, now: int, q: Repo)
    requires OldTokens(s) && RepoInv(d, s, r) && RepoInv(d, s, q)
    ensures OldTokens(MaxWaitElapsed(d, s, r, token, now)) && RepoInv(d, MaxWaitElapsed(d, s, r, token, now), q)
  {
    if r in s.maxTokens && s.maxTokens[r] == token && d.maxWait - (now - s.first[r]) <= 0 {
      var popped := ClearTiming(s.(maxWait := s.maxWait - {r}), r);
      assert OldTokens(popped) && RepoInv(d, popped, r) && RepoInv(d, popped, q);
      FireKeeps(d, popped, r, q);
    }
  }

  lemma FinishKeeps(d: Delays, s: State, r: Repo, q: Repo)
    requires OldTokens(s) && RepoInv(d, s, r) && RepoInv(d, s, q) && s.finished[r] < s.started[r]
    ensures OldTokens(FinishPass(s, r)) && RepoInv(d, FinishPass(s, r), q)
  {
    if r in s.pending {
      var ended := s.(running := s.running - {r}, finished := s.finished + multiset{r}, pending := s.pending - {r});
      assert RepoInv(d, ended, r) && RepoInv(d, ended, q);
      FireKeeps(d, ended, r, q);
    }
  }

  lemma ApplyKeeps(d: Delays, s: State, e: Event, q: Repo)
    requires OldTokens(s) && RepoInv(d, s, e.repo) && RepoInv(d, s, q) && Enabled(s, e)
    ensures OldTokens(Apply(d, s, e)) && RepoInv(d, Apply(d, s, e), q)
  {
    match e
    case Trigger(r) => FireKeeps(d, s, r, q);
    case Edit(r, now) => EditKeeps(d, s, r, now, q);
    case QuietCallback(r, token) =>
      if r in s.quietTokens && s.quietTokens[r] == token {
        ClearKeeps(d, s, r, q);
        ClearKeeps(d, s, r, r);
        FireKeeps(d, ClearTiming(s, r), r, q);
      }
    case MaxWaitCallback(r, token, now) => MaxWaitKeeps(d, s, r, token, now, q);
    case PassEnds(r) => FinishKeeps(d, s, r, q);
  }

  lemma StepInv(d: Delays, s: State, e: Event)
    requires Inv(d, s) && Enabled(s, e)
    ensures Inv(d, Apply(d, s, e))
  {
    hide Apply, Enabled, RepoInv, OldTokens;
    ApplyKeeps(d, s, e, e.repo);
    forall q ensures RepoInv(d, Apply(d, s, e), q) {
      assert RepoInv(d, s, e.repo) && RepoInv(d, s, q);
      ApplyKeeps(d, s, e, q);
    }
  }

  lemma {:induction false} RunInv(d: Delays, s: State, events: seq<Event>)
    requires Inv(d, s) && Run(d, s, events).Some?
    ensures Inv(d, Run(d, s, events).value)
  {
    hide Apply, Enabled, Inv;
    if events != [] {
      RunInv(d, s, events[..|events| - 1]);
      StepInv(d, Run(d, s, events[..|events| - 1]).value, events[|events| - 1]);
    }
  }

  lemma IdleInv(d: Delays)
    ensures Inv(d, IDLE)
  {
  }

  // ----- single flight -----

  /** At every release of the lock: at most one active pass per repository, and nothing pends without one. */
  lemma SingleFlight(d: Delays, events: seq<Event>, r: Repo)
    requires Run(d, IDLE, events).Some?
    ensures var s := Run(d, IDLE, events).value;
      && s.finished[r] <= s.started[r] <= s.finished[r] + 1
      && (s.started[r] == s.finished[r] + 1 <==> r in s.running)
      && (r in s.pending ==> r in s.running)
  {
    IdleInv(d);
    RunInv(d, IDLE, events);
    assert RepoInv(d, Run(d, IDLE, events).value, r);
  }

  // ----- coalescing -----

  /** Everything the state says about one repository. */
  datatype View = View(
    running: bool,
    pending: bool,
    started: nat,
    finished: nat,
    quiet: Option<Timer>,
    maxWait: Option<Timer>,
    quietToken: Option<nat>,
    maxToken: Option<nat>,
    first: Option<int>)

  function At<V>(m: map<Repo, V>, r: Repo): Option<V> {
    if r in m then Some(m[r]) else None
  }

  function ViewOf(s: State, r: Repo): View {
    View(r in s.running, r in s.pending, s.started[r], s.finished[r], At(s.quiet, r), At(s.maxWait, r),
         At(s.quietTokens, r), At(s.maxTokens, r), At(s.first, r))
  }

  lemma ClearElsewhere(s: State, q: Repo, r: Repo)
    requires q != r
    ensures ViewOf(ClearTiming(s, q), r) == ViewOf(s, r)
  {
  }

  lemma FireElsewhere(s: State, q: Repo, r: Repo)
    requires q != r
    ensures ViewOf(Fire(s, q), r) == ViewOf(s, r)
  {
    hide ClearTiming;
    ClearElsewhere(s, q, r);
  }

  lemma ClearAndFireElsewhere(s: State, q: Repo, r: Repo)
    requires q != r
    ensures ViewOf(Fire(ClearTiming(s, q), q), r) == ViewOf(s, r)
  {
    hide ClearTiming, Fire, ViewOf;
    ClearElsewhere(s, q, r);
    FireElsewhere(ClearTiming(s, q), q, r);
  }

  lemma EditElsewhere(d: Delays, s: State, q: Repo, now: int, r: Repo)
    requires q != r
    ensures ViewOf(Edited(d, s, q, now), r) == ViewOf(s, r)
  {
    hide ClearTiming, Fire;
    ClearAndFireElsewhere(StartClock(s, q, now), q, r);
  }

  lemma MaxWaitElsewhere(d: Delays, s: State, q: Repo, token: nat, now: int, r: Repo)
    requires q != r
    ensures ViewOf(MaxWaitElapsed(d, s, q, token, now), r) == ViewOf(s, r)
  {
    hide ClearTiming, Fire;
    ClearAndFireElsewhere(s.(maxWait := s.maxWait - {q}), q, r);
  }

  lemma FinishElsewhere(s: State, q: Repo, r: Repo)
    requires q != r
    ensures ViewOf(FinishPass(s, q), r) == ViewOf(s, r)
  {
    hide Fire;
    FireElsewhere(s.(running := s.running - {q},
                     finished := s.finished + multiset{q}, pending := s.pending - {q}), q, r);
  }

  lemma OthersUntouched(d: Delays, s: State, e: Event, r: Repo)
    requires e.repo != r
    ensures ViewOf(Apply(d, s, e), r) == ViewOf(s, r)
  {
    hide ViewOf, Fire, ClearTiming, Edited, MaxWaitElapsed, FinishPass;
    match e
    case Trigger(q) => FireElsewhere(s, q, r);
    case Edit(q, now) => EditElsewhere(d, s, q, now, r);
    case QuietCallback(q, _) => ClearAndFireElsewhere(s, q, r);
    case MaxWaitCallback(q, token, now) => MaxWaitElsewhere(d, s, q, token, now, r);
    case PassEnds(q) => FinishElsewhere(s, q, r);
  }

  /** What an event that arrives does, and that any other leaves bits and counts alone. */
  lemma ArrivalFires(d: Delays, s: State, e: Event, r: Repo)
    requires RepoInv(d, s, r) && Enabled(s, e) && e != PassEnds(r)
    ensures var t := Apply(d, s, e);
      && t.finished[r] == s.finished[r]
      && (!Arrives(d, s, e, r) ==>
            (r in t.running <==> r in s.running) && (r in t.pending <==> r in s.pending)
            && t.started[r] == s.started[r])
      && (Arrives(d, s, e, r) ==>
            && r in t.running
            && (r in t.pending <==> r in s.running)
            && t.started[r] == s.started[r] + (if r in s.running then 0 else 1))
  {
    hide TokenInv, Debounce;
    if e.repo != r {
      OthersUntouched(d, s, e, r);
    } else {
      match e
      case Trigger(_) =>
      case Edit(_, now) => assert StartClock(s, r, now).first[r] == if r in s.first then s.first[r] else now;
        BitsUnchanged(d, s, r, now);
      case QuietCallback(_, _) =>
      case MaxWaitCallback(_, _, _) =>
      case PassEnds(_) =>
    }
  }

  lemma BitsUnchanged(d: Delays, s: State, r: Repo, now: int)
    ensures var t := Debounce(d, StartClock(s, r, now), r, now);
      t.running == s.running && t.pending == s.pending && t.started == s.started && t.finished == s.finished
  {
  }

  /** While a pass runs, whatever arrives for its repository starts nothing; it only sets the pending bit. */
  lemma {:induction false} RequestsCoalesce(d: Delays, s: State, events: seq<Event>, r: Repo)
    requires Inv(d, s) && r in s.running && Run(d, s, events).Some? && PassEnds(r) !in events
    ensures var t := Run(d, s, events).value;
      && t.started[r] == s.started[r] && r in t.running
      && (r in t.pending <==> r in s.pending || Arrivals(d, s, events, r) > 0)
  {
    hide Apply, Enabled, RepoInv, OldTokens, Arrives;
    if events != [] {
      var before, last := events[..|events| - 1], events[|events| - 1];
      assert last in events;
      RequestsCoalesce(d, s, before, r);
      RunInv(d, s, before);
      assert RepoInv(d, Run(d, s, before).value, r);
      ArrivalFires(d, Run(d, s, before).value, last, r);
      assert RepoInv(d, Run(d, s, events).value, r) by { RunInv(d, s, events); }
    }
  }

  /**
   However many requests arrive while a pass runs, the end of that pass starts exactly one more
   if there were any, with nothing left pending, and none otherwise.
   */
  lemma OneFollowUp(d: Delays, s: State, events: seq<Event>, r: Repo)
    requires Inv(d, s) && r in s.running && r !in s.pending && Run(d, s, events).Some? && PassEnds(r) !in events
    ensures var t := Run(d, s, events + [PassEnds(r)]);
      && t.Some? && r !in t.value.pending
      && (r in t.value.running <==> Arrivals(d, s, events, r) > 0)
      && t.value.started[r] == s.started[r] + (if Arrivals(d, s, events, r) > 0 then 1 else 0)
      && t.value.finished[r] == s.finished[r] + 1
  {
    RequestsCoalesce(d, s, events, r);
    RunInv(d, s, events);
    var t := Run(d, s, events).value;
    assert RepoInv(d, s, r) && RepoInv(d, t, r);
    assert (events + [PassEnds(r)])[..|events|] == events;
    assert Run(d, s, events + [PassEnds(r)]) == Some(FinishPass(t, r));
  }

  // ----- no request is lost -----

  /** A request not yet covered is held by the pending bit or by armed timers with current tokens. */
  predicate Held(s: State, r: Repo) {
    r in s.pending || Armed(s, r)
  }

  predicate IsRequest(e: Event, r: Repo) {
    e.repo == r && (e.Trigger? || e.Edit?)
  }

  lemma RequestHeld(d: Delays, s: State, e: Event, r: Repo)
    requires RepoInv(d, s, r) && OldTokens(s) && IsRequest(e, r)
    ensures var t := Apply(d, s, e); t.started[r] > s.started[r] || Held(t, r)
  {
    ArrivalFires(d, s, e, r);
    if !Arrives(d, s, e, r) {
      EditKeeps(d, s, r, e.now, r);
      assert r in Debounce(d, StartClock(s, r, e.now), r, e.now).first;
    }
  }

  lemma HoldsOn(d: Delays, s: State, e: Event, r: Repo)
    requires OldTokens(s) && RepoInv(d, s, r) && RepoInv(d, s, e.repo) && Enabled(s, e) && Held(s, r)
    ensures var t := Apply(d, s, e); t.started[r] > s.started[r] || (t.started[r] == s.started[r] && Held(t, r))
  {
    if e.repo != r {
      OthersUntouched(d, s, e, r);
    } else if e == PassEnds(r) {
    } else {
      ArrivalFires(d, s, e, r);
    }
  }

  lemma {:induction false} HeldUntilStarted(d: Delays, s: State, events: seq<Event>, r: Repo)
    requires Inv(d, s) && Run(d, s, events).Some?
    ensures Run(d, s, events).value.started[r] >= s.started[r]
    ensures Held(s, r) ==> Run(d, s, events).value.started[r] > s.started[r] || Held(Run(d, s, events).value, r)
  {
    hide Apply, Enabled, RepoInv, OldTokens, Held;
    if events != [] {
      var before, last := events[..|events| - 1], events[|events| - 1];
      HeldUntilStarted(d, s, before, r);
      RunInv(d, s, before);
      var t := Run(d, s, before).value;
      assert RepoInv(d, t, r) && RepoInv(d, t, last.repo);
      StartsCount(d, t, last, r);
      if Held(t, r) { HoldsOn(d, t, last, r); }
    }
  }

  lemma StartsCount(d: Delays, s: State, e: Event, r: Repo)
    requires RepoInv(d, s, r) && Enabled(s, e)
    ensures Apply(d, s, e).started[r] >= s.started[r]
  {
    if e.repo != r {
      OthersUntouched(d, s, e, r);
    } else if e != PassEnds(r) {
      ArrivalFires(d, s, e, r);
    }
  }

  lemma {:induction false} RunSplits(d: Delays, s: State, a: seq<Event>, b: seq<Event>)
    requires Run(d, s, a + b).Some?
    ensures Run(d, s, a).Some? && Run(d, s, a + b) == Run(d, Run(d, s, a).value, b)
  {
    hide Apply, Enabled;
    if b == [] {
      assert a + b == a;
    } else {
      assert (a + b)[..|a + b| - 1] == a + b[..|b| - 1];
      RunSplits(d, s, a, b[..|b| - 1]);
    }
  }

  /**
   In every run, every trigger and every edit is followed by the start of a pass for its
   repository, or is still held: by the pending bit, or by armed timers with current tokens.
   */
  lemma NoRequestLost(d: Delays, earlier: seq<Event>, request: Event, later: seq<Event>, r: Repo)
    requires Run(d, IDLE, earlier + [request] + later).Some? && IsRequest(request, r)
    ensures Run(d, IDLE, earlier).Some?
    ensures var t := Run(d, IDLE, earlier + [request] + later).value;
      t.started[r] > Run(d, IDLE, earlier).value.started[r] || Held(t, r)
  {
    hide Apply, Enabled, RepoInv, OldTokens, Held;
    IdleInv(d);
    RunSplits(d, IDLE, earlier + [request], later);
    RunSplits(d, IDLE, earlier, [request]);
    RunInv(d, IDLE, earlier);
    RunInv(d, IDLE, earlier + [request]);
    var s := Run(d, IDLE, earlier).value;
    assert (earlier + [request])[..|earlier|] == earlier;
    var t := Apply(d, s, request);
    assert Run(d, IDLE, earlier + [request]) == Some(t);
    assert RepoInv(d, s, r);
    RequestHeld(d, s, request, r);
    StartsCount(d, s, request, r) by { assert Enabled(s, request); }
    HeldUntilStarted(d, t, later, r);
  }

  // ----- timers -----

  /**
   At every release: edits have been waiting since `t0` exactly when both timers are armed, the
   longer due at `t0 + maxWait`.
   */
  lemma ArmedSinceFirstEdit(d: Delays, events: seq<Event>, r: Repo)
    requires Run(d, IDLE, events).Some?
    ensures var s := Run(d, IDLE, events).value;
      && (r in s.first <==> Armed(s, r))
      && (r in s.first <==> r in s.quiet) && (r in s.first <==> r in s.maxWait)
      && (r in s.first <==> r in s.quietTokens) && (r in s.first <==> r in s.maxTokens)
      && (r in s.first ==> s.maxWait[r].due == s.first[r] + d.maxWait)
  {
    IdleInv(d);
    RunInv(d, IDLE, events);
    assert RepoInv(d, Run(d, IDLE, events).value, r);
  }

  lemma WaitKept(d: Delays, s: State, e: Event, r: Repo)
    requires RepoInv(d, s, r) && Enabled(s, e) && r in s.first && !Arrives(d, s, e, r)
    requires Apply(d, s, e).started[r] == s.started[r]
    ensures var t := Apply(d, s, e); r in t.first && t.first[r] == s.first[r]
  {
    if e.repo != r { OthersUntouched(d, s, e, r); assert At(s.first, r) == ViewOf(s, r).first; }
  }

  /**
   However many edits and early wake-ups occur, until a request fires the wait still counts from the
   same first edit.
   */
  lemma {:induction false} MaxWaitUnmoved(d: Delays, s: State, events: seq<Event>, r: Repo)
    requires Inv(d, s) && r in s.first && Run(d, s, events).Some?
    requires Arrivals(d, s, events, r) == 0 && Run(d, s, events).value.started[r] == s.started[r]
    ensures var t := Run(d, s, events).value;
      && r in t.first && t.first[r] == s.first[r]
      && r in t.maxWait && t.maxWait[r].due == s.first[r] + d.maxWait
  {
    hide Apply, Enabled, RepoInv, OldTokens, Arrives;
    RunInv(d, s, events);
    assert TimingInv(d, Run(d, s, events).value, r) by {
      assert RepoInv(d, Run(d, s, events).value, r);
      RepoTiming(d, Run(d, s, events).value, r);
    }
    if events != [] {
      var before, last := events[..|events| - 1], events[|events| - 1];
      RunInv(d, s, before);
      assert RepoInv(d, Run(d, s, before).value, r);
      StartsCount(d, Run(d, s, before).value, last, r);
      HeldUntilStarted(d, s, before, r);
      MaxWaitUnmoved(d, s, before, r);
      WaitKept(d, Run(d, s, before).value, last, r);
    }
  }

  lemma RepoTiming(d: Delays, s: State, r: Repo)
    requires RepoInv(d, s, r)
    ensures TimingInv(d, s, r)
  {
  }

  /** Once the maximum wait is over, the next edit or the timer's own callback puts a pass in flight or pending. */
  lemma MaxWaitHonoured(d: Delays, s: State, r: Repo, now: int, e: Event)
    requires Inv(d, s) && r in s.first && now >= s.first[r] + d.maxWait
    requires e == Edit(r, now) || (r in s.maxWait && e == MaxWaitCallback(r, s.maxWait[r].token, now))
    ensures Enabled(s, e)
    ensures var t := Apply(d, s, e);
      && r !in t.first && r in t.running
      && (r in s.running ==> r in t.pending)
      && (r !in s.running ==> t.started[r] == s.started[r] + 1)
  {
    assert RepoInv(d, s, r);
    ArrivalFires(d, s, e, r);
  }

  /** A callback whose timer was cancelled, or replaced, changes nothing. */
  lemma OutdatedCallbackIdle(d: Delays, s: State, r: Repo, token: nat, now: int)
    requires Inv(d, s)
    ensures Quiet(r, token) in s.retired ==>
              Enabled(s, QuietCallback(r, token)) && Apply(d, s, QuietCallback(r, token)) == s
    ensures MaxWait(r, token) in s.retired ==>
              Enabled(s, MaxWaitCallback(r, token, now)) && Apply(d, s, MaxWaitCallback(r, token, now)) == s
  {
    assert RepoInv(d, s, r);
  }
}
