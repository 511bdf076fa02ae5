/** When the scheduler's timers are due, what cancels them, and which events start a pass. */
module SchedulingTimers {
  import opened Wrappers
  import opened Scheduling
  import opened SchedulingTheorems

  /** When the edits now pending began, counting one at `now`. */
  function Since(s: State, r: Repo, now: int): int {
    if r in s.first then s.first[r] else now
  }

  /**
   An edit within the maximum wait starts nothing. It arms the quiet timer anew, due a full quiet
   period after this edit, and leaves the longer timer due at the maximum wait after the first edit.
   */
  lemma EditDebounces(d: Delays, s: State, r: Repo, now: int)
    requires RepoInv(d, s, r) && now < Since(s, r, now) + d.maxWait
    ensures var t := Apply(d, s, Edit(r, now));
      && t.running == s.running && t.pending == s.pending && t.started == s.started && t.finished == s.finished
      && r in t.quiet && t.quiet[r].due == now + d.quiet
      && r in t.first && t.first[r] == Since(s, r, now)
      && r in t.maxWait && t.maxWait[r].due == Since(s, r, now) + d.maxWait
  {
  }

  /** Only an edit arms a quiet timer; anything else leaves it or cancels it. */
  lemma QuietOnlyByEdit(d: Delays, s: State, e: Event, r: Repo)
    requires RepoInv(d, s, r) && Enabled(s, e) && !(e.Edit? && e.repo == r)
    ensures var t := Apply(d, s, e); At(t.quiet, r) == None || At(t.quiet, r) == At(s.quiet, r)
  {
    if e.repo != r {
      OthersUntouched(d, s, e, r);
      assert At(s.quiet, r) == ViewOf(s, r).quiet;
    }
  }

  ghost predicate NoEdit(events: seq<Event>, r: Repo) {
    forall e :: e in events ==> !(e.Edit? && e.repo == r)
  }

  lemma {:induction false} QuietStaysOrGoes(d: Delays, s: State, events: seq<Event>, r: Repo)
    requires Inv(d, s) && Run(d, s, events).Some? && NoEdit(events, r)
    ensures var t := Run(d, s, events).value; At(t.quiet, r) == None || At(t.quiet, r) == At(s.quiet, r)
  {
    hide Apply, Enabled, RepoInv, OldTokens, At;
    if events != [] {
      var before, last := events[..|events| - 1], events[|events| - 1];
      assert events == before + [last];
      QuietStaysOrGoes(d, s, before, r);
      RunInv(d, s, before);
      assert RepoInv(d, Run(d, s, before).value, r);
      QuietOnlyByEdit(d, Run(d, s, before).value, last, r);
    }
  }

  lemma EditArms(d: Delays, s: State, r: Repo, now: int)
    requires RepoInv(d, s, r)
    ensures var t := Apply(d, s, Edit(r, now)); r in t.quiet ==> t.quiet[r].due == now + d.quiet
  {
    if now < Since(s, r, now) + d.maxWait { EditDebounces(d, s, r, now); } else { DueEditClears(d, s, r, now); }
  }

  lemma DueEditClears(d: Delays, s: State, r: Repo, now: int)
    requires now >= Since(s, r, now) + d.maxWait
    ensures r !in Apply(d, s, Edit(r, now)).quiet
  {
    DueEditCancels(d, s, r, now);
    assert TimersOf(Apply(d, s, Edit(r, now)), r).quiet == None;
    hide Apply;
  }

  /** In every run an armed quiet timer is due one quiet period after the latest edit of its repository. */
  lemma QuietDue(d: Delays, earlier: seq<Event>, r: Repo, now: int, later: seq<Event>)
    requires Run(d, IDLE, earlier + [Edit(r, now)] + later).Some? && NoEdit(later, r)
    ensures var s := Run(d, IDLE, earlier + [Edit(r, now)] + later).value;
      r in s.quiet ==> s.quiet[r].due == now + d.quiet
  {
    hide Apply, Enabled, RepoInv, OldTokens;
    IdleInv(d);
    RunSplits(d, IDLE, earlier + [Edit(r, now)], later);
    RunSplits(d, IDLE, earlier, [Edit(r, now)]);
    RunInv(d, IDLE, earlier);
    RunInv(d, IDLE, earlier + [Edit(r, now)]);
    var s := Run(d, IDLE, earlier).value;
    assert RepoInv(d, s, r);
    assert (earlier + [Edit(r, now)])[..|earlier|] == earlier;
    EditArms(d, s, r, now);
    QuietStaysOrGoes(d, Apply(d, s, Edit(r, now)), later, r);
  }

  /** What the state says of a repository's timers. */
  datatype Timers = Timers(quiet: Option<Timer>, maxWait: Option<Timer>, quietToken: Option<nat>, maxToken: Option<nat>,
                           first: Option<int>)

  function TimersOf(s: State, r: Repo): Timers {
    Timers(At(s.quiet, r), At(s.maxWait, r), At(s.quietTokens, r), At(s.maxTokens, r), At(s.first, r))
  }

  const NO_TIMERS := Timers(None, None, None, None, None)

  /**
   What an event that arrives does to the timers: it cancels both, and the pass it starts or awaits
   covers their edits. Only a trigger while a pass runs leaves them armed. The end of a pass
   cancels them exactly if another follows.
   */
  lemma ArrivalCancels(d: Delays, s: State, e: Event, r: Repo)
    requires RepoInv(d, s, r) && Enabled(s, e) && e.repo == r
    ensures Arrives(d, s, e, r) ==>
              TimersOf(Apply(d, s, e), r) == if e.Trigger? && r in s.running then TimersOf(s, r) else NO_TIMERS
    ensures e == PassEnds(r) ==>
              TimersOf(Apply(d, s, e), r) == if r in s.pending then NO_TIMERS else TimersOf(s, r)
  {
    match e
    case Trigger(_) =>
    case Edit(_, now) => if Arrives(d, s, e, r) { DueEditCancels(d, s, r, now); }
    case QuietCallback(_, _) =>
    case MaxWaitCallback(_, _, _) =>
    case PassEnds(_) =>
  }

  lemma DueEditCancels(d: Delays, s: State, r: Repo, now: int)
    requires now >= Since(s, r, now) + d.maxWait
    ensures TimersOf(Apply(d, s, Edit(r, now)), r) == NO_TIMERS
  {
    FireLeavesNone(StartClock(s, r, now), r);
    hide ClearTiming, Fire, TimersOf;
  }

  lemma FireLeavesNone(s: State, r: Repo)
    ensures TimersOf(Fire(ClearTiming(s, r), r), r) == NO_TIMERS
  {
    ClearLeavesNone(s, r);
    ClearLeavesNone(ClearTiming(s, r), r);
    hide ClearTiming;
  }

  lemma ClearLeavesNone(s: State, r: Repo)
    ensures TimersOf(ClearTiming(s, r), r) == NO_TIMERS
  {
  }

  /** Until something arrives or starts, the quiet timer stays armed for the latest edit. */
  lemma {:induction false} QuietHolds(d: Delays, s: State, events: seq<Event>, r: Repo)
    requires Inv(d, s) && r in s.quiet && Run(d, s, events).Some? && NoEdit(events, r)
    requires Arrivals(d, s, events, r) == 0 && Run(d, s, events).value.started[r] == s.started[r]
    ensures var t := Run(d, s, events).value; r in t.quiet && t.quiet[r] == s.quiet[r]
  {
    hide Apply, Enabled, RepoInv, OldTokens, Arrives;
    if events != [] {
      var before, last := events[..|events| - 1], events[|events| - 1];
      assert events == before + [last];
      RunInv(d, s, before);
      var m := Run(d, s, before).value;
      assert RepoInv(d, m, r);
      StartsCount(d, m, last, r);
      HeldUntilStarted(d, s, before, r);
      QuietHolds(d, s, before, r);
      QuietKept(d, m, last, r);
    }
  }

  lemma QuietKept(d: Delays, s: State, e: Event, r: Repo)
    requires RepoInv(d, s, r) && Enabled(s, e) && r in s.quiet && !Arrives(d, s, e, r)
    requires !(e.Edit? && e.repo == r) && Apply(d, s, e).started[r] == s.started[r]
    ensures var t := Apply(d, s, e); r in t.quiet && t.quiet[r] == s.quiet[r]
  {
    if e.repo != r { OthersUntouched(d, s, e, r); assert At(s.quiet, r) == ViewOf(s, r).quiet; }
  }

  /** What can start a pass when none is running, told by the clock and the timers. */
  ghost predicate MayStart(d: Delays, s: State, e: Event, r: Repo) {
    match e
    case Trigger(_) => true
    case Edit(_, now) => now >= Since(s, r, now) + d.maxWait
    case QuietCallback(_, token) => r in s.quiet && s.quiet[r].token == token
    case MaxWaitCallback(_, token, now) =>
      r in s.maxWait && s.maxWait[r].token == token && now >= s.maxWait[r].due
    case PassEnds(_) => false
  }

  /**
   A pass starts exactly when none is running and one is requested, the quiet timer calls back, or
   the maximum wait is over; or when one ends with another pending.
   */
  lemma StartsExactly(d: Delays, s: State, e: Event, r: Repo)
    requires RepoInv(d, s, r) && Enabled(s, e) && e.repo == r
    ensures Apply(d, s, e).started[r] ==
            s.started[r] + (if e == PassEnds(r) then (if r in s.pending then 1 else 0)
                            else if r !in s.running && MayStart(d, s, e, r) then 1 else 0)
    ensures e != PassEnds(r) ==>
              (r in Apply(d, s, e).pending <==> r in s.pending || (r in s.running && MayStart(d, s, e, r)))
  {
    if e != PassEnds(r) {
      ArrivalFires(d, s, e, r);
      ArrivesIsMayStart(d, s, e, r);
    }
  }

  lemma ArrivesIsMayStart(d: Delays, s: State, e: Event, r: Repo)
    requires RepoInv(d, s, r) && e.repo == r
    ensures Arrives(d, s, e, r) <==> MayStart(d, s, e, r)
  {
  }

  /** A quiet callback that carries no token is never outdated: it always arrives, and cancels the timers. */
  lemma UntokenedQuietFires(s: State, r: Repo)
    ensures var t := QuietElapsed(s, r, None);
      && r in t.running && TimersOf(t, r) == NO_TIMERS
      && t.started == (if r in s.running then s.started else s.started + multiset{r})
      && t.pending == (if r in s.running then s.pending + {r} else s.pending)
  {
    FireLeavesNone(s, r);
    hide TimersOf;
  }
}
