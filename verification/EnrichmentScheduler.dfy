/** The scheduler itself. Each method is one section under its lock; `now` is the clock it reads there. */
module EnrichmentScheduler {
  import opened Wrappers
  import opened Scheduling

  class EnrichmentScheduler {
    const delays: Delays
    var running: set<Repo>
    var pendingRerun: set<Repo>
    var quietTimers: map<Repo, Timer>
    var maxWaitTimers: map<Repo, Timer>
    var maxWaitTokens: map<Repo, nat>
    var quietTimerTokens: map<Repo, nat>
    var firstPendingAt: map<Repo, int>

    /** Tokens drawn so far; every `object()` is a new one. */
    var tokens: nat
    /** Pass threads started and ended, and timers cancelled: what the scheduler does outside its own fields. */
    ghost var started: multiset<Repo>
    ghost var finished: multiset<Repo>
    ghost var retired: set<Retired>

    ghost function Abs(): State
      reads this
    {
      State(running, pendingRerun, quietTimers, maxWaitTimers, quietTimerTokens, maxWaitTokens, firstPendingAt,
            tokens, started, finished, retired)
    }

    constructor (quietSeconds: int, maxWaitSeconds: int)
      ensures Abs() == IDLE && delays == Delays(quietSeconds, maxWaitSeconds)
    {
      delays := Delays(quietSeconds, maxWaitSeconds);
      running, pendingRerun := {}, {};
      quietTimers, maxWaitTimers := map[], map[];
      maxWaitTokens, quietTimerTokens := map[], map[];
      firstPendingAt := map[];
      tokens := 0;
      started, finished, retired := multiset{}, multiset{}, {};
    }

    method TriggerNow(repo: Repo)
      modifies this
      ensures Abs() == Apply(delays, old(Abs()), Trigger(repo))
    {
      FireOrMarkPending(repo);
    }

    method OnWatcherEdit(repo: Repo, now: int)
      modifies this
      ensures Abs() == Apply(delays, old(Abs()), Edit(repo, now))
    {
      hide ClearTiming, Fire, StartClock;
      var first, maxToken := NotePending(repo, now);
      var elapsed := now - first;
      if elapsed >= delays.maxWait {
        ClearPendingTiming(repo);
        FireOrMarkPending(repo);
        return;
      }
      if repo !in maxWaitTimers { StartMaxWaitTimer(repo, maxToken, now, delays.maxWait - elapsed); }
      StartQuietTimer(repo, now);
    }

    method OnQuietElapsed(repo: Repo, token: Option<nat>)
      modifies this
      ensures Abs() == QuietElapsed(old(Abs()), repo, token)
    {
      if token.Some? && (repo !in quietTimerTokens || quietTimerTokens[repo] != token.value) { return; }
      ClearPendingTiming(repo);
      FireOrMarkPending(repo);
    }

    method OnMaxWaitElapsed(repo: Repo, token: nat, now: int)
      modifies this
      ensures Abs() == Apply(delays, old(Abs()), MaxWaitCallback(repo, token, now))
    {
      if repo !in maxWaitTokens || maxWaitTokens[repo] != token { return; }
      maxWaitTimers := maxWaitTimers - {repo};
      if repo !in firstPendingAt { return; }
      var remaining := delays.maxWait - (now - firstPendingAt[repo]);
      if remaining > 0 {
        StartMaxWaitTimer(repo, token, now, remaining);
        return;
      }
      ClearPendingTiming(repo);
      FireOrMarkPending(repo);
    }

    /** What a pass thread does last, whether or not its work failed. */
    method OnPassEnd(repo: Repo)
      modifies this
      ensures Abs() == Apply(delays, old(Abs()), PassEnds(repo))
    {
      hide ClearTiming, Fire;
      running := running - {repo};
      finished := finished + multiset{repo};
      if repo in pendingRerun {
        pendingRerun := pendingRerun - {repo};
        FireOrMarkPending(repo);
      }
    }

    // ----- callers hold the lock -----

    /** When the pending edits began, and the token of their maximum wait; both are new if none were pending. */
    method NotePending(repo: Repo, now: int) returns (first: int, maxToken: nat)
      modifies this
      ensures Abs() == StartClock(old(Abs()), repo, now)
      ensures first == firstPendingAt[repo] && maxToken == maxWaitTokens[repo]
    {
      if repo !in firstPendingAt {
        first := now;
        firstPendingAt := firstPendingAt[repo := first];
        maxToken := DrawToken();
        maxWaitTokens := maxWaitTokens[repo := maxToken];
      } else {
        first := firstPendingAt[repo];
        if repo in maxWaitTokens {
          maxToken := maxWaitTokens[repo];
        } else {
          maxToken := DrawToken();
          maxWaitTokens := maxWaitTokens[repo := maxToken];
        }
      }
    }

    method DrawToken() returns (token: nat)
      modifies this
      ensures token == old(tokens)
      ensures Abs() == old(Abs()).(tokens := token + 1)
    {
      token := tokens;
      tokens := tokens + 1;
    }

    method StartMaxWaitTimer(repo: Repo, token: nat, now: int, delay: int)
      modifies this
      ensures Abs() == old(Abs()).(maxWait := old(maxWaitTimers)[repo := Timer(token, now + Max0(delay))])
    {
      maxWaitTimers := maxWaitTimers[repo := Timer(token, now + if delay < 0 then 0 else delay)];
    }

    method CancelQuietTimer(repo: Repo)
      modifies this
      ensures var s := old(Abs());
        Abs() == s.(quiet := s.quiet - {repo},
                    retired := s.retired + if repo in s.quiet then {Quiet(repo, s.quiet[repo].token)} else {})
    {
      Absent(quietTimers, repo);
      NoneAdded(retired);
      if repo in quietTimers {
        retired := retired + {Quiet(repo, quietTimers[repo].token)};
        quietTimers := quietTimers - {repo};
      }
    }

    method CancelMaxWaitTimer(repo: Repo)
      modifies this
      ensures var s := old(Abs());
        Abs() == s.(maxWait := s.maxWait - {repo},
                    retired := s.retired + if repo in s.maxWait then {MaxWait(repo, s.maxWait[repo].token)} else {})
    {
      Absent(maxWaitTimers, repo);
      NoneAdded(retired);
      if repo in maxWaitTimers {
        retired := retired + {MaxWait(repo, maxWaitTimers[repo].token)};
        maxWaitTimers := maxWaitTimers - {repo};
      }
    }

    method StartQuietTimer(repo: Repo, now: int)
      modifies this
      ensures var s := old(Abs());
        Abs() == s.(quiet := s.quiet[repo := Timer(s.tokens, now + delays.quiet)],
                    quietTokens := s.quietTokens[repo := s.tokens], tokens := s.tokens + 1,
                    retired := s.retired + if repo in s.quiet then {Quiet(repo, s.quiet[repo].token)} else {})
    {
      CancelQuietTimer(repo);
      var token := DrawToken();
      quietTimerTokens := quietTimerTokens[repo := token];
      quietTimers := quietTimers[repo := Timer(token, now + delays.quiet)];
      Replaced(old(quietTimers), repo, Timer(token, now + delays.quiet));
    }

    method ClearPendingTiming(repo: Repo)
      modifies this
      ensures Abs() == ClearTiming(old(Abs()), repo)
    {
      CancelQuietTimer(repo);
      CancelMaxWaitTimer(repo);
      quietTimerTokens := quietTimerTokens - {repo};
      maxWaitTokens := maxWaitTokens - {repo};
      firstPendingAt := firstPendingAt - {repo};
      BothCancelled(old(Abs()), repo);
    }

    method FireOrMarkPending(repo: Repo)
      modifies this
      ensures Abs() == Fire(old(Abs()), repo)
    {
      if repo in running {
        pendingRerun := pendingRerun + {repo};
        return;
      }
      ClearPendingTiming(repo);
      running := running + {repo};
      started := started + multiset{repo};
    }
  }

  lemma Absent<V>(m: map<Repo, V>, r: Repo)
    ensures r !in m ==> m - {r} == m
  {
  }

  lemma NoneAdded<T>(s: set<T>)
    ensures s + {} == s
  {
  }

  lemma Replaced<V>(m: map<Repo, V>, r: Repo, v: V)
    ensures (m - {r})[r := v] == m[r := v]
  {
  }

  lemma BothCancelled(s: State, r: Repo)
    ensures s.retired + (if r in s.quiet then {Quiet(r, s.quiet[r].token)} else {})
                      + (if r in s.maxWait then {MaxWait(r, s.maxWait[r].token)} else {})
            == s.retired + Cancelled(s, r)
  {
  }
}
