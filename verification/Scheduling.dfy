/**
 Enrichment scheduling as a state machine over the scheduler's lock sections: what each of
 them does to the running and pending bits, the timers, their tokens and the passes.
 */
module Scheduling {
  import opened Wrappers

  type Repo = string

  /** An armed `threading.Timer`: the token its callback will present, and when it is due. */
  datatype Timer = Timer(token: nat, due: int)

  datatype Retired = Quiet(repo: Repo, token: nat) | MaxWait(repo: Repo, token: nat)

  datatype Delays = Delays(quiet: int, maxWait: int)

  /**
   The fields of the scheduler, and what it has done to the outside: the pass threads it
   started and those that ended, the timers it cancelled (whose callbacks may already be
   waiting for the lock), and how many tokens exist.
   */
  datatype State = State(
    running: set<Repo>,
    pending: set<Repo>,
    quiet: map<Repo, Timer>,
    maxWait: map<Repo, Timer>,
    quietTokens: map<Repo, nat>,
    maxTokens: map<Repo, nat>,
    first: map<Repo, int>,
    tokens: nat,
    started: multiset<Repo>,
    finished: multiset<Repo>,
    retired: set<Retired>)

  const IDLE := State({}, {}, map[], map[], map[], map[], map[], 0, multiset{}, multiset{}, {})

  function Cancelled(s: State, r: Repo): set<Retired> {
    (if r in s.quiet then {Quiet(r, s.quiet[r].token)} else {})
    + (if r in s.maxWait then {MaxWait(r, s.maxWait[r].token)} else {})
  }

  function ClearTiming(s: State, r: Repo): State {
    s.(quiet := s.quiet - {r}, maxWait := s.maxWait - {r},
       quietTokens := s.quietTokens - {r}, maxTokens := s.maxTokens - {r}, first := s.first - {r},
       retired := s.retired + Cancelled(s, r))
  }

  /** A request reaches the running bit: mark it pending, or start a pass that covers everything armed. */
  function Fire(s: State, r: Repo): State {
    if r in s.running then s.(pending := s.pending + {r})
    else
      var c := ClearTiming(s, r);
      c.(running := c.running + {r}, started := c.started + multiset{r})
  }

  function Max0(delay: int): int {
    if delay < 0 then 0 else delay
  }

  /** The first edit since the timing was last cleared starts the clock and draws the maximum-wait token. */
  function StartClock(s: State, r: Repo, now: int): (t: State)
    ensures r in t.first && r in t.maxTokens
  {
    if r in s.first && r in s.maxTokens then s
    else s.(first := if r in s.first then s.first else s.first[r := now],
            maxTokens := s.maxTokens[r := s.tokens], tokens := s.tokens + 1)
  }

  /** An edit within the maximum wait: the quiet timer starts over, the maximum-wait timer is kept or armed. */
  function Debounce(d: Delays, s: State, r: Repo, now: int): State
    requires r in s.first && r in s.maxTokens
  {
    s.(maxWait := if r in s.maxWait then s.maxWait
                  else s.maxWait[r := Timer(s.maxTokens[r], now + Max0(d.maxWait - (now - s.first[r])))],
       quietTokens := s.quietTokens[r := s.tokens],
       quiet := s.quiet[r := Timer(s.tokens, now + d.quiet)],
       tokens := s.tokens + 1,
       retired := s.retired + (if r in s.quiet then {Quiet(r, s.quiet[r].token)} else {}))
  }

  function Edited(d: Delays, s: State, r: Repo, now: int): State {
    var t := StartClock(s, r, now);
    if now - t.first[r] >= d.maxWait then Fire(ClearTiming(t, r), r) else Debounce(d, t, r, now)
  }

  function QuietElapsed(s: State, r: Repo, token: Option<nat>): State {
    if token.Some? && (r !in s.quietTokens || s.quietTokens[r] != token.value) then s
    else Fire(ClearTiming(s, r), r)
  }

  function MaxWaitElapsed(d: Delays, s: State, r: Repo, token: nat, now: int): State {
    if r !in s.maxTokens || s.maxTokens[r] != token then s
    else
      var popped := s.(maxWait := s.maxWait - {r});
      if r !in s.first then popped
      else
        var remaining := d.maxWait - (now - s.first[r]);
        if remaining > 0 then popped.(maxWait := popped.maxWait[r := Timer(token, now + Max0(remaining))])
        else Fire(ClearTiming(popped, r), r)
  }

  /** A pass ends, and is followed by another if a request arrived meanwhile. */
  function FinishPass(s: State, r: Repo): State {
    var ended := s.(running := s.running - {r}, finished := s.finished + multiset{r});
    if r in ended.pending then Fire(ended.(pending := ended.pending - {r}), r) else ended
  }

  // ----- runs -----

  datatype Event =
    | Trigger(repo: Repo)
    | Edit(repo: Repo, now: int)
    | QuietCallback(repo: Repo, token: nat)
    | MaxWaitCallback(repo: Repo, token: nat, now: int)
    | PassEnds(repo: Repo)

  /** Timers call back at any time, even early; only passes that are active can end. */
  predicate Enabled(s: State, e: Event) {
    match e
    case Trigger(_) => true
    case Edit(_, _) => true
    case QuietCallback(r, token) => (r in s.quiet && s.quiet[r].token == token) || Quiet(r, token) in s.retired
    case MaxWaitCallback(r, token, _) =>
      (r in s.maxWait && s.maxWait[r].token == token) || MaxWait(r, token) in s.retired
    case PassEnds(r) => s.finished[r] < s.started[r]
  }

  function Apply(d: Delays, s: State, e: Event): State {
    match e
    case Trigger(r) => Fire(s, r)
    case Edit(r, now) => Edited(d, s, r, now)
    case QuietCallback(r, token) => QuietElapsed(s, r, Some(token))
    case MaxWaitCallback(r, token, now) => MaxWaitElapsed(d, s, r, token, now)
    case PassEnds(r) => FinishPass(s, r)
  }

  /** The state a sequence of events leads to, if each was possible when it happened. */
  function Run(d: Delays, s: State, events: seq<Event>): Option<State>
    decreases |events|
  {
    if events == [] then Some(s)
    else
      match Run(d, s, events[..|events| - 1])
      case Some(t) => if Enabled(t, events[|events| - 1]) then Some(Apply(d, t, events[|events| - 1])) else None
      case None => None
  }

  /** Does this event reach the running bit for this repository? */
  predicate Arrives(d: Delays, s: State, e: Event, r: Repo) {
    e.repo == r &&
    match e
    case Trigger(_) => true
    case Edit(_, now) => if r in s.first then now - s.first[r] >= d.maxWait else 0 >= d.maxWait
    case QuietCallback(_, token) => r in s.quietTokens && s.quietTokens[r] == token
    case MaxWaitCallback(_, token, now) =>
      r in s.maxTokens && s.maxTokens[r] == token && r in s.first && now - s.first[r] >= d.maxWait
    case PassEnds(_) => false
  }

  function Arrivals(d: Delays, s: State, events: seq<Event>, r: Repo): nat
    requires Run(d, s, events).Some?
    decreases |events|
  {
    if events == [] then 0
    else
      var before := events[..|events| - 1];
      Arrivals(d, s, before, r) + (if Arrives(d, Run(d, s, before).value, events[|events| - 1], r) then 1 else 0)
  }

  // ----- what holds at every release of the lock -----

  /** Timers of both kinds are armed with the repository's current tokens. */
  predicate Armed(s: State, r: Repo) {
    && r in s.quiet && r in s.quietTokens && s.quiet[r].token == s.quietTokens[r]
    && r in s.maxWait && r in s.maxTokens && s.maxWait[r].token == s.maxTokens[r]
  }

  /** The five timing maps agree, and the maximum wait counts from the first edit. */
  predicate TimingInv(d: Delays, s: State, r: Repo) {
    && (r in s.quiet ==> r in s.first) && (r in s.maxWait ==> r in s.first)
    && (r in s.quietTokens ==> r in s.first) && (r in s.maxTokens ==> r in s.first)
    && (r in s.first ==> Armed(s, r) && s.maxWait[r].due == s.first[r] + d.maxWait)
  }

  predicate PassInv(s: State, r: Repo) {
    && (r in s.pending ==> r in s.running)
    && s.started[r] == s.finished[r] + (if r in s.running then 1 else 0)
  }

  predicate TokenInv(s: State, r: Repo) {
    && (r in s.quietTokens ==> s.quietTokens[r] < s.tokens && Quiet(r, s.quietTokens[r]) !in s.retired)
    && (r in s.maxTokens ==> s.maxTokens[r] < s.tokens && MaxWait(r, s.maxTokens[r]) !in s.retired)
  }

  predicate OldTokens(s: State) {
    forall t :: t in s.retired ==> t.token < s.tokens
  }

  predicate RepoInv(d: Delays, s: State, r: Repo) {
    TimingInv(d, s, r) && PassInv(s, r) && TokenInv(s, r)
  }

  ghost predicate Inv(d: Delays, s: State) {
    OldTokens(s) && forall r :: RepoInv(d, s, r)
  }
}
