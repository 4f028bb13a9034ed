/**
 The concurrency limiter. Loads, compare-and-swaps, adds and deferred releases are separate steps,
 taken in any order by any number of requests. Fairness is not modelled: polling promises no order.
 */
module Limiter {
  import opened Base

  datatype Outcome = Served | QueueDisabled | QueueFull | Cancelled | WaitTimeout

  /** Where a request stands in `Middleware`. */
  datatype Phase =
    | Arrived                      // fast path, about to load inflight
    | FastCas(seen: int)           // fast path, has seen a value below the limit
    | NoSlot                       // fast path failed
    | OverQueue                    // has counted itself in and found the queue full
    | Polling                      // slow path, about to load inflight
    | SlowCas(seen: int)
    | CheckContext
    | CheckTimer
    | Serving(slow: bool)          // holds a slot and runs its handler
    | Rejecting(why: Outcome)      // about to count its rejection
    | Leaving(how: Outcome)        // the deferred decrement of queued has not run yet
    | Left(how: Outcome)

  datatype State = State(inflight: int, queued: int, rejected: nat, limit: int, maxQueue: int, requests: map<nat, Phase>)

  /** The constructor's clamping: at least one slot, no negative queue. */
  function Start(limit: int, maxQueue: int): State {
    State(0, 0, 0, if limit < 1 then 1 else limit, if maxQueue < 0 then 0 else maxQueue, map[])
  }

  /** Nothing is counted yet, and a limit of at least one and a queue that is not negative are kept. */
  lemma StartClamps(limit: int, maxQueue: int)
    ensures var s := Start(limit, maxQueue);
            && s.inflight == 0 && s.queued == 0 && s.rejected == 0 && s.requests == map[]
            && s.limit >= 1 && (limit >= 1 ==> s.limit == limit) && (limit <= 1 ==> s.limit == 1)
            && s.maxQueue >= 0 && (maxQueue >= 0 ==> s.maxQueue == maxQueue) && (maxQueue <= 0 ==> s.maxQueue == 0)
  {
  }

  datatype Event =
    | Arrive
    | Load        // tryAcquire reads inflight
    | Cas         // tryAcquire compares and swaps
    | Join        // the queue, or a rejection when it is switched off
    | StepBack    // undoes the count of a full queue
    | SeeContext(done: bool)
    | SeeTimer(fired: bool)
    | Finish      // the handler returns and the deferred release runs
    | CountOut    // rejectedTotal
    | Unqueue     // the deferred decrement

  predicate Enabled(s: State, r: nat, ev: Event) {
    if ev.Arrive? then r !in s.requests
    else
      r in s.requests &&
      var p := s.requests[r];
      match ev
      case Arrive => false
      case Load => p.Arrived? || p.Polling?
      case Cas => p.FastCas? || p.SlowCas?
      case Join => p.NoSlot?
      case StepBack => p.OverQueue?
      case SeeContext(_) => p.CheckContext?
      case SeeTimer(_) => p.CheckTimer?
      case Finish => p.Serving?
      case CountOut => p.Rejecting?
      case Unqueue => p.Leaving?
  }

  function Moved(s: State, r: nat, p: Phase): State {
    s.(requests := s.requests[r := p])
  }

  /** Rejections of requests that had been admitted to the queue. */
  predicate Queues(why: Outcome) {
    why.Cancelled? || why.WaitTimeout?
  }

  function Next(s: State, r: nat, ev: Event): State
    requires Enabled(s, r, ev)
  {
    match ev
    case Arrive => Moved(s, r, Arrived)
    case Load =>
      if s.inflight >= s.limit then Moved(s, r, if s.requests[r].Arrived? then NoSlot else CheckContext)
      else Moved(s, r, if s.requests[r].Arrived? then FastCas(s.inflight) else SlowCas(s.inflight))
    case Cas =>
      var slow := s.requests[r].SlowCas?;
      if s.inflight == s.requests[r].seen then Moved(s, r, Serving(slow)).(inflight := s.inflight + 1)
      else Moved(s, r, if slow then Polling else Arrived)
    case Join =>
      if s.maxQueue == 0 then Moved(s, r, Rejecting(QueueDisabled))
      else Moved(s, r, if s.queued + 1 > s.maxQueue then OverQueue else Polling).(queued := s.queued + 1)
    case StepBack => Moved(s, r, Rejecting(QueueFull)).(queued := s.queued - 1)
    case SeeContext(done) => Moved(s, r, if done then Rejecting(Cancelled) else CheckTimer)
    case SeeTimer(fired) => Moved(s, r, if fired then Rejecting(WaitTimeout) else Polling)
    case Finish =>
      Moved(s, r, if s.requests[r].slow then Leaving(Served) else Left(Served)).(inflight := s.inflight - 1)
    case CountOut =>
      var why := s.requests[r].why;
      Moved(s, r, if Queues(why) then Leaving(why) else Left(why)).(rejected := s.rejected + 1)
    case Unqueue => Moved(s, r, Left(s.requests[r].how)).(queued := s.queued - 1)
  }

  // ----- who is counted where -----

  predicate Holds(p: Phase) {
    p.Serving?
  }

  /** On the slow path from admission until its deferred decrement, running its handler included. */
  predicate Admitted(p: Phase) {
    p.Polling? || p.SlowCas? || p.CheckContext? || p.CheckTimer? || p == Serving(true) || p.Leaving?
    || (p.Rejecting? && Queues(p.why))
  }

  predicate Counted(p: Phase) {
    Admitted(p) || p.OverQueue?
  }

  /** Waiting for a slot, which is what the comment on `queued` says it counts. */
  predicate Waits(p: Phase) {
    p.Polling? || p.SlowCas? || p.CheckContext? || p.CheckTimer?
  }

  predicate TurnedAway(p: Phase) {
    (p.Left? || p.Leaving?) && !p.how.Served?
  }

  function Those(requests: map<nat, Phase>, which: Phase -> bool): set<nat> {
    set r | r in requests && which(requests[r])
  }

  predicate PhaseOk(limit: int, maxQueue: int, p: Phase) {
    && (Counted(p) ==> maxQueue > 0)
    && match p
       case FastCas(seen) => seen < limit
       case SlowCas(seen) => seen < limit
       case Rejecting(why) => !why.Served? && (why.QueueDisabled? <==> maxQueue == 0)
       case Leaving(how) => how.Served? || Queues(how)
       case Left(how) => how.Served? || (how.QueueDisabled? <==> maxQueue == 0)
       case _ => true
  }

  ghost predicate Inv(s: State) {
    && s.limit >= 1 && s.maxQueue >= 0
    && s.inflight == |Those(s.requests, Holds)| <= s.limit
    && s.queued == |Those(s.requests, Counted)|
    && |Those(s.requests, Admitted)| <= s.maxQueue
    && s.rejected == |Those(s.requests, TurnedAway)|
    && forall r :: r in s.requests ==> PhaseOk(s.limit, s.maxQueue, s.requests[r])
  }

  /** How a count changes when one request moves. */
  lemma CountMoves(requests: map<nat, Phase>, r: nat, p: Phase, which: Phase -> bool)
    ensures var before := r in requests && which(requests[r]);
            |Those(requests[r := p], which)|
            == |Those(requests, which)| + (if which(p) then 1 else 0) - (if before then 1 else 0)
  {
    var a, b := Those(requests, which), Those(requests[r := p], which);
    assert b == if which(p) then a + {r} else a - {r};
  }

  lemma {:induction false} SubsetSize(a: set<nat>, b: set<nat>)
    requires a <= b
    ensures |a| <= |b|
  {
    if a == {} {
    } else {
      var x :| x in a;
      SubsetSize(a - {x}, b - {x});
    }
  }

  lemma AdmittedAreCounted(requests: map<nat, Phase>)
    ensures |Those(requests, Admitted)| <= |Those(requests, Counted)|
  {
    SubsetSize(Those(requests, Admitted), Those(requests, Counted));
  }

  lemma StartInv(limit: int, maxQueue: int)
    ensures Inv(Start(limit, maxQueue))
  {
    var none := map[];
    assert Those(none, Holds) == Those(none, Counted) == Those(none, Admitted) == Those(none, TurnedAway) == {};
  }

  lemma MovedTo(s: State, r: nat, ev: Event)
    requires Enabled(s, r, ev) && s.maxQueue >= 0
    requires r in s.requests ==> PhaseOk(s.limit, s.maxQueue, s.requests[r])
    ensures var s' := Next(s, r, ev); r in s'.requests && PhaseOk(s.limit, s.maxQueue, s'.requests[r])
  {
  }

  lemma PhaseNext(s: State, r: nat, ev: Event)
    requires Inv(s) && Enabled(s, r, ev)
    ensures r in s.requests ==> PhaseOk(s.limit, s.maxQueue, s.requests[r])
    ensures var s' := Next(s, r, ev);
            && r in s'.requests && s'.requests == s.requests[r := s'.requests[r]]
            && s'.limit == s.limit && s'.maxQueue == s.maxQueue
            && PhaseOk(s.limit, s.maxQueue, s'.requests[r])
  {
    hide Those;
    assert s.maxQueue >= 0 && (r in s.requests ==> PhaseOk(s.limit, s.maxQueue, s.requests[r]));
    hide Inv;
    MovedTo(s, r, ev);
  }

  lemma StepPreserves(s: State, r: nat, ev: Event)
    requires Inv(s) && Enabled(s, r, ev)
    ensures Inv(Next(s, r, ev))
  {
    hide Those;
    PhaseNext(s, r, ev);
    var p := Next(s, r, ev).requests[r];
    CountMoves(s.requests, r, p, Holds);
    CountMoves(s.requests, r, p, Counted);
    CountMoves(s.requests, r, p, Admitted);
    CountMoves(s.requests, r, p, TurnedAway);
    AdmittedAreCounted(s.requests);
  }

  // ----- runs -----

  function After(start: State, steps: seq<(nat, Event)>): Option<State> {
    if steps == [] then Some(start)
    else
      var before := After(start, steps[..|steps| - 1]);
      var (r, ev) := steps[|steps| - 1];
      if before.Some? && Enabled(before.value, r, ev) then Some(Next(before.value, r, ev)) else None
  }

  ghost predicate Reaches(limit: int, maxQueue: int, steps: seq<(nat, Event)>, s: State) {
    After(Start(limit, maxQueue), steps) == Some(s)
  }

  lemma {:induction false} ReachesInv(limit: int, maxQueue: int, steps: seq<(nat, Event)>, s: State)
    requires Reaches(limit, maxQueue, steps, s)
    ensures Inv(s)
  {
    hide Inv, Next, Enabled;
    if steps == [] {
      StartInv(limit, maxQueue);
    } else {
      var last := |steps| - 1;
      var before := After(Start(limit, maxQueue), steps[..last]).value;
      ReachesInv(limit, maxQueue, steps[..last], before);
      StepPreserves(before, steps[last].0, steps[last].1);
    }
  }

  /**
   Safety in every interleaving: `inflight` is the number of requests holding a slot and never
   passes the limit; `queued` is the number of admitted slow-path requests and of those that have
   counted themselves in once too many; the admitted never exceed `maxQueue`; `rejectedTotal` is the
   number of requests turned away.
   */
  lemma LimiterSafe(limit: int, maxQueue: int, steps: seq<(nat, Event)>, s: State)
    requires Reaches(limit, maxQueue, steps, s)
    ensures s.inflight == |Those(s.requests, Holds)| && 0 <= s.inflight <= s.limit
    ensures s.queued == |Those(s.requests, Admitted)| + |Those(s.requests, (p: Phase) => p.OverQueue?)|
    ensures |Those(s.requests, Admitted)| <= s.maxQueue
    ensures s.rejected == |Those(s.requests, TurnedAway)|
  {
    ReachesInv(limit, maxQueue, steps, s);
    var over := Those(s.requests, (p: Phase) => p.OverQueue?);
    assert Those(s.requests, Counted) == Those(s.requests, Admitted) + over;
    assert Those(s.requests, Admitted) * over == {};
  }

  lemma EveryoneLeft(requests: map<nat, Phase>)
    requires forall r :: r in requests ==> requests[r].Left?
    ensures |Those(requests, TurnedAway)| + |Those(requests, (p: Phase) => p == Left(Served))| == |requests|
  {
    var served, away := Those(requests, (p: Phase) => p == Left(Served)), Those(requests, TurnedAway);
    assert served + away == requests.Keys && served * away == {};
  }

  /**
   When every request has left, both counters are back at zero and each request was either served or
   counted as rejected.
   */
  lemma QuiescentIsZero(limit: int, maxQueue: int, steps: seq<(nat, Event)>, s: State)
    requires Reaches(limit, maxQueue, steps, s) && forall r :: r in s.requests ==> s.requests[r].Left?
    ensures s.inflight == 0 && s.queued == 0
    ensures s.rejected + |Those(s.requests, (p: Phase) => p == Left(Served))| == |s.requests|
  {
    ReachesInv(limit, maxQueue, steps, s);
    hide Reaches, PhaseOk;
    assert Those(s.requests, Holds) == {} && Those(s.requests, Counted) == {};
    EveryoneLeft(s.requests);
  }

  /**
   `queued` is not the number of waiting requests its comment promises: it is that number exactly
   when nobody from the queue is running a handler, on the way out, or stepping back from a full queue.
   */
  lemma QueuedCountsWaitersIff(limit: int, maxQueue: int, steps: seq<(nat, Event)>, s: State)
    requires Reaches(limit, maxQueue, steps, s)
    ensures s.queued == |Those(s.requests, Waits)| <==>
            forall r :: r in s.requests ==> Counted(s.requests[r]) ==> Waits(s.requests[r])
  {
    ReachesInv(limit, maxQueue, steps, s);
    var waits, counted := Those(s.requests, Waits), Those(s.requests, Counted);
    if forall r :: r in s.requests ==> Counted(s.requests[r]) ==> Waits(s.requests[r]) {
      assert counted == waits;
    } else {
      var r :| r in s.requests && Counted(s.requests[r]) && !Waits(s.requests[r]);
      SubsetSize(waits, counted - {r});
    }
  }

  /** A request the queue served keeps its place in `queued` while its handler runs. */
  lemma ServedStillQueued(s: State, r: nat)
    requires Inv(s) && r in s.requests && s.requests[r] == Serving(true)
    ensures s.queued >= |Those(s.requests, Waits)| + 1
  {
    SubsetSize(Those(s.requests, Waits), Those(s.requests, Counted) - {r});
  }

  lemma AfterOne(start: State, steps: seq<(nat, Event)>, r: nat, ev: Event)
    requires After(start, steps).Some? && Enabled(After(start, steps).value, r, ev)
    ensures After(start, steps + [(r, ev)]) == Some(Next(After(start, steps).value, r, ev))
  {
    assert (steps + [(r, ev)])[..|steps|] == steps;
  }

  /** The first request takes the only slot and leaves it, and the second is served from the queue. */
  function ServedFromQueue(): seq<(nat, Event)> {
    [(0, Arrive)] + [(0, Load)] + [(0, Cas)] + [(1, Arrive)] + [(1, Load)] + [(1, Join)]
    + [(0, Finish)] + [(1, Load)] + [(1, Cas)]
  }

  lemma FirstServed(start: State)
    requires start == Start(1, 1)
    ensures After(start, [(0, Arrive)] + [(0, Load)] + [(0, Cas)])
            == Some(start.(requests := map[0 := Serving(false)], inflight := 1))
  {
    assert After(start, []) == Some(start);
    assert [] + [(0, Arrive)] == [(0, Arrive)];
    hide After;
    AfterOne(start, [], 0, Arrive);
    AfterOne(start, [(0, Arrive)], 0, Load);
    AfterOne(start, [(0, Arrive)] + [(0, Load)], 0, Cas);
    assert After(start, [(0, Arrive)] + [(0, Load)] + [(0, Cas)]).value.requests == map[0 := Serving(false)];
  }

  lemma SecondQueued(start: State)
    requires start == Start(1, 1)
    ensures After(start, [(0, Arrive)] + [(0, Load)] + [(0, Cas)] + [(1, Arrive)] + [(1, Load)] + [(1, Join)])
            == Some(start.(requests := map[0 := Serving(false), 1 := Polling], inflight := 1, queued := 1))
  {
    hide After;
    FirstServed(start);
    var three := [(0, Arrive)] + [(0, Load)] + [(0, Cas)];
    AfterOne(start, three, 1, Arrive);
    AfterOne(start, three + [(1, Arrive)], 1, Load);
    AfterOne(start, three + [(1, Arrive)] + [(1, Load)], 1, Join);
    var six := three + [(1, Arrive)] + [(1, Load)] + [(1, Join)];
    assert After(start, six).value.requests == map[0 := Serving(false), 1 := Polling];
  }

  lemma NobodyWaits(requests: map<nat, Phase>)
    requires requests == map[0 := Left(Served), 1 := Serving(true)]
    ensures Those(requests, Waits) == {}
  {
  }

  /** So the comment is wrong: a run leads to a state in which nobody waits and `queued` is one. */
  lemma QueuedWithoutWaiters()
    ensures exists s :: Reaches(1, 1, ServedFromQueue(), s) && s.queued == 1 && Those(s.requests, Waits) == {}
  {
    hide After, Those;
    var start := Start(1, 1);
    var six := [(0, Arrive)] + [(0, Load)] + [(0, Cas)] + [(1, Arrive)] + [(1, Load)] + [(1, Join)];
    SecondQueued(start);
    AfterOne(start, six, 0, Finish);
    AfterOne(start, six + [(0, Finish)], 1, Load);
    AfterOne(start, six + [(0, Finish)] + [(1, Load)], 1, Cas);
    var s := After(start, ServedFromQueue()).value;
    assert s.requests == map[0 := Left(Served), 1 := Serving(true)];
    NobodyWaits(s.requests);
    assert Reaches(1, 1, ServedFromQueue(), s);
  }

  // ----- leaving -----

  /** A request that has left stays as it left, through every further run, so one outcome excludes the others. */
  lemma {:induction false} OutcomeIsFinal(s: State, steps: seq<(nat, Event)>, r: nat)
    requires r in s.requests && s.requests[r].Left? && After(s, steps).Some?
    ensures var t := After(s, steps).value; r in t.requests && t.requests[r] == s.requests[r]
  {
    if steps == [] {
    } else {
      OutcomeIsFinal(s, steps[..|steps| - 1], r);
    }
  }

  /** How a request can leave follows from the configuration and what it met. */
  lemma QueueFullOnlyWhenFull(s: State, r: nat)
    requires Inv(s) && Enabled(s, r, Join)
    ensures Next(s, r, Join).requests[r].OverQueue? <==> s.maxQueue > 0 && |Those(s.requests, Counted)| >= s.maxQueue
    ensures Next(s, r, Join).requests[r] == Rejecting(QueueDisabled) <==> s.maxQueue == 0
  {
  }

  // ----- how long a request polls -----

  /**
   A state with the clock in milliseconds: when each request arrived, when it joined the queue, which is when its timer
   starts, when its last sleep ends, and how many turns of its polling loop it has slept through.
   */
  datatype Timed = Timed(state: State, now: nat, arrived: map<nat, nat>, joined: map<nat, nat>,
                         wake: map<nat, nat>, turns: map<nat, nat>)

  function Turns(t: Timed, r: nat): nat {
    if r in t.turns then t.turns[r] else 0
  }

  /**
   The steps that a clock allows: time does not run backwards, a sleeping request does not load, its context is done
   when `timeout` has passed since it arrived or before, as the client likes, and its timer has fired when `queueWait`
   has passed since it joined the queue. A queue wait of 0 means no timer.
   */
  predicate TimedEnabled(timeout: nat, queueWait: nat, t: Timed, at: nat, r: nat, ev: Event) {
    at >= t.now && Enabled(t.state, r, ev) &&
    match ev
    case Load => r in t.wake ==> at >= t.wake[r]
    case SeeContext(done) => r in t.arrived && (at >= t.arrived[r] + timeout ==> done)
    case SeeTimer(fired) => r in t.joined && (fired <==> queueWait > 0 && at >= t.joined[r] + queueWait)
    case _ => true
  }

  function TimedNext(t: Timed, at: nat, r: nat, ev: Event): Timed
    requires Enabled(t.state, r, ev)
  {
    var next := t.(state := Next(t.state, r, ev), now := at);
    match ev
    case Arrive => next.(arrived := t.arrived[r := at])
    case Join => next.(joined := t.joined[r := at])
    case SeeTimer(fired) => if fired then next else next.(wake := t.wake[r := at + 1], turns := t.turns[r := Turns(t, r) + 1])
    case _ => next
  }

  function TimedAfter(timeout: nat, queueWait: nat, start: State, steps: seq<(nat, nat, Event)>): Option<Timed> {
    if steps == [] then Some(Timed(start, 0, map[], map[], map[], map[]))
    else
      var before := TimedAfter(timeout, queueWait, start, steps[..|steps| - 1]);
      var (at, r, ev) := steps[|steps| - 1];
      if before.Some? && TimedEnabled(timeout, queueWait, before.value, at, r, ev)
      then Some(TimedNext(before.value, at, r, ev)) else None
  }

  /** Requests that have not joined the queue. */
  predicate OnFastPath(p: Phase) {
    p.Arrived? || p.FastCas? || p.NoSlot?
  }

  /** From the moment it joins, every turn takes a request at least a millisecond further. */
  predicate TurnsOk(timeout: nat, queueWait: nat, t: Timed, r: nat) {
    var j := Turns(t, r);
    && (r !in t.state.requests ==> j == 0 && r !in t.wake && r !in t.joined)
    && (r in t.state.requests ==> r in t.arrived && t.arrived[r] <= t.now)
    && (j > 0 ==> r in t.joined)
    && (r in t.state.requests && OnFastPath(t.state.requests[r]) ==> j == 0 && r !in t.wake && r !in t.joined)
    && (r in t.state.requests && Waits(t.state.requests[r]) ==> r in t.joined)
    && (r in t.state.requests && r in t.joined && !OnFastPath(t.state.requests[r]) ==>
          var a, b := t.arrived[r], t.joined[r];
          && a <= b <= t.now
          && (j > 0 ==> b + j <= a + timeout && (queueWait > 0 ==> j <= queueWait) && r in t.wake && t.wake[r] >= b + j)
          && match t.state.requests[r]
             case SlowCas(_) => t.now >= b + j
             case CheckContext => t.now >= b + j
             case CheckTimer => t.now >= b + j && b + j + 1 <= a + timeout
             case _ => true)
  }

  lemma OwnTurns(timeout: nat, queueWait: nat, t: Timed, at: nat, r: nat, ev: Event)
    requires TimedEnabled(timeout, queueWait, t, at, r, ev) && TurnsOk(timeout, queueWait, t, r)
    ensures TurnsOk(timeout, queueWait, TimedNext(t, at, r, ev), r)
  {
  }

  lemma OthersKeepTurns(timeout: nat, queueWait: nat, t: Timed, at: nat, r: nat, ev: Event, q: nat)
    requires TimedEnabled(timeout, queueWait, t, at, r, ev) && TurnsOk(timeout, queueWait, t, q) && q != r
    ensures TurnsOk(timeout, queueWait, TimedNext(t, at, r, ev), q)
  {
    var t' := TimedNext(t, at, r, ev);
    assert q in t'.state.requests <==> q in t.state.requests;
    assert q in t.state.requests ==> t'.state.requests[q] == t.state.requests[q];
    hide Next, Enabled;
  }

  lemma TurnsStep(timeout: nat, queueWait: nat, t: Timed, at: nat, r: nat, ev: Event, q: nat)
    requires TimedEnabled(timeout, queueWait, t, at, r, ev) && TurnsOk(timeout, queueWait, t, q)
    ensures TurnsOk(timeout, queueWait, TimedNext(t, at, r, ev), q)
  {
    hide TurnsOk, TimedNext;
    if q == r {
      OwnTurns(timeout, queueWait, t, at, r, ev);
    } else {
      OthersKeepTurns(timeout, queueWait, t, at, r, ev, q);
    }
  }

  lemma {:induction false} TimedRunOk(timeout: nat, queueWait: nat, limit: int, maxQueue: int,
                                      steps: seq<(nat, nat, Event)>, r: nat)
    requires TimedAfter(timeout, queueWait, Start(limit, maxQueue), steps).Some?
    ensures TurnsOk(timeout, queueWait, TimedAfter(timeout, queueWait, Start(limit, maxQueue), steps).value, r)
  {
    if steps == [] {
    } else {
      hide TimedNext, TimedEnabled, TurnsOk;
      var last := |steps| - 1;
      TimedRunOk(timeout, queueWait, limit, maxQueue, steps[..last], r);
      var before := TimedAfter(timeout, queueWait, Start(limit, maxQueue), steps[..last]).value;
      TurnsStep(timeout, queueWait, before, steps[last].0, steps[last].1, steps[last].2, r);
    }
  }

  /**
   The polling loop ends. Among any number of requests, in any interleaving and whenever it arrives, a request sleeps
   through at most as many turns as milliseconds were left to its deadline when it joined the queue, and at most as
   many as the queue wait has, if there is one.
   */
  lemma PollingEnds(timeout: nat, queueWait: nat, limit: int, maxQueue: int, steps: seq<(nat, nat, Event)>, r: nat)
    requires TimedAfter(timeout, queueWait, Start(limit, maxQueue), steps).Some?
    ensures var t := TimedAfter(timeout, queueWait, Start(limit, maxQueue), steps).value;
            Turns(t, r) > 0 ==>
              && r in t.arrived && r in t.joined && t.arrived[r] <= t.joined[r]
              && Turns(t, r) <= t.arrived[r] + timeout - t.joined[r]
              && (queueWait > 0 ==> Turns(t, r) <= queueWait)
  {
    TimedRunOk(timeout, queueWait, limit, maxQueue, steps, r);
  }

  // ----- and it can poll that long -----

  /** The turns there are before the deadline and the queue wait, of a request that joins the queue as it arrives. */
  function Patience(timeout: nat, queueWait: nat): nat {
    if 0 < queueWait < timeout then queueWait else timeout
  }

  /** The only slot is taken and the second request joins the queue, all at once. */
  const QUEUED: seq<(nat, nat, Event)> :=
    [(0, 0, Arrive), (0, 0, Load), (0, 0, Cas), (0, 1, Arrive), (0, 1, Load), (0, 1, Join)]

  /** One turn of its loop, in the i-th millisecond. */
  function Turn(i: nat): seq<(nat, nat, Event)> {
    [(i, 1, Load), (i, 1, SeeContext(false)), (i, 1, SeeTimer(false))]
  }

  function Waiting(turns: nat): seq<(nat, nat, Event)> {
    if turns == 0 then QUEUED else Waiting(turns - 1) + Turn(turns - 1)
  }

  /** The turn in which it finds its deadline, or else its timer, past. */
  function GivingUp(timeout: nat, queueWait: nat): seq<(nat, nat, Event)> {
    var n := Patience(timeout, queueWait);
    if n == timeout then [(n, 1, Load), (n, 1, SeeContext(true))]
    else [(n, 1, Load), (n, 1, SeeContext(false)), (n, 1, SeeTimer(true))]
  }

  /** The second request has slept through i turns, the last of which ends in millisecond i. */
  predicate Waited(t: Timed, i: nat) {
    && t.state == State(1, 1, 0, 1, 1, map[0 := Serving(false), 1 := Polling])
    && t.now <= i && t.arrived == map[0 := 0, 1 := 0] && t.joined == map[1 := 0]
    && t.wake == (if i == 0 then map[] else map[1 := i]) && t.turns == (if i == 0 then map[] else map[1 := i])
  }

  lemma TimedOne(timeout: nat, queueWait: nat, start: State, steps: seq<(nat, nat, Event)>, at: nat, r: nat, ev: Event)
    requires TimedAfter(timeout, queueWait, start, steps).Some?
    requires TimedEnabled(timeout, queueWait, TimedAfter(timeout, queueWait, start, steps).value, at, r, ev)
    ensures TimedAfter(timeout, queueWait, start, steps + [(at, r, ev)])
            == Some(TimedNext(TimedAfter(timeout, queueWait, start, steps).value, at, r, ev))
  {
    hide TimedEnabled, TimedNext;
    assert (steps + [(at, r, ev)])[..|steps|] == steps;
  }

  lemma QueuedWaits(timeout: nat, queueWait: nat)
    ensures var t := TimedAfter(timeout, queueWait, Start(1, 1), QUEUED); t.Some? && Waited(t.value, 0)
  {
    var start := Start(1, 1);
    assert TimedAfter(timeout, queueWait, start, []) == Some(Timed(start, 0, map[], map[], map[], map[]));
    hide TimedAfter;
    TimedOne(timeout, queueWait, start, [], 0, 0, Arrive);
    TimedOne(timeout, queueWait, start, [] + [(0, 0, Arrive)], 0, 0, Load);
    var two := [] + [(0, 0, Arrive)] + [(0, 0, Load)];
    TimedOne(timeout, queueWait, start, two, 0, 0, Cas);
    TimedOne(timeout, queueWait, start, two + [(0, 0, Cas)], 0, 1, Arrive);
    var four := two + [(0, 0, Cas)] + [(0, 1, Arrive)];
    TimedOne(timeout, queueWait, start, four, 0, 1, Load);
    TimedOne(timeout, queueWait, start, four + [(0, 1, Load)], 0, 1, Join);
    assert QUEUED == four + [(0, 1, Load)] + [(0, 1, Join)];
    assert TimedAfter(timeout, queueWait, start, QUEUED).value.state.requests == map[0 := Serving(false), 1 := Polling];
  }

  lemma OneTurn(timeout: nat, queueWait: nat, steps: seq<(nat, nat, Event)>, i: nat)
    requires i < Patience(timeout, queueWait)
    requires var t := TimedAfter(timeout, queueWait, Start(1, 1), steps); t.Some? && Waited(t.value, i)
    ensures var t := TimedAfter(timeout, queueWait, Start(1, 1), steps + Turn(i)); t.Some? && Waited(t.value, i + 1)
  {
    hide TimedAfter;
    var start := Start(1, 1);
    TimedOne(timeout, queueWait, start, steps, i, 1, Load);
    TimedOne(timeout, queueWait, start, steps + [(i, 1, Load)], i, 1, SeeContext(false));
    TimedOne(timeout, queueWait, start, steps + [(i, 1, Load)] + [(i, 1, SeeContext(false))], i, 1, SeeTimer(false));
    assert steps + [(i, 1, Load)] + [(i, 1, SeeContext(false))] + [(i, 1, SeeTimer(false))] == steps + Turn(i);
    assert TimedAfter(timeout, queueWait, start, steps + Turn(i)).value.state.requests == map[0 := Serving(false), 1 := Polling];
  }

  lemma {:induction false} ItWaits(timeout: nat, queueWait: nat, i: nat)
    requires i <= Patience(timeout, queueWait)
    ensures var t := TimedAfter(timeout, queueWait, Start(1, 1), Waiting(i)); t.Some? && Waited(t.value, i)
  {
    hide TimedAfter, Waited;
    if i == 0 {
      QueuedWaits(timeout, queueWait);
    } else {
      ItWaits(timeout, queueWait, i - 1);
      OneTurn(timeout, queueWait, Waiting(i - 1), i - 1);
    }
  }

  /**
   The bound is reached, for every deadline and every queue wait: a request can sleep through a turn in each millisecond
   up to the earlier of the two, and then it is cancelled, or timed out if its timer was first.
   */
  lemma PollsToTheEnd(timeout: nat, queueWait: nat)
    ensures var n := Patience(timeout, queueWait);
            var t := TimedAfter(timeout, queueWait, Start(1, 1), Waiting(n) + GivingUp(timeout, queueWait));
            && t.Some? && Turns(t.value, 1) == n == (if queueWait == 0 || timeout <= queueWait then timeout else queueWait)
            && 1 in t.value.state.requests
            && t.value.state.requests[1] ==
               Rejecting(if queueWait == 0 || timeout <= queueWait then Cancelled else WaitTimeout)
  {
    hide TimedAfter;
    var start, n := Start(1, 1), Patience(timeout, queueWait);
    ItWaits(timeout, queueWait, n);
    var steps := Waiting(n);
    TimedOne(timeout, queueWait, start, steps, n, 1, Load);
    var loaded := steps + [(n, 1, Load)];
    if n == timeout {
      TimedOne(timeout, queueWait, start, loaded, n, 1, SeeContext(true));
      assert loaded + [(n, 1, SeeContext(true))] == steps + GivingUp(timeout, queueWait);
    } else {
      TimedOne(timeout, queueWait, start, loaded, n, 1, SeeContext(false));
      TimedOne(timeout, queueWait, start, loaded + [(n, 1, SeeContext(false))], n, 1, SeeTimer(true));
      assert loaded + [(n, 1, SeeContext(false))] + [(n, 1, SeeTimer(true))] == steps + GivingUp(timeout, queueWait);
    }
  }

  // ----- how a request leaves, and why -----

  /** The request has its outcome: it is served, or turned away for this reason, counted and gone or not yet. */
  predicate Decided(p: Phase, how: Outcome) {
    p == Rejecting(how) || p == Leaving(how) || p == Left(how) || (how.Served? && p.Serving?)
  }

  /** The step at which request r finds out: what it sees at that moment. */
  predicate Decides(queueWait: nat, t: Timed, at: nat, r: nat, ev: Event, how: Outcome)
    requires Enabled(t.state, r, ev)
  {
    match how
    case Served => ev == Cas && t.state.requests[r].seen == t.state.inflight < t.state.limit
    case QueueDisabled => ev == Join && t.state.maxQueue == 0
    case QueueFull => ev == StepBack
    case Cancelled => ev == SeeContext(true)
    case WaitTimeout => ev == SeeTimer(true) && queueWait > 0 && r in t.joined && at >= t.joined[r] + queueWait
  }

  /** Step i of the run is where request r gets this outcome. */
  ghost predicate DecidedAt(timeout: nat, queueWait: nat, start: State, steps: seq<(nat, nat, Event)>, i: nat,
                            r: nat, how: Outcome) {
    && i < |steps| && steps[i].1 == r
    && var before := TimedAfter(timeout, queueWait, start, steps[..i]);
       && before.Some? && Enabled(before.value.state, r, steps[i].2)
       && Decides(queueWait, before.value, steps[i].0, r, steps[i].2, how)
  }

  lemma OwnService(timeout: nat, queueWait: nat, t: Timed, at: nat, r: nat, ev: Event, how: Outcome)
    requires TimedEnabled(timeout, queueWait, t, at, r, ev) && how.Served?
    requires r in t.state.requests ==> PhaseOk(t.state.limit, t.state.maxQueue, t.state.requests[r])
    ensures var s' := TimedNext(t, at, r, ev).state;
            && r in s'.requests
            && (Decided(s'.requests[r], how) <==>
                  (r in t.state.requests && Decided(t.state.requests[r], how)) || Decides(queueWait, t, at, r, ev, how))
  {
  }

  lemma OwnRefusal(timeout: nat, queueWait: nat, t: Timed, at: nat, r: nat, ev: Event, how: Outcome)
    requires TimedEnabled(timeout, queueWait, t, at, r, ev) && (how.QueueDisabled? || how.QueueFull?)
    requires r in t.state.requests ==> PhaseOk(t.state.limit, t.state.maxQueue, t.state.requests[r])
    ensures var s' := TimedNext(t, at, r, ev).state;
            && r in s'.requests
            && (Decided(s'.requests[r], how) <==>
                  (r in t.state.requests && Decided(t.state.requests[r], how)) || Decides(queueWait, t, at, r, ev, how))
  {
  }

  lemma OwnEnd(timeout: nat, queueWait: nat, t: Timed, at: nat, r: nat, ev: Event, how: Outcome)
    requires TimedEnabled(timeout, queueWait, t, at, r, ev) && (how.Cancelled? || how.WaitTimeout?)
    requires r in t.state.requests ==> PhaseOk(t.state.limit, t.state.maxQueue, t.state.requests[r])
    ensures var s' := TimedNext(t, at, r, ev).state;
            && r in s'.requests
            && (Decided(s'.requests[r], how) <==>
                  (r in t.state.requests && Decided(t.state.requests[r], how)) || Decides(queueWait, t, at, r, ev, how))
  {
  }

  lemma OwnDecision(timeout: nat, queueWait: nat, t: Timed, at: nat, r: nat, ev: Event, how: Outcome)
    requires TimedEnabled(timeout, queueWait, t, at, r, ev)
    requires r in t.state.requests ==> PhaseOk(t.state.limit, t.state.maxQueue, t.state.requests[r])
    ensures var s' := TimedNext(t, at, r, ev).state;
            && r in s'.requests
            && (Decided(s'.requests[r], how) <==>
                  (r in t.state.requests && Decided(t.state.requests[r], how)) || Decides(queueWait, t, at, r, ev, how))
  {
    hide TimedNext, TimedEnabled, PhaseOk, Decided, Decides;
    match how
    case Served => OwnService(timeout, queueWait, t, at, r, ev, how);
    case Cancelled => OwnEnd(timeout, queueWait, t, at, r, ev, how);
    case WaitTimeout => OwnEnd(timeout, queueWait, t, at, r, ev, how);
    case _ => OwnRefusal(timeout, queueWait, t, at, r, ev, how);
  }

  lemma PhaseAt(s: State, r: nat)
    requires Inv(s)
    ensures r in s.requests ==> PhaseOk(s.limit, s.maxQueue, s.requests[r])
  {
  }

  lemma OthersDecision(timeout: nat, queueWait: nat, t: Timed, at: nat, q: nat, ev: Event, r: nat)
    requires TimedEnabled(timeout, queueWait, t, at, q, ev) && r != q
    ensures var s' := TimedNext(t, at, q, ev).state;
            && (r in s'.requests <==> r in t.state.requests)
            && (r in s'.requests ==> s'.requests[r] == t.state.requests[r])
  {
  }

  lemma {:induction false} TimedRunInv(timeout: nat, queueWait: nat, limit: int, maxQueue: int,
                                       steps: seq<(nat, nat, Event)>)
    requires TimedAfter(timeout, queueWait, Start(limit, maxQueue), steps).Some?
    ensures Inv(TimedAfter(timeout, queueWait, Start(limit, maxQueue), steps).value.state)
  {
    hide Inv, Next, Enabled;
    if steps == [] {
      StartInv(limit, maxQueue);
    } else {
      var last := |steps| - 1;
      TimedRunInv(timeout, queueWait, limit, maxQueue, steps[..last]);
      var before := TimedAfter(timeout, queueWait, Start(limit, maxQueue), steps[..last]).value;
      StepPreserves(before.state, steps[last].1, steps[last].2);
    }
  }

  lemma SameBefore(timeout: nat, queueWait: nat, start: State, steps: seq<(nat, nat, Event)>, i: nat, r: nat, how: Outcome)
    requires i < |steps| - 1
    ensures DecidedAt(timeout, queueWait, start, steps, i, r, how)
            == DecidedAt(timeout, queueWait, start, steps[..|steps| - 1], i, r, how)
  {
    hide TimedAfter, Decides, Enabled;
    assert steps[..|steps| - 1][..i] == steps[..i];
  }

  lemma AtLast(timeout: nat, queueWait: nat, start: State, steps: seq<(nat, nat, Event)>, r: nat, how: Outcome)
    requires steps != [] && TimedAfter(timeout, queueWait, start, steps).Some?
    ensures var last := |steps| - 1;
            var before := TimedAfter(timeout, queueWait, start, steps[..last]).value;
            && Enabled(before.state, steps[last].1, steps[last].2)
            && DecidedAt(timeout, queueWait, start, steps, last, r, how)
               == (steps[last].1 == r && Decides(queueWait, before, steps[last].0, r, steps[last].2, how))
  {
    hide TimedNext, Decides, Enabled;
  }

  lemma LastDecides(timeout: nat, queueWait: nat, start: State, steps: seq<(nat, nat, Event)>,
                    front: seq<(nat, nat, Event)>, r: nat, how: Outcome)
    requires steps != [] && front == steps[..|steps| - 1]
    ensures (exists i: nat :: DecidedAt(timeout, queueWait, start, steps, i, r, how)) <==>
            (exists i: nat :: DecidedAt(timeout, queueWait, start, front, i, r, how))
            || DecidedAt(timeout, queueWait, start, steps, |steps| - 1, r, how)
  {
    if i: nat :| DecidedAt(timeout, queueWait, start, steps, i, r, how) {
      hide DecidedAt;
      if i < |front| {
        SameBefore(timeout, queueWait, start, steps, i, r, how);
      }
    }
    if i: nat :| DecidedAt(timeout, queueWait, start, front, i, r, how) {
      SameBefore(timeout, queueWait, start, steps, i, r, how);
    }
  }

  /**
   Every outcome has its cause. In every run a request is, or was, served exactly when a swap of its own took a free
   slot; it is cancelled exactly when it found its context done, timed out exactly when it found its timer fired, and
   that is `queueWait` after it joined the queue; it is turned away as over the queue exactly when it stepped back, and
   for want of a queue exactly when there is none.
   */
  lemma {:induction false} OutcomeIff(timeout: nat, queueWait: nat, limit: int, maxQueue: int,
                                      steps: seq<(nat, nat, Event)>, r: nat, how: Outcome)
    requires TimedAfter(timeout, queueWait, Start(limit, maxQueue), steps).Some?
    ensures var s := TimedAfter(timeout, queueWait, Start(limit, maxQueue), steps).value.state;
            (r in s.requests && Decided(s.requests[r], how)) <==>
            exists i: nat :: DecidedAt(timeout, queueWait, Start(limit, maxQueue), steps, i, r, how)
  {
    if steps == [] {
    } else {
      hide TimedNext, TimedEnabled, Enabled, Inv, PhaseOk, Decided, Decides, DecidedAt;
      var start, last := Start(limit, maxQueue), |steps| - 1;
      var (at, q, ev) := steps[last];
      var before := TimedAfter(timeout, queueWait, start, steps[..last]).value;
      OutcomeIff(timeout, queueWait, limit, maxQueue, steps[..last], r, how);
      TimedRunInv(timeout, queueWait, limit, maxQueue, steps[..last]);
      LastDecides(timeout, queueWait, start, steps, steps[..last], r, how);
      AtLast(timeout, queueWait, start, steps, r, how);
      if r == q {
        PhaseAt(before.state, r);
        OwnDecision(timeout, queueWait, before, at, r, ev, how);
      } else {
        OthersDecision(timeout, queueWait, before, at, q, ev, r);
      }
    }
  }

  // ----- the configuration -----

  /** A number from the environment; one that is not positive counts as absent. */
  function EnvInt(setting: Option<int>, default: int): int {
    if setting.Some? && setting.value > 0 then setting.value else default
  }

  lemma {:induction false} SameConfiguration(s: State, steps: seq<(nat, Event)>)
    requires After(s, steps).Some?
    ensures After(s, steps).value.limit == s.limit && After(s, steps).value.maxQueue == s.maxQueue
  {
    if steps == [] {
    } else {
      SameConfiguration(s, steps[..|steps| - 1]);
    }
  }

  /** So the queue cannot be switched off from the environment, and no request is ever refused for that. */
  lemma QueueNeverDisabled(limit: Option<int>, maxQueue: Option<int>, steps: seq<(nat, Event)>, s: State, r: nat)
    requires Reaches(EnvInt(limit, 200), EnvInt(maxQueue, 500), steps, s) && r in s.requests
    ensures s.limit == (if limit.Some? && limit.value >= 1 then limit.value else 200)
    ensures s.maxQueue == if maxQueue.Some? && maxQueue.value >= 1 then maxQueue.value else 500
    ensures s.requests[r] !in {Rejecting(QueueDisabled), Leaving(QueueDisabled), Left(QueueDisabled)}
  {
    ReachesInv(EnvInt(limit, 200), EnvInt(maxQueue, 500), steps, s);
    SameConfiguration(Start(EnvInt(limit, 200), EnvInt(maxQueue, 500)), steps);
  }

  // ----- tryAcquire -----

  /** What the others do during one turn of `tryAcquire`: between its load and its swap, and then before its next load. */
  datatype Interference = Interference(beforeSwap: seq<(nat, Event)>, beforeLoad: seq<(nat, Event)>)

  /** The state after steps of the others, if they can be taken and leave request r alone. */
  function Meanwhile(s: State, r: nat, steps: seq<(nat, Event)>): (result: Option<State>)
    requires r in s.requests
    ensures result.Some? ==> r in result.value.requests && result.value.requests[r] == s.requests[r]
  {
    var after := After(s, steps);
    if after.Some? && r in after.value.requests && after.value.requests[r] == s.requests[r] then after else None
  }

  /**
   The loop of `tryAcquire` from a state in which request r is about to load, with what the others do in each turn.
   None if they could not do it.
   */
  function Attempt(s: State, r: nat, others: seq<Interference>): (result: Option<State>)
    requires Enabled(s, r, Load)
    ensures result.Some? ==> r in result.value.requests
    decreases |others|
  {
    var loaded := Next(s, r, Load);
    if s.inflight >= s.limit then Some(loaded)
    else if others == [] then Some(Next(loaded, r, Cas))
    else
      match Meanwhile(loaded, r, others[0].beforeSwap)
      case None => None
      case Some(raced) =>
        var swapped := Next(raced, r, Cas);
        if swapped.requests[r].Serving? then Some(swapped)
        else
          match Meanwhile(swapped, r, others[0].beforeLoad)
          case None => None
          case Some(again) => Attempt(again, r, others[1..])
  }

  lemma {:induction false} RunKeepsInv(s: State, steps: seq<(nat, Event)>)
    requires Inv(s) && After(s, steps).Some?
    ensures Inv(After(s, steps).value)
  {
    hide Inv;
    if steps == [] {
    } else {
      var last := |steps| - 1;
      RunKeepsInv(s, steps[..last]);
      StepPreserves(After(s, steps[..last]).value, steps[last].0, steps[last].1);
    }
  }

  lemma MeanwhileKeeps(s: State, r: nat, steps: seq<(nat, Event)>)
    requires r in s.requests && Meanwhile(s, r, steps).Some?
    ensures var t := Meanwhile(s, r, steps).value;
            t.limit == s.limit && t.maxQueue == s.maxQueue && (Inv(s) ==> Inv(t))
  {
    SameConfiguration(s, steps);
    if Inv(s) {
      RunKeepsInv(s, steps);
    }
  }

  /** Whatever the others do, the attempt ends with a slot within the limit, or without one when all are taken. */
  lemma {:induction false} AttemptOutcome(s: State, r: nat, others: seq<Interference>)
    requires Inv(s) && Enabled(s, r, Load) && Attempt(s, r, others).Some?
    ensures var t := Attempt(s, r, others).value;
            && Inv(t) && t.limit == s.limit
            && if t.requests[r].Serving? then t.inflight <= s.limit
               else t.inflight == s.limit && (t.requests[r].NoSlot? || t.requests[r].CheckContext?)
    decreases |others|
  {
    hide Meanwhile;
    StepPreserves(s, r, Load);
    var loaded := Next(s, r, Load);
    if s.inflight >= s.limit {
    } else if others == [] {
      StepPreserves(loaded, r, Cas);
    } else {
      MeanwhileKeeps(loaded, r, others[0].beforeSwap);
      var raced := Meanwhile(loaded, r, others[0].beforeSwap).value;
      StepPreserves(raced, r, Cas);
      var swapped := Next(raced, r, Cas);
      if !swapped.requests[r].Serving? {
        MeanwhileKeeps(swapped, r, others[0].beforeLoad);
        AttemptOutcome(Meanwhile(swapped, r, others[0].beforeLoad).value, r, others[1..]);
      }
    }
  }

  /** The three counters. Each atomic operation on them is a step of the state machine above. */
  class ConcurrencyLimiter {
    var inflight: int
    var queued: int
    var rejectedTotal: nat
    const limit: int
    const maxQueue: int

    ghost predicate Shows(s: State)
      reads this
    {
      inflight == s.inflight && queued == s.queued && rejectedTotal == s.rejected && limit == s.limit && maxQueue == s.maxQueue
    }

    constructor (limit: int, maxQueue: int)
      ensures Shows(Start(limit, maxQueue))
    {
      this.limit := if limit < 1 then 1 else limit;
      this.maxQueue := if maxQueue < 0 then 0 else maxQueue;
      inflight, queued, rejectedTotal := 0, 0, 0;
    }

    /** Takes over what the steps of others have made of the counters. */
    method Observe(s: State)
      requires s.limit == limit && s.maxQueue == maxQueue
      modifies this
      ensures Shows(s)
    {
      inflight, queued, rejectedTotal := s.inflight, s.queued, s.rejected;
    }

    /**
     `tryAcquire` of request r among the others. Its loads and swaps are the state machine's, with any steps of the
     others before and after each, and it goes on exactly while its swaps fail. `s` and `others` stand for what goes on
     around it.
     */
    method TryAcquire(s: State, r: nat, others: seq<Interference>) returns (ok: bool)
      requires Shows(s) && Enabled(s, r, Load) && Attempt(s, r, others).Some?
      modifies this
      ensures Shows(Attempt(s, r, others).value)
      ensures ok <==> Attempt(s, r, others).value.requests[r].Serving?
    {
      hide After, Meanwhile;
      var around, turn := s, 0;
      assert others[0..] == others;
      while true
        invariant 0 <= turn <= |others| && Shows(around) && Enabled(around, r, Load)
        invariant Attempt(around, r, others[turn..]) == Attempt(s, r, others)
        decreases |others| - turn
      {
        var current := inflight;
        around := Next(around, r, Load);
        if current >= limit {
          return false;
        }
        if turn < |others| {
          assert others[turn..][0] == others[turn] && others[turn..][1..] == others[turn + 1..];
          MeanwhileKeeps(around, r, others[turn].beforeSwap);
          around := Meanwhile(around, r, others[turn].beforeSwap).value;
          Observe(around);
        }
        around := Next(around, r, Cas);
        if inflight == current {
          inflight := current + 1;
          return true;
        }
        MeanwhileKeeps(around, r, others[turn].beforeLoad);
        around := Meanwhile(around, r, others[turn].beforeLoad).value;
        Observe(around);
        turn := turn + 1;
      }
    }

    /** The deferred release. */
    method Release(ghost s: State, ghost r: nat)
      requires Shows(s) && Enabled(s, r, Finish)
      modifies this`inflight
      ensures Shows(Next(s, r, Finish))
    {
      inflight := inflight - 1;
    }

    /** Joins the queue, and reports whether that was once too many; with no queue it is a rejection. */
    method Enqueue(ghost s: State, ghost r: nat) returns (admitted: bool)
      requires Shows(s) && Enabled(s, r, Join)
      modifies this`queued
      ensures Shows(Next(s, r, Join))
      ensures admitted <==> Next(s, r, Join).requests[r].Polling?
    {
      if maxQueue == 0 {
        return false;
      }
      queued := queued + 1;
      return queued <= maxQueue;
    }

    /** The decrement that undoes a count too many, or the deferred one of a request that was admitted. */
    method Dequeue(ghost s: State, ghost r: nat, ghost ev: Event)
      requires Shows(s) && Enabled(s, r, ev) && (ev.StepBack? || ev.Unqueue?)
      modifies this`queued
      ensures Shows(Next(s, r, ev))
    {
      queued := queued - 1;
    }

    method CountRejected(ghost s: State, ghost r: nat)
      requires Shows(s) && Enabled(s, r, CountOut)
      modifies this`rejectedTotal
      ensures Shows(Next(s, r, CountOut))
    {
      rejectedTotal := rejectedTotal + 1;
    }
  }

  /**
   The polling loop of one queued request. `free(i)` says whether its i-th attempt finds a slot and
   `clock(i)` is the time of that attempt in milliseconds; each turn sleeps at least one. The context
   ends at `deadline`; a queue wait of 0 means no timer. The loop takes at most as many turns as
   there are milliseconds to the earlier of the two, and ends as its last turn says.
   */
  method Poll(free: nat -> bool, clock: nat -> nat, deadline: nat, queueWait: nat) returns (outcome: Outcome, turns: nat)
    requires forall i: nat :: clock(i) < clock(i + 1)
    ensures turns <= deadline && (queueWait > 0 ==> turns <= queueWait)
    ensures forall i: nat :: i < turns ==> !free(i) && clock(i) < deadline && (queueWait > 0 ==> clock(i) < queueWait)
    ensures outcome == if free(turns) then Served else if clock(turns) >= deadline then Cancelled else WaitTimeout
    ensures outcome.WaitTimeout? ==> queueWait > 0 && clock(turns) >= queueWait
  {
    turns := 0;
    while true
      invariant turns <= clock(turns)
      invariant turns <= deadline && (queueWait > 0 ==> turns <= queueWait)
      invariant forall i: nat :: i < turns ==> !free(i) && clock(i) < deadline && (queueWait > 0 ==> clock(i) < queueWait)
      decreases deadline - turns
    {
      if free(turns) {
        return Served, turns;
      }
      if clock(turns) >= deadline {
        return Cancelled, turns;
      }
      if queueWait > 0 && clock(turns) >= queueWait {
        return WaitTimeout, turns;
      }
      assert clock(turns) < clock(turns + 1);
      turns := turns + 1;
    }
  }
}
