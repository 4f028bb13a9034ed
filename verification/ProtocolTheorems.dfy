/** What the invariant means for callers and operators: statements over whole runs of the protocol. */
module ProtocolTheorems {
  import opened Base
  import opened Framing
  import opened Protocol
  import opened ProtocolProof

  /** The state after the steps, if each was possible when its turn came. */
  function After(start: State, steps: seq<Step>): Option<State> {
    if steps == [] then Some(start)
    else
      var before := After(start, steps[..|steps| - 1]);
      var last := steps[|steps| - 1];
      if before.Some? && Enabled(before.value, last) then Some(Next(before.value, last)) else None
  }

  /** Whenever a call registers in the run, its correlation ID is free. */
  ghost predicate IdsFree(start: State, steps: seq<Step>) {
    if steps == [] then true
    else
      var before := After(start, steps[..|steps| - 1]);
      IdsFree(start, steps[..|steps| - 1]) && before.Some? && FreshStep(before.value, steps[|steps| - 1])
  }

  /** A run from an empty switch, of any length, in which no ID is used again while it is in use. */
  ghost predicate Reaches(poolSize: nat, workerLimit: nat, steps: seq<Step>, s: State) {
    poolSize > 0 && After(Start(poolSize, workerLimit), steps) == Some(s) && IdsFree(Start(poolSize, workerLimit), steps)
  }

  // What each kind of step does to the counters and the answers.

  lemma CallEffect(s: State, n: nat, ev: CallEvent)
    requires CallEnabled(s, n, ev)
    ensures var s' := CallNext(s, n, ev);
            s'.counter == s.counter && s'.book.answers == s.book.answers && s'.workers == s.workers
            && s'.workerLimit == s.workerLimit
  {
  }

  lemma PoolEffect(s: State, p: nat, ev: ListenerEvent)
    requires ListenerEnabled(s, p, ev) && !ev.ReadReply? && !ev.LookUp? && !ev.Deliver?
    ensures var s' := ListenerNext(s, p, ev);
            s'.counter == s.counter && s'.book == s.book && s'.workers == s.workers && s'.workerLimit == s.workerLimit
  {
  }

  lemma DeliveryEffect(s: State, p: nat)
    requires ListenerEnabled(s, p, Deliver)
    ensures var s' := ListenerNext(s, p, Deliver);
            s'.counter == s.counter && s'.book.answers == s.book.answers && s'.workers == s.workers
            && s'.workerLimit == s.workerLimit
  {
  }

  lemma RoutingEffect(s: State, p: nat, ev: ListenerEvent)
    requires ListenerEnabled(s, p, ev) && (ev.ReadReply? || ev.LookUp?)
    ensures var s' := ListenerNext(s, p, ev);
            s'.counter == s.counter && s'.book.answers == s.book.answers && s'.workers == s.workers
            && s'.workerLimit == s.workerLimit
  {
  }

  lemma ListenerEffect(s: State, p: nat, ev: ListenerEvent)
    requires ListenerEnabled(s, p, ev)
    ensures var s' := ListenerNext(s, p, ev);
            s'.counter == s.counter && s'.book.answers == s.book.answers && s'.workers == s.workers
            && s'.workerLimit == s.workerLimit
  {
    hide ListenerNext, ListenerEnabled;
    match ev
    case Deliver => DeliveryEffect(s, p);
    case ReadReply => RoutingEffect(s, p, ev);
    case LookUp => RoutingEffect(s, p, ev);
    case _ => PoolEffect(s, p, ev);
  }

  lemma ReaderEffect(s: State, c: nat, ev: ReaderEvent)
    requires ReaderEnabled(s, c, ev)
    ensures var s' := ReaderNext(s, c, ev);
            s'.counter == s.counter && s'.book.answers == s.book.answers
            && s'.workers == s.workers + (if ev.Admit? then 1 else 0) && s'.workerLimit == s.workerLimit
  {
  }

  lemma HandlerEffect(s: State, h: nat, ev: HandlerEvent)
    requires HandlerEnabled(s, h, ev)
    ensures var s', m := HandlerNext(s, h, ev), s.handlers[h].message;
            && s'.counter == s.counter && s'.workerLimit == s.workerLimit
            && s'.workers == s.workers - (if ev.Release? then 1 else 0)
            && s'.book.answers == (if ev.Execute? then s.book.answers[m.call := Answer(m.iso, ev.result)] else s.book.answers)
  {
  }

  // What each kind of step does to the calls' bytes and to the handlers' messages.

  ghost predicate KeepsMessages(s: State, s': State) {
    && s'.book.raw == s.book.raw
    && forall h :: h in s.handlers ==> h in s'.handlers && s'.handlers[h].message == s.handlers[h].message
  }

  lemma SameMessages(s: State, s': State)
    requires s'.book.raw == s.book.raw && s'.handlers == s.handlers
    ensures KeepsMessages(s, s')
  {
  }

  lemma CallKeepsMessages(s: State, n: nat, ev: CallEvent)
    requires CallEnabled(s, n, ev)
    ensures KeepsMessages(s, CallNext(s, n, ev)) && CallNext(s, n, ev).handlers == s.handlers
  {
  }

  lemma ListenerKeepsMessages(s: State, p: nat, ev: ListenerEvent)
    requires ListenerEnabled(s, p, ev)
    ensures KeepsMessages(s, ListenerNext(s, p, ev)) && ListenerNext(s, p, ev).handlers == s.handlers
  {
    hide KeepsMessages;
    assert ListenerNext(s, p, ev).handlers == s.handlers && ListenerNext(s, p, ev).book.raw == s.book.raw;
    SameMessages(s, ListenerNext(s, p, ev));
  }

  lemma ReaderKeepsMessages(s: State, c: nat, ev: ReaderEvent)
    requires ReaderEnabled(s, c, ev)
    ensures KeepsMessages(s, ReaderNext(s, c, ev))
  {
  }

  lemma HandlerKeepsMessages(s: State, h: nat, ev: HandlerEvent)
    requires HandlerEnabled(s, h, ev)
    ensures KeepsMessages(s, HandlerNext(s, h, ev)) && HandlerNext(s, h, ev).handlers.Keys == s.handlers.Keys
  {
  }

  lemma StepKeepsMessages(s: State, step: Step)
    requires Enabled(s, step) && !step.Begin?
    ensures KeepsMessages(s, Next(s, step))
  {
    hide CallNext, ListenerNext, ReaderNext, HandlerNext;
    match step
    case CallStep(n, ev) => CallKeepsMessages(s, n, ev);
    case ListenerStep(p, ev) => ListenerKeepsMessages(s, p, ev);
    case ReaderStep(c, ev) => ReaderKeepsMessages(s, c, ev);
    case HandlerStep(h, ev) => HandlerKeepsMessages(s, h, ev);
    case _ =>
  }

  lemma StepEffect(s: State, step: Step)
    requires Enabled(s, step)
    ensures var s' := Next(s, step);
            && s.counter <= s'.counter && s'.workerLimit == s.workerLimit
            && s'.workers == s.workers + (if step.ReaderStep? && step.readerEvent.Admit? then 1 else 0)
                                       - (if step.HandlerStep? && step.handlerEvent.Release? then 1 else 0)
            && s'.book.answers ==
               (if step.HandlerStep? && step.handlerEvent.Execute? then
                  var m := s.handlers[step.handler].message;
                  s.book.answers[m.call := Answer(m.iso, step.handlerEvent.result)]
                else s.book.answers)
  {
    hide CallNext, ListenerNext, ReaderNext, HandlerNext;
    match step
    case CallStep(n, ev) => CallEffect(s, n, ev);
    case ListenerStep(p, ev) => ListenerEffect(s, p, ev);
    case ReaderStep(c, ev) => ReaderEffect(s, c, ev);
    case HandlerStep(h, ev) => HandlerEffect(s, h, ev);
    case _ =>
  }

  lemma {:induction false} ReachesInv(poolSize: nat, workerLimit: nat, steps: seq<Step>, s: State)
    requires Reaches(poolSize, workerLimit, steps, s)
    ensures Inv(s)
  {
    hide Inv, Enabled, Next;
    if steps == [] {
      StartInv(poolSize, workerLimit);
    } else {
      var before := After(Start(poolSize, workerLimit), steps[..|steps| - 1]).value;
      ReachesInv(poolSize, workerLimit, steps[..|steps| - 1], before);
      StepPreserves(before, steps[|steps| - 1]);
    }
  }

  /** A prefix of a run is a run. */
  lemma {:induction false} PrefixReaches(poolSize: nat, workerLimit: nat, steps: seq<Step>, s: State, i: nat)
    requires Reaches(poolSize, workerLimit, steps, s) && i <= |steps|
    ensures After(Start(poolSize, workerLimit), steps[..i]).Some?
    ensures Reaches(poolSize, workerLimit, steps[..i], After(Start(poolSize, workerLimit), steps[..i]).value)
  {
    hide Enabled, Next;
    if i == |steps| {
      assert steps[..i] == steps;
    } else {
      var n := |steps| - 1;
      var before := After(Start(poolSize, workerLimit), steps[..n]).value;
      PrefixReaches(poolSize, workerLimit, steps[..n], before, i);
      assert steps[..n][..i] == steps[..i];
    }
  }

  // ----- response integrity -----

  /** Step i of the run is a handler computing a response to the n-th call from these bytes. */
  ghost predicate ExecutedAt(start: State, steps: seq<Step>, i: nat, n: nat, raw: Bytes, response: Option<Bytes>) {
    && i < |steps| && After(start, steps[..i]).Some?
    && steps[i].HandlerStep? && steps[i].handlerEvent == Execute(response)
    && var s := After(start, steps[..i]).value;
    && steps[i].handler in s.handlers
    && s.handlers[steps[i].handler].message == Message(n, raw)
  }

  lemma AnswersGrow(s: State, step: Step, n: nat)
    requires Inv(s) && Enabled(s, step) && n in s.book.answers
    ensures n in Next(s, step).book.answers && Next(s, step).book.answers[n] == s.book.answers[n]
  {
    hide Next, Inv;
    StepEffect(s, step);
    if step.HandlerStep? && step.handlerEvent.Execute? {
      ExecuteBook(s, step.handler, step.handlerEvent.result);
    }
  }

  lemma NewAnswer(s: State, step: Step, n: nat)
    requires Enabled(s, step) && n !in s.book.answers && n in Next(s, step).book.answers
    ensures step.HandlerStep? && step.handlerEvent.Execute? && step.handler in s.handlers
    ensures s.handlers[step.handler].message == Message(n, Next(s, step).book.answers[n].request)
    ensures Next(s, step).book.answers[n].response == step.handlerEvent.result
  {
    hide Next;
    StepEffect(s, step);
  }

  /** Every answer in the book was computed at some step of the run. */
  lemma {:induction false} AnswerHasOrigin(poolSize: nat, workerLimit: nat, steps: seq<Step>, s: State, n: nat)
    requires Reaches(poolSize, workerLimit, steps, s) && n in s.book.answers
    ensures exists i: nat :: ExecutedAt(Start(poolSize, workerLimit), steps, i, n,
                                        s.book.answers[n].request, s.book.answers[n].response)
  {
    hide Enabled, Next, Inv;
    var start := Start(poolSize, workerLimit);
    if steps == [] {
      assert false;
    } else {
      var last: nat := |steps| - 1;
      var before := After(start, steps[..last]).value;
      PrefixReaches(poolSize, workerLimit, steps, s, last);
      ReachesInv(poolSize, workerLimit, steps[..last], before);
      if n in before.book.answers {
        AnswerHasOrigin(poolSize, workerLimit, steps[..last], before, n);
        AnswersGrow(before, steps[last], n);
        var i: nat :| ExecutedAt(start, steps[..last], i, n, before.book.answers[n].request, before.book.answers[n].response);
        assert steps[..last][..i] == steps[..i];
        assert ExecutedAt(start, steps, i, n, s.book.answers[n].request, s.book.answers[n].response);
      } else {
        NewAnswer(before, steps[last], n);
        assert ExecutedAt(start, steps, last, n, s.book.answers[n].request, s.book.answers[n].response);
      }
    }
  }

  /**
   Response integrity. In every interleaving of callers, retries, timeouts, reconnects, listeners
   and handlers, what a call returns was computed by an issuer handler from exactly that call's bytes.
   */
  lemma ResponseIntegrity(poolSize: nat, workerLimit: nat, steps: seq<Step>, s: State, n: nat, iso: Bytes)
    requires Reaches(poolSize, workerLimit, steps, s)
    requires n in s.calls && s.calls[n].phase == Done(Response(iso))
    ensures exists i: nat :: ExecutedAt(Start(poolSize, workerLimit), steps, i, n, s.calls[n].raw, Some(iso))
  {
    ReachesInv(poolSize, workerLimit, steps, s);
    AtCall(s, n);
    AnswerHasOrigin(poolSize, workerLimit, steps, s, n);
  }

  lemma {:induction false} ExecutionRecorded(poolSize: nat, workerLimit: nat, steps: seq<Step>, s: State,
                                             i: nat, n: nat, raw: Bytes, response: Option<Bytes>)
    requires Reaches(poolSize, workerLimit, steps, s)
    requires ExecutedAt(Start(poolSize, workerLimit), steps, i, n, raw, response)
    ensures n in s.book.answers
  {
    hide Enabled, Next, Inv;
    var start, last: nat := Start(poolSize, workerLimit), |steps| - 1;
    var before := After(start, steps[..last]).value;
    PrefixReaches(poolSize, workerLimit, steps, s, last);
    ReachesInv(poolSize, workerLimit, steps[..last], before);
    if i < last {
      assert steps[..last][..i] == steps[..i];
      ExecutionRecorded(poolSize, workerLimit, steps[..last], before, i, n, raw, response);
      AnswersGrow(before, steps[last], n);
    } else {
      StepEffect(before, steps[last]);
    }
  }

  lemma EnabledAt(poolSize: nat, workerLimit: nat, steps: seq<Step>, s: State, j: nat)
    requires Reaches(poolSize, workerLimit, steps, s) && j < |steps|
    ensures After(Start(poolSize, workerLimit), steps[..j]).Some?
    ensures Enabled(After(Start(poolSize, workerLimit), steps[..j]).value, steps[j])
  {
    hide Enabled, Next;
    PrefixReaches(poolSize, workerLimit, steps, s, j + 1);
    assert steps[..j + 1][..j] == steps[..j];
  }

  lemma HandlerStepEnabled(s: State, step: Step)
    requires step.HandlerStep? && Enabled(s, step)
    ensures HandlerEnabled(s, step.handler, step.handlerEvent)
  {
    hide HandlerEnabled;
  }

  lemma NotEarlier(poolSize: nat, workerLimit: nat, steps: seq<Step>, s: State, n: nat,
                   i: nat, raw: Bytes, response: Option<Bytes>, j: nat, raw': Bytes, response': Option<Bytes>)
    requires Reaches(poolSize, workerLimit, steps, s)
    requires ExecutedAt(Start(poolSize, workerLimit), steps, i, n, raw, response)
    requires ExecutedAt(Start(poolSize, workerLimit), steps, j, n, raw', response')
    ensures i >= j
  {
    hide Enabled, Next, Inv, HandlerEnabled;
    var before := After(Start(poolSize, workerLimit), steps[..j]).value;
    PrefixReaches(poolSize, workerLimit, steps, s, j);
    ReachesInv(poolSize, workerLimit, steps[..j], before);
    EnabledAt(poolSize, workerLimit, steps, s, j);
    HandlerStepEnabled(before, steps[j]);
    ExecuteBook(before, steps[j].handler, response');
    if i < j {
      assert steps[..j][..i] == steps[..i];
      ExecutionRecorded(poolSize, workerLimit, steps[..j], before, i, n, raw, response);
    }
  }

  /** The issuer processes each call at most once, over retries and all. */
  lemma ProcessedAtMostOnce(poolSize: nat, workerLimit: nat, steps: seq<Step>, s: State, n: nat,
                            i: nat, raw: Bytes, response: Option<Bytes>, j: nat, raw': Bytes, response': Option<Bytes>)
    requires Reaches(poolSize, workerLimit, steps, s)
    requires ExecutedAt(Start(poolSize, workerLimit), steps, i, n, raw, response)
    requires ExecutedAt(Start(poolSize, workerLimit), steps, j, n, raw', response')
    ensures i == j
  {
    NotEarlier(poolSize, workerLimit, steps, s, n, i, raw, response, j, raw', response');
    NotEarlier(poolSize, workerLimit, steps, s, n, j, raw', response', i, raw, response);
  }

  // ----- the pending map and delivery -----

  /** No leaks: the pending map holds exactly the calls that have registered and not left. */
  lemma PendingExact(poolSize: nat, workerLimit: nat, steps: seq<Step>, s: State)
    requires Reaches(poolSize, workerLimit, steps, s)
    ensures s.pending.Keys == set n | n in s.calls && Live(s.calls[n].phase) :: CorrId(n)
    ensures forall n :: n in s.calls && Live(s.calls[n].phase) ==> s.pending[CorrId(n)] == n
  {
    ReachesInv(poolSize, workerLimit, steps, s);
  }

  /** A response channel is never full when a listener sends on it, so no answer is lost there. */
  lemma ChannelNeverFull(poolSize: nat, workerLimit: nat, steps: seq<Step>, s: State, p: nat)
    requires Reaches(poolSize, workerLimit, steps, s) && ListenerEnabled(s, p, Deliver)
    ensures s.calls[s.listeners[p].call].buffer == None
  {
    ReachesInv(poolSize, workerLimit, steps, s);
    AtListenerSlot(s, p);
    AtCall(s, s.listeners[p].call);
  }

  lemma LateLookUp(s: State, p: nat)
    ensures ListenerEnabled(s, p, LookUp) && s.listeners[p].message.Id() !in s.pending ==>
              ListenerNext(s, p, LookUp).listeners[p] == Listening(s.listeners[p].conn)
  {
  }

  lemma LateDelivery(s: State, p: nat)
    requires ListenerEnabled(s, p, Deliver) && s.calls[s.listeners[p].call].buffer.None?
    ensures var s', n := ListenerNext(s, p, Deliver), s.listeners[p].call;
            && s'.calls == s.calls[n := s.calls[n].(buffer := Some(s.listeners[p].iso))]
            && s'.pending == s.pending && s'.conns == s.conns && s'.handlers == s.handlers
  {
  }

  /** Not even another call with its ID can be in the pending map. */
  lemma GoneFromPending(s: State, p: nat)
    requires Inv(s) && p < |s.listeners| && s.listeners[p].Routing?
    requires s.listeners[p].message.call in s.calls && s.calls[s.listeners[p].message.call].phase.Done?
    ensures s.listeners[p].message.Id() !in s.pending
  {
    if s.listeners[p].message.Id() in s.pending {
      FindsItsOwn(s, p);
    }
  }

  /**
   A late answer is harmless: once a call has left, looking its ID up fails, and a listener that
   looked it up before changes nothing but the abandoned channel.
   */
  lemma LateReplyHarmless(poolSize: nat, workerLimit: nat, steps: seq<Step>, s: State, p: nat, n: nat)
    requires Reaches(poolSize, workerLimit, steps, s) && n in s.calls && s.calls[n].phase.Done?
    ensures ListenerEnabled(s, p, LookUp) && s.listeners[p].message.call == n ==>
              ListenerNext(s, p, LookUp).listeners[p] == Listening(s.listeners[p].conn)
    ensures ListenerEnabled(s, p, Deliver) && s.listeners[p].call == n ==>
              var s' := ListenerNext(s, p, Deliver);
              && s'.calls == s.calls[n := s.calls[n].(buffer := Some(s.listeners[p].iso))]
              && s'.pending == s.pending && s'.conns == s.conns && s'.handlers == s.handlers
  {
    ReachesInv(poolSize, workerLimit, steps, s);
    LateLookUp(s, p);
    if ListenerEnabled(s, p, LookUp) && s.listeners[p].message.call == n {
      GoneFromPending(s, p);
    }
    if ListenerEnabled(s, p, Deliver) && s.listeners[p].call == n {
      hide Inv, Reaches, ListenerNext;
      ChannelNeverFull(poolSize, workerLimit, steps, s, p);
      LateDelivery(s, p);
    }
  }

  // ----- sending -----

  /** At most three attempts and one successful write; the send fails exactly when no write succeeded. */
  lemma SendBounds(poolSize: nat, workerLimit: nat, steps: seq<Step>, s: State, n: nat)
    requires Reaches(poolSize, workerLimit, steps, s) && n in s.calls
    ensures s.calls[n].picks <= 3 && s.calls[n].writes <= 1
    ensures s.calls[n].phase.Done? ==>
              (s.calls[n].phase.outcome.SendFailed? <==> s.calls[n].writes == 0)
    ensures s.calls[n].phase.Done? && s.calls[n].phase.outcome.SendFailed? ==>
              s.calls[n].picks == 3 && n !in s.book.answers
  {
    ReachesInv(poolSize, workerLimit, steps, s);
    AtCall(s, n);
    if At(s.book, n, Unsent) {
      AtBook(s, n);
    }
  }

  function Count(picked: seq<nat>, slot: nat): nat {
    if picked == [] then 0
    else Count(picked[..|picked| - 1], slot) + if picked[|picked| - 1] == slot then 1 else 0
  }

  lemma {:induction false} CountOf(picked: seq<nat>, size: nat, slot: nat)
    requires slot < size && forall k :: 0 <= k < |picked| ==> picked[k] == k % size
    ensures Count(picked, slot) == |picked| / size + if slot < |picked| % size then 1 else 0
  {
    if picked == [] {
      RemainderUnique(0, 0, 0, size);
    } else {
      var k := |picked| - 1;
      CountOf(picked[..k], size, slot);
      NextQuotient(k, size);
      assert picked == picked[..k] + [k % size];
    }
  }

  lemma CallKeepsPoolSize(s: State, n: nat, ev: CallEvent)
    requires CallEnabled(s, n, ev)
    ensures |CallNext(s, n, ev).slots| == |s.slots|
  {
  }

  lemma ListenerKeepsPoolSize(s: State, p: nat, ev: ListenerEvent)
    requires ListenerEnabled(s, p, ev)
    ensures |ListenerNext(s, p, ev).slots| == |s.slots|
  {
  }

  lemma ReaderKeepsPoolSize(s: State, c: nat, ev: ReaderEvent)
    requires ReaderEnabled(s, c, ev)
    ensures |ReaderNext(s, c, ev).slots| == |s.slots|
  {
  }

  lemma HandlerKeepsPoolSize(s: State, h: nat, ev: HandlerEvent)
    requires HandlerEnabled(s, h, ev)
    ensures |HandlerNext(s, h, ev).slots| == |s.slots|
  {
  }

  lemma StepKeepsPoolSize(s: State, step: Step)
    requires Enabled(s, step)
    ensures |Next(s, step).slots| == |s.slots|
  {
    hide CallNext, ListenerNext, ReaderNext, HandlerNext;
    match step
    case CallStep(n, ev) => CallKeepsPoolSize(s, n, ev);
    case ListenerStep(p, ev) => ListenerKeepsPoolSize(s, p, ev);
    case ReaderStep(c, ev) => ReaderKeepsPoolSize(s, c, ev);
    case HandlerStep(h, ev) => HandlerKeepsPoolSize(s, h, ev);
    case _ =>
  }

  lemma {:induction false} PoolSizeKept(poolSize: nat, workerLimit: nat, steps: seq<Step>, s: State)
    requires Reaches(poolSize, workerLimit, steps, s)
    ensures |s.slots| == poolSize
  {
    hide Next, Enabled;
    if steps == [] {
    } else {
      var last := |steps| - 1;
      var before := After(Start(poolSize, workerLimit), steps[..last]).value;
      PrefixReaches(poolSize, workerLimit, steps, s, last);
      PoolSizeKept(poolSize, workerLimit, steps[..last], before);
      StepKeepsPoolSize(before, steps[last]);
    }
  }

  /** The k-th selection takes slot k mod poolSize, so one slot is picked at most once more than another. */
  lemma RoundRobinIsFair(poolSize: nat, workerLimit: nat, steps: seq<Step>, s: State, a: nat, b: nat)
    requires Reaches(poolSize, workerLimit, steps, s) && a < poolSize && b < poolSize
    ensures |s.slots| == poolSize && forall k :: 0 <= k < |s.picked| ==> s.picked[k] == k % poolSize
    ensures Count(s.picked, a) <= Count(s.picked, b) + 1
  {
    ReachesInv(poolSize, workerLimit, steps, s);
    PoolSizeKept(poolSize, workerLimit, steps, s);
    CountOf(s.picked, |s.slots|, a);
    CountOf(s.picked, |s.slots|, b);
  }

  // ----- the issuer's workers -----

  function Admissions(steps: seq<Step>): nat {
    if steps == [] then 0
    else
      var last := steps[|steps| - 1];
      Admissions(steps[..|steps| - 1]) + if last.ReaderStep? && last.readerEvent.Admit? then 1 else 0
  }

  function Releases(steps: seq<Step>): nat {
    if steps == [] then 0
    else
      var last := steps[|steps| - 1];
      Releases(steps[..|steps| - 1]) + if last.HandlerStep? && last.handlerEvent.Release? then 1 else 0
  }

  /**
   The worker pool: slots in use are the handlers that have not released theirs, within the limit,
   and every slot taken is given back once. No two handlers ever have the same call's frame.
   */
  lemma {:induction false} WorkerAccounting(poolSize: nat, workerLimit: nat, steps: seq<Step>, s: State)
    requires Reaches(poolSize, workerLimit, steps, s)
    ensures s.workers == |Occupied(s.handlers)| <= s.workerLimit == workerLimit
    ensures Admissions(steps) == Releases(steps) + s.workers
    ensures forall h, g :: h in s.handlers && g in s.handlers && h != g ==>
                             s.handlers[h].message.call != s.handlers[g].message.call
  {
    hide Enabled, Next;
    ReachesInv(poolSize, workerLimit, steps, s);
    forall h, g | h in s.handlers && g in s.handlers && h != g
      ensures s.handlers[h].message.call != s.handlers[g].message.call
    {
      AtHandler(s, h);
      AtHandler(s, g);
    }
    if steps == [] {
    } else {
      var last := |steps| - 1;
      PrefixReaches(poolSize, workerLimit, steps, s, last);
      var before := After(Start(poolSize, workerLimit), steps[..last]).value;
      WorkerAccounting(poolSize, workerLimit, steps[..last], before);
      StepEffect(before, steps[last]);
    }
  }

  // ----- nothing is blocked -----

  predicate ListenerRefs(s: State, l: Listener) {
    l.Listening? || l.Routing? || l.Delivering? ==> l.conn in s.conns
  }

  /** The connections that calls, slots, listeners and handlers refer to exist. */
  ghost predicate Refs(s: State) {
    && (forall n :: n in s.calls && s.calls[n].phase.Writing? ==> s.calls[n].phase.conn in s.conns)
    && (forall p :: 0 <= p < |s.slots| && s.slots[p].Some? ==> s.slots[p].value in s.conns)
    && (forall p :: 0 <= p < |s.listeners| ==> ListenerRefs(s, s.listeners[p]))
    && (forall h :: h in s.handlers ==> s.handlers[h].conn in s.conns)
  }

  lemma CallRefs(s: State, n: nat, ev: CallEvent)
    requires Refs(s) && CallEnabled(s, n, ev)
    ensures Refs(CallNext(s, n, ev))
  {
    var s' := CallNext(s, n, ev);
    assert s'.slots == s.slots && s'.listeners == s.listeners && s'.handlers == s.handlers && s'.conns.Keys == s.conns.Keys;
  }

  lemma PoolStepRefs(s: State, p: nat, ev: ListenerEvent)
    requires Refs(s) && ListenerEnabled(s, p, ev)
    requires ev.Dial? || ev.DialFails? || ev.Connect? || ev.Listen? || ev.Close?
    ensures Refs(ListenerNext(s, p, ev))
  {
    var s' := ListenerNext(s, p, ev);
    assert s'.handlers == s.handlers && s.conns.Keys <= s'.conns.Keys;
    assert ListenerRefs(s, s.listeners[p]);
    forall q | 0 <= q < |s'.listeners| ensures ListenerRefs(s', s'.listeners[q]) {
      assert ListenerRefs(s, s.listeners[q]);
    }
  }

  lemma ListenerStepRefs(s: State, p: nat, ev: ListenerEvent)
    requires Refs(s) && ListenerEnabled(s, p, ev) && (ev.ReadReply? || ev.LookUp? || ev.StopListening?)
    ensures Refs(ListenerNext(s, p, ev))
  {
    var s' := ListenerNext(s, p, ev);
    assert s'.slots == s.slots && s'.handlers == s.handlers && s'.conns.Keys == s.conns.Keys;
    assert ListenerRefs(s, s.listeners[p]);
    assert s'.calls == s.calls;
    forall q | 0 <= q < |s'.listeners| ensures ListenerRefs(s', s'.listeners[q]) {
      assert ListenerRefs(s, s.listeners[q]);
    }
  }

  lemma DeliverRefs(s: State, p: nat)
    requires Refs(s) && ListenerEnabled(s, p, Deliver)
    ensures Refs(ListenerNext(s, p, Deliver))
  {
    var s' := ListenerNext(s, p, Deliver);
    assert s'.slots == s.slots && s'.handlers == s.handlers && s'.conns.Keys == s.conns.Keys;
    assert ListenerRefs(s, s.listeners[p]);
    assert forall n :: n in s'.calls ==> n in s.calls && s'.calls[n].phase == s.calls[n].phase;
    forall q | 0 <= q < |s'.listeners| ensures ListenerRefs(s', s'.listeners[q]) {
      assert ListenerRefs(s, s.listeners[q]);
    }
  }

  lemma ReaderRefs(s: State, c: nat, ev: ReaderEvent)
    requires Refs(s) && ReaderEnabled(s, c, ev)
    ensures Refs(ReaderNext(s, c, ev))
  {
    var s' := ReaderNext(s, c, ev);
    assert s'.slots == s.slots && s'.listeners == s.listeners && s'.calls == s.calls && s'.conns.Keys == s.conns.Keys;
    forall q | 0 <= q < |s'.listeners| ensures ListenerRefs(s', s'.listeners[q]) {
      assert ListenerRefs(s, s.listeners[q]);
    }
  }

  lemma HandlerRefs(s: State, h: nat, ev: HandlerEvent)
    requires Refs(s) && HandlerEnabled(s, h, ev)
    ensures Refs(HandlerNext(s, h, ev))
  {
    var s' := HandlerNext(s, h, ev);
    assert s'.slots == s.slots && s'.listeners == s.listeners && s'.calls == s.calls && s'.conns.Keys == s.conns.Keys;
    forall q | 0 <= q < |s'.listeners| ensures ListenerRefs(s', s'.listeners[q]) {
      assert ListenerRefs(s, s.listeners[q]);
    }
  }

  lemma StepRefs(s: State, step: Step)
    requires Refs(s) && Enabled(s, step)
    ensures Refs(Next(s, step))
  {
    hide CallNext, ListenerNext, ReaderNext, HandlerNext;
    match step
    case CallStep(n, ev) => CallRefs(s, n, ev);
    case ListenerStep(p, ev) =>
      if ev.Deliver? {
        DeliverRefs(s, p);
      } else if ev.ReadReply? || ev.LookUp? || ev.StopListening? {
        ListenerStepRefs(s, p, ev);
      } else {
        PoolStepRefs(s, p, ev);
      }
    case ReaderStep(c, ev) => ReaderRefs(s, c, ev);
    case HandlerStep(h, ev) => HandlerRefs(s, h, ev);
    case _ =>
      var s' := Next(s, step);
      forall q | 0 <= q < |s'.listeners| ensures ListenerRefs(s', s'.listeners[q]) {
        assert ListenerRefs(s, s.listeners[q]);
      }
  }

  lemma {:induction false} ReachesRefs(poolSize: nat, workerLimit: nat, steps: seq<Step>, s: State)
    requires Reaches(poolSize, workerLimit, steps, s)
    ensures Refs(s)
  {
    hide Enabled, Next;
    if steps == [] {
    } else {
      var before := After(Start(poolSize, workerLimit), steps[..|steps| - 1]).value;
      PrefixReaches(poolSize, workerLimit, steps, s, |steps| - 1);
      ReachesRefs(poolSize, workerLimit, steps[..|steps| - 1], before);
      hide Refs;
      StepRefs(before, steps[|steps| - 1]);
    }
  }

  /** A listener that dials has not gone on. */
  predicate DialOk(s: State) {
    s.dialing.Some? ==> s.dialing.value < |s.listeners| == |s.slots| && s.listeners[s.dialing.value].Idle?
  }

  lemma ListenerDials(s: State, p: nat, ev: ListenerEvent)
    requires DialOk(s) && ListenerEnabled(s, p, ev)
    ensures DialOk(ListenerNext(s, p, ev))
  {
  }

  // No other step touches the listeners, or holds the pool mutex behind its end.

  predicate DialsNothing(s: State, s': State) {
    s'.dialing == s.dialing && s'.listeners == s.listeners && |s'.slots| == |s.slots|
  }

  lemma CallDialsNothing(s: State, n: nat, ev: CallEvent)
    requires CallEnabled(s, n, ev)
    ensures DialsNothing(s, CallNext(s, n, ev))
  {
  }

  lemma ReaderDialsNothing(s: State, c: nat, ev: ReaderEvent)
    requires ReaderEnabled(s, c, ev)
    ensures DialsNothing(s, ReaderNext(s, c, ev))
  {
  }

  lemma HandlerDialsNothing(s: State, h: nat, ev: HandlerEvent)
    requires HandlerEnabled(s, h, ev)
    ensures DialsNothing(s, HandlerNext(s, h, ev))
  {
  }

  lemma StepDials(s: State, step: Step)
    requires DialOk(s) && Enabled(s, step)
    ensures DialOk(Next(s, step))
  {
    hide CallNext, ListenerNext, ReaderNext, HandlerNext;
    match step
    case CallStep(n, ev) => CallDialsNothing(s, n, ev);
    case ListenerStep(p, ev) => ListenerDials(s, p, ev);
    case ReaderStep(c, ev) => ReaderDialsNothing(s, c, ev);
    case HandlerStep(h, ev) => HandlerDialsNothing(s, h, ev);
    case _ =>
  }

  lemma {:induction false} ReachesDialOk(poolSize: nat, workerLimit: nat, steps: seq<Step>, s: State)
    requires Reaches(poolSize, workerLimit, steps, s)
    ensures DialOk(s)
  {
    hide Enabled, Next;
    if steps == [] {
    } else {
      var last := |steps| - 1;
      var before := After(Start(poolSize, workerLimit), steps[..last]).value;
      PrefixReaches(poolSize, workerLimit, steps, s, last);
      ReachesDialOk(poolSize, workerLimit, steps[..last], before);
      hide DialOk;
      StepDials(before, steps[last]);
    }
  }

  lemma CursorInside(s: State)
    requires Inv(s)
    ensures s.cursor < |s.slots|
  {
  }

  /** Picking waits exactly for a dial, and however that ends the call can pick. */
  lemma PickWaitsForDial(s: State, n: nat)
    requires DialOk(s) && n in s.calls && s.calls[n].phase.Selecting? && s.cursor < |s.slots|
    ensures CallEnabled(s, n, Pick) <==> s.dialing.None?
    ensures s.dialing.Some? ==>
              var fails := ListenerStep(s.dialing.value, DialFails);
              Enabled(s, fails) && CallEnabled(Next(s, fails), n, Pick)
    ensures s.dialing.Some? ==>
              forall c :: c !in s.conns ==>
                var succeeds := ListenerStep(s.dialing.value, Connect(c));
                Enabled(s, succeeds) && CallEnabled(Next(s, succeeds), n, Pick)
  {
    hide CallNext, ReaderNext, HandlerNext;
  }

  /**
   A call that is to write can, and one that is to pick a slot waits exactly while a listener dials, which holds the
   pool mutex; that listener's dial can always end.
   */
  lemma CallNotBlocked(poolSize: nat, workerLimit: nat, steps: seq<Step>, s: State, n: nat)
    requires Reaches(poolSize, workerLimit, steps, s) && n in s.calls
    ensures s.calls[n].phase.Writing? ==> CallEnabled(s, n, WriteOk)
    ensures s.calls[n].phase.Selecting? ==> (CallEnabled(s, n, Pick) <==> s.dialing.None?)
    ensures s.calls[n].phase.Selecting? && s.dialing.Some? ==>
              var fails := ListenerStep(s.dialing.value, DialFails);
              Enabled(s, fails) && CallEnabled(Next(s, fails), n, Pick)
    ensures s.calls[n].phase.Selecting? && s.dialing.Some? ==>
              forall c :: c !in s.conns ==>
                var succeeds := ListenerStep(s.dialing.value, Connect(c));
                Enabled(s, succeeds) && CallEnabled(Next(s, succeeds), n, Pick)
  {
    ReachesInv(poolSize, workerLimit, steps, s);
    ReachesRefs(poolSize, workerLimit, steps, s);
    ReachesDialOk(poolSize, workerLimit, steps, s);
    CursorInside(s);
    hide Reaches, Inv, DialOk, Next;
    if s.calls[n].phase.Selecting? {
      PickWaitsForDial(s, n);
    }
  }

  /** A listener can always route what it has read. */
  lemma ListenerNotBlocked(poolSize: nat, workerLimit: nat, steps: seq<Step>, s: State, p: nat)
    requires Reaches(poolSize, workerLimit, steps, s) && p < |s.listeners|
    ensures s.listeners[p].Routing? ==> ListenerEnabled(s, p, LookUp)
    ensures s.listeners[p].Delivering? ==> ListenerEnabled(s, p, Deliver)
  {
    ReachesInv(poolSize, workerLimit, steps, s);
    AtListenerSlot(s, p);
  }

  /** A handler that has computed an answer can send it, and one that is leaving can give its slot back. */
  lemma IssuerNotBlocked(poolSize: nat, workerLimit: nat, steps: seq<Step>, s: State, h: nat)
    requires Reaches(poolSize, workerLimit, steps, s) && h in s.handlers
    ensures s.handlers[h].phase.Computed? ==> HandlerEnabled(s, h, Reply)
    ensures s.handlers[h].phase.Exiting? ==> HandlerEnabled(s, h, Release)
  {
    ReachesInv(poolSize, workerLimit, steps, s);
    ReachesRefs(poolSize, workerLimit, steps, s);
    if s.handlers[h].phase.Exiting? {
      assert h in Occupied(s.handlers);
    }
  }

  /**
   A read loop can take the next request of its queue; one that waits can have its request handled under every unused
   handler number exactly while fewer than `workerLimit` handlers occupy slots.
   */
  lemma ReaderNotBlocked(poolSize: nat, workerLimit: nat, steps: seq<Step>, s: State, c: nat)
    requires Reaches(poolSize, workerLimit, steps, s) && c in s.conns
    ensures s.conns[c].reader.Reading? && s.conns[c].toIssuer != [] ==> ReaderEnabled(s, c, ReadRequest)
    ensures s.conns[c].reader.AwaitingSlot? ==>
              forall h :: h !in s.handlers ==> (ReaderEnabled(s, c, Admit(h)) <==> |Occupied(s.handlers)| < workerLimit)
  {
    WorkerAccounting(poolSize, workerLimit, steps, s);
  }

  // ----- when IDs are free, and why they must be -----

  /** Two calls share a correlation ID exactly when their numbers are a multiple of 2^32 apart. */
  lemma SharedCorrId(n: nat, d: nat)
    ensures CorrId(n) == CorrId(n + d) <==> d % 0x1_0000_0000 == 0
  {
  }

  /** An ID is free if all that is registered or on its way belongs to the last 2^32 calls, however many there were. */
  lemma RecentIdsAreFree(s: State, n: nat)
    requires forall k :: k in s.calls && (Live(s.calls[k].phase) || OnItsWay(s.book, k)) ==> n < k + CORR_SPACE && k < n + CORR_SPACE
    ensures FreshId(s, n)
  {
    forall k | k in s.calls && k != n && CorrId(k) == CorrId(n)
      ensures !Live(s.calls[k].phase) && !OnItsWay(s.book, k)
    {
      if k < n {
        SharedCorrId(k, n - k);
      } else {
        SharedCorrId(n, k - n);
      }
    }
  }

  lemma NumbersUpTo(s: State, n: nat)
    requires Inv(s) && n in s.calls
    ensures forall k :: k in s.calls ==> 1 <= k <= s.counter
  {
  }

  lemma CallStepKnown(s: State, step: Step)
    requires step.CallStep? && Enabled(s, step)
    ensures step.call in s.calls
  {
  }

  /** So they are in every run with fewer than 2^32 calls. */
  lemma {:induction false} FewCallsReach(poolSize: nat, workerLimit: nat, steps: seq<Step>, s: State)
    requires poolSize > 0 && After(Start(poolSize, workerLimit), steps) == Some(s) && s.counter < CORR_SPACE
    ensures Reaches(poolSize, workerLimit, steps, s)
  {
    hide Enabled, Next, Inv, FreshId;
    if steps == [] {
    } else {
      var last := |steps| - 1;
      var before := After(Start(poolSize, workerLimit), steps[..last]).value;
      StepEffect(before, steps[last]);
      FewCallsReach(poolSize, workerLimit, steps[..last], before);
      ReachesInv(poolSize, workerLimit, steps[..last], before);
      if steps[last].CallStep? {
        CallStepKnown(before, steps[last]);
        NumbersUpTo(before, steps[last].call);
        RecentIdsAreFree(before, steps[last].call);
      }
    }
  }

  /** A registration keeps the invariant exactly when its ID is free. */
  lemma RegisterPreservesIff(s: State, n: nat)
    requires Inv(s) && CallEnabled(s, n, Register)
    ensures Inv(Next(s, CallStep(n, Register))) <==> FreshId(s, n)
  {
    if FreshId(s, n) {
      StepPreserves(s, CallStep(n, Register));
    } else {
      var s' := Next(s, CallStep(n, Register));
      hide CallsInv, ConnsInv, HandlersInv, ListenersInv, BookInv, RoundRobinInv, WorkersInv, Numbered;
      var k :| k in s.calls && k != n && CorrId(k) == CorrId(n) && (Live(s.calls[k].phase) || OnItsWay(s.book, k));
      assert n in s'.calls && Live(s'.calls[n].phase) && k in s'.calls;
      assert s'.calls[k] == s.calls[k] && s'.book == s.book;
    }
  }

  /** It takes the entry of another call in the pending map exactly when a registered call has its ID. */
  lemma RegisterStealsIff(s: State, n: nat)
    requires PendingInv(s.pending, s.calls) && CallEnabled(s, n, Register)
    ensures var s' := CallNext(s, n, Register);
            (exists k :: k in s.calls && Live(s.calls[k].phase) && s'.pending[CorrId(k)] != k) <==>
            exists k :: k in s.calls && k != n && Live(s.calls[k].phase) && CorrId(k) == CorrId(n)
  {
    var s' := CallNext(s, n, Register);
    forall k | k in s.calls && Live(s.calls[k].phase)
      ensures CorrId(k) in s'.pending && (s'.pending[CorrId(k)] != k <==> CorrId(k) == CorrId(n))
    {
    }
  }

  /** A response is handed to a stranger exactly when another registered call has its ID. */
  lemma MisroutedIff(s: State, p: nat)
    requires PendingInv(s.pending, s.calls) && ListenerEnabled(s, p, LookUp)
    ensures var m, l := s.listeners[p].message, ListenerNext(s, p, LookUp).listeners[p];
            (l.Delivering? && l.call != m.call) <==>
            exists k :: k in s.calls && k != m.call && Live(s.calls[k].phase) && CorrId(k) == m.Id()
  {
    var m := s.listeners[p].message;
    if m.Id() in s.pending {
      var k := s.pending[m.Id()];
      assert k in s.calls && Live(s.calls[k].phase) && CorrId(k) == m.Id();
    }
  }
}
