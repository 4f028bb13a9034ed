/**
 Conservation of messages: the one copy of every call's request, and then of its reply, is really where
 the history says it is, so at no time has one gone missing without having been discarded by a step.
 */
module ProtocolPlaces {
  import opened Base
  import opened Protocol
  import opened ProtocolProof
  import opened ProtocolTheorems

  ghost predicate InQueue(q: seq<Message>, n: nat) {
    exists i :: 0 <= i < |q| && q[i].call == n
  }

  predicate NotSentYet(phase: CallPhase) {
    phase.Allocated? || phase.Selecting? || phase.Writing?
    || ((phase.Returning? || phase.Done?) && phase.outcome.SendFailed?)
  }

  /** The message of the n-th call is held at a place. */
  ghost predicate Held(s: State, n: nat, place: Stage) {
    match place
    case Unsent => n in s.calls && NotSentYet(s.calls[n].phase)
    case OnWire(c) => c in s.conns && InQueue(s.conns[c].toIssuer, n)
    case AtReader(c) => c in s.conns && s.conns[c].reader.AwaitingSlot? && s.conns[c].reader.message.call == n
    case Owned(h) =>
      h in s.handlers && s.handlers[h].message.call == n && (s.handlers[h].phase.Spawned? || s.handlers[h].phase.Running?)
    case Executed =>
      n in s.book.owner && s.book.owner[n] in s.handlers && n in s.book.answers
      && var h := s.handlers[s.book.owner[n]];
         h.message.call == n && (h.phase.Computed? || (s.book.answers[n].response.None? && (h.phase.Exiting? || h.phase.Released?)))
    case ReplyOnWire(c) => c in s.conns && InQueue(s.conns[c].toAcquirer, n)
    case AtListener(p) =>
      p < |s.listeners|
      && ((s.listeners[p].Routing? && s.listeners[p].message.call == n)
          || (s.listeners[p].Delivering? && s.listeners[p].call == n))
    case Delivered =>
      n in s.calls && (s.calls[n].buffer.Some? || s.calls[n].phase.Returning? || s.calls[n].phase.Done?)
    case Discarded => true
  }

  ghost predicate AllHeld(s: State) {
    forall n :: n in s.book.stage ==> Held(s, n, s.book.stage[n])
  }

  lemma QueueAppend(q: seq<Message>, m: Message, n: nat)
    ensures InQueue(q + [m], n) <==> InQueue(q, n) || m.call == n
  {
    assert (q + [m])[|q|] == m;
    if InQueue(q, n) {
      var i :| 0 <= i < |q| && q[i].call == n;
      assert (q + [m])[i].call == n;
    }
  }

  lemma QueuePop(q: seq<Message>, n: nat)
    requires q != []
    ensures InQueue(q, n) && q[0].call != n ==> InQueue(q[1..], n)
  {
    if InQueue(q, n) && q[0].call != n {
      var i :| 0 <= i < |q| && q[i].call == n;
      assert q[1..][i - 1].call == n;
    }
  }

  lemma WriteHeld(s: State, n: nat, m: nat)
    requires Inv(s) && CallEnabled(s, n, WriteOk) && m in s.book.stage && Held(s, m, s.book.stage[m])
    ensures var s' := CallNext(s, n, WriteOk); m in s'.book.stage && Held(s', m, s'.book.stage[m])
  {
    hide Inv, InQueue;
    AtCall(s, n);
    var c := s.calls[n].phase.conn;
    QueueAppend(s.conns[c].toIssuer, Message(n, s.calls[n].raw), m);
  }

  /** What the steps of a call that send nothing leave alone. */
  lemma QuietEffect(s: State, n: nat, ev: CallEvent)
    requires CallEnabled(s, n, ev) && !ev.WriteOk?
    ensures var s' := CallNext(s, n, ev);
            && s'.book == s.book && s'.handlers == s.handlers && s'.listeners == s.listeners
            && n in s'.calls && (forall k :: k in s.calls && k != n ==> k in s'.calls && s'.calls[k] == s.calls[k])
            && (forall c :: c in s.conns ==>
                  c in s'.conns && s'.conns[c].toIssuer == s.conns[c].toIssuer
                  && s'.conns[c].toAcquirer == s.conns[c].toAcquirer && s'.conns[c].reader == s.conns[c].reader)
  {
  }

  lemma QuietCall(s: State, n: nat, ev: CallEvent)
    requires CallEnabled(s, n, ev) && !ev.WriteOk? && CallOk(s.book, n, s.calls[n])
    ensures var call, call' := s.calls[n], CallNext(s, n, ev).calls[n];
            && (At(s.book, n, Unsent) && NotSentYet(call.phase) ==> NotSentYet(call'.phase))
            && (call.buffer.Some? || call.phase.Returning? || call.phase.Done? ==>
                  call'.buffer.Some? || call'.phase.Returning? || call'.phase.Done?)
  {
  }

  lemma OtherCallHeld(s: State, n: nat, ev: CallEvent, m: nat)
    requires Inv(s) && CallEnabled(s, n, ev) && !ev.WriteOk? && m in s.book.stage && Held(s, m, s.book.stage[m])
    ensures var s' := CallNext(s, n, ev); m in s'.book.stage && Held(s', m, s'.book.stage[m])
  {
    hide Inv, InQueue;
    AtCall(s, n);
    QuietEffect(s, n, ev);
    QuietCall(s, n, ev);
    hide CallNext, CallEnabled, CallOk, NotSentYet;
  }

  lemma CallHeld(s: State, n: nat, ev: CallEvent, m: nat)
    requires Inv(s) && CallEnabled(s, n, ev) && m in s.book.stage && Held(s, m, s.book.stage[m])
    ensures var s' := CallNext(s, n, ev); m in s'.book.stage && Held(s', m, s'.book.stage[m])
  {
    hide Inv, Held, CallNext, CallEnabled;
    if ev.WriteOk? {
      WriteHeld(s, n, m);
    } else {
      OtherCallHeld(s, n, ev, m);
    }
  }

  lemma ReadReplyHeld(s: State, p: nat, m: nat)
    requires Inv(s) && ListenerEnabled(s, p, ReadReply) && m in s.book.stage && Held(s, m, s.book.stage[m])
    ensures var s' := ListenerNext(s, p, ReadReply); m in s'.book.stage && Held(s', m, s'.book.stage[m])
  {
    hide Inv, InQueue;
    AtListenerSlot(s, p);
    QueuePop(s.conns[s.listeners[p].conn].toAcquirer, m);
  }

  lemma LookUpEffect(s: State, p: nat)
    requires ListenerEnabled(s, p, LookUp)
    ensures var s', l := ListenerNext(s, p, LookUp), s.listeners[p];
            && s'.conns == s.conns && s'.handlers == s.handlers && s'.calls == s.calls
            && s'.book.owner == s.book.owner && s'.book.answers == s.book.answers
            && s'.listeners == s.listeners[p := s'.listeners[p]]
            && (l.message.Id() in s.pending ==>
                  s'.listeners[p] == Delivering(l.conn, s.pending[l.message.Id()], l.message.iso)
                  && s'.book.stage == s.book.stage)
            && (l.message.Id() !in s.pending ==> s'.book.stage == s.book.stage[l.message.call := Discarded])
  {
  }

  lemma LookUpHeld(s: State, p: nat, m: nat)
    requires Inv(s) && ListenerEnabled(s, p, LookUp) && m in s.book.stage && Held(s, m, s.book.stage[m])
    ensures var s' := ListenerNext(s, p, LookUp); m in s'.book.stage && Held(s', m, s'.book.stage[m])
  {
    hide Inv, InQueue;
    if s.listeners[p].message.Id() in s.pending {
      FindsItsOwn(s, p);
    }
    LookUpEffect(s, p);
    hide ListenerNext;
    if m != s.listeners[p].message.call {
      match s.book.stage[m]
      case AtListener(q) => assert q != p;
      case _ =>
    }
  }

  lemma DeliverEffect(s: State, p: nat)
    requires ListenerEnabled(s, p, Deliver)
    ensures var s', n := ListenerNext(s, p, Deliver), s.listeners[p].call;
            && s'.conns == s.conns && s'.handlers == s.handlers
            && s'.book.owner == s.book.owner && s'.book.answers == s.book.answers
            && s'.listeners == s.listeners[p := Listening(s.listeners[p].conn)]
            && n in s'.calls && s'.calls[n].phase == s.calls[n].phase && s'.calls[n].buffer.Some?
            && (forall k :: k in s.calls && k != n ==> k in s'.calls && s'.calls[k] == s.calls[k])
            && s'.book.stage == s.book.stage[n := if s.calls[n].buffer.None? then Delivered else Discarded]
  {
  }

  lemma DeliverHeld(s: State, p: nat, m: nat)
    requires Inv(s) && ListenerEnabled(s, p, Deliver) && m in s.book.stage && Held(s, m, s.book.stage[m])
    ensures var s' := ListenerNext(s, p, Deliver); m in s'.book.stage && Held(s', m, s'.book.stage[m])
  {
    hide Inv, InQueue;
    var s', n := ListenerNext(s, p, Deliver), s.listeners[p].call;
    DeliverEffect(s, p);
    hide ListenerNext;
    if m != n {
      match s.book.stage[m]
      case AtListener(q) => assert q != p;
      case _ =>
    }
  }

  lemma PoolStepHeld(s: State, p: nat, ev: ListenerEvent, m: nat)
    requires ListenerEnabled(s, p, ev) && m in s.book.stage && Held(s, m, s.book.stage[m])
    requires !ev.ReadReply? && !ev.LookUp? && !ev.Deliver?
    ensures var s' := ListenerNext(s, p, ev); m in s'.book.stage && Held(s', m, s'.book.stage[m])
  {
    hide InQueue;
  }

  lemma ListenerHeld(s: State, p: nat, ev: ListenerEvent, m: nat)
    requires Inv(s) && ListenerEnabled(s, p, ev) && m in s.book.stage && Held(s, m, s.book.stage[m])
    ensures var s' := ListenerNext(s, p, ev); m in s'.book.stage && Held(s', m, s'.book.stage[m])
  {
    hide Inv, Held, ListenerNext, ListenerEnabled;
    match ev
    case ReadReply => ReadReplyHeld(s, p, m);
    case LookUp => LookUpHeld(s, p, m);
    case Deliver => DeliverHeld(s, p, m);
    case _ => PoolStepHeld(s, p, ev, m);
  }

  lemma ReadRequestHeld(s: State, c: nat, m: nat)
    requires Inv(s) && ReaderEnabled(s, c, ReadRequest) && m in s.book.stage && Held(s, m, s.book.stage[m])
    ensures var s' := ReaderNext(s, c, ReadRequest); m in s'.book.stage && Held(s', m, s'.book.stage[m])
  {
    hide Inv, InQueue;
    QueuePop(s.conns[c].toIssuer, m);
  }

  lemma AdmitHeld(s: State, c: nat, h: nat, m: nat)
    requires Inv(s) && ReaderEnabled(s, c, Admit(h)) && m in s.book.stage && Held(s, m, s.book.stage[m])
    ensures var s' := ReaderNext(s, c, Admit(h)); m in s'.book.stage && Held(s', m, s'.book.stage[m])
  {
    hide Inv, InQueue;
  }

  lemma DropHeld(s: State, c: nat, ev: ReaderEvent, m: nat)
    requires Inv(s) && ReaderEnabled(s, c, ev) && (ev.ReadError? || ev.Saturated?)
    requires m in s.book.stage && Held(s, m, s.book.stage[m])
    ensures var s' := ReaderNext(s, c, ev); m in s'.book.stage && Held(s', m, s'.book.stage[m])
  {
    hide Inv, InQueue;
  }

  lemma ReaderHeld(s: State, c: nat, ev: ReaderEvent, m: nat)
    requires Inv(s) && ReaderEnabled(s, c, ev) && m in s.book.stage && Held(s, m, s.book.stage[m])
    ensures var s' := ReaderNext(s, c, ev); m in s'.book.stage && Held(s', m, s'.book.stage[m])
  {
    hide Inv, Held, ReaderNext, ReaderEnabled;
    match ev
    case ReadRequest => ReadRequestHeld(s, c, m);
    case Admit(h) => AdmitHeld(s, c, h, m);
    case _ => DropHeld(s, c, ev, m);
  }

  lemma ReplyHeld(s: State, h: nat, m: nat)
    requires Inv(s) && HandlerEnabled(s, h, Reply) && m in s.book.stage && Held(s, m, s.book.stage[m])
    ensures var s' := HandlerNext(s, h, Reply); m in s'.book.stage && Held(s', m, s'.book.stage[m])
  {
    hide Inv, InQueue;
    AtHandler(s, h);
    var handler := s.handlers[h];
    QueueAppend(s.conns[handler.conn].toAcquirer, Message(handler.message.call, handler.phase.response), m);
  }

  lemma OtherHandlerHeld(s: State, h: nat, ev: HandlerEvent, m: nat)
    requires Inv(s) && HandlerEnabled(s, h, ev) && !ev.Reply? && m in s.book.stage && Held(s, m, s.book.stage[m])
    ensures var s' := HandlerNext(s, h, ev); m in s'.book.stage && Held(s', m, s'.book.stage[m])
  {
    hide Inv, InQueue;
    AtHandler(s, h);
  }

  lemma HandlerHeld(s: State, h: nat, ev: HandlerEvent, m: nat)
    requires Inv(s) && HandlerEnabled(s, h, ev) && m in s.book.stage && Held(s, m, s.book.stage[m])
    ensures var s' := HandlerNext(s, h, ev); m in s'.book.stage && Held(s', m, s'.book.stage[m])
  {
    hide Inv, Held, HandlerNext, HandlerEnabled;
    if ev.Reply? {
      ReplyHeld(s, h, m);
    } else {
      OtherHandlerHeld(s, h, ev, m);
    }
  }

  lemma NewCall(s: State, raw: Bytes)
    requires Inv(s) && AllHeld(s) && |raw| <= MAX_ISO
    ensures AllHeld(Next(s, Begin(raw)))
  {
    hide InQueue, Inv;
    var s', n := Next(s, Begin(raw)), s.counter + 1;
    NewNumber(s);
    forall m | m in s'.book.stage
      ensures Held(s', m, s'.book.stage[m])
    {
      if m != n {
        assert Held(s, m, s.book.stage[m]);
      }
    }
  }

  lemma PoolHeld(s: State, step: Step)
    requires Enabled(s, step) && AllHeld(s) && (step.Shutdown? || step.CloseAll?)
    ensures AllHeld(Next(s, step))
  {
    hide InQueue;
    var s' := Next(s, step);
    forall m | m in s'.book.stage
      ensures Held(s', m, s'.book.stage[m])
    {
      assert Held(s, m, s.book.stage[m]);
    }
  }

  lemma CounterSame(s: State, step: Step)
    requires Enabled(s, step) && !step.Begin?
    ensures Next(s, step).counter == s.counter
  {
    hide CallNext, ListenerNext, ReaderNext, HandlerNext;
    match step
    case CallStep(n, ev) => CallEffect(s, n, ev);
    case ListenerStep(p, ev) => ListenerEffect(s, p, ev);
    case ReaderStep(c, ev) => ReaderEffect(s, c, ev);
    case HandlerStep(h, ev) => HandlerEffect(s, h, ev);
    case _ =>
  }

  lemma NumberedBy(s: State)
    requires Inv(s)
    ensures forall n :: n in s.book.stage <==> 1 <= n <= s.counter
  {
  }

  /** Only a new call brings a new message. */
  lemma SameCalls(s: State, step: Step)
    requires Inv(s) && Enabled(s, step) && FreshStep(s, step) && !step.Begin?
    ensures Next(s, step).book.stage.Keys == s.book.stage.Keys
  {
    hide Next, Enabled;
    CounterSame(s, step);
    StepPreserves(s, step);
    NumberedBy(s);
    NumberedBy(Next(s, step));
  }

  lemma StepHeld(s: State, step: Step)
    requires Inv(s) && Enabled(s, step) && FreshStep(s, step) && AllHeld(s)
    ensures AllHeld(Next(s, step))
  {
    hide Inv, FreshStep, Held, CallNext, ListenerNext, ReaderNext, HandlerNext;
    if step.Begin? {
      NewCall(s, step.raw);
    } else if step.Shutdown? || step.CloseAll? {
      PoolHeld(s, step);
    } else {
      var s' := Next(s, step);
      SameCalls(s, step);
      forall m | m in s'.book.stage
        ensures Held(s', m, s'.book.stage[m])
      {
        match step
        case CallStep(n, ev) => CallHeld(s, n, ev, m);
        case ListenerStep(p, ev) => ListenerHeld(s, p, ev, m);
        case ReaderStep(c, ev) => ReaderHeld(s, c, ev, m);
        case HandlerStep(h, ev) => HandlerHeld(s, h, ev, m);
        case _ =>
      }
    }
  }

  lemma CallsInBook(s: State)
    requires Inv(s)
    ensures s.calls.Keys == s.book.stage.Keys
  {
  }

  /** At every reachable state the message of every call is held where the history says. */
  lemma {:induction false} EveryMessageHeld(poolSize: nat, workerLimit: nat, steps: seq<Step>, s: State)
    requires Reaches(poolSize, workerLimit, steps, s)
    ensures forall n :: n in s.calls <==> n in s.book.stage
    ensures forall n :: n in s.calls ==> Held(s, n, s.book.stage[n])
  {
    hide Held, Enabled, Next, Inv;
    ReachesInv(poolSize, workerLimit, steps, s);
    CallsInBook(s);
    if steps == [] {
    } else {
      var last := |steps| - 1;
      var before := After(Start(poolSize, workerLimit), steps[..last]).value;
      PrefixReaches(poolSize, workerLimit, steps, s, last);
      ReachesInv(poolSize, workerLimit, steps[..last], before);
      CallsInBook(before);
      EveryMessageHeld(poolSize, workerLimit, steps[..last], before);
      StepHeld(before, steps[last]);
    }
  }

  /** A request that waits for a worker waits once, is on no connection, and neither has nor had a handler. */
  lemma AwaitingIsNowhereElse(poolSize: nat, workerLimit: nat, steps: seq<Step>, s: State, c: nat)
    requires Reaches(poolSize, workerLimit, steps, s) && c in s.conns && s.conns[c].reader.AwaitingSlot?
    ensures var n := s.conns[c].reader.message.call;
            && (forall d :: d in s.conns && d != c && s.conns[d].reader.AwaitingSlot? ==> s.conns[d].reader.message.call != n)
            && (forall d, j :: d in s.conns && 0 <= j < |s.conns[d].toIssuer| ==> s.conns[d].toIssuer[j].call != n)
            && (forall h :: h in s.handlers ==> s.handlers[h].message.call != n)
            && n !in s.book.answers
  {
    ReachesInv(poolSize, workerLimit, steps, s);
    hide Inv, Reaches;
    var n := s.conns[c].reader.message.call;
    AtConn(s, c);
    AtBook(s, n);
    forall d | d in s.conns
      ensures d != c && s.conns[d].reader.AwaitingSlot? ==> s.conns[d].reader.message.call != n
      ensures forall j :: 0 <= j < |s.conns[d].toIssuer| ==> s.conns[d].toIssuer[j].call != n
    {
      AtConn(s, d);
    }
    forall h | h in s.handlers
      ensures s.handlers[h].message.call != n
    {
      AtHandler(s, h);
    }
  }
}
