/**
 The protocol told from the side of each participant, without the steps' own definitions: how a call ends and why, which
 way its message goes, what becomes of a listener and of its slot, and what everyone can do at a reachable state.
 */
module ProtocolFates {
  import opened Base
  import opened Protocol
  import opened ProtocolPlaces
  import opened ProtocolProof
  import opened ProtocolTheorems

  // ----- how a call ends -----

  predicate Ended(phase: CallPhase, o: Outcome) {
    phase == Returning(o) || phase == Done(o)
  }

  /** The step that ends the n-th call: it takes its response, its third attempt fails, or it is told to stop waiting. */
  predicate Ends(s: State, step: Step, n: nat, o: Outcome)
    requires Enabled(s, step)
  {
    step.CallStep? && step.call == n &&
    var call := s.calls[n];
    match o
    case Response(iso) => step.callEvent.Receive? && call.buffer == Some(iso)
    case TimedOut => step.callEvent.Timeout?
    case Cancelled => step.callEvent.Cancel?
    case SendFailed =>
      (step.callEvent.Pick? && call.phase.attempt == 2 && s.slots[s.cursor].None?)
      || (step.callEvent.WriteFails? && call.phase.attempt == 2)
  }

  ghost predicate EndedAt(start: State, steps: seq<Step>, i: nat, n: nat, o: Outcome) {
    && i < |steps| && After(start, steps[..i]).Some?
    && Enabled(After(start, steps[..i]).value, steps[i])
    && Ends(After(start, steps[..i]).value, steps[i], n, o)
  }

  lemma OwnEnd(s: State, n: nat, ev: CallEvent, o: Outcome)
    requires CallEnabled(s, n, ev) && CallOk(s.book, n, s.calls[n])
    ensures var s' := CallNext(s, n, ev);
            && n in s'.calls
            && (Ended(s'.calls[n].phase, o) <==> Ended(s.calls[n].phase, o) || Ends(s, CallStep(n, ev), n, o))
  {
  }

  lemma OthersEnd(s: State, n: nat, ev: CallEvent, k: nat)
    requires CallEnabled(s, n, ev) && k != n
    ensures k in CallNext(s, n, ev).calls <==> k in s.calls
    ensures k in s.calls ==> CallNext(s, n, ev).calls[k] == s.calls[k]
  {
  }

  /** A listener changes no call but for the buffer of the one it delivers to. */
  lemma ListenerKeepsPhases(s: State, p: nat, ev: ListenerEvent, k: nat)
    requires ListenerEnabled(s, p, ev)
    ensures k in ListenerNext(s, p, ev).calls <==> k in s.calls
    ensures k in s.calls ==> ListenerNext(s, p, ev).calls[k].phase == s.calls[k].phase
  {
  }

  lemma IssuerKeepsCalls(s: State, step: Step)
    requires Enabled(s, step) && (step.ReaderStep? || step.HandlerStep?)
    ensures Next(s, step).calls == s.calls
  {
    hide CallNext, ListenerNext, CallEnabled, ListenerEnabled;
  }

  lemma NewCallPhase(s: State, raw: Bytes, k: nat, o: Outcome)
    requires Inv(s) && Enabled(s, Begin(raw))
    ensures var s' := Next(s, Begin(raw));
            (k in s'.calls && Ended(s'.calls[k].phase, o)) <==> (k in s.calls && Ended(s.calls[k].phase, o))
  {
    hide Inv, Next;
    NewNumber(s);
    BeginEffect(s, raw);
  }

  lemma EndsOwnOnly(s: State, step: Step, n: nat, o: Outcome)
    requires Enabled(s, step)
    ensures Ends(s, step, n, o) ==> step.CallStep? && step.call == n
  {
  }

  lemma StepEnds(s: State, step: Step, n: nat, o: Outcome)
    requires Inv(s) && Enabled(s, step)
    ensures var s' := Next(s, step);
            (n in s'.calls && Ended(s'.calls[n].phase, o)) <==>
            (n in s.calls && Ended(s.calls[n].phase, o)) || Ends(s, step, n, o)
  {
    hide Inv, CallNext, ListenerNext, ReaderNext, HandlerNext, Ends, Ended;
    EndsOwnOnly(s, step, n, o);
    match step
    case Begin(raw) => NewCallPhase(s, raw, n, o);
    case CallStep(k, ev) =>
      if k == n {
        CallStepKnown(s, step);
        AtCall(s, n);
        OwnEnd(s, n, ev, o);
      } else {
        OthersEnd(s, k, ev, n);
      }
    case ListenerStep(p, ev) => ListenerKeepsPhases(s, p, ev, n);
    case ReaderStep(_, _) => IssuerKeepsCalls(s, step);
    case HandlerStep(_, _) => IssuerKeepsCalls(s, step);
    case _ =>
  }

  lemma EndedEarlier(start: State, steps: seq<Step>, i: nat, n: nat, o: Outcome)
    requires i < |steps| - 1
    ensures EndedAt(start, steps, i, n, o) == EndedAt(start, steps[..|steps| - 1], i, n, o)
  {
    hide After, Ends, Enabled;
    assert steps[..|steps| - 1][..i] == steps[..i];
  }

  lemma EndedBy(start: State, steps: seq<Step>, front: seq<Step>, n: nat, o: Outcome)
    requires steps != [] && front == steps[..|steps| - 1]
    ensures (exists i: nat :: EndedAt(start, steps, i, n, o)) <==>
            (exists i: nat :: EndedAt(start, front, i, n, o)) || EndedAt(start, steps, |steps| - 1, n, o)
  {
    if i: nat :| EndedAt(start, steps, i, n, o) {
      hide EndedAt;
      if i < |front| {
        EndedEarlier(start, steps, i, n, o);
      }
    }
    if i: nat :| EndedAt(start, front, i, n, o) {
      EndedEarlier(start, steps, i, n, o);
    }
  }

  lemma EndedLast(start: State, steps: seq<Step>, n: nat, o: Outcome)
    requires steps != [] && After(start, steps).Some?
    ensures var before := After(start, steps[..|steps| - 1]).value;
            && Enabled(before, steps[|steps| - 1])
            && EndedAt(start, steps, |steps| - 1, n, o) == Ends(before, steps[|steps| - 1], n, o)
  {
    hide Ends, Enabled, Next;
  }

  lemma NothingEnded(start: State, n: nat, o: Outcome)
    ensures !exists i: nat :: EndedAt(start, [], i, n, o)
  {
  }

  /**
   Every outcome has its cause: in every run a call has ended in a response exactly when it took that response from its
   buffer, timed out or cancelled exactly when it was told so, and failed to send exactly when its third attempt found
   no connection or could not write.
   */
  lemma {:induction false} CallOutcomeIff(poolSize: nat, workerLimit: nat, steps: seq<Step>, s: State, n: nat, o: Outcome)
    requires Reaches(poolSize, workerLimit, steps, s)
    ensures (n in s.calls && Ended(s.calls[n].phase, o)) <==>
            exists i: nat :: EndedAt(Start(poolSize, workerLimit), steps, i, n, o)
  {
    hide Next, Enabled, Inv, Ended, Ends, EndedAt;
    var start := Start(poolSize, workerLimit);
    if steps == [] {
      NothingEnded(start, n, o);
    } else {
      var last := |steps| - 1;
      var before := After(start, steps[..last]).value;
      PrefixReaches(poolSize, workerLimit, steps, s, last);
      ReachesInv(poolSize, workerLimit, steps[..last], before);
      CallOutcomeIff(poolSize, workerLimit, steps[..last], before, n, o);
      EndedBy(start, steps, steps[..last], n, o);
      EndedLast(start, steps, n, o);
      StepEnds(before, steps[last], n, o);
    }
  }

  // ----- the way of a message -----

  /** Where a step takes the message of the k-th call, from where it is. */
  function Fate(s: State, step: Step, k: nat): Stage
    requires Enabled(s, step) && k in s.book.stage
  {
    var here := s.book.stage[k];
    match here
    case Unsent =>
      if step == CallStep(k, WriteOk) then
        var c := s.calls[k].phase.conn;
        if s.conns[c].requestsOpen then OnWire(c) else Discarded
      else here
    case OnWire(c) => if step == ReaderStep(c, ReadRequest) && s.conns[c].toIssuer[0].call == k then AtReader(c) else here
    case AtReader(c) =>
      if step.ReaderStep? && step.conn == c && step.readerEvent.Admit? then Owned(step.readerEvent.handler)
      else if step == ReaderStep(c, Saturated) then Discarded
      else here
    case Owned(h) =>
      if step == HandlerStep(h, Abort) then Discarded
      else if step.HandlerStep? && step.handler == h && step.handlerEvent.Execute? then Executed
      else here
    case Executed =>
      if step.HandlerStep? && s.handlers[step.handler].message.call == k then
        match step.handlerEvent
        case Reply =>
          var c := s.handlers[step.handler].conn;
          if s.conns[c].repliesOpen then ReplyOnWire(c) else Discarded
        case ReplyFails(_) => Discarded
        case Abort => Discarded
        case _ => here
      else here
    case ReplyOnWire(c) =>
      if step.ListenerStep? && step.listenerEvent.ReadReply? && s.listeners[step.slot].conn == c
         && s.conns[c].toAcquirer[0].call == k
      then AtListener(step.slot) else here
    case AtListener(p) =>
      if step == ListenerStep(p, LookUp) then if k in s.calls && Live(s.calls[k].phase) then here else Discarded
      else if step == ListenerStep(p, Deliver) then Delivered
      else here
    case Delivered => here
    case Discarded => here
  }

  /** The participant that the book names has this very message. */
  predicate Belongs(s: State, k: nat) {
    k in s.book.stage &&
    match s.book.stage[k]
    case AtReader(c) => c in s.conns && s.conns[c].reader.AwaitingSlot? && s.conns[c].reader.message.call == k
    case Owned(h) => h in s.handlers && s.handlers[h].message.call == k
    case AtListener(p) =>
      p < |s.listeners|
      && ((s.listeners[p].Routing? && s.listeners[p].message.call == k)
          || (s.listeners[p].Delivering? && s.listeners[p].call == k))
    case _ => true
  }

  lemma HeldBelongs(s: State, k: nat)
    requires k in s.book.stage && Held(s, k, s.book.stage[k])
    ensures Belongs(s, k)
  {
  }

  /** The step takes the message where its way goes. */
  predicate GoesItsWay(s: State, step: Step, k: nat)
    requires Enabled(s, step)
  {
    Belongs(s, k) ==> var b' := Next(s, step).book; k in b'.stage && b'.stage[k] == Fate(s, step, k)
  }

  lemma CallFate(s: State, n: nat, ev: CallEvent, k: nat)
    requires CallEnabled(s, n, ev) && CallOk(s.book, n, s.calls[n])
    ensures GoesItsWay(s, CallStep(n, ev), k)
  {
    hide ListenerNext, ReaderNext, HandlerNext;
  }

  lemma ReaderFate(s: State, c: nat, ev: ReaderEvent, k: nat)
    requires ReaderEnabled(s, c, ev) && ConnOk(s.book, c, s.conns[c])
    ensures GoesItsWay(s, ReaderStep(c, ev), k)
  {
    hide CallNext, ListenerNext, HandlerNext;
  }

  lemma HandlerMessageAt(s: State, h: nat)
    requires Inv(s) && h in s.handlers
    ensures var k := s.handlers[h].message.call;
            && (s.handlers[h].phase.Spawned? || s.handlers[h].phase.Running? ==> At(s.book, k, Owned(h)))
            && (s.handlers[h].phase.Computed? ==> At(s.book, k, Executed))
            && k in s.book.owner && s.book.owner[k] == h
  {
    AtHandler(s, h);
  }

  lemma QuietHandlerFate(s: State, h: nat, ev: HandlerEvent, k: nat)
    requires HandlerEnabled(s, h, ev) && !Answering(ev)
    ensures GoesItsWay(s, HandlerStep(h, ev), k)
  {
    hide CallNext, ListenerNext, ReaderNext;
  }

  lemma AnsweringFate(s: State, h: nat, ev: HandlerEvent, k: nat)
    requires HandlerEnabled(s, h, ev) && Answering(ev)
    requires var m := s.handlers[h].message.call;
             && (s.handlers[h].phase.Spawned? || s.handlers[h].phase.Running? ==> At(s.book, m, Owned(h)))
             && (s.handlers[h].phase.Computed? ==> At(s.book, m, Executed))
    ensures GoesItsWay(s, HandlerStep(h, ev), k)
  {
    hide CallNext, ListenerNext, ReaderNext;
  }

  lemma HandlerFate(s: State, h: nat, ev: HandlerEvent, k: nat)
    requires Inv(s) && HandlerEnabled(s, h, ev)
    ensures GoesItsWay(s, HandlerStep(h, ev), k)
  {
    HandlerMessageAt(s, h);
    hide Inv, GoesItsWay, HandlerNext, HandlerEnabled;
    if Answering(ev) {
      AnsweringFate(s, h, ev, k);
    } else {
      QuietHandlerFate(s, h, ev, k);
    }
  }

  /** A response finds a call in the pending map exactly while its own is registered. */
  lemma FoundIffLive(s: State, p: nat)
    requires Inv(s) && p < |s.listeners| && s.listeners[p].Routing?
    ensures var m := s.listeners[p].message;
            m.Id() in s.pending <==> m.call in s.calls && Live(s.calls[m.call].phase)
  {
    if s.listeners[p].message.Id() in s.pending {
      FindsItsOwn(s, p);
    }
    hide CallsInv, ConnsInv, HandlersInv, ListenersInv, BookInv, IdsInv, RoundRobinInv, WorkersInv;
  }

  lemma ListenerStepIs(s: State, p: nat, ev: ListenerEvent)
    requires ListenerEnabled(s, p, ev)
    ensures Enabled(s, ListenerStep(p, ev)) && Next(s, ListenerStep(p, ev)) == ListenerNext(s, p, ev)
  {
    hide ListenerNext, ListenerEnabled, CallNext, ReaderNext, HandlerNext, CallEnabled, ReaderEnabled, HandlerEnabled;
  }

  lemma LookUpFate(s: State, p: nat, k: nat)
    requires Inv(s) && ListenerEnabled(s, p, LookUp)
    ensures GoesItsWay(s, ListenerStep(p, LookUp), k)
  {
    AtListenerSlot(s, p);
    FoundIffLive(s, p);
    LookUpEffect(s, p);
    ListenerStepIs(s, p, LookUp);
    hide Inv, Live, ListenerNext, Next, Enabled;
  }

  /** The buffer that a listener delivers to is empty. */
  lemma DeliversOnce(s: State, p: nat)
    requires Inv(s) && ListenerEnabled(s, p, Deliver)
    ensures At(s.book, s.listeners[p].call, AtListener(p)) && s.calls[s.listeners[p].call].buffer.None?
  {
    AtListenerSlot(s, p);
    AtCall(s, s.listeners[p].call);
  }

  lemma DeliveredStage(s: State, p: nat)
    requires Inv(s) && ListenerEnabled(s, p, Deliver)
    ensures var n := s.listeners[p].call;
            && At(s.book, n, AtListener(p)) && ListenerNext(s, p, Deliver).book.stage == s.book.stage[n := Delivered]
  {
    DeliversOnce(s, p);
    DeliverEffect(s, p);
    hide Inv, ListenerNext;
  }

  lemma DeliverFate(s: State, p: nat, k: nat)
    requires Inv(s) && ListenerEnabled(s, p, Deliver)
    ensures GoesItsWay(s, ListenerStep(p, Deliver), k)
  {
    hide Inv, ListenerNext, Next, Enabled;
    DeliveredStage(s, p);
    ListenerStepIs(s, p, Deliver);
  }

  lemma ReadReplyFate(s: State, p: nat, k: nat)
    requires Inv(s) && ListenerEnabled(s, p, ReadReply)
    ensures GoesItsWay(s, ListenerStep(p, ReadReply), k)
  {
    AtConn(s, s.listeners[p].conn);
    hide Inv, CallNext, ReaderNext, HandlerNext;
  }

  lemma PoolFate(s: State, p: nat, ev: ListenerEvent, k: nat)
    requires ListenerEnabled(s, p, ev) && !ev.ReadReply? && !ev.LookUp? && !ev.Deliver?
    ensures GoesItsWay(s, ListenerStep(p, ev), k)
  {
    PoolEffect(s, p, ev);
    hide ListenerNext;
  }

  lemma OtherFate(s: State, step: Step, k: nat)
    requires Inv(s) && Enabled(s, step) && (step.Begin? || step.Shutdown? || step.CloseAll?)
    ensures GoesItsWay(s, step, k)
  {
    NewNumber(s);
    hide Inv, CallNext, ListenerNext, ReaderNext, HandlerNext;
  }

  /** Every message goes its way, and only the steps named there move it. */
  lemma MessageFate(s: State, step: Step, k: nat)
    requires Inv(s) && Enabled(s, step)
    ensures GoesItsWay(s, step, k)
  {
    hide Inv, GoesItsWay, CallNext, ListenerNext, ReaderNext, HandlerNext;
    match step
    case CallStep(n, ev) =>
      CallStepKnown(s, step);
      AtCall(s, n);
      CallFate(s, n, ev, k);
    case ListenerStep(p, LookUp) => LookUpFate(s, p, k);
    case ListenerStep(p, Deliver) => DeliverFate(s, p, k);
    case ListenerStep(p, ReadReply) => ReadReplyFate(s, p, k);
    case ListenerStep(p, ev) => PoolFate(s, p, ev, k);
    case ReaderStep(c, ev) =>
      AtConn(s, c);
      ReaderFate(s, c, ev, k);
    case HandlerStep(h, ev) => HandlerFate(s, h, ev, k);
    case _ => OtherFate(s, step, k);
  }

  // ----- what becomes of slots, listeners, read loops and handlers -----

  function SlotThen(s: State, step: Step, p: nat): Option<nat>
    requires p < |s.slots|
  {
    match step
    case ListenerStep(q, Connect(c)) => if q == p then Some(c) else s.slots[p]
    case ListenerStep(q, Close) => if q == p then None else s.slots[p]
    case CloseAll => None
    case _ => s.slots[p]
  }

  function DialingThen(s: State, step: Step): Option<nat> {
    match step
    case ListenerStep(q, Dial) => Some(q)
    case ListenerStep(_, DialFails) => None
    case ListenerStep(_, Connect(_)) => None
    case _ => s.dialing
  }

  /** What a step of its own makes of a listener; nobody else's does anything to it. */
  function ListenerThen(s: State, p: nat, ev: ListenerEvent): Listener
    requires ListenerEnabled(s, p, ev)
  {
    match s.listeners[p]
    case Idle => if ev.Listen? then Listening(s.slots[p].value) else if ev.StopListening? then Stopped else Idle
    case Listening(c) =>
      if ev.ReadReply? then Routing(c, s.conns[c].toAcquirer[0]) else if ev.Close? then Idle else Stopped
    case Routing(c, m) =>
      if m.call in s.calls && Live(s.calls[m.call].phase) then Delivering(c, m.call, m.iso) else Listening(c)
    case Delivering(c, _, _) => Listening(c)
    case Stopped => Stopped
  }

  function ReaderThen(conn: Conn, ev: ReaderEvent): Reader
    requires ev.ReadRequest? ==> conn.toIssuer != []
  {
    match ev
    case ReadRequest => AwaitingSlot(conn.toIssuer[0])
    case ReadError => Gone
    case Admit(_) => Reading
    case Saturated => Reading
  }

  function HandlerThen(phase: HandlerPhase, ev: HandlerEvent): HandlerPhase {
    match ev
    case Run => Running
    case Execute(result) => if result.Some? then Computed(result.value) else Exiting
    case Release => Released
    case _ => Exiting
  }

  lemma ListenerGoes(s: State, p: nat, ev: ListenerEvent)
    requires Inv(s) && ListenerEnabled(s, p, ev)
    ensures ListenerNext(s, p, ev).listeners == s.listeners[p := ListenerThen(s, p, ev)]
  {
    if s.listeners[p].Routing? {
      FoundIffLive(s, p);
      if s.listeners[p].message.Id() in s.pending {
        FindsItsOwn(s, p);
      }
    }
    hide Inv, Live;
  }

  lemma PoolGoes(s: State, p: nat, ev: ListenerEvent)
    requires ListenerEnabled(s, p, ev)
    ensures var s', step := ListenerNext(s, p, ev), ListenerStep(p, ev);
            && |s'.slots| == |s.slots| && (forall q :: 0 <= q < |s.slots| ==> s'.slots[q] == SlotThen(s, step, q))
            && s'.dialing == DialingThen(s, step)
  {
  }

  lemma DialledGoes(s: State, p: nat, ev: ListenerEvent)
    requires ListenerEnabled(s, p, ev)
    ensures var s' := ListenerNext(s, p, ev);
            && s'.handlers == s.handlers
            && (ev.Connect? ==> s'.conns == s.conns[ev.conn := Conn([], [], true, true, Reading)])
  {
  }

  lemma ReaderGoes(s: State, c: nat, ev: ReaderEvent)
    requires ReaderEnabled(s, c, ev)
    ensures var s' := ReaderNext(s, c, ev);
            && s'.conns.Keys == s.conns.Keys && s'.conns[c].reader == ReaderThen(s.conns[c], ev)
            && (forall d :: d in s.conns && d != c ==> s'.conns[d] == s.conns[d])
            && s'.handlers == if ev.Admit? then s.handlers[ev.handler := Handler(c, s.conns[c].reader.message, Spawned)]
                              else s.handlers
  {
  }

  lemma HandlerGoes(s: State, h: nat, ev: HandlerEvent)
    requires HandlerEnabled(s, h, ev)
    ensures var s' := HandlerNext(s, h, ev);
            && s'.handlers == s.handlers[h := s.handlers[h].(phase := HandlerThen(s.handlers[h].phase, ev))]
            && s'.conns.Keys == s.conns.Keys
            && forall d :: d in s.conns ==> s'.conns[d].reader == s.conns[d].reader
  {
  }

  lemma CallTouchesNobody(s: State, n: nat, ev: CallEvent)
    requires CallEnabled(s, n, ev)
    ensures var s' := CallNext(s, n, ev);
            && s'.slots == s.slots && s'.dialing == s.dialing && s'.listeners == s.listeners && s'.handlers == s.handlers
            && s'.conns.Keys == s.conns.Keys && forall d :: d in s.conns ==> s'.conns[d].reader == s.conns[d].reader
  {
  }

  // ----- shutting down -----

  lemma CallKeepsShutdown(s: State, n: nat, ev: CallEvent)
    requires CallEnabled(s, n, ev)
    ensures CallNext(s, n, ev).shutdown == s.shutdown
  {
  }

  lemma ListenerKeepsShutdown(s: State, p: nat, ev: ListenerEvent)
    requires ListenerEnabled(s, p, ev)
    ensures ListenerNext(s, p, ev).shutdown == s.shutdown
  {
  }

  lemma ReaderKeepsShutdown(s: State, c: nat, ev: ReaderEvent)
    requires ReaderEnabled(s, c, ev)
    ensures ReaderNext(s, c, ev).shutdown == s.shutdown
  {
  }

  lemma HandlerKeepsShutdown(s: State, h: nat, ev: HandlerEvent)
    requires HandlerEnabled(s, h, ev)
    ensures HandlerNext(s, h, ev).shutdown == s.shutdown
  {
  }

  lemma StepShutsDown(s: State, step: Step)
    requires Enabled(s, step)
    ensures Next(s, step).shutdown <==> s.shutdown || step == Shutdown
  {
    hide CallNext, ListenerNext, ReaderNext, HandlerNext, CallEnabled, ListenerEnabled, ReaderEnabled, HandlerEnabled;
    match step
    case CallStep(n, ev) => CallKeepsShutdown(s, n, ev);
    case ListenerStep(p, ev) => ListenerKeepsShutdown(s, p, ev);
    case ReaderStep(c, ev) => ReaderKeepsShutdown(s, c, ev);
    case HandlerStep(h, ev) => HandlerKeepsShutdown(s, h, ev);
    case _ =>
  }

  /** The switch shuts down exactly when it is told to. */
  lemma {:induction false} ShutdownIff(poolSize: nat, workerLimit: nat, steps: seq<Step>, s: State)
    requires poolSize > 0 && After(Start(poolSize, workerLimit), steps) == Some(s)
    ensures s.shutdown <==> Shutdown in steps
  {
    hide Next, Enabled;
    if steps == [] {
    } else {
      var last := |steps| - 1;
      var before := After(Start(poolSize, workerLimit), steps[..last]).value;
      ShutdownIff(poolSize, workerLimit, steps[..last], before);
      StepShutsDown(before, steps[last]);
      assert steps == steps[..last] + [steps[last]];
    }
  }

  // ----- what can be done -----

  predicate CallOffers(s: State, call: Call, ev: CallEvent) {
    match call.phase
    case Allocated => ev.Register?
    case Selecting(_) => ev.Pick? && s.dialing.None?
    case Writing(_, _) => ev.WriteOk? || ev.WriteFails?
    case Waiting => ev.Timeout? || ev.Cancel? || (ev.Receive? && call.buffer.Some?)
    case Returning(_) => ev.Unregister?
    case Done(_) => false
  }

  predicate HandlerOffers(handler: Handler, ev: HandlerEvent) {
    match handler.phase
    case Spawned => ev.Run? || ev.Abort?
    case Running => ev.Execute? && (ev.result.Some? ==> |ev.result.value| <= 8187)
    case Computed(_) => ev.Reply? || ev.ReplyFails? || ev.Abort?
    case Exiting => ev.Release?
    case Released => false
  }

  ghost predicate ReaderOffers(s: State, conn: Conn, ev: ReaderEvent) {
    match conn.reader
    case Reading => ev.ReadError? || (ev.ReadRequest? && conn.toIssuer != [])
    case AwaitingSlot(_) =>
      ev.Saturated? || (ev.Admit? && ev.handler !in s.handlers && |Occupied(s.handlers)| < s.workerLimit)
    case Gone => false
  }

  predicate ListenerOffers(s: State, p: nat, ev: ListenerEvent)
    requires p < |s.listeners| == |s.slots|
  {
    match s.listeners[p]
    case Idle =>
      if s.dialing == Some(p) then ev.DialFails? || (ev.Connect? && ev.conn !in s.conns)
      else
        || (ev.StopListening? && s.shutdown)
        || (s.dialing.None? && if s.slots[p].Some? then ev.Listen? else ev.Dial?)
    case Listening(c) =>
      || (ev.StopListening? && s.shutdown)
      || (ev.Close? && s.dialing.None?)
      || (ev.ReadReply? && c in s.conns && s.conns[c].toAcquirer != [])
    case Routing(_, _) => ev.LookUp?
    case Delivering(_, _, _) => ev.Deliver?
    case Stopped => false
  }

  lemma WorkersOf(s: State)
    requires Inv(s)
    ensures s.workers == |Occupied(s.handlers)|
  {
  }

  lemma WritesOnKnown(s: State, n: nat)
    requires Refs(s) && n in s.calls && s.calls[n].phase.Writing?
    ensures s.calls[n].phase.conn in s.conns
  {
  }

  lemma CallOffersIff(s: State, n: nat, ev: CallEvent)
    requires n in s.calls && s.cursor < |s.slots|
    requires s.calls[n].phase.Writing? ==> s.calls[n].phase.conn in s.conns
    ensures CallEnabled(s, n, ev) <==> CallOffers(s, s.calls[n], ev)
  {
  }

  lemma CallChoices(s: State, n: nat, ev: CallEvent)
    requires Inv(s) && Refs(s) && n in s.calls
    ensures CallEnabled(s, n, ev) <==> CallOffers(s, s.calls[n], ev)
  {
    hide Inv, CallEnabled, CallOffers;
    CursorInside(s);
    if s.calls[n].phase.Writing? {
      WritesOnKnown(s, n);
    }
    CallOffersIff(s, n, ev);
  }

  lemma HandlerOffersIff(s: State, h: nat, ev: HandlerEvent)
    requires h in s.handlers && s.handlers[h].conn in s.conns && (s.handlers[h].phase.Exiting? ==> s.workers > 0)
    ensures HandlerEnabled(s, h, ev) <==> HandlerOffers(s.handlers[h], ev)
  {
  }

  lemma HandlerChoices(s: State, h: nat, ev: HandlerEvent)
    requires Inv(s) && Refs(s) && h in s.handlers
    ensures HandlerEnabled(s, h, ev) <==> HandlerOffers(s.handlers[h], ev)
  {
    hide Inv, HandlerEnabled, HandlerOffers;
    WorkersOf(s);
    if s.handlers[h].phase.Exiting? {
      assert h in Occupied(s.handlers);
    }
    HandlerOffersIff(s, h, ev);
  }

  lemma ReaderChoices(s: State, c: nat, ev: ReaderEvent)
    requires Inv(s) && c in s.conns
    ensures ReaderEnabled(s, c, ev) <==> ReaderOffers(s, s.conns[c], ev)
  {
  }

  lemma ListenerChoices(s: State, p: nat, ev: ListenerEvent)
    requires Inv(s) && Refs(s) && DialOk(s) && p < |s.listeners|
    ensures ListenerEnabled(s, p, ev) <==> ListenerOffers(s, p, ev)
  {
    AtListenerSlot(s, p);
    assert |s.listeners| == |s.slots| && ListenerRefs(s, s.listeners[p]);
    if s.listeners[p].Delivering? {
      AtBook(s, s.listeners[p].call);
    }
    hide Inv, Refs;
  }

  // ----- in every run -----

  lemma TakenItsWay(s: State, step: Step, k: nat)
    requires Enabled(s, step) && GoesItsWay(s, step, k) && Belongs(s, k)
    ensures k in s.book.stage && k in Next(s, step).book.stage && Next(s, step).book.stage[k] == Fate(s, step, k)
  {
    hide Enabled, Next, Fate;
  }

  lemma OneMoreReaches(poolSize: nat, workerLimit: nat, steps: seq<Step>, s: State, step: Step)
    requires Reaches(poolSize, workerLimit, steps, s) && Enabled(s, step) && FreshStep(s, step)
    ensures Reaches(poolSize, workerLimit, steps + [step], Next(s, step))
  {
    hide Enabled, Next, FreshStep;
    assert (steps + [step])[..|steps|] == steps;
  }

  /** In every run, the next step takes every message its way, and whoever is named there has it. */
  lemma RunFate(poolSize: nat, workerLimit: nat, steps: seq<Step>, s: State, step: Step, k: nat)
    requires Reaches(poolSize, workerLimit, steps, s) && Enabled(s, step) && FreshStep(s, step) && k in s.calls
    ensures k in s.book.stage && k in Next(s, step).book.stage
    ensures Next(s, step).book.stage[k] == Fate(s, step, k) && Held(Next(s, step), k, Fate(s, step, k))
  {
    hide Inv, Held, Enabled, Next, Fate, FreshStep, GoesItsWay, Belongs;
    EveryMessageHeld(poolSize, workerLimit, steps, s);
    ReachesInv(poolSize, workerLimit, steps, s);
    OneMoreReaches(poolSize, workerLimit, steps, s, step);
    EveryMessageHeld(poolSize, workerLimit, steps + [step], Next(s, step));
    HeldBelongs(s, k);
    MessageFate(s, step, k);
    TakenItsWay(s, step, k);
  }

  /** While a listener dials, not all have stopped. */
  lemma StopsWhenAllHave(s: State)
    requires DialOk(s)
    ensures forall raw: Bytes :: Enabled(s, Begin(raw)) <==> |raw| <= 8187
    ensures Enabled(s, Shutdown)
    ensures Enabled(s, CloseAll) <==> s.shutdown && forall p :: 0 <= p < |s.listeners| ==> s.listeners[p].Stopped?
  {
  }

  lemma SlotsOf(s: State)
    requires Inv(s)
    ensures |s.listeners| == |s.slots|
  {
  }

  /** In every run, everyone can do exactly what their own state offers them. */
  lemma RunChoices(poolSize: nat, workerLimit: nat, steps: seq<Step>, s: State)
    requires Reaches(poolSize, workerLimit, steps, s)
    ensures |s.listeners| == |s.slots|
    ensures forall n, ev :: n in s.calls ==> (CallEnabled(s, n, ev) <==> CallOffers(s, s.calls[n], ev))
    ensures forall p, ev :: 0 <= p < |s.listeners| ==> (ListenerEnabled(s, p, ev) <==> ListenerOffers(s, p, ev))
    ensures forall c, ev :: c in s.conns ==> (ReaderEnabled(s, c, ev) <==> ReaderOffers(s, s.conns[c], ev))
    ensures forall h, ev :: h in s.handlers ==> (HandlerEnabled(s, h, ev) <==> HandlerOffers(s.handlers[h], ev))
    ensures s.workerLimit == workerLimit
    ensures forall raw: Bytes :: Enabled(s, Begin(raw)) <==> |raw| <= 8187
    ensures Enabled(s, Shutdown)
    ensures Enabled(s, CloseAll) <==> s.shutdown && forall p :: 0 <= p < |s.listeners| ==> s.listeners[p].Stopped?
  {
    ReachesInv(poolSize, workerLimit, steps, s);
    ReachesRefs(poolSize, workerLimit, steps, s);
    ReachesDialOk(poolSize, workerLimit, steps, s);
    WorkerAccounting(poolSize, workerLimit, steps, s);
    SlotsOf(s);
    StopsWhenAllHave(s);
    hide *;
    forall n, ev | n in s.calls ensures CallEnabled(s, n, ev) <==> CallOffers(s, s.calls[n], ev) {
      CallChoices(s, n, ev);
    }
    forall p: nat, ev | p < |s.listeners| ensures ListenerEnabled(s, p, ev) <==> ListenerOffers(s, p, ev) {
      ListenerChoices(s, p, ev);
    }
    forall c, ev | c in s.conns ensures ReaderEnabled(s, c, ev) <==> ReaderOffers(s, s.conns[c], ev) {
      ReaderChoices(s, c, ev);
    }
    forall h, ev | h in s.handlers ensures HandlerEnabled(s, h, ev) <==> HandlerOffers(s.handlers[h], ev) {
      HandlerChoices(s, h, ev);
    }
  }
}
