/**
 The acquirer switch and the issuer's TCP server as one transition system. Goroutines are control
 states, each atomic or mutex-guarded section is one step, and every interleaving is a run. Only dialling,
 during which the pool mutex is held, is two. A connection is a pair of frame queues;
 ProtocolBytes.BytesCarryMessages is why bytes need not appear here.

 What is assumed of the network: a failed write delivers no complete frame, and when it delivered
 part of one nothing later arrives on that connection (`open` becomes false). Read deadlines fire
 between frames only. A connection may stop delivering at any moment.
 */
module Protocol {
  import opened Base
  import opened Framing

  const CORR_SPACE: nat := 0x1_0000_0000
  const MAX_ISO: nat := MAX_PACKET - HEADER_LENGTH
  const ATTEMPTS: nat := 3

  /** The 32-bit correlation ID of the n-th call: the counter is an atomic uint32 and wraps. */
  function CorrId(n: nat): nat {
    n % CORR_SPACE
  }

  /** A frame. Its header carries the 32-bit correlation ID; the number of the call it belongs to is history. */
  datatype Message = Message(call: nat, iso: Bytes) {
    function Id(): nat {
      CorrId(call)
    }
  }

  // ----- acquirer -----

  datatype Outcome = Response(iso: Bytes) | SendFailed | TimedOut | Cancelled

  /** Where a call of `HandleTerminalRequest` stands; `attempt` counts from 0. */
  datatype CallPhase =
    | Allocated                          // has its number, not yet in the pending map
    | Selecting(attempt: nat)            // about to pick a pool slot
    | Writing(attempt: nat, conn: nat)   // about to write on the connection it found
    | Waiting
    | Returning(outcome: Outcome)        // the deferred Delete has not run yet
    | Done(outcome: Outcome)

  /** `buffer` is the one-slot response channel. `picks` and `writes` are history. */
  datatype Call = Call(raw: Bytes, phase: CallPhase, buffer: Option<Bytes>, picks: nat, writes: nat)

  datatype Listener =
    | Idle
    | Listening(conn: nat)
    | Routing(conn: nat, message: Message)        // has read a packet
    | Delivering(conn: nat, call: nat, iso: Bytes) // has loaded a response channel from the pending map
    | Stopped

  // ----- issuer -----

  datatype Reader = Reading | AwaitingSlot(message: Message) | Gone

  datatype HandlerPhase = Spawned | Running | Computed(response: Bytes) | Exiting | Released

  datatype Handler = Handler(conn: nat, message: Message, phase: HandlerPhase)

  /** A TCP connection with the issuer's read loop for it. */
  datatype Conn = Conn(toIssuer: seq<Message>, toAcquirer: seq<Message>,
                       requestsOpen: bool, repliesOpen: bool, reader: Reader)

  // ----- history -----

  /** Where the one copy of a call's request, and then of its reply, is. */
  datatype Stage =
    | Unsent | OnWire(conn: nat) | AtReader(conn: nat) | Owned(handler: nat)
    | Executed | ReplyOnWire(conn: nat) | AtListener(slot: nat) | Delivered | Discarded

  /** What a handler was given and what it made of it; no response when `HandleHex` failed. */
  datatype Answer = Answer(request: Bytes, response: Option<Bytes>)

  /** What has become of each call: its bytes, where its message is, the handler that got it and the answer. */
  datatype Book = Book(raw: map<nat, Bytes>, stage: map<nat, Stage>, owner: map<nat, nat>, answers: map<nat, Answer>)
  {
    function Move(n: nat, place: Stage): Book {
      this.(stage := stage[n := place])
    }
  }

  /** `dialing` is the slot whose listener holds the pool mutex while it dials. */
  datatype State = State(
    slots: seq<Option<nat>>, dialing: Option<nat>, cursor: nat, counter: nat, pending: map<nat, nat>,
    calls: map<nat, Call>, listeners: seq<Listener>, shutdown: bool,
    conns: map<nat, Conn>, workers: nat, workerLimit: nat, handlers: map<nat, Handler>,
    // history
    picked: seq<nat>, book: Book)

  function Start(poolSize: nat, workerLimit: nat): State
    requires poolSize > 0
  {
    State(seq(poolSize, _ => None), None, 0, 0, map[], map[], seq(poolSize, _ => Idle), false,
          map[], 0, workerLimit, map[], [], Book(map[], map[], map[], map[]))
  }

  // ----- steps -----

  datatype CallEvent = Register | Pick | WriteOk | WriteFails(torn: bool) | Receive | Timeout | Cancel | Unregister

  datatype ListenerEvent = Dial | DialFails | Connect(conn: nat) | Listen | ReadReply | LookUp | Deliver | Close | StopListening

  datatype ReaderEvent = ReadRequest | ReadError | Admit(handler: nat) | Saturated

  datatype HandlerEvent = Run | Abort | Execute(result: Option<Bytes>) | Reply | ReplyFails(torn: bool) | Release

  datatype Step =
    | Begin(raw: Bytes)
    | CallStep(call: nat, callEvent: CallEvent)
    | ListenerStep(slot: nat, listenerEvent: ListenerEvent)
    | ReaderStep(conn: nat, readerEvent: ReaderEvent)
    | HandlerStep(handler: nat, handlerEvent: HandlerEvent)
    | Shutdown
    | CloseAll

  predicate CallEnabled(s: State, n: nat, ev: CallEvent) {
    n in s.calls &&
    var phase := s.calls[n].phase;
    match ev
    case Register => phase.Allocated?
    case Pick => phase.Selecting? && s.cursor < |s.slots| && s.dialing.None?
    case WriteOk => phase.Writing? && phase.conn in s.conns
    case WriteFails(_) => phase.Writing? && phase.conn in s.conns
    case Receive => phase.Waiting? && s.calls[n].buffer.Some?
    case Timeout => phase.Waiting?
    case Cancel => phase.Waiting?
    case Unregister => phase.Returning?
  }

  /** After a failed attempt: sleep and try again, or give up after the last. */
  function Retry(attempt: nat): CallPhase {
    if attempt < ATTEMPTS - 1 then Selecting(attempt + 1) else Returning(SendFailed)
  }

  function CallNext(s: State, n: nat, ev: CallEvent): State
    requires CallEnabled(s, n, ev)
  {
    var call := s.calls[n];
    match ev
    case Register =>
      s.(calls := s.calls[n := call.(phase := Selecting(0))], pending := s.pending[CorrId(n) := n])
    case Pick =>
      var phase := match s.slots[s.cursor]
                   case Some(c) => Writing(call.phase.attempt, c)
                   case None => Retry(call.phase.attempt);
      s.(calls := s.calls[n := call.(phase := phase, picks := call.picks + 1)],
         cursor := (s.cursor + 1) % |s.slots|, picked := s.picked + [s.cursor])
    case WriteOk =>
      var c := call.phase.conn;
      var conn := s.conns[c];
      var sent := if conn.requestsOpen then conn.(toIssuer := conn.toIssuer + [Message(n, call.raw)]) else conn;
      s.(calls := s.calls[n := call.(phase := Waiting, writes := call.writes + 1)],
         conns := s.conns[c := sent],
         book := s.book.Move(n, if conn.requestsOpen then OnWire(c) else Discarded))
    case WriteFails(torn) =>
      var c := call.phase.conn;
      s.(calls := s.calls[n := call.(phase := Retry(call.phase.attempt))],
         conns := s.conns[c := s.conns[c].(requestsOpen := s.conns[c].requestsOpen && !torn)])
    case Receive =>
      s.(calls := s.calls[n := call.(phase := Returning(Response(call.buffer.value)), buffer := None)])
    case Timeout => s.(calls := s.calls[n := call.(phase := Returning(TimedOut))])
    case Cancel => s.(calls := s.calls[n := call.(phase := Returning(Cancelled))])
    case Unregister =>
      s.(calls := s.calls[n := call.(phase := Done(call.phase.outcome))], pending := s.pending - {CorrId(n)})
  }

  predicate ListenerEnabled(s: State, p: nat, ev: ListenerEvent) {
    p < |s.listeners| == |s.slots| &&
    var l := s.listeners[p];
    match ev
    case Dial => l.Idle? && s.slots[p].None? && s.dialing.None?
    case DialFails => l.Idle? && s.dialing == Some(p)
    case Connect(c) => l.Idle? && s.dialing == Some(p) && c !in s.conns
    case Listen => l.Idle? && s.slots[p].Some? && s.dialing.None?
    case ReadReply => l.Listening? && l.conn in s.conns && s.conns[l.conn].toAcquirer != []
    case LookUp => l.Routing?
    case Deliver => l.Delivering? && l.call in s.calls
    case Close => l.Listening? && l.conn in s.conns && s.dialing.None?
    case StopListening => s.shutdown && ((l.Idle? && s.dialing != Some(p)) || l.Listening?)
  }

  function ListenerNext(s: State, p: nat, ev: ListenerEvent): State
    requires ListenerEnabled(s, p, ev)
  {
    var l := s.listeners[p];
    match ev
    case Dial => s.(dialing := Some(p))
    case DialFails => s.(dialing := None)
    case Connect(c) =>
      s.(dialing := None, slots := s.slots[p := Some(c)], conns := s.conns[c := Conn([], [], true, true, Reading)])
    case Listen => s.(listeners := s.listeners[p := Listening(s.slots[p].value)])
    case ReadReply =>
      var conn := s.conns[l.conn];
      s.(listeners := s.listeners[p := Routing(l.conn, conn.toAcquirer[0])],
         conns := s.conns[l.conn := conn.(toAcquirer := conn.toAcquirer[1..])],
         book := s.book.Move(conn.toAcquirer[0].call, AtListener(p)))
    case LookUp =>
      if l.message.Id() in s.pending then
        s.(listeners := s.listeners[p := Delivering(l.conn, s.pending[l.message.Id()], l.message.iso)])
      else
        s.(listeners := s.listeners[p := Listening(l.conn)], book := s.book.Move(l.message.call, Discarded))
    case Deliver =>
      var call := s.calls[l.call];
      var next := s.(listeners := s.listeners[p := Listening(l.conn)]);
      if call.buffer.None? then
        next.(calls := s.calls[l.call := call.(buffer := Some(l.iso))], book := s.book.Move(l.call, Delivered))
      else
        next.(book := s.book.Move(l.call, Discarded))
    case Close =>
      s.(slots := s.slots[p := None], listeners := s.listeners[p := Idle],
         conns := s.conns[l.conn := s.conns[l.conn].(requestsOpen := false)])
    case StopListening => s.(listeners := s.listeners[p := Stopped])
  }

  predicate ReaderEnabled(s: State, c: nat, ev: ReaderEvent) {
    c in s.conns &&
    var conn := s.conns[c];
    match ev
    case ReadRequest => conn.reader.Reading? && conn.toIssuer != []
    case ReadError => conn.reader.Reading?
    case Admit(h) => conn.reader.AwaitingSlot? && s.workers < s.workerLimit && h !in s.handlers
    case Saturated => conn.reader.AwaitingSlot?
  }

  function ReaderNext(s: State, c: nat, ev: ReaderEvent): State
    requires ReaderEnabled(s, c, ev)
  {
    var conn := s.conns[c];
    match ev
    case ReadRequest =>
      s.(conns := s.conns[c := conn.(toIssuer := conn.toIssuer[1..], reader := AwaitingSlot(conn.toIssuer[0]))],
         book := s.book.Move(conn.toIssuer[0].call, AtReader(c)))
    case ReadError => s.(conns := s.conns[c := conn.(reader := Gone)])
    case Admit(h) =>
      var m := conn.reader.message;
      s.(conns := s.conns[c := conn.(reader := Reading)],
         workers := s.workers + 1, handlers := s.handlers[h := Handler(c, m, Spawned)],
         book := s.book.Move(m.call, Owned(h)).(owner := s.book.owner[m.call := h]))
    case Saturated =>
      s.(conns := s.conns[c := conn.(reader := Reading)],
         book := s.book.Move(conn.reader.message.call, Discarded))
  }

  predicate HandlerEnabled(s: State, h: nat, ev: HandlerEvent) {
    h in s.handlers && s.handlers[h].conn in s.conns &&
    var phase := s.handlers[h].phase;
    match ev
    case Run => phase.Spawned?
    case Abort => phase.Spawned? || phase.Computed?   // the request context is done
    case Execute(result) => phase.Running? && (result.Some? ==> |result.value| <= MAX_ISO)
    case Reply => phase.Computed?
    case ReplyFails(_) => phase.Computed?
    case Release => phase.Exiting? && s.workers > 0
  }

  function HandlerNext(s: State, h: nat, ev: HandlerEvent): State
    requires HandlerEnabled(s, h, ev)
  {
    var handler := s.handlers[h];
    var m, c := handler.message, handler.conn;
    var conn := s.conns[c];
    match ev
    case Run => s.(handlers := s.handlers[h := handler.(phase := Running)])
    case Abort =>
      s.(handlers := s.handlers[h := handler.(phase := Exiting)], book := s.book.Move(m.call, Discarded))
    case Execute(result) =>
      s.(handlers := s.handlers[h := handler.(phase := if result.Some? then Computed(result.value) else Exiting)],
         book := s.book.Move(m.call, Executed).(answers := s.book.answers[m.call := Answer(m.iso, result)]))
    case Reply =>
      var replied := if conn.repliesOpen
                     then conn.(toAcquirer := conn.toAcquirer + [Message(m.call, handler.phase.response)]) else conn;
      s.(handlers := s.handlers[h := handler.(phase := Exiting)], conns := s.conns[c := replied],
         book := s.book.Move(m.call, if conn.repliesOpen then ReplyOnWire(c) else Discarded))
    case ReplyFails(torn) =>
      s.(handlers := s.handlers[h := handler.(phase := Exiting)],
         conns := s.conns[c := conn.(repliesOpen := conn.repliesOpen && !torn)],
         book := s.book.Move(m.call, Discarded))
    case Release => s.(handlers := s.handlers[h := handler.(phase := Released)], workers := s.workers - 1)
  }

  predicate Enabled(s: State, step: Step) {
    match step
    case Begin(raw) => |raw| <= MAX_ISO
    case CallStep(n, ev) => CallEnabled(s, n, ev)
    case ListenerStep(p, ev) => ListenerEnabled(s, p, ev)
    case ReaderStep(c, ev) => ReaderEnabled(s, c, ev)
    case HandlerStep(h, ev) => HandlerEnabled(s, h, ev)
    case Shutdown => true
    case CloseAll => s.shutdown && s.dialing.None? && forall p :: 0 <= p < |s.listeners| ==> s.listeners[p].Stopped?
  }

  function Next(s: State, step: Step): State
    requires Enabled(s, step)
  {
    match step
    case Begin(raw) =>
      var n := s.counter + 1;
      s.(counter := n, calls := s.calls[n := Call(raw, Allocated, None, 0, 0)],
         book := s.book.Move(n, Unsent).(raw := s.book.raw[n := raw]))
    case CallStep(n, ev) => CallNext(s, n, ev)
    case ListenerStep(p, ev) => ListenerNext(s, p, ev)
    case ReaderStep(c, ev) => ReaderNext(s, c, ev)
    case HandlerStep(h, ev) => HandlerNext(s, h, ev)
    case Shutdown => s.(shutdown := true)
    case CloseAll => s.(slots := seq(|s.slots|, _ => None))
  }

  // ----- the invariant -----

  predicate Live(phase: CallPhase) {
    !phase.Allocated? && !phase.Done?
  }

  /** The issuer computed this response for the n-th call, from that call's own bytes. */
  predicate Answered(b: Book, n: nat, iso: Bytes) {
    n in b.raw && n in b.answers && b.answers[n] == Answer(b.raw[n], Some(iso))
  }

  predicate At(b: Book, n: nat, place: Stage) {
    n in b.stage && b.stage[n] == place
  }

  predicate CarriesRequest(b: Book, m: Message, place: Stage) {
    At(b, m.call, place) && m.call in b.raw && m.iso == b.raw[m.call]
  }

  predicate CarriesReply(b: Book, m: Message, place: Stage) {
    At(b, m.call, place) && Answered(b, m.call, m.iso)
  }

  predicate OutcomeOk(b: Book, n: nat, call: Call, outcome: Outcome) {
    && 1 <= call.picks <= ATTEMPTS
    && call.writes == (if outcome.SendFailed? then 0 else 1)
    && (outcome.SendFailed? <==> At(b, n, Unsent))
    && (outcome.SendFailed? ==> call.picks == ATTEMPTS)
    && (outcome.Response? ==> Answered(b, n, outcome.iso) && At(b, n, Delivered))
  }

  predicate CallOk(b: Book, n: nat, call: Call) {
    && n in b.raw && b.raw[n] == call.raw
    && (call.buffer.Some? ==> Answered(b, n, call.buffer.value) && At(b, n, Delivered))
    && match call.phase
       case Allocated => call.picks == 0 && call.writes == 0 && At(b, n, Unsent)
       case Selecting(a) => a < ATTEMPTS && call.picks == a && call.writes == 0 && At(b, n, Unsent)
       case Writing(a, _) => a < ATTEMPTS && call.picks == a + 1 && call.writes == 0 && At(b, n, Unsent)
       case Waiting => 1 <= call.picks <= ATTEMPTS && call.writes == 1 && !At(b, n, Unsent)
       case Returning(o) => OutcomeOk(b, n, call, o)
       case Done(o) => OutcomeOk(b, n, call, o)
  }

  /** Calls are numbered from 1. */
  ghost predicate Numbered(counter: nat, calls: map<nat, Call>, b: Book) {
    && (forall n :: n in calls <==> 1 <= n <= counter)
    && calls.Keys == b.raw.Keys == b.stage.Keys
  }

  ghost predicate CallsInv(calls: map<nat, Call>, b: Book) {
    forall n :: n in calls ==> CallOk(b, n, calls[n])
  }

  /** The keys of the pending map are exactly the IDs of the registered calls that have not left. */
  ghost predicate PendingInv(pending: map<nat, nat>, calls: map<nat, Call>) {
    && (forall id :: id in pending ==> CorrId(pending[id]) == id && pending[id] in calls && Live(calls[pending[id]].phase))
    && (forall n :: n in calls && Live(calls[n].phase) ==> CorrId(n) in pending && pending[CorrId(n)] == n)
  }

  /** The n-th call's request is with the issuer or on the way to it, or its reply is on the way back. */
  predicate OnItsWay(b: Book, n: nat) {
    n in b.stage &&
    match b.stage[n]
    case Unsent => false
    case Executed => n in b.answers && b.answers[n].response.Some?
    case Delivered => false
    case Discarded => false
    case _ => true
  }

  /** No message of another call with the same ID is on its way while a call is registered. */
  ghost predicate IdsInv(calls: map<nat, Call>, b: Book) {
    forall n, k :: n in calls && Live(calls[n].phase) && OnItsWay(b, k) && CorrId(k) == CorrId(n) ==> k == n
  }

  /** Before a handler has a message, and before it has answered it. */
  predicate BeforeHandler(place: Stage) {
    place.Unsent? || place.OnWire? || place.AtReader?
  }

  predicate BeforeAnswer(place: Stage) {
    BeforeHandler(place) || place.Owned?
  }

  ghost predicate BookInv(b: Book) {
    && b.answers.Keys <= b.stage.Keys && b.owner.Keys <= b.stage.Keys && b.stage.Keys == b.raw.Keys
    && (forall n :: n in b.answers ==> b.answers[n].request == b.raw[n])
    && (forall n :: n in b.answers ==> !BeforeAnswer(b.stage[n]))
    && (forall n :: n in b.owner ==> !BeforeHandler(b.stage[n]))
  }

  ghost predicate QueueOk(b: Book, q: seq<Message>, place: Stage, replies: bool) {
    && (forall i :: 0 <= i < |q| ==> if replies then CarriesReply(b, q[i], place) else CarriesRequest(b, q[i], place))
    && (forall i, j :: 0 <= i < j < |q| ==> q[i].call != q[j].call)
  }

  ghost predicate ConnOk(b: Book, c: nat, conn: Conn) {
    && QueueOk(b, conn.toIssuer, OnWire(c), false)
    && QueueOk(b, conn.toAcquirer, ReplyOnWire(c), true)
    && (conn.reader.AwaitingSlot? ==> CarriesRequest(b, conn.reader.message, AtReader(c)))
  }

  ghost predicate ConnsInv(conns: map<nat, Conn>, b: Book) {
    forall c :: c in conns ==> ConnOk(b, c, conns[c])
  }

  predicate HandlerOk(b: Book, h: nat, handler: Handler) {
    var n := handler.message.call;
    && n in b.owner && b.owner[n] == h
    && match handler.phase
       case Spawned => CarriesRequest(b, handler.message, Owned(h))
       case Running => CarriesRequest(b, handler.message, Owned(h))
       case Computed(iso) => CarriesReply(b, Message(n, iso), Executed)
       case Exiting => true
       case Released => true
  }

  ghost predicate HandlersInv(handlers: map<nat, Handler>, b: Book) {
    forall h :: h in handlers ==> HandlerOk(b, h, handlers[h])
  }

  predicate ListenerOk(b: Book, p: nat, l: Listener) {
    match l
    case Routing(_, m) => CarriesReply(b, m, AtListener(p))
    case Delivering(_, n, iso) => CarriesReply(b, Message(n, iso), AtListener(p))
    case _ => true
  }

  ghost predicate ListenersInv(listeners: seq<Listener>, b: Book) {
    forall p :: 0 <= p < |listeners| ==> ListenerOk(b, p, listeners[p])
  }

  /** The k-th selection, counted from 0, takes slot k mod poolSize. */
  ghost predicate RoundRobinInv(poolSize: nat, cursor: nat, picked: seq<nat>) {
    && poolSize > 0
    && cursor == |picked| % poolSize
    && (forall k :: 0 <= k < |picked| ==> picked[k] == k % poolSize)
  }

  function Occupied(handlers: map<nat, Handler>): set<nat> {
    set h | h in handlers && !handlers[h].phase.Released?
  }

  predicate WorkersInv(workers: nat, workerLimit: nat, handlers: map<nat, Handler>) {
    workers == |Occupied(handlers)| <= workerLimit
  }

  ghost predicate CoreInv(s: State) {
    && Numbered(s.counter, s.calls, s.book)
    && CallsInv(s.calls, s.book)
    && PendingInv(s.pending, s.calls)
    && BookInv(s.book)
    && ConnsInv(s.conns, s.book)
    && HandlersInv(s.handlers, s.book)
    && ListenersInv(s.listeners, s.book)
    && |s.listeners| == |s.slots|
    && RoundRobinInv(|s.slots|, s.cursor, s.picked)
    && WorkersInv(s.workers, s.workerLimit, s.handlers)
  }

  ghost predicate Inv(s: State) {
    CoreInv(s) && IdsInv(s.calls, s.book)
  }

  /**
   Correlation IDs come round after 2^32 calls. This one's is free again: no other call with it is registered, and
   no message of such a call is on its way.
   */
  ghost predicate FreshId(s: State, n: nat) {
    forall k :: k in s.calls && k != n && CorrId(k) == CorrId(n) ==> !Live(s.calls[k].phase) && !OnItsWay(s.book, k)
  }

  /** A call registers only under an ID that is free. */
  ghost predicate FreshStep(s: State, step: Step) {
    step.CallStep? && step.callEvent.Register? ==> FreshId(s, step.call)
  }
}
