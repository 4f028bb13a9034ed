/** Every step of the protocol keeps its invariant. */
module ProtocolProof {
  import opened Base
  import opened Framing
  import opened Protocol

  lemma StartInv(poolSize: nat, workerLimit: nat)
    requires poolSize > 0
    ensures Inv(Start(poolSize, workerLimit))
  {
    assert Occupied(map[]) == {};
  }

  // ----- one message moves -----

  /** The k-th call's message moves; what is known of every other call, and of its own past, stays. */
  ghost predicate Moves(b: Book, b': Book, k: nat) {
    && b'.raw == b.raw && k in b.stage && b.stage.Keys == b'.stage.Keys
    && (forall n :: n in b.stage && n != k ==> b'.stage[n] == b.stage[n])
    && (forall n :: n in b.answers ==> n in b'.answers && b'.answers[n] == b.answers[n])
    && (forall n :: n in b.owner ==> n in b'.owner && b'.owner[n] == b.owner[n])
  }

  lemma CallsMove(calls: map<nat, Call>, b: Book, b': Book, k: nat)
    requires CallsInv(calls, b) && Moves(b, b', k)
    requires !At(b, k, Unsent) && !At(b, k, Delivered) && !At(b', k, Unsent)
    ensures CallsInv(calls, b')
  {
    forall n | n in calls ensures CallOk(b', n, calls[n]) {
      assert CallOk(b, n, calls[n]);
    }
  }

  /** The same when the call itself changes with its message. */
  lemma CallMoves(calls: map<nat, Call>, b: Book, b': Book, k: nat, call: Call)
    requires CallsInv(calls, b) && Moves(b, b', k) && CallOk(b', k, call)
    ensures CallsInv(calls[k := call], b')
  {
    forall n | n in calls && n != k ensures CallOk(b', n, calls[n]) {
      assert CallOk(b, n, calls[n]);
    }
  }

  lemma ConnMoves(c: nat, conn: Conn, b: Book, b': Book, k: nat)
    requires ConnOk(b, c, conn) && Moves(b, b', k)
    requires !At(b, k, OnWire(c)) && !At(b, k, AtReader(c)) && !At(b, k, ReplyOnWire(c))
    ensures ConnOk(b', c, conn)
  {
  }

  /** Connections that are neither touched nor hold the message. */
  lemma ConnsMove(conns: map<nat, Conn>, conns': map<nat, Conn>, b: Book, b': Book, k: nat, touched: set<nat>)
    requires ConnsInv(conns, b) && Moves(b, b', k)
    requires forall c :: c in conns' && c !in touched ==> c in conns && conns'[c] == conns[c]
    requires forall c :: c in conns' && c in touched ==> ConnOk(b', c, conns'[c])
    requires forall c :: c !in touched ==> !At(b, k, OnWire(c)) && !At(b, k, AtReader(c)) && !At(b, k, ReplyOnWire(c))
    ensures ConnsInv(conns', b')
  {
    forall c | c in conns' && c !in touched ensures ConnOk(b', c, conns'[c]) {
      ConnMoves(c, conns[c], b, b', k);
    }
  }

  predicate WithHandler(b: Book, k: nat) {
    k in b.stage && (b.stage[k].Owned? || b.stage[k].Executed?)
  }

  lemma HandlersMove(handlers: map<nat, Handler>, handlers': map<nat, Handler>, b: Book, b': Book, k: nat,
                     touched: set<nat>)
    requires HandlersInv(handlers, b) && Moves(b, b', k)
    requires forall h :: h in handlers' && h !in touched ==> h in handlers && handlers'[h] == handlers[h]
    requires forall h :: h in handlers' && h in touched ==> HandlerOk(b', h, handlers'[h])
    requires WithHandler(b, k) ==> k in b.owner && b.owner[k] in touched
    ensures HandlersInv(handlers', b')
  {
    forall h | h in handlers' && h !in touched ensures HandlerOk(b', h, handlers'[h]) {
      assert HandlerOk(b, h, handlers[h]);
    }
  }

  /** Listeners that do not hold the message. */
  lemma ListenersMove(listeners: seq<Listener>, listeners': seq<Listener>, b: Book, b': Book, k: nat, p: nat)
    requires ListenersInv(listeners, b) && Moves(b, b', k) && |listeners'| == |listeners|
    requires forall q :: 0 <= q < |listeners| && q != p ==> listeners'[q] == listeners[q]
    requires forall q :: q != p ==> !At(b, k, AtListener(q))
    requires p < |listeners| ==> ListenerOk(b', p, listeners'[p])
    ensures ListenersInv(listeners', b')
  {
    forall q | 0 <= q < |listeners'| && q != p ensures ListenerOk(b', q, listeners'[q]) {
      assert ListenerOk(b, q, listeners[q]);
    }
  }

  lemma BookMoves(b: Book, b': Book, k: nat)
    requires BookInv(b) && Moves(b, b', k)
    requires forall n :: n in b'.answers && n != k ==> n in b.answers
    requires forall n :: n in b'.owner && n != k ==> n in b.owner
    requires k in b'.answers ==> b'.answers[k].request == b.raw[k] && !BeforeAnswer(b'.stage[k])
    requires k in b'.owner ==> !BeforeHandler(b'.stage[k])
    ensures BookInv(b')
  {
  }

  lemma CallUpdate(calls: map<nat, Call>, b: Book, n: nat, call: Call)
    requires CallsInv(calls, b) && CallOk(b, n, call)
    ensures CallsInv(calls[n := call], b)
  {
  }

  lemma PendingUpdate(pending: map<nat, nat>, calls: map<nat, Call>, n: nat, call: Call)
    requires PendingInv(pending, calls) && n in calls && Live(calls[n].phase) == Live(call.phase)
    ensures PendingInv(pending, calls[n := call])
  {
  }

  lemma NumberedKept(counter: nat, calls: map<nat, Call>, calls': map<nat, Call>, b: Book, b': Book)
    requires Numbered(counter, calls, b) && calls'.Keys == calls.Keys
    requires b'.raw.Keys == b.raw.Keys && b'.stage.Keys == b.stage.Keys
    ensures Numbered(counter, calls', b')
  {
  }

  lemma WorkersKept(workers: nat, limit: nat, handlers: map<nat, Handler>, h: nat, handler: Handler)
    requires WorkersInv(workers, limit, handlers) && h in handlers
    requires handlers[h].phase.Released? == handler.phase.Released?
    ensures WorkersInv(workers, limit, handlers[h := handler])
  {
    assert Occupied(handlers[h := handler]) == Occupied(handlers);
  }

  // What the invariant says of one call, connection, handler or listener.

  lemma AtCall(s: State, n: nat)
    requires Inv(s) && n in s.calls
    ensures CallOk(s.book, n, s.calls[n])
  {
  }

  lemma AtConn(s: State, c: nat)
    requires Inv(s) && c in s.conns
    ensures ConnOk(s.book, c, s.conns[c])
  {
  }

  lemma AtHandler(s: State, h: nat)
    requires Inv(s) && h in s.handlers
    ensures HandlerOk(s.book, h, s.handlers[h])
  {
  }

  lemma AtListenerSlot(s: State, p: nat)
    requires Inv(s) && p < |s.listeners|
    ensures ListenerOk(s.book, p, s.listeners[p])
  {
  }

  lemma AtBook(s: State, k: nat)
    requires Inv(s) && k in s.book.stage
    ensures k in s.book.raw && k in s.calls
    ensures BeforeAnswer(s.book.stage[k]) ==> k !in s.book.answers
    ensures BeforeHandler(s.book.stage[k]) ==> k !in s.book.owner
    ensures k in s.book.answers ==> s.book.answers[k].request == s.book.raw[k]
  {
  }

  lemma NewNumber(s: State)
    requires Inv(s)
    ensures s.counter + 1 !in s.calls && s.counter + 1 !in s.book.raw && s.counter + 1 !in s.book.stage
  {
  }

  lemma BeginEffect(s: State, raw: Bytes)
    requires |raw| <= MAX_ISO
    ensures var s', n := Next(s, Begin(raw)), s.counter + 1;
            && s'.slots == s.slots && s'.cursor == s.cursor && s'.pending == s.pending && s'.counter == n
            && s'.calls == s.calls[n := Call(raw, Allocated, None, 0, 0)] && s'.handlers == s.handlers
            && s'.book.answers == s.book.answers && s'.book.raw == s.book.raw[n := raw]
  {
  }

  // ----- the steps -----

  lemma PendingBegin(pending: map<nat, nat>, calls: map<nat, Call>, n: nat, call: Call)
    requires PendingInv(pending, calls) && n !in calls && !Live(call.phase)
    ensures PendingInv(pending, calls[n := call])
  {
  }

  lemma BeginCalls(s: State, raw: Bytes)
    requires Inv(s) && Enabled(s, Begin(raw))
    ensures var s', n := Next(s, Begin(raw)), s.counter + 1;
            && Numbered(n, s'.calls, s'.book) && PendingInv(s'.pending, s'.calls)
            && n !in s.calls && n !in s.book.raw
            && (CallsInv(s.calls, s'.book) ==> CallsInv(s'.calls, s'.book))
  {
    hide IdsInv, CallsInv, ConnsInv, HandlersInv, ListenersInv, BookInv, RoundRobinInv, WorkersInv, PendingInv;
    var s', n := Next(s, Begin(raw)), s.counter + 1;
    assert n !in s.calls && n !in s.book.raw;
    assert Numbered(n, s'.calls, s'.book);
    hide Numbered;
    PendingBegin(s.pending, s.calls, n, s'.calls[n]);
    if CallsInv(s.calls, s'.book) {
      CallUpdate(s.calls, s'.book, n, s'.calls[n]);
    }
  }

  /** A new call's entry in the book is nobody else's. */
  lemma BeginBook(calls: map<nat, Call>, conns: map<nat, Conn>, handlers: map<nat, Handler>, listeners: seq<Listener>,
                  b: Book, b': Book, n: nat, raw: Bytes)
    requires CallsInv(calls, b) && ConnsInv(conns, b) && HandlersInv(handlers, b) && ListenersInv(listeners, b)
    requires BookInv(b) && n !in b.raw && n !in calls
    requires b'.answers == b.answers && b'.owner == b.owner
    requires b'.raw == b.raw[n := raw] && b'.stage == b.stage[n := Unsent]
    ensures CallsInv(calls, b') && ConnsInv(conns, b') && HandlersInv(handlers, b') && ListenersInv(listeners, b')
    ensures BookInv(b')
  {
    forall m | m in calls ensures CallOk(b', m, calls[m]) {
      assert CallOk(b, m, calls[m]);
    }
    forall c | c in conns ensures ConnOk(b', c, conns[c]) {
      assert ConnOk(b, c, conns[c]);
    }
    forall h | h in handlers ensures HandlerOk(b', h, handlers[h]) {
      assert HandlerOk(b, h, handlers[h]);
    }
    forall p | 0 <= p < |listeners| ensures ListenerOk(b', p, listeners[p]) {
      assert ListenerOk(b, p, listeners[p]);
    }
  }

  lemma BeginPreserves(s: State, raw: Bytes)
    requires Inv(s) && Enabled(s, Begin(raw))
    ensures CoreInv(Next(s, Begin(raw)))
  {
    var s' := Next(s, Begin(raw));
    BeginCalls(s, raw);
    hide IdsInv, CallsInv, PendingInv, ConnsInv, HandlersInv, ListenersInv, BookInv, RoundRobinInv, Numbered, WorkersInv;
    BeginBook(s.calls, s.conns, s.handlers, s.listeners, s.book, s'.book, s'.counter, raw);
  }

  /** Steps of one call that send nothing. */
  lemma CallPreserves(s: State, n: nat, ev: CallEvent)
    requires Inv(s) && CallEnabled(s, n, ev) && (ev.Receive? || ev.Timeout? || ev.Cancel?)
    ensures CoreInv(CallNext(s, n, ev))
  {
    hide IdsInv, CallsInv, PendingInv, ConnsInv, HandlersInv, ListenersInv, BookInv, RoundRobinInv, WorkersInv;
    AtCall(s, n);
    var call := CallNext(s, n, ev).calls[n];
    CallUpdate(s.calls, s.book, n, call);
    PendingUpdate(s.pending, s.calls, n, call);
  }

  lemma PendingEnter(pending: map<nat, nat>, calls: map<nat, Call>, n: nat, call: Call)
    requires PendingInv(pending, calls) && n in calls && Live(call.phase)
    requires forall k :: k in calls && k != n && Live(calls[k].phase) ==> CorrId(k) != CorrId(n)
    ensures PendingInv(pending[CorrId(n) := n], calls[n := call])
  {
  }

  lemma PendingLeave(pending: map<nat, nat>, calls: map<nat, Call>, n: nat, call: Call)
    requires PendingInv(pending, calls) && n in calls && Live(calls[n].phase) && !Live(call.phase)
    ensures PendingInv(pending - {CorrId(n)}, calls[n := call])
  {
  }

  lemma RegisterPreserves(s: State, n: nat, ev: CallEvent)
    requires Inv(s) && CallEnabled(s, n, ev) && (ev.Register? || ev.Unregister?)
    requires ev.Register? ==> FreshId(s, n)
    ensures CoreInv(CallNext(s, n, ev))
  {
    hide IdsInv, CallsInv, ConnsInv, HandlersInv, ListenersInv, BookInv, RoundRobinInv, WorkersInv, PendingInv, Numbered;
    var s' := CallNext(s, n, ev);
    AtCall(s, n);
    CallUpdate(s.calls, s.book, n, s'.calls[n]);
    NumberedKept(s.counter, s.calls, s'.calls, s.book, s'.book);
    if ev.Register? {
      PendingEnter(s.pending, s.calls, n, s'.calls[n]);
    } else {
      PendingLeave(s.pending, s.calls, n, s'.calls[n]);
    }
  }

  lemma RoundRobinPick(poolSize: nat, cursor: nat, picked: seq<nat>)
    requires RoundRobinInv(poolSize, cursor, picked)
    ensures RoundRobinInv(poolSize, (cursor + 1) % poolSize, picked + [cursor])
  {
    NextQuotient(|picked|, poolSize);
    NextQuotient(cursor, poolSize);
    RemainderUnique(cursor, 0, cursor, poolSize);
  }

  lemma PickPreserves(s: State, n: nat)
    requires Inv(s) && CallEnabled(s, n, Pick)
    ensures CoreInv(CallNext(s, n, Pick))
  {
    hide IdsInv, CallsInv, PendingInv, ConnsInv, HandlersInv, ListenersInv, BookInv, RoundRobinInv, Numbered, WorkersInv;
    AtCall(s, n);
    var s' := CallNext(s, n, Pick);
    CallUpdate(s.calls, s.book, n, s'.calls[n]);
    NumberedKept(s.counter, s.calls, s'.calls, s.book, s'.book);
    PendingUpdate(s.pending, s.calls, n, s'.calls[n]);
    RoundRobinPick(|s.slots|, s.cursor, s.picked);
  }

  /** A request that was nowhere joins a queue, or is lost on a dead connection. */
  lemma Sent(b: Book, b': Book, n: nat, c: nat, conn: Conn)
    requires ConnOk(b, c, conn) && Moves(b, b', n) && At(b, n, Unsent) && n in b.raw
    ensures ConnOk(b', c, conn)
    ensures At(b', n, OnWire(c)) ==> ConnOk(b', c, conn.(toIssuer := conn.toIssuer + [Message(n, b.raw[n])]))
  {
  }

  lemma WriteOkPreserves(s: State, n: nat)
    requires Inv(s) && CallEnabled(s, n, WriteOk)
    ensures CoreInv(CallNext(s, n, WriteOk))
  {
    hide IdsInv, CallsInv, PendingInv, ConnsInv, HandlersInv, ListenersInv, BookInv, RoundRobinInv, Numbered, WorkersInv, ConnOk;
    var s' := CallNext(s, n, WriteOk);
    var c := s.calls[n].phase.conn;
    AtCall(s, n);
    AtBook(s, n);
    AtConn(s, c);
    BookMoves(s.book, s'.book, n);
    CallMoves(s.calls, s.book, s'.book, n, s'.calls[n]);
    NumberedKept(s.counter, s.calls, s'.calls, s.book, s'.book);
    PendingUpdate(s.pending, s.calls, n, s'.calls[n]);
    Sent(s.book, s'.book, n, c, s.conns[c]);
    ConnsMove(s.conns, s'.conns, s.book, s'.book, n, {c});
    HandlersMove(s.handlers, s'.handlers, s.book, s'.book, n, {});
    ListenersMove(s.listeners, s'.listeners, s.book, s'.book, n, |s.listeners|);
  }

  /** The same for a reply. */
  lemma Replied(b: Book, b': Book, n: nat, c: nat, conn: Conn, iso: Bytes, open: bool)
    requires ConnOk(b, c, conn) && Moves(b, b', n) && CarriesReply(b, Message(n, iso), Executed)
    ensures ConnOk(b', c, conn) && ConnOk(b', c, conn.(repliesOpen := open))
    ensures At(b', n, ReplyOnWire(c)) ==> ConnOk(b', c, conn.(toAcquirer := conn.toAcquirer + [Message(n, iso)]))
  {
  }

  lemma WriteFailsPreserves(s: State, n: nat, torn: bool)
    requires Inv(s) && CallEnabled(s, n, WriteFails(torn))
    ensures CoreInv(CallNext(s, n, WriteFails(torn)))
  {
    hide IdsInv, CallsInv, PendingInv, HandlersInv, ListenersInv, BookInv, RoundRobinInv, Numbered, WorkersInv, QueueOk;
    var s' := CallNext(s, n, WriteFails(torn));
    var c := s.calls[n].phase.conn;
    AtCall(s, n);
    AtConn(s, c);
    CallUpdate(s.calls, s.book, n, s'.calls[n]);
    NumberedKept(s.counter, s.calls, s'.calls, s.book, s'.book);
    PendingUpdate(s.pending, s.calls, n, s'.calls[n]);
  }

  /** Steps of one listener that carry no reply. */
  lemma ListenerPreserves(s: State, p: nat, ev: ListenerEvent)
    requires Inv(s) && ListenerEnabled(s, p, ev) && !ev.ReadReply? && !ev.LookUp? && !ev.Deliver?
    ensures CoreInv(ListenerNext(s, p, ev))
  {
    hide IdsInv, CallsInv, PendingInv, HandlersInv, BookInv, RoundRobinInv, Numbered, WorkersInv;
    AtListenerSlot(s, p);
  }

  /** The first reply of a queue has moved on. */
  lemma FirstReplyTaken(b: Book, b': Book, c: nat, conn: Conn)
    requires ConnOk(b, c, conn) && conn.toAcquirer != [] && Moves(b, b', conn.toAcquirer[0].call)
    ensures CarriesReply(b, conn.toAcquirer[0], ReplyOnWire(c))
    ensures ConnOk(b', c, conn.(toAcquirer := conn.toAcquirer[1..]))
  {
  }

  /** The messages on a connection belong to known calls. */
  lemma KnownQueued(s: State, c: nat)
    requires Inv(s) && c in s.conns
    ensures forall i :: 0 <= i < |s.conns[c].toIssuer| ==> s.conns[c].toIssuer[i].call in s.book.stage
    ensures forall i :: 0 <= i < |s.conns[c].toAcquirer| ==> s.conns[c].toAcquirer[i].call in s.book.stage
    ensures s.conns[c].reader.AwaitingSlot? ==> At(s.book, s.conns[c].reader.message.call, AtReader(c))
  {
    assert ConnOk(s.book, c, s.conns[c]);
  }

  lemma ReadReplyPreserves(s: State, p: nat)
    requires Inv(s) && ListenerEnabled(s, p, ReadReply)
    ensures CoreInv(ListenerNext(s, p, ReadReply))
  {
    hide IdsInv, CallsInv, PendingInv, ConnsInv, HandlersInv, ListenersInv, BookInv, RoundRobinInv, Numbered, WorkersInv, ConnOk;
    var s' := ListenerNext(s, p, ReadReply);
    var c := s.listeners[p].conn;
    var m := s.conns[c].toAcquirer[0];
    AtConn(s, c);
    KnownQueued(s, c);
    FirstReplyTaken(s.book, s'.book, c, s.conns[c]);
    AtBook(s, m.call);
    BookMoves(s.book, s'.book, m.call);
    CallsMove(s.calls, s.book, s'.book, m.call);
    NumberedKept(s.counter, s.calls, s'.calls, s.book, s'.book);
    ConnsMove(s.conns, s'.conns, s.book, s'.book, m.call, {c});
    HandlersMove(s.handlers, s'.handlers, s.book, s'.book, m.call, {});
    ListenersMove(s.listeners, s'.listeners, s.book, s'.book, m.call, p);
  }

  /** The first request of a queue has gone to the read loop. */
  lemma FirstRequestTaken(b: Book, b': Book, c: nat, conn: Conn)
    requires ConnOk(b, c, conn) && conn.toIssuer != [] && Moves(b, b', conn.toIssuer[0].call)
    ensures CarriesRequest(b, conn.toIssuer[0], OnWire(c))
    ensures At(b', conn.toIssuer[0].call, AtReader(c)) ==>
              ConnOk(b', c, conn.(toIssuer := conn.toIssuer[1..], reader := AwaitingSlot(conn.toIssuer[0])))
  {
  }

  /** The read loop has given its request away. */
  lemma RequestHandedOn(b: Book, b': Book, c: nat, conn: Conn)
    requires ConnOk(b, c, conn) && conn.reader.AwaitingSlot? && Moves(b, b', conn.reader.message.call)
    ensures CarriesRequest(b, conn.reader.message, AtReader(c))
    ensures ConnOk(b', c, conn.(reader := Reading))
  {
  }

  lemma LookUpMissPreserves(s: State, p: nat)
    requires Inv(s) && ListenerEnabled(s, p, LookUp) && s.listeners[p].message.Id() !in s.pending
    ensures CoreInv(ListenerNext(s, p, LookUp))
  {
    hide IdsInv, CallsInv, PendingInv, ConnsInv, HandlersInv, ListenersInv, BookInv, RoundRobinInv, Numbered, WorkersInv;
    var s' := ListenerNext(s, p, LookUp);
    var k := s.listeners[p].message.call;
    AtListenerSlot(s, p);
    AtBook(s, k);
    BookMoves(s.book, s'.book, k);
    CallsMove(s.calls, s.book, s'.book, k);
    NumberedKept(s.counter, s.calls, s'.calls, s.book, s'.book);
    ConnsMove(s.conns, s'.conns, s.book, s'.book, k, {});
    HandlersMove(s.handlers, s'.handlers, s.book, s'.book, k, {});
    ListenersMove(s.listeners, s'.listeners, s.book, s'.book, k, p);
  }

  /** A response that finds a call in the pending map finds its own. */
  lemma FindsItsOwn(s: State, p: nat)
    requires Inv(s) && p < |s.listeners| && s.listeners[p].Routing?
    requires s.listeners[p].message.Id() in s.pending
    ensures s.pending[s.listeners[p].message.Id()] == s.listeners[p].message.call
  {
    AtListenerSlot(s, p);
    var k := s.listeners[p].message.call;
    assert OnItsWay(s.book, k);
    hide CallsInv, ConnsInv, HandlersInv, ListenersInv, BookInv, RoundRobinInv, Numbered, WorkersInv;
    var n := s.pending[CorrId(k)];
    assert n in s.calls && Live(s.calls[n].phase) && CorrId(n) == CorrId(k);
  }

  lemma LookUpHitPreserves(s: State, p: nat)
    requires Inv(s) && ListenerEnabled(s, p, LookUp) && s.listeners[p].message.Id() in s.pending
    ensures CoreInv(ListenerNext(s, p, LookUp))
  {
    FindsItsOwn(s, p);
    hide IdsInv, CallsInv, PendingInv, ConnsInv, HandlersInv, BookInv, RoundRobinInv, Numbered, WorkersInv;
    AtListenerSlot(s, p);
  }

  lemma DeliverPreserves(s: State, p: nat)
    requires Inv(s) && ListenerEnabled(s, p, Deliver)
    ensures CoreInv(ListenerNext(s, p, Deliver))
  {
    hide IdsInv, CallsInv, PendingInv, ConnsInv, HandlersInv, ListenersInv, BookInv, RoundRobinInv, WorkersInv, Numbered;
    var s' := ListenerNext(s, p, Deliver);
    var k := s.listeners[p].call;
    AtListenerSlot(s, p);
    AtBook(s, k);
    AtCall(s, k);
    hide ListenerOk;
    BookMoves(s.book, s'.book, k);
    CallMoves(s.calls, s.book, s'.book, k, s'.calls[k]);
    NumberedKept(s.counter, s.calls, s'.calls, s.book, s'.book);
    PendingUpdate(s.pending, s.calls, k, s'.calls[k]);
    ConnsMove(s.conns, s'.conns, s.book, s'.book, k, {});
    HandlersMove(s.handlers, s'.handlers, s.book, s'.book, k, {});
    ListenersMove(s.listeners, s'.listeners, s.book, s'.book, k, p);
  }

  lemma ReadErrorPreserves(s: State, c: nat)
    requires Inv(s) && ReaderEnabled(s, c, ReadError)
    ensures CoreInv(ReaderNext(s, c, ReadError))
  {
    assert ConnOk(s.book, c, s.conns[c]);
  }

  lemma ReadRequestPreserves(s: State, c: nat)
    requires Inv(s) && ReaderEnabled(s, c, ReadRequest)
    ensures CoreInv(ReaderNext(s, c, ReadRequest))
  {
    hide IdsInv, CallsInv, PendingInv, ConnsInv, HandlersInv, ListenersInv, BookInv, RoundRobinInv, Numbered, WorkersInv, ConnOk;
    var s' := ReaderNext(s, c, ReadRequest);
    var k := s.conns[c].toIssuer[0].call;
    AtConn(s, c);
    KnownQueued(s, c);
    FirstRequestTaken(s.book, s'.book, c, s.conns[c]);
    AtBook(s, k);
    BookMoves(s.book, s'.book, k);
    CallsMove(s.calls, s.book, s'.book, k);
    NumberedKept(s.counter, s.calls, s'.calls, s.book, s'.book);
    ConnsMove(s.conns, s'.conns, s.book, s'.book, k, {c});
    HandlersMove(s.handlers, s'.handlers, s.book, s'.book, k, {});
    ListenersMove(s.listeners, s'.listeners, s.book, s'.book, k, |s.listeners|);
  }

  lemma SaturatedPreserves(s: State, c: nat)
    requires Inv(s) && ReaderEnabled(s, c, Saturated)
    ensures CoreInv(ReaderNext(s, c, Saturated))
  {
    hide IdsInv, CallsInv, PendingInv, ConnsInv, HandlersInv, ListenersInv, BookInv, RoundRobinInv, Numbered, WorkersInv, ConnOk;
    var s' := ReaderNext(s, c, Saturated);
    var k := s.conns[c].reader.message.call;
    AtConn(s, c);
    KnownQueued(s, c);
    AtBook(s, k);
    RequestHandedOn(s.book, s'.book, c, s.conns[c]);
    BookMoves(s.book, s'.book, k);
    CallsMove(s.calls, s.book, s'.book, k);
    NumberedKept(s.counter, s.calls, s'.calls, s.book, s'.book);
    ConnsMove(s.conns, s'.conns, s.book, s'.book, k, {c});
    HandlersMove(s.handlers, s'.handlers, s.book, s'.book, k, {});
    ListenersMove(s.listeners, s'.listeners, s.book, s'.book, k, |s.listeners|);
  }

  lemma WorkersAdmit(workers: nat, limit: nat, handlers: map<nat, Handler>, h: nat, handler: Handler)
    requires WorkersInv(workers, limit, handlers) && workers < limit && h !in handlers && !handler.phase.Released?
    ensures WorkersInv(workers + 1, limit, handlers[h := handler])
  {
    assert Occupied(handlers[h := handler]) == Occupied(handlers) + {h};
  }

  lemma AdmitWorkers(s: State, c: nat, h: nat)
    requires Inv(s) && ReaderEnabled(s, c, Admit(h))
    ensures var s' := ReaderNext(s, c, Admit(h));
            WorkersInv(s'.workers, s'.workerLimit, s'.handlers) && Numbered(s'.counter, s'.calls, s'.book)
  {
    hide IdsInv, CallsInv, PendingInv, ConnsInv, HandlersInv, ListenersInv, BookInv, RoundRobinInv, WorkersInv, Numbered;
    var s' := ReaderNext(s, c, Admit(h));
    KnownQueued(s, c);
    WorkersAdmit(s.workers, s.workerLimit, s.handlers, h, s'.handlers[h]);
    NumberedKept(s.counter, s.calls, s'.calls, s.book, s'.book);
  }

  lemma BookOf(s: State)
    requires Inv(s)
    ensures BookInv(s.book)
  {
  }

  lemma AdmitBook(s: State, c: nat, h: nat)
    requires Inv(s) && ReaderEnabled(s, c, Admit(h))
    ensures var s', k := ReaderNext(s, c, Admit(h)), s.conns[c].reader.message.call;
            && At(s.book, k, AtReader(c)) && Moves(s.book, s'.book, k) && !At(s'.book, k, Unsent)
            && BookInv(s'.book) && ConnOk(s'.book, c, s'.conns[c]) && HandlerOk(s'.book, h, s'.handlers[h])
  {
    hide Inv, BookInv, ConnOk;
    var s', k := ReaderNext(s, c, Admit(h)), s.conns[c].reader.message.call;
    AtConn(s, c);
    KnownQueued(s, c);
    AtBook(s, k);
    BookOf(s);
    BookMoves(s.book, s'.book, k);
    RequestHandedOn(s.book, s'.book, c, s.conns[c]);
  }

  /** A message at the issuer, with the read loop of c or with handler h, moves on; only these two change with it. */
  lemma MessageMoves(calls: map<nat, Call>, conns: map<nat, Conn>, conns': map<nat, Conn>,
                     handlers: map<nat, Handler>, handlers': map<nat, Handler>, listeners: seq<Listener>,
                     b: Book, b': Book, k: nat, h: nat, c: nat)
    requires CallsInv(calls, b) && ConnsInv(conns, b) && HandlersInv(handlers, b) && ListenersInv(listeners, b)
    requires Moves(b, b', k) && !At(b', k, Unsent)
    requires At(b, k, AtReader(c)) || ((At(b, k, Owned(h)) || At(b, k, Executed)) && k in b.owner && b.owner[k] == h)
    requires c in conns' && conns' == conns[c := conns'[c]] && ConnOk(b', c, conns'[c])
    requires h in handlers' && handlers' == handlers[h := handlers'[h]] && HandlerOk(b', h, handlers'[h])
    ensures CallsInv(calls, b') && ConnsInv(conns', b') && HandlersInv(handlers', b') && ListenersInv(listeners, b')
  {
    hide IdsInv, CallsInv, ConnsInv, HandlersInv, ListenersInv, HandlerOk, ConnOk, Moves;
    CallsMove(calls, b, b', k);
    ConnsMove(conns, conns', b, b', k, {c});
    HandlersMove(handlers, handlers', b, b', k, {h});
    ListenersMove(listeners, listeners, b, b', k, |listeners|);
  }

  lemma AdmitPreserves(s: State, c: nat, h: nat)
    requires Inv(s) && ReaderEnabled(s, c, Admit(h))
    ensures CoreInv(ReaderNext(s, c, Admit(h)))
  {
    var s' := ReaderNext(s, c, Admit(h));
    var k := s.conns[c].reader.message.call;
    AdmitBook(s, c, h);
    AdmitWorkers(s, c, h);
    hide IdsInv, CallsInv, PendingInv, ConnsInv, HandlersInv, ListenersInv, BookInv, RoundRobinInv, Numbered, WorkersInv, ConnOk,
      HandlerOk, Moves, At;
    MessageMoves(s.calls, s.conns, s'.conns, s.handlers, s'.handlers, s.listeners, s.book, s'.book, k, h, c);
  }

  /** Steps of a handler that leave its message where it is. */
  lemma HandlerPreserves(s: State, h: nat, ev: HandlerEvent)
    requires Inv(s) && HandlerEnabled(s, h, ev) && (ev.Run? || ev.Release?)
    ensures CoreInv(HandlerNext(s, h, ev))
  {
    hide IdsInv, CallsInv, PendingInv, ConnsInv, ListenersInv, BookInv, RoundRobinInv, Numbered;
    var s' := HandlerNext(s, h, ev);
    AtHandler(s, h);
    assert Occupied(s'.handlers) == if ev.Release? then Occupied(s.handlers) - {h} else Occupied(s.handlers);
  }

  /** The steps in which a handler's message moves. */
  predicate Answering(ev: HandlerEvent) {
    ev.Abort? || ev.Execute? || ev.Reply? || ev.ReplyFails?
  }

  lemma AnsweringEffect(s: State, h: nat, ev: HandlerEvent)
    requires HandlerEnabled(s, h, ev) && Answering(ev)
    ensures var s', c := HandlerNext(s, h, ev), s.handlers[h].conn;
            && s'.counter == s.counter && s'.calls == s.calls && s'.pending == s.pending && s'.listeners == s.listeners
            && s'.slots == s.slots && s'.cursor == s.cursor && s'.picked == s.picked
            && s'.workers == s.workers && s'.workerLimit == s.workerLimit
            && h in s'.handlers && s'.handlers == s.handlers[h := s'.handlers[h]]
            && s'.handlers[h].phase.Released? == s.handlers[h].phase.Released?
            && c in s'.conns && s'.conns == s.conns[c := s'.conns[c]]
  {
  }

  /** What a handler that is about to move its message knows, and what the step does to the book. */
  lemma AnsweringMoves(s: State, h: nat, ev: HandlerEvent)
    requires HandlerEnabled(s, h, ev) && Answering(ev) && HandlerOk(s.book, h, s.handlers[h])
    requires var k := s.handlers[h].message.call;
             k in s.book.stage && (BeforeAnswer(s.book.stage[k]) ==> k !in s.book.answers)
    ensures var b, b', k := s.book, HandlerNext(s, h, ev).book, s.handlers[h].message.call;
            && (At(b, k, Owned(h)) || At(b, k, Executed)) && k in b.owner && b.owner[k] == h
            && Moves(b, b', k) && !BeforeAnswer(b'.stage[k])
            && b'.owner == b.owner
            && b'.answers == (if ev.Execute? then b.answers[k := Answer(s.handlers[h].message.iso, ev.result)] else b.answers)
            && (ev.Execute? ==> s.handlers[h].message.iso == b.raw[k])
  {
  }

  lemma AnsweringHandler(s: State, h: nat, ev: HandlerEvent)
    requires HandlerEnabled(s, h, ev) && Answering(ev) && HandlerOk(s.book, h, s.handlers[h])
    ensures var s' := HandlerNext(s, h, ev); h in s'.handlers && HandlerOk(s'.book, h, s'.handlers[h])
  {
  }

  lemma AnsweringBook(s: State, h: nat, ev: HandlerEvent)
    requires Inv(s) && HandlerEnabled(s, h, ev) && Answering(ev)
    ensures var s', k := HandlerNext(s, h, ev), s.handlers[h].message.call;
            && (At(s.book, k, Owned(h)) || At(s.book, k, Executed)) && k in s.book.owner && s.book.owner[k] == h
            && Moves(s.book, s'.book, k) && !At(s'.book, k, Unsent) && BookInv(s'.book)
  {
    AtHandler(s, h);
    var k := s.handlers[h].message.call;
    hide Inv, BookInv, HandlerNext, HandlerEnabled, HandlerOk;
    BookOf(s);
    AtBook(s, k);
    AnsweringMoves(s, h, ev);
    BookMoves(s.book, HandlerNext(s, h, ev).book, k);
  }

  lemma AnsweringConn(s: State, h: nat, ev: HandlerEvent)
    requires Inv(s) && HandlerEnabled(s, h, ev) && Answering(ev)
    ensures var s', c := HandlerNext(s, h, ev), s.handlers[h].conn; ConnOk(s'.book, c, s'.conns[c])
  {
    hide Inv, ConnOk;
    var s' := HandlerNext(s, h, ev);
    var k, c := s.handlers[h].message.call, s.handlers[h].conn;
    AtHandler(s, h);
    AtConn(s, c);
    AnsweringBook(s, h, ev);
    if ev.Reply? || ev.ReplyFails? {
      Replied(s.book, s'.book, k, c, s.conns[c], s.handlers[h].phase.response, s'.conns[c].repliesOpen);
    } else {
      ConnMoves(c, s.conns[c], s.book, s'.book, k);
    }
  }

  lemma AnsweringPreserves(s: State, h: nat, ev: HandlerEvent)
    requires Inv(s) && HandlerEnabled(s, h, ev) && Answering(ev)
    ensures CoreInv(HandlerNext(s, h, ev))
  {
    var s' := HandlerNext(s, h, ev);
    var k, c := s.handlers[h].message.call, s.handlers[h].conn;
    AtHandler(s, h);
    hide IdsInv, CallsInv, PendingInv, ConnsInv, HandlersInv, ListenersInv, BookInv, RoundRobinInv, Numbered, WorkersInv,
      HandlerNext, HandlerEnabled, HandlerOk, ConnOk;
    AnsweringHandler(s, h, ev);
    AnsweringEffect(s, h, ev);
    AnsweringBook(s, h, ev);
    AnsweringConn(s, h, ev);
    MessageMoves(s.calls, s.conns, s'.conns, s.handlers, s'.handlers, s.listeners, s.book, s'.book, k, h, c);
    NumberedKept(s.counter, s.calls, s'.calls, s.book, s'.book);
    hide Moves, At;
    WorkersKept(s.workers, s.workerLimit, s.handlers, h, s'.handlers[h]);
  }

  /** A handler answers once, from the bytes of the call it was given. */
  lemma ExecuteBook(s: State, h: nat, result: Option<Bytes>)
    requires Inv(s) && HandlerEnabled(s, h, Execute(result))
    ensures var s', k := HandlerNext(s, h, Execute(result)), s.handlers[h].message.call;
            && At(s.book, k, Owned(h)) && k in s.book.owner && s.book.owner[k] == h && k !in s.book.answers
            && Moves(s.book, s'.book, k) && BookInv(s'.book) && HandlerOk(s'.book, h, s'.handlers[h])
  {
    hide IdsInv, CallsInv, PendingInv, ConnsInv, HandlersInv, ListenersInv, BookInv, RoundRobinInv, Numbered, WorkersInv;
    AtHandler(s, h);
    AtBook(s, s.handlers[h].message.call);
    BookMoves(s.book, HandlerNext(s, h, Execute(result)).book, s.handlers[h].message.call);
  }

  lemma StopPreserves(s: State, step: Step)
    requires Inv(s) && Enabled(s, step) && (step.Shutdown? || step.CloseAll?)
    ensures CoreInv(Next(s, step))
  {
  }

  lemma StepKeepsCore(s: State, step: Step)
    requires Inv(s) && Enabled(s, step) && FreshStep(s, step)
    ensures CoreInv(Next(s, step))
  {
    hide Inv, CoreInv;
    match step
    case Begin(raw) => BeginPreserves(s, raw);
    case CallStep(n, Pick) => PickPreserves(s, n);
    case CallStep(n, WriteOk) => WriteOkPreserves(s, n);
    case CallStep(n, WriteFails(torn)) => WriteFailsPreserves(s, n, torn);
    case CallStep(n, Register) => RegisterPreserves(s, n, Register);
    case CallStep(n, Unregister) => RegisterPreserves(s, n, Unregister);
    case CallStep(n, ev) => CallPreserves(s, n, ev);
    case ListenerStep(p, ReadReply) => ReadReplyPreserves(s, p);
    case ListenerStep(p, LookUp) =>
      if s.listeners[p].message.Id() in s.pending {
        LookUpHitPreserves(s, p);
      } else {
        LookUpMissPreserves(s, p);
      }
    case ListenerStep(p, Deliver) => DeliverPreserves(s, p);
    case ListenerStep(p, ev) => ListenerPreserves(s, p, ev);
    case ReaderStep(c, ReadError) => ReadErrorPreserves(s, c);
    case ReaderStep(c, Admit(h)) => AdmitPreserves(s, c, h);
    case ReaderStep(c, ReadRequest) => ReadRequestPreserves(s, c);
    case ReaderStep(c, Saturated) => SaturatedPreserves(s, c);
    case HandlerStep(h, ev) =>
      if Answering(ev) {
        AnsweringPreserves(s, h, ev);
      } else {
        HandlerPreserves(s, h, ev);
      }
    case Shutdown => StopPreserves(s, step);
    case CloseAll => StopPreserves(s, step);
  }

  // ----- and keeps the IDs apart -----

  /** No call registers, and no message sets out. */
  lemma IdsKept(calls: map<nat, Call>, calls': map<nat, Call>, b: Book, b': Book)
    requires IdsInv(calls, b)
    requires forall n :: n in calls' && Live(calls'[n].phase) ==> n in calls && Live(calls[n].phase)
    requires forall k :: OnItsWay(b', k) ==> OnItsWay(b, k)
    ensures IdsInv(calls', b')
  {
  }

  lemma RegisterIds(s: State, n: nat)
    requires Inv(s) && CallEnabled(s, n, Register) && FreshId(s, n)
    ensures IdsInv(CallNext(s, n, Register).calls, CallNext(s, n, Register).book)
  {
    AtCall(s, n);
    hide CallsInv, PendingInv, ConnsInv, HandlersInv, ListenersInv, BookInv, RoundRobinInv, WorkersInv;
    var calls' := CallNext(s, n, Register).calls;
    forall m, k | m in calls' && Live(calls'[m].phase) && OnItsWay(s.book, k) && CorrId(k) == CorrId(m)
      ensures k == m
    {
      if m == n {
        assert k in s.calls;
      } else {
        assert m in s.calls && Live(s.calls[m].phase);
      }
    }
  }

  lemma WriteIds(s: State, n: nat)
    requires Inv(s) && CallEnabled(s, n, WriteOk)
    ensures IdsInv(CallNext(s, n, WriteOk).calls, CallNext(s, n, WriteOk).book)
  {
    hide CallsInv, ConnsInv, HandlersInv, ListenersInv, BookInv, RoundRobinInv, WorkersInv, Numbered;
    var s' := CallNext(s, n, WriteOk);
    forall m, k | m in s'.calls && Live(s'.calls[m].phase) && OnItsWay(s'.book, k) && CorrId(k) == CorrId(m)
      ensures k == m
    {
      assert m in s.calls && Live(s.calls[m].phase) && s.pending[CorrId(m)] == m;
      if k == n {
        assert s.pending[CorrId(n)] == n;
      } else {
        assert OnItsWay(s.book, k);
      }
    }
  }

  lemma CallIds(s: State, n: nat, ev: CallEvent)
    requires Inv(s) && CallEnabled(s, n, ev) && !ev.Register? && !ev.WriteOk?
    ensures IdsInv(CallNext(s, n, ev).calls, CallNext(s, n, ev).book)
  {
    hide CallsInv, PendingInv, ConnsInv, HandlersInv, ListenersInv, BookInv, RoundRobinInv, WorkersInv, Numbered, IdsInv;
    IdsKept(s.calls, CallNext(s, n, ev).calls, s.book, CallNext(s, n, ev).book);
  }

  lemma ListenerIds(s: State, p: nat, ev: ListenerEvent)
    requires Inv(s) && ListenerEnabled(s, p, ev)
    ensures IdsInv(ListenerNext(s, p, ev).calls, ListenerNext(s, p, ev).book)
  {
    hide CallsInv, PendingInv, ConnsInv, HandlersInv, ListenersInv, BookInv, RoundRobinInv, WorkersInv, Numbered, IdsInv;
    AtListenerSlot(s, p);
    if ev.ReadReply? {
      AtConn(s, s.listeners[p].conn);
    }
    IdsKept(s.calls, ListenerNext(s, p, ev).calls, s.book, ListenerNext(s, p, ev).book);
  }

  lemma ReaderIds(s: State, c: nat, ev: ReaderEvent)
    requires Inv(s) && ReaderEnabled(s, c, ev)
    ensures IdsInv(ReaderNext(s, c, ev).calls, ReaderNext(s, c, ev).book)
  {
    hide CallsInv, PendingInv, ConnsInv, HandlersInv, ListenersInv, BookInv, RoundRobinInv, WorkersInv, Numbered, IdsInv;
    AtConn(s, c);
    IdsKept(s.calls, ReaderNext(s, c, ev).calls, s.book, ReaderNext(s, c, ev).book);
  }

  lemma HandlerIds(s: State, h: nat, ev: HandlerEvent)
    requires Inv(s) && HandlerEnabled(s, h, ev)
    ensures IdsInv(HandlerNext(s, h, ev).calls, HandlerNext(s, h, ev).book)
  {
    hide CallsInv, PendingInv, ConnsInv, HandlersInv, ListenersInv, BookInv, RoundRobinInv, WorkersInv, Numbered, IdsInv;
    AtHandler(s, h);
    IdsKept(s.calls, HandlerNext(s, h, ev).calls, s.book, HandlerNext(s, h, ev).book);
  }

  lemma StepKeepsIds(s: State, step: Step)
    requires Inv(s) && Enabled(s, step) && FreshStep(s, step)
    ensures IdsInv(Next(s, step).calls, Next(s, step).book)
  {
    hide CoreInv, CallNext, ListenerNext, ReaderNext, HandlerNext, IdsInv;
    match step
    case CallStep(n, Register) => RegisterIds(s, n);
    case CallStep(n, WriteOk) => WriteIds(s, n);
    case CallStep(n, ev) => CallIds(s, n, ev);
    case ListenerStep(p, ev) => ListenerIds(s, p, ev);
    case ReaderStep(c, ev) => ReaderIds(s, c, ev);
    case HandlerStep(h, ev) => HandlerIds(s, h, ev);
    case _ => IdsKept(s.calls, Next(s, step).calls, s.book, Next(s, step).book);
  }

  lemma StepPreserves(s: State, step: Step)
    requires Inv(s) && Enabled(s, step) && FreshStep(s, step)
    ensures Inv(Next(s, step))
  {
    hide CoreInv, IdsInv, FreshStep;
    StepKeepsCore(s, step);
    StepKeepsIds(s, step);
  }
}
