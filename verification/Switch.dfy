/**
 The acquirer switch as the object it is: pool, cursor, pending map and counter, changed in place by
 the sections that run under its mutex or atomically. Each method does to the fields exactly what a
 step of the protocol does to its state, so every theorem about runs is one about these methods.
 */
module Switch {
  import opened Base
  import Framing
  import opened Protocol
  import ProtocolProof

  /** A buffered channel of capacity one. */
  class ResponseChannel {
    var slot: Option<Bytes>

    constructor ()
      ensures slot == None
    {
      slot := None;
    }
  }

  /** Every registered call has a channel of its own, which holds what the call's buffer does. */
  ghost predicate ChannelsShow(channels: map<nat, ResponseChannel>, calls: map<nat, Call>)
    reads channels.Values
  {
    && (forall n :: n in channels <==> n in calls && !calls[n].phase.Allocated?)
    && (forall n :: n in channels ==> channels[n].slot == calls[n].buffer)
    && (forall a, b :: a in channels && b in channels && channels[a] == channels[b] ==> a == b)
  }

  /** A call may move on without touching its channel. */
  lemma PhaseMoves(channels: map<nat, ResponseChannel>, calls: map<nat, Call>, n: nat, call: Call)
    requires ChannelsShow(channels, calls) && n in calls && call.buffer == calls[n].buffer
    requires call.phase.Allocated? == calls[n].phase.Allocated?
    ensures ChannelsShow(channels, calls[n := call])
  {
  }

  lemma NewCall(channels: map<nat, ResponseChannel>, calls: map<nat, Call>, n: nat, raw: Bytes)
    requires ChannelsShow(channels, calls) && n !in calls
    ensures ChannelsShow(channels, calls[n := Call(raw, Allocated, None, 0, 0)])
  {
  }

  lemma NotYetThere(channels: map<nat, ResponseChannel>, calls: map<nat, Call>, n: nat)
    requires ChannelsShow(channels, calls) && n in calls && calls[n].phase.Allocated?
    ensures n !in channels
  {
  }

  lemma NewChannel(channels: map<nat, ResponseChannel>, calls: map<nat, Call>, n: nat, c: ResponseChannel)
    requires ChannelsShow(channels, calls) && n in calls && calls[n].phase.Allocated? && calls[n].buffer == None
    requires c !in channels.Values && c.slot == None
    ensures ChannelsShow(channels[n := c], calls[n := calls[n].(phase := Selecting(0))])
  {
    assert forall a :: a in channels ==> channels[a] in channels.Values;
  }

  /** How one `Write` ends; a torn one has put part of a packet on the wire. */
  datatype WriteResult = Written | Failed(torn: bool)

  /** The connections that the attempts from a given one on write to. */
  function Tried(slots: seq<Option<nat>>, cursor: nat, results: seq<WriteResult>, attempt: nat): seq<nat>
    requires attempt <= |results| == ATTEMPTS && (attempt < ATTEMPTS ==> cursor < |slots|)
    decreases ATTEMPTS - attempt
  {
    if attempt == ATTEMPTS then []
    else
      var next := (cursor + 1) % |slots|;
      match slots[cursor]
      case None => Tried(slots, next, results, attempt + 1)
      case Some(c) => [c] + if results[attempt].Written? then [] else Tried(slots, next, results, attempt + 1)
  }

  lemma TriedStep(slots: seq<Option<nat>>, cursor: nat, results: seq<WriteResult>, attempt: nat, before: seq<nat>)
    requires attempt < |results| == ATTEMPTS && cursor < |slots|
    ensures var rest := Tried(slots, (cursor + 1) % |slots|, results, attempt + 1);
            before + Tried(slots, cursor, results, attempt) ==
            match slots[cursor]
            case None => before + rest
            case Some(c) => if results[attempt].Written? then before + [c] else before + [c] + rest
  {
  }

  lemma TriedAll(slots: seq<Option<nat>>, cursor: nat, results: seq<WriteResult>, before: seq<nat>)
    requires |results| == ATTEMPTS
    ensures before + Tried(slots, cursor, results, ATTEMPTS) == before
  {
  }

  /** The same packet for each of these connections. */
  predicate PacketsFor(conns: seq<nat>, packet: Bytes, packets: seq<(nat, Bytes)>) {
    |packets| == |conns| && forall i :: 0 <= i < |packets| ==> packets[i] == (conns[i], packet)
  }

  lemma NoPackets(packet: Bytes)
    ensures PacketsFor([], packet, [])
  {
  }

  lemma MorePackets(conns: seq<nat>, packet: Bytes, packets: seq<(nat, Bytes)>, c: nat)
    requires PacketsFor(conns, packet, packets)
    ensures PacketsFor(conns + [c], packet, packets + [(c, packet)])
  {
  }

  lemma RegisterEffect(s: State, n: nat)
    requires CallEnabled(s, n, CallEvent.Register)
    ensures var s' := Next(s, CallStep(n, CallEvent.Register));
            && s'.slots == s.slots && s'.cursor == s.cursor && s'.counter == s.counter
            && s'.pending == s.pending[CorrId(n) := n]
            && s'.calls == s.calls[n := s.calls[n].(phase := Selecting(0))]
  {
  }

  lemma PickEffect(s: State, n: nat)
    requires CallEnabled(s, n, Pick)
    ensures var s', attempt := Next(s, CallStep(n, Pick)), s.calls[n].phase.attempt;
            && s'.slots == s.slots && s'.dialing == s.dialing && s'.conns == s.conns
            && s'.cursor == (s.cursor + 1) % |s.slots|
            && n in s'.calls && s'.calls[n].raw == s.calls[n].raw
            && s'.calls[n].phase == match s.slots[s.cursor]
                                    case Some(c) => Writing(attempt, c)
                                    case None => Retry(attempt)
  {
  }

  lemma EmptyBuffer(s: State, n: nat)
    requires Inv(s) && n in s.calls && s.calls[n].phase.Allocated?
    ensures s.calls[n].buffer == None
  {
    ProtocolProof.AtCall(s, n);
  }

  /** The steps of a call's attempts from a given one on, nobody else stepping between. */
  ghost function Sent(s: State, n: nat, results: seq<WriteResult>, attempt: nat): (r: State)
    requires n in s.calls && attempt <= |results| == ATTEMPTS
    requires forall c :: Some(c) in s.slots ==> c in s.conns
    requires s.calls[n].phase == if attempt < ATTEMPTS then Selecting(attempt) else Returning(SendFailed)
    requires attempt < ATTEMPTS ==> s.cursor < |s.slots| && s.dialing.None?
    ensures n in r.calls
    decreases ATTEMPTS - attempt
  {
    if attempt == ATTEMPTS then s
    else
      var picked := Next(s, CallStep(n, Pick));
      if s.slots[s.cursor].None? then Sent(picked, n, results, attempt + 1)
      else if results[attempt].Written? then Next(picked, CallStep(n, WriteOk))
      else Sent(Next(picked, CallStep(n, WriteFails(results[attempt].torn))), n, results, attempt + 1)
  }

  class AcquirerSwitch {
    const connectionPool: array<Option<nat>>
    var currentConnIndex: nat
    var pendingTransactions: map<nat, ResponseChannel>
    var corrIDCounter: nat
    ghost var channels: map<nat, ResponseChannel>  // of every call since its registration

    /** The fields are those of a state of the protocol. */
    ghost predicate Shows(s: State)
      reads this, connectionPool, channels.Values
    {
      && connectionPool[..] == s.slots
      && currentConnIndex == s.cursor < |s.slots|
      && corrIDCounter == CorrId(s.counter)
      && pendingTransactions.Keys == s.pending.Keys
      && (forall k :: k in s.pending ==> s.pending[k] in channels && pendingTransactions[k] == channels[s.pending[k]])
      && ChannelsShow(channels, s.calls)
    }

    constructor (poolSize: nat, ghost workerLimit: nat)
      requires poolSize > 0
      ensures Shows(Start(poolSize, workerLimit)) && fresh(connectionPool)
    {
      connectionPool := new Option<nat>[poolSize](_ => None);
      currentConnIndex, corrIDCounter := 0, 0;
      pendingTransactions, channels := map[], map[];
    }

    // ----- HandleTerminalRequest -----

    /** The atomic addition wraps at 32 bits. */
    method NextCorrId(ghost s: State, ghost raw: Bytes) returns (corrID: nat)
      requires Shows(s) && Inv(s) && |raw| <= MAX_ISO
      modifies this`corrIDCounter
      ensures Shows(Next(s, Begin(raw)))
      ensures corrID == CorrId(s.counter + 1)
      ensures corrID == corrIDCounter == (old(corrIDCounter) + 1) % 0x1_0000_0000
    {
      hide Inv, Next, ChannelsShow;
      ProtocolProof.NewNumber(s);
      ProtocolProof.BeginEffect(s, raw);
      NewCall(channels, s.calls, s.counter + 1, raw);
      corrIDCounter := (corrIDCounter + 1) % CORR_SPACE;
      return corrIDCounter;
    }

    method Register(corrID: nat, ghost s: State, ghost n: nat) returns (responseChan: ResponseChannel)
      requires Shows(s) && Inv(s) && CallEnabled(s, n, CallEvent.Register) && corrID == CorrId(n)
      modifies this`pendingTransactions, this`channels
      ensures Shows(Next(s, CallStep(n, CallEvent.Register)))
      ensures fresh(responseChan) && channels == old(channels)[n := responseChan]
      ensures responseChan.slot == None && pendingTransactions == old(pendingTransactions)[corrID := responseChan]
    {
      hide Inv, Next, ChannelsShow;
      EmptyBuffer(s, n);
      RegisterEffect(s, n);
      NotYetThere(channels, s.calls, n);
      responseChan := new ResponseChannel();
      NewChannel(channels, s.calls, n, responseChan);
      pendingTransactions := pendingTransactions[corrID := responseChan];
      channels := channels[n := responseChan];
    }

    /** The deferred `Delete`. */
    method Unregister(corrID: nat, ghost s: State, ghost n: nat)
      requires Shows(s) && CallEnabled(s, n, CallEvent.Unregister) && corrID == CorrId(n)
      modifies this`pendingTransactions
      ensures Shows(Next(s, CallStep(n, CallEvent.Unregister)))
      ensures pendingTransactions == old(pendingTransactions) - {corrID}
    {
      hide ChannelsShow;
      PhaseMoves(channels, s.calls, n, Next(s, CallStep(n, CallEvent.Unregister)).calls[n]);
      pendingTransactions := pendingTransactions - {corrID};
    }

    /** The first case of the select: a response is in the buffer. */
    method Receive(responseChan: ResponseChannel, ghost s: State, ghost n: nat) returns (response: Bytes)
      requires Shows(s) && CallEnabled(s, n, CallEvent.Receive) && n in channels && channels[n] == responseChan
      requires responseChan.slot.Some?
      modifies responseChan
      ensures Shows(Next(s, CallStep(n, CallEvent.Receive)))
      ensures s.calls[n].buffer == Some(response) == old(responseChan.slot) && responseChan.slot == None
    {
      response := responseChan.slot.value;
      responseChan.slot := None;
    }

    // ----- the pool -----

    /** Round robin under the pool mutex. */
    method PickConnection(ghost s: State, ghost n: nat) returns (conn: Option<nat>)
      requires Shows(s) && CallEnabled(s, n, Pick)
      modifies this`currentConnIndex
      ensures Shows(Next(s, CallStep(n, Pick)))
      ensures conn == s.slots[s.cursor]
      ensures old(currentConnIndex) < connectionPool.Length && conn == connectionPool[old(currentConnIndex)]
      ensures currentConnIndex == (old(currentConnIndex) + 1) % connectionPool.Length
    {
      hide ChannelsShow;
      PhaseMoves(channels, s.calls, n, Next(s, CallStep(n, Pick)).calls[n]);
      var connIndex := currentConnIndex;
      currentConnIndex := (currentConnIndex + 1) % connectionPool.Length;
      return connectionPool[connIndex];
    }

    /** From the locking of the pool mutex to its release; `dialed` is the connection that dialing gives, if it succeeds. */
    method EnsureConnection(poolIndex: nat, dialed: Option<nat>, ghost s: State) returns (ok: bool)
      requires Shows(s) && poolIndex < |s.slots| == |s.listeners| && s.listeners[poolIndex].Idle? && s.dialing.None?
      requires dialed.Some? ==> dialed.value !in s.conns
      modifies connectionPool
      ensures Shows(if s.slots[poolIndex].Some? then s
                    else
                      var dialing := Next(s, ListenerStep(poolIndex, Dial));
                      Next(dialing, ListenerStep(poolIndex, if dialed.None? then DialFails else Connect(dialed.value))))
      ensures ok == connectionPool[poolIndex].Some?
      ensures old(connectionPool[..])[poolIndex].Some? ==> connectionPool[..] == old(connectionPool[..])
      ensures old(connectionPool[..])[poolIndex].None? ==>
                connectionPool[..] == old(connectionPool[..])[poolIndex := dialed]
    {
      if connectionPool[poolIndex].Some? {
        return true;
      }
      if dialed.None? {
        return false;
      }
      connectionPool[poolIndex] := dialed;
      return true;
    }

    method CloseConnection(poolIndex: nat, ghost s: State)
      requires Shows(s) && ListenerEnabled(s, poolIndex, Close)
      modifies connectionPool
      ensures Shows(Next(s, ListenerStep(poolIndex, Close)))
      ensures connectionPool[..] == old(connectionPool[..])[poolIndex := None]
    {
      if connectionPool[poolIndex].Some? {
        connectionPool[poolIndex] := None;
      }
    }

    method CloseAllConnections(ghost s: State)
      requires Shows(s) && Enabled(s, CloseAll)
      modifies connectionPool
      ensures Shows(Next(s, CloseAll))
      ensures forall i :: 0 <= i < connectionPool.Length ==> connectionPool[i] == None
    {
      var i := 0;
      while i < connectionPool.Length
        invariant i <= connectionPool.Length
        invariant forall j :: 0 <= j < i ==> connectionPool[j] == None
      {
        if connectionPool[i].Some? {
          connectionPool[i] := None;
        }
        i := i + 1;
      }
      assert connectionPool[..] == seq(|s.slots|, _ => None);
    }

    // ----- routing -----

    /** The correlation ID is in bytes 1 to 4 of the packet. */
    method Load(packet: Bytes, ghost s: State, ghost p: nat) returns (found: Option<ResponseChannel>)
      requires Shows(s) && ListenerEnabled(s, p, LookUp)
      requires |packet| >= 5 && Framing.CorrelationOf(packet[..5]) == s.listeners[p].message.Id()
      requires packet[5..] == s.listeners[p].message.iso
      ensures Shows(Next(s, ListenerStep(p, LookUp)))
      ensures var corr := s.listeners[p].message.Id();
              && found == (if corr in s.pending then Some(channels[s.pending[corr]]) else None)
              && found == if corr in pendingTransactions then Some(pendingTransactions[corr]) else None
    {
      var corrID := FromBe32(packet[1..5]);
      assert packet[..5][1..5] == packet[1..5];
      if corrID in pendingTransactions {
        return Some(pendingTransactions[corrID]);
      }
      return None;
    }

    /** The non-blocking send: a full buffer drops the response. */
    method Send(responseChan: ResponseChannel, isoMessage: Bytes, ghost s: State, ghost p: nat) returns (delivered: bool)
      requires Shows(s) && ListenerEnabled(s, p, Deliver) && isoMessage == s.listeners[p].iso
      requires s.listeners[p].call in channels && channels[s.listeners[p].call] == responseChan
      modifies responseChan
      ensures Shows(Next(s, ListenerStep(p, Deliver)))
      ensures delivered == s.calls[s.listeners[p].call].buffer.None? == old(responseChan.slot).None?
      ensures responseChan.slot == if delivered then Some(isoMessage) else old(responseChan.slot)
    {
      delivered := responseChan.slot.None?;
      if delivered {
        responseChan.slot := Some(isoMessage);
      }
    }

    // ----- sendToIssuer -----

    lemma CursorInside(s: State)
      requires Shows(s)
      ensures s.cursor < |s.slots|
    {
    }

    /** A write changes nothing of the switch itself. */
    lemma WriteShows(s: State, n: nat, ev: CallEvent)
      requires Shows(s) && CallEnabled(s, n, ev) && (ev.WriteOk? || ev.WriteFails?)
      ensures var s' := Next(s, CallStep(n, ev));
              && Shows(s') && s'.slots == s.slots && s'.dialing == s.dialing && s'.cursor == s.cursor
              && s'.conns.Keys == s.conns.Keys
              && n in s'.calls && s'.calls[n].raw == s.calls[n].raw
              && s'.calls[n].phase == if ev.WriteOk? then Waiting else Retry(s.calls[n].phase.attempt)
    {
      hide ChannelsShow;
      PhaseMoves(channels, s.calls, n, Next(s, CallStep(n, ev)).calls[n]);
    }

    /**
     Three attempts in a row without anybody else's steps between them. `results` says how the write of
     each attempt would end. The loop is a run of the protocol's steps; it succeeds exactly when the call then waits.
     */
    method SendToIssuer(rawISO: Bytes, corrID: nat, results: seq<WriteResult>, ghost s: State, ghost n: nat)
      returns (ok: bool, packets: seq<(nat, Bytes)>)
      requires Shows(s) && n in s.calls && s.calls[n].phase == Selecting(0) && s.calls[n].raw == rawISO
      requires corrID == CorrId(n) && |results| == ATTEMPTS && s.dialing.None?
      requires forall c :: Some(c) in s.slots ==> c in s.conns
      modifies this`currentConnIndex
      ensures Shows(Sent(s, n, results, 0))
      ensures ok <==> Sent(s, n, results, 0).calls[n].phase.Waiting?
      ensures !ok <==> Sent(s, n, results, 0).calls[n].phase == Returning(SendFailed)
      ensures PacketsFor(Tried(s.slots, s.cursor, results, 0), Framing.Packet(Framing.Frame(Framing.Header(corrID), rawISO)), packets)
    {
      hide Shows, CallNext, Next, Tried, PacketsFor, Framing.Packet, Framing.Header;
      ghost var expected := Framing.Packet(Framing.Frame(Framing.Header(corrID), rawISO));
      ghost var tried: seq<nat> := [];
      NoPackets(expected);
      ok, packets := false, [];
      ghost var now := s;
      CursorInside(s);
      var attempt := 0;
      while attempt < ATTEMPTS
        invariant attempt <= ATTEMPTS
        invariant Shows(now) && now.dialing.None? && now.cursor < |now.slots| && n in now.calls && now.calls[n].raw == rawISO
        invariant now.slots == s.slots && now.conns.Keys == s.conns.Keys
        invariant now.calls[n].phase == if attempt < ATTEMPTS then Selecting(attempt) else Returning(SendFailed)
        invariant Sent(s, n, results, 0) == Sent(now, n, results, attempt)
        invariant tried + Tried(now.slots, now.cursor, results, attempt) == Tried(s.slots, s.cursor, results, 0)
        invariant PacketsFor(tried, expected, packets)
      {
        PickEffect(now, n);
        TriedStep(now.slots, now.cursor, results, attempt, tried);
        var conn := PickConnection(now, n);
        now := Next(now, CallStep(n, Pick));
        if conn.Some? {
          var packet := Framing.BuildPacket(Framing.Header(corrID), rawISO);
          MorePackets(tried, expected, packets, conn.value);
          packets := packets + [(conn.value, packet[..])];
          tried := tried + [conn.value];
          if results[attempt].Written? {
            WriteShows(now, n, WriteOk);
            now := Next(now, CallStep(n, WriteOk));
            return true, packets;
          }
          WriteShows(now, n, WriteFails(results[attempt].torn));
          now := Next(now, CallStep(n, WriteFails(results[attempt].torn)));
        }
        attempt := attempt + 1;
      }
      TriedAll(now.slots, now.cursor, results, tried);
    }
  }

  /** Counting from attempt `first` at this cursor, attempt k finds a connection and its write succeeds. */
  predicate Succeeds(slots: seq<Option<nat>>, cursor: nat, results: seq<WriteResult>, first: nat, k: nat)
    requires cursor < |slots| && first <= k < |results|
  {
    slots[(cursor + (k - first)) % |slots|].Some? && results[k].Written?
  }

  lemma AddToRemainder(x: nat, j: nat, size: nat)
    requires size > 0
    ensures (x % size + j) % size == (x + j) % size
  {
    var q, r := x / size, x % size;
    var p, t := (r + j) / size, (r + j) % size;
    assert (q + p) * size == q * size + p * size;
    RemainderUnique(x + j, q + p, t, size);
  }

  lemma NextSucceeds(slots: seq<Option<nat>>, cursor: nat, results: seq<WriteResult>, first: nat, k: nat)
    requires cursor < |slots| && first < k < |results|
    ensures Succeeds(slots, (cursor + 1) % |slots|, results, first + 1, k) <==> Succeeds(slots, cursor, results, first, k)
  {
    AddToRemainder(cursor + 1, k - first - 1, |slots|);
  }

  lemma FirstSucceeds(slots: seq<Option<nat>>, cursor: nat, results: seq<WriteResult>, first: nat)
    requires cursor < |slots| && first < |results|
    ensures Succeeds(slots, cursor, results, first, first) <==> slots[cursor].Some? && results[first].Written?
  {
  }

  /** The state behind one attempt that fails. */
  ghost function AfterAttempt(s: State, n: nat, results: seq<WriteResult>, attempt: nat): State
    requires CallEnabled(s, n, Pick) && s.calls[n].phase == Selecting(attempt) && attempt < |results|
    requires forall c :: Some(c) in s.slots ==> c in s.conns
  {
    var picked := Next(s, CallStep(n, Pick));
    if s.slots[s.cursor].None? || results[attempt].Written? then picked
    else Next(picked, CallStep(n, WriteFails(results[attempt].torn)))
  }

  lemma AttemptFails(s: State, n: nat, results: seq<WriteResult>, attempt: nat)
    requires n in s.calls && attempt < |results| == ATTEMPTS && s.cursor < |s.slots| && s.dialing.None?
    requires forall c :: Some(c) in s.slots ==> c in s.conns
    requires s.calls[n].phase == Selecting(attempt) && !(s.slots[s.cursor].Some? && results[attempt].Written?)
    ensures var after := AfterAttempt(s, n, results, attempt);
            && after.slots == s.slots && after.dialing.None? && after.conns.Keys == s.conns.Keys && after.cursor == (s.cursor + 1) % |s.slots|
            && n in after.calls && after.calls[n].phase == Retry(attempt)
            && Sent(s, n, results, attempt) == Sent(after, n, results, attempt + 1)
  {
  }

  lemma AttemptWrites(s: State, n: nat, results: seq<WriteResult>, attempt: nat)
    requires n in s.calls && attempt < |results| == ATTEMPTS && s.cursor < |s.slots| && s.dialing.None?
    requires forall c :: Some(c) in s.slots ==> c in s.conns
    requires s.calls[n].phase == Selecting(attempt) && s.slots[s.cursor].Some? && results[attempt].Written?
    ensures Sent(s, n, results, attempt).calls[n].phase.Waiting?
  {
  }

  /** The send succeeds exactly when one of the attempts, each at the next slot, finds a connection and can write. */
  lemma {:induction false} SendSucceedsIff(s: State, n: nat, results: seq<WriteResult>, attempt: nat)
    requires n in s.calls && attempt < |results| == ATTEMPTS && s.cursor < |s.slots| && s.dialing.None?
    requires forall c :: Some(c) in s.slots ==> c in s.conns
    requires s.calls[n].phase == Selecting(attempt)
    ensures Sent(s, n, results, attempt).calls[n].phase.Waiting? <==>
            exists k :: attempt <= k < ATTEMPTS && Succeeds(s.slots, s.cursor, results, attempt, k)
    ensures Sent(s, n, results, attempt).calls[n].phase.Waiting?
            || Sent(s, n, results, attempt).calls[n].phase == Returning(SendFailed)
    decreases ATTEMPTS - attempt
  {
    hide Next, CallNext, Succeeds;
    PickEffect(s, n);
    FirstSucceeds(s.slots, s.cursor, results, attempt);
    if !Succeeds(s.slots, s.cursor, results, attempt, attempt) {
      AttemptFails(s, n, results, attempt);
      var after := AfterAttempt(s, n, results, attempt);
      if attempt + 1 == ATTEMPTS {
        assert Sent(s, n, results, attempt) == after;
      } else {
        SendSucceedsIff(after, n, results, attempt + 1);
        forall k | attempt < k < ATTEMPTS
          ensures Succeeds(after.slots, after.cursor, results, attempt + 1, k) <==>
                  Succeeds(s.slots, s.cursor, results, attempt, k)
        {
          NextSucceeds(s.slots, s.cursor, results, attempt, k);
        }
        if Sent(after, n, results, attempt + 1).calls[n].phase.Waiting? {
          var k :| attempt + 1 <= k < ATTEMPTS && Succeeds(after.slots, after.cursor, results, attempt + 1, k);
          assert Succeeds(s.slots, s.cursor, results, attempt, k);
        }
        if k :| attempt <= k < ATTEMPTS && Succeeds(s.slots, s.cursor, results, attempt, k) {
          assert Succeeds(after.slots, after.cursor, results, attempt + 1, k);
        }
      }
    } else {
      AttemptWrites(s, n, results, attempt);
      assert attempt < ATTEMPTS && Succeeds(s.slots, s.cursor, results, attempt, attempt);
    }
  }
}
