/**
 Why the theorems on runs need that an ID is free when a call registers under it: a run in which the counter has
 wrapped, an ID is taken while another call waits under it, and the second call gets the response to the first.
 */
module ProtocolWrap {
  import opened Base
  import opened Protocol
  import opened ProtocolTheorems
  import ProtocolProof

  /** The call that shares its correlation ID with the first. */
  const SECOND: nat := CORR_SPACE + 1

  lemma SharedId()
    ensures CorrId(1) == CorrId(SECOND) == 1
  {
  }

  lemma AfterOne(s: State, steps: seq<Step>, step: Step)
    requires After(s, steps).Some? && Enabled(After(s, steps).value, step)
    ensures After(s, steps + [step]) == Some(Next(After(s, steps).value, step))
  {
    hide Next, Enabled;
    assert (steps + [step])[..|steps|] == steps;
  }

  // ----- 2^32 + 1 calls are allocated -----

  function RawOf(a: Bytes, b: Bytes, k: nat): Bytes {
    if k == 1 then a else b
  }

  /** Where the message of a call is that has only its number. */
  function Fresh(k: nat): Stage {
    Unsent
  }

  function Begins(a: Bytes, b: Bytes, n: nat): seq<Step> {
    if n == 0 then [] else Begins(a, b, n - 1) + [Begin(RawOf(a, b, n))]
  }

  function BegunCalls(a: Bytes, b: Bytes, n: nat): map<nat, Call> {
    map k: nat | 1 <= k <= n :: Call(RawOf(a, b, k), Allocated, None, 0, 0)
  }

  function BegunRaws(a: Bytes, b: Bytes, n: nat): map<nat, Bytes> {
    map k: nat | 1 <= k <= n :: RawOf(a, b, k)
  }

  function BegunStages(n: nat): map<nat, Stage> {
    map k: nat | 1 <= k <= n :: Fresh(k)
  }

  function Begun(a: Bytes, b: Bytes, n: nat): State {
    Start(1, 1).(counter := n, calls := BegunCalls(a, b, n), book := Book(BegunRaws(a, b, n), BegunStages(n), map[], map[]))
  }

  lemma OneMoreEntry(a: Bytes, b: Bytes, n: nat)
    requires n > 0
    ensures BegunCalls(a, b, n) == BegunCalls(a, b, n - 1)[n := Call(RawOf(a, b, n), Allocated, None, 0, 0)]
    ensures BegunRaws(a, b, n) == BegunRaws(a, b, n - 1)[n := RawOf(a, b, n)]
    ensures BegunStages(n) == BegunStages(n - 1)[n := Unsent]
  {
    hide RawOf;
  }

  lemma OneMore(a: Bytes, b: Bytes, n: nat)
    requires |a| <= MAX_ISO && |b| <= MAX_ISO && n > 0
    ensures Next(Begun(a, b, n - 1), Begin(RawOf(a, b, n))) == Begun(a, b, n)
  {
    hide BegunCalls, BegunRaws, BegunStages, RawOf, CallNext, ListenerNext, ReaderNext, HandlerNext;
    OneMoreEntry(a, b, n);
  }

  lemma {:induction false} BegunBy(a: Bytes, b: Bytes, n: nat)
    requires |a| <= MAX_ISO && |b| <= MAX_ISO
    ensures After(Start(1, 1), Begins(a, b, n)) == Some(Begun(a, b, n))
  {
    if n == 0 {
      assert Begun(a, b, 0) == Start(1, 1);
    } else {
      BegunBy(a, b, n - 1);
      AfterOne(Start(1, 1), Begins(a, b, n - 1), Begin(RawOf(a, b, n)));
      OneMore(a, b, n);
    }
  }

  // ----- two of them go on -----

  /** The steps of the two calls, the issuer and the listener that follow, in order. */
  function StepAt(i: nat, x: Bytes): Step {
    match i
    case 0 => ListenerStep(0, Connect(0))
    case 1 => ListenerStep(0, Listen)
    case 2 => CallStep(1, Register)
    case 3 => CallStep(1, Pick)
    case 4 => CallStep(1, WriteOk)
    case 5 => ReaderStep(0, ReadRequest)
    case 6 => ReaderStep(0, Admit(0))
    case 7 => HandlerStep(0, Run)
    case 8 => HandlerStep(0, Execute(Some(x)))
    case 9 => HandlerStep(0, Reply)
    case 10 => CallStep(SECOND, Register)
    case 11 => CallStep(SECOND, Pick)
    case 12 => CallStep(SECOND, WriteOk)
    case 13 => ListenerStep(0, ReadReply)
    case 14 => ListenerStep(0, LookUp)
    case 15 => ListenerStep(0, Deliver)
    case 16 => CallStep(SECOND, Receive)
    case _ => CallStep(SECOND, Unregister)
  }

  const STEPS: nat := 18

  function ListenerAt(i: nat, x: Bytes): Listener {
    if i < 2 then Idle
    else if i == 14 then Routing(0, Message(1, x))
    else if i == 15 then Delivering(0, SECOND, x)
    else Listening(0)
  }

  function ConnsAt(i: nat, a: Bytes, b: Bytes, x: Bytes): map<nat, Conn> {
    if i < 1 then map[]
    else
      map[0 := Conn(if i == 5 then [Message(1, a)] else if i >= 13 then [Message(SECOND, b)] else [],
                    if 10 <= i < 14 then [Message(1, x)] else [],
                    true, true, if i == 6 then AwaitingSlot(Message(1, a)) else Reading)]
  }

  function HandlerAt(i: nat, x: Bytes): HandlerPhase {
    if i == 7 then Spawned else if i == 8 then Running else if i == 9 then Computed(x) else Exiting
  }

  function FirstAt(i: nat): CallPhase {
    if i < 3 then Allocated else if i == 3 then Selecting(0) else if i == 4 then Writing(0, 0) else Waiting
  }

  function SecondAt(i: nat, x: Bytes): CallPhase {
    if i < 11 then Allocated
    else if i == 11 then Selecting(0)
    else if i == 12 then Writing(0, 0)
    else if i < 17 then Waiting
    else if i == 17 then Returning(Response(x))
    else Done(Response(x))
  }

  predicate CallsAt(s: State, i: nat, a: Bytes, b: Bytes, x: Bytes) {
    && 1 in s.calls && SECOND in s.calls
    && s.calls[1] == Call(a, FirstAt(i), None, if i < 4 then 0 else 1, if i < 5 then 0 else 1)
    && s.calls[SECOND] == Call(b, SecondAt(i, x), if i == 16 then Some(x) else None,
                               if i < 12 then 0 else 1, if i < 13 then 0 else 1)
    && s.pending == (if i < 3 then map[] else if i < 11 then map[1 := 1] else if i < 18 then map[1 := SECOND] else map[])
  }

  /** What the rest of the run depends on, before the i-th of them. */
  predicate SeenAt(s: State, i: nat, a: Bytes, b: Bytes, x: Bytes) {
    && CallsAt(s, i, a, b, x)
    && s.slots == [if i < 1 then None else Some(0)] && s.cursor == 0
    && s.dialing == (if i < 1 then Some(0) else None)
    && s.listeners == [ListenerAt(i, x)]
    && s.conns == ConnsAt(i, a, b, x)
    && s.workers == (if i < 7 then 0 else 1) && s.workerLimit == 1
    && s.handlers == (if i < 7 then map[] else map[0 := Handler(0, Message(1, a), HandlerAt(i, x))])
    && s.book.answers == (if i < 9 then map[] else map[1 := Answer(a, Some(x))])
  }

  /** The i-th step can be taken there, and leads on. */
  predicate Leads(s: State, i: nat, a: Bytes, b: Bytes, x: Bytes) {
    SeenAt(s, i, a, b, x) && |x| <= MAX_ISO ==>
      Enabled(s, StepAt(i, x)) && SeenAt(Next(s, StepAt(i, x)), i + 1, a, b, x)
  }

  lemma FirstCallLeads(s: State, i: nat, a: Bytes, b: Bytes, x: Bytes)
    requires 2 <= i < 5
    ensures Leads(s, i, a, b, x)
  {
    hide ListenerNext, ReaderNext, HandlerNext, ListenerEnabled, ReaderEnabled, HandlerEnabled;
    SharedId();
    if SeenAt(s, i, a, b, x) {
      var t := Next(s, StepAt(i, x));
      if i == 4 {
        assert t.conns[0].toIssuer == [Message(1, a)];
      }
      assert t.conns == ConnsAt(i + 1, a, b, x);
    }
  }

  lemma SecondCallLeads(s: State, i: nat, a: Bytes, b: Bytes, x: Bytes)
    requires 10 <= i < 12
    ensures Leads(s, i, a, b, x)
  {
    hide ListenerNext, ReaderNext, HandlerNext, ListenerEnabled, ReaderEnabled, HandlerEnabled;
    SharedId();
  }

  lemma SecondWriteLeads(s: State, a: Bytes, b: Bytes, x: Bytes)
    ensures Leads(s, 12, a, b, x)
  {
    hide ListenerNext, ReaderNext, HandlerNext, ListenerEnabled, ReaderEnabled, HandlerEnabled;
    SharedId();
    if SeenAt(s, 12, a, b, x) {
      var t := Next(s, StepAt(12, x));
      assert t.conns[0].toIssuer == [Message(SECOND, b)];
      assert t.conns == ConnsAt(13, a, b, x);
    }
  }

  lemma ReceiveLeads(s: State, a: Bytes, b: Bytes, x: Bytes)
    ensures Leads(s, 16, a, b, x)
  {
    hide ListenerNext, ReaderNext, HandlerNext, ListenerEnabled, ReaderEnabled, HandlerEnabled;
    SharedId();
  }

  lemma LeaveLeads(s: State, a: Bytes, b: Bytes, x: Bytes)
    ensures Leads(s, 17, a, b, x)
  {
    hide ListenerNext, ReaderNext, HandlerNext, ListenerEnabled, ReaderEnabled, HandlerEnabled;
    SharedId();
  }

  lemma ConnectingLeads(s: State, i: nat, a: Bytes, b: Bytes, x: Bytes)
    requires i < 2
    ensures Leads(s, i, a, b, x)
  {
    hide CallNext, ReaderNext, HandlerNext, CallEnabled, ReaderEnabled, HandlerEnabled;
    SharedId();
  }

  lemma ReadReplyLeads(s: State, a: Bytes, b: Bytes, x: Bytes)
    ensures Leads(s, 13, a, b, x)
  {
    hide CallNext, ReaderNext, HandlerNext, CallEnabled, ReaderEnabled, HandlerEnabled;
    SharedId();
    if SeenAt(s, 13, a, b, x) {
      var t := Next(s, StepAt(13, x));
      assert t.conns[0].toAcquirer == [];
      assert t.conns == ConnsAt(14, a, b, x);
    }
  }

  lemma RoutingLeads(s: State, i: nat, a: Bytes, b: Bytes, x: Bytes)
    requires 14 <= i < 16
    ensures Leads(s, i, a, b, x)
  {
    hide CallNext, ReaderNext, HandlerNext, CallEnabled, ReaderEnabled, HandlerEnabled;
    SharedId();
  }

  lemma ReaderLeads(s: State, i: nat, a: Bytes, b: Bytes, x: Bytes)
    requires 5 <= i < 7
    ensures Leads(s, i, a, b, x)
  {
    hide CallNext, ListenerNext, HandlerNext, CallEnabled, ListenerEnabled, HandlerEnabled;
    if SeenAt(s, i, a, b, x) {
      var t := Next(s, StepAt(i, x));
      if i == 5 {
        assert t.conns[0].toIssuer == [];
      }
      assert t.conns == ConnsAt(i + 1, a, b, x);
    }
  }

  lemma HandlerLeads(s: State, i: nat, a: Bytes, b: Bytes, x: Bytes)
    requires 7 <= i < 10
    ensures Leads(s, i, a, b, x)
  {
    hide CallNext, ListenerNext, ReaderNext, CallEnabled, ListenerEnabled, ReaderEnabled;
    if SeenAt(s, i, a, b, x) && |x| <= MAX_ISO {
      var t := Next(s, StepAt(i, x));
      if i == 9 {
        assert t.conns[0].toAcquirer == [Message(1, x)];
      }
      assert t.conns == ConnsAt(i + 1, a, b, x);
    }
  }

  lemma StepLeads(s: State, i: nat, a: Bytes, b: Bytes, x: Bytes)
    requires i < STEPS
    ensures Leads(s, i, a, b, x)
  {
    hide Leads;
    if 2 <= i < 5 {
      FirstCallLeads(s, i, a, b, x);
    } else if 5 <= i < 7 {
      ReaderLeads(s, i, a, b, x);
    } else if 7 <= i < 10 {
      HandlerLeads(s, i, a, b, x);
    } else if 10 <= i < 12 {
      SecondCallLeads(s, i, a, b, x);
    } else if i == 12 {
      SecondWriteLeads(s, a, b, x);
    } else if i == 16 {
      ReceiveLeads(s, a, b, x);
    } else if i == 17 {
      LeaveLeads(s, a, b, x);
    } else if i < 2 {
      ConnectingLeads(s, i, a, b, x);
    } else if i == 13 {
      ReadReplyLeads(s, a, b, x);
    } else {
      RoutingLeads(s, i, a, b, x);
    }
  }

  const DIAL := ListenerStep(0, Dial)

  /**
   A run of more than 2^32 calls: all are allocated, the listener dials, and then the first call and the one that
   shares its ID go on.
   */
  function WrappedRun(a: Bytes, b: Bytes, x: Bytes, i: nat): seq<Step> {
    if i == 0 then Begins(a, b, SECOND) + [DIAL] else WrappedRun(a, b, x, i - 1) + [StepAt(i - 1, x)]
  }

  lemma BegunSeen(a: Bytes, b: Bytes, x: Bytes)
    ensures Enabled(Begun(a, b, SECOND), DIAL) && SeenAt(Next(Begun(a, b, SECOND), DIAL), 0, a, b, x)
  {
  }

  lemma {:induction false} WrappedRunLeads(a: Bytes, b: Bytes, x: Bytes, i: nat)
    requires |a| <= MAX_ISO && |b| <= MAX_ISO && |x| <= MAX_ISO && i <= STEPS
    ensures var s := After(Start(1, 1), WrappedRun(a, b, x, i)); s.Some? && SeenAt(s.value, i, a, b, x)
  {
    hide After, SeenAt, Next, Enabled, Begins, StepAt;
    if i == 0 {
      BegunBy(a, b, SECOND);
      BegunSeen(a, b, x);
      AfterOne(Start(1, 1), Begins(a, b, SECOND), DIAL);
    } else {
      WrappedRunLeads(a, b, x, i - 1);
      var before := WrappedRun(a, b, x, i - 1);
      StepLeads(After(Start(1, 1), before).value, i - 1, a, b, x);
      AfterOne(Start(1, 1), before, StepAt(i - 1, x));
    }
  }

  /**
   Response integrity fails when an ID is not free, as it need not be behind 2^32 calls. A call with request b
   returns x, which the issuer has computed for another call from its request a, and that call waits in vain. The
   issuer has computed nothing else.
   */
  lemma IntegrityNeedsFreeIds(a: Bytes, b: Bytes, x: Bytes)
    requires |a| <= MAX_ISO && |b| <= MAX_ISO && |x| <= MAX_ISO
    ensures var s := After(Start(1, 1), WrappedRun(a, b, x, STEPS));
            && s.Some? && SECOND in s.value.calls
            && s.value.calls[SECOND].raw == b && s.value.calls[SECOND].phase == Done(Response(x))
            && 1 in s.value.calls && s.value.calls[1].raw == a && s.value.calls[1].phase == Waiting
            && s.value.book.answers == map[1 := Answer(a, Some(x))]
    ensures !IdsFree(Start(1, 1), WrappedRun(a, b, x, STEPS))
  {
    WrappedRunLeads(a, b, x, STEPS);
    hide After, WrappedRun;
    var s := After(Start(1, 1), WrappedRun(a, b, x, STEPS)).value;
    if IdsFree(Start(1, 1), WrappedRun(a, b, x, STEPS)) {
      ReachesInv(1, 1, WrappedRun(a, b, x, STEPS), s);
      ProtocolProof.AtCall(s, SECOND);
      assert false;
    }
  }
}
