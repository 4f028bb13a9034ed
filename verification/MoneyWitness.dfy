/**
 That the theorems on money speak of something: for every purchase that its card can pay, every reversal that its
 card can hold, and every message library that packs the request and its response, there is a run of the whole system
 that ends in APPROVED.
 */
module MoneyWitness {
  import opened Base
  import opened Engine
  import opened Money
  import opened Protocol
  import opened Rules
  import Ledger

  /** A purchase or a reversal, the card it names, and the clock and the authorization code of its decision. */
  datatype Payment = Payment(req: Msg, card: Ledger.Card, now: int, authCode: string) {
    predicate Possible() {
      && AmountOf(req.amount).Some? && AmountOf(req.amount).value > 0 && card.pan == req.pan
      && if IsReversal(req) then card.balance + AmountOf(req.amount).value <= Ledger.MAX_INT64
         else card.status == Ledger.ACTIVE && card.balance >= AmountOf(req.amount).value
    }

    function NewBalance(): int
      requires AmountOf(req.amount).Some?
    {
      if IsReversal(req) then card.balance + AmountOf(req.amount).value else card.balance - AmountOf(req.amount).value
    }

    function Approval(): Decision
      requires AmountOf(req.amount).Some?
    {
      if IsReversal(req) then Decision(APPROVED, Some(authCode), None, None, None)
      else Decision(APPROVED, Some(authCode), None, Some(card.balance), Some(NewBalance()))
    }

    function Reply(): Msg
      requires AmountOf(req.amount).Some?
    {
      Respond(req, Approval())
    }
  }

  ghost predicate CanBePacked(codec: Codec, p: Payment) {
    GoodCodec(codec) && p.Possible() && codec.pack(p.req).Some? && codec.pack(p.Reply()).Some?
  }

  // ----- a library -----

  /** A library that knows two messages. */
  function TwoMessages(a: Msg, b: Msg): Codec {
    Codec(m => if m == a then Some([1]) else if m == b then Some([2]) else None,
          bytes => if bytes == [1] then Some(a) else if bytes == [2] then Some(b) else None)
  }

  lemma TwoMessagesPack(p: Payment)
    requires p.Possible()
    ensures CanBePacked(TwoMessages(p.req, p.Reply()), p)
  {
    var codec := TwoMessages(p.req, p.Reply());
    var one, two: Bytes := [1], [2];
    assert one != two;
    forall m: Msg | codec.pack(m).Some?
      ensures codec.unpack(codec.pack(m).value) == Some(m) && |codec.pack(m).value| <= MAX_ISO
    {
    }
  }

  // ----- the run -----

  function StepAt(i: nat): Step {
    match i
    case 1 => ListenerStep(0, Connect(0))
    case 2 => ListenerStep(0, Listen)
    case 4 => CallStep(1, Register)
    case 5 => CallStep(1, Pick)
    case 6 => CallStep(1, WriteOk)
    case 7 => ReaderStep(0, ReadRequest)
    case 8 => ReaderStep(0, Admit(0))
    case 9 => HandlerStep(0, Run)
    case 11 => HandlerStep(0, HandlerEvent.Reply)
    case 12 => ListenerStep(0, ReadReply)
    case 13 => ListenerStep(0, LookUp)
    case 14 => ListenerStep(0, Deliver)
    case 15 => CallStep(1, Receive)
    case _ => CallStep(1, Unregister)
  }

  function ActionAt(i: nat, p: Payment): Action {
    match i
    case 0 => Administer(Ledger.Create(0, p.card))
    case 3 => Submit(p.req)
    case 10 => Handle(0, p.now, true, p.authCode)
    case _ => Net(StepAt(i))
  }

  /** A reversal looks its card up before it is decided. */
  function ActionsAt(i: nat, p: Payment): seq<Action> {
    if i == 10 && IsReversal(p.req) then [FindCard(0, true)] + [ActionAt(i, p)] else [ActionAt(i, p)]
  }

  const PARTS: nat := 17

  const DIAL := ListenerStep(0, Dial)

  /** The listener dials, and the actions of the payment follow. */
  function Paying(p: Payment, i: nat): seq<Action> {
    if i == 0 then [Net(DIAL)] else Paying(p, i - 1) + ActionsAt(i - 1, p)
  }

  // ----- what holds on its way, with request a and response x -----

  function ListenerAt(i: nat, x: Bytes): Listener {
    if i < 3 then Listener.Idle
    else if i == 13 then Routing(0, Message(1, x))
    else if i == 14 then Delivering(0, 1, x)
    else Listening(0)
  }

  function ConnsAt(i: nat, a: Bytes, x: Bytes): map<nat, Conn> {
    if i < 2 then map[]
    else
      map[0 := Conn(if i == 7 then [Message(1, a)] else [], if i == 12 then [Message(1, x)] else [],
                    true, true, if i == 8 then AwaitingSlot(Message(1, a)) else Reading)]
  }

  function HandlerAt(i: nat, x: Bytes): HandlerPhase {
    if i == 9 then Spawned else if i == 10 then Running else if i == 11 then Computed(x) else Exiting
  }

  function CallAt(i: nat, x: Bytes): CallPhase {
    if i == 4 then Allocated
    else if i == 5 then Selecting(0)
    else if i == 6 then Writing(0, 0)
    else if i < 16 then Waiting
    else if i == 16 then Returning(Response(x))
    else Done(Response(x))
  }

  predicate CallSeen(net: State, i: nat, a: Bytes, x: Bytes) {
    && net.counter == (if i < 4 then 0 else 1)
    && net.calls == (if i < 4 then map[]
                     else map[1 := Call(a, CallAt(i, x), if i == 15 then Some(x) else None,
                                        if i < 6 then 0 else 1, if i < 7 then 0 else 1)])
    && net.pending == (if i < 5 || i == 17 then map[] else map[1 := 1])
  }

  predicate NetSeen(net: State, i: nat, a: Bytes, x: Bytes) {
    && CallSeen(net, i, a, x)
    && net.slots == [if i < 2 then None else Some(0)] && net.cursor == 0
    && net.dialing == (if i < 2 then Some(0) else None)
    && net.listeners == [ListenerAt(i, x)]
    && net.conns == ConnsAt(i, a, x)
    && net.workers == (if i < 9 then 0 else 1) && net.workerLimit == 1
    && net.handlers == (if i < 9 then map[] else map[0 := Handler(0, Message(1, a), HandlerAt(i, x))])
  }

  function TableAt(i: nat, p: Payment): Ledger.Table
    requires p.Possible()
  {
    if i < 1 then map[] else map[0 := if i < 11 then p.card else p.card.(balance := p.NewBalance())]
  }

  predicate BankSeen(s: System, i: nat, p: Payment)
    requires p.Possible()
  {
    s.bank.table == TableAt(i, p) && s.found == (if i >= 11 && IsReversal(p.req) then map[0 := Some(0)] else map[])
  }

  ghost predicate SeenAt(codec: Codec, s: System, i: nat, p: Payment)
    requires CanBePacked(codec, p)
  {
    NetSeen(s.net, i, codec.pack(p.req).value, codec.pack(p.Reply()).value) && BankSeen(s, i, p)
  }

  // ----- every action leads on -----

  lemma SendingLeads(net: State, i: nat, a: Bytes, x: Bytes)
    requires 4 <= i < 7 && NetSeen(net, i, a, x)
    ensures Enabled(net, StepAt(i)) && NetSeen(Next(net, StepAt(i)), i + 1, a, x)
  {
    hide ListenerNext, ReaderNext, HandlerNext, ListenerEnabled, ReaderEnabled, HandlerEnabled;
    assert CorrId(1) == 1;
    if i == 6 {
      var t := Next(net, StepAt(i));
      assert t.conns[0].toIssuer == [Message(1, a)];
      assert t.conns == ConnsAt(7, a, x);
    }
  }

  lemma ReturningLeads(net: State, i: nat, a: Bytes, x: Bytes)
    requires 15 <= i < 17 && NetSeen(net, i, a, x)
    ensures Enabled(net, StepAt(i)) && NetSeen(Next(net, StepAt(i)), i + 1, a, x)
  {
    hide ListenerNext, ReaderNext, HandlerNext, ListenerEnabled, ReaderEnabled, HandlerEnabled;
    assert CorrId(1) == 1;
  }

  lemma ConnectingLeads(net: State, i: nat, a: Bytes, x: Bytes)
    requires 1 <= i < 3 && NetSeen(net, i, a, x)
    ensures Enabled(net, StepAt(i)) && NetSeen(Next(net, StepAt(i)), i + 1, a, x)
  {
    hide CallNext, ReaderNext, HandlerNext, CallEnabled, ReaderEnabled, HandlerEnabled;
    assert Next(net, StepAt(i)).conns == ConnsAt(i + 1, a, x);
  }

  lemma RoutingLeads(net: State, i: nat, a: Bytes, x: Bytes)
    requires 12 <= i < 15 && NetSeen(net, i, a, x)
    ensures Enabled(net, StepAt(i)) && NetSeen(Next(net, StepAt(i)), i + 1, a, x)
  {
    hide CallNext, ReaderNext, HandlerNext, CallEnabled, ReaderEnabled, HandlerEnabled;
    var t := Next(net, StepAt(i));
    if i == 12 {
      assert t.conns[0].toAcquirer == [];
    }
    assert t.conns == ConnsAt(i + 1, a, x);
  }

  lemma ReaderLeads(net: State, i: nat, a: Bytes, x: Bytes)
    requires 7 <= i < 9 && NetSeen(net, i, a, x)
    ensures Enabled(net, StepAt(i)) && NetSeen(Next(net, StepAt(i)), i + 1, a, x)
  {
    hide CallNext, ListenerNext, HandlerNext, CallEnabled, ListenerEnabled, HandlerEnabled;
    var t := Next(net, StepAt(i));
    if i == 7 {
      assert t.conns[0].toIssuer == [];
    }
    assert t.conns == ConnsAt(i + 1, a, x);
  }

  lemma HandlerLeads(net: State, i: nat, a: Bytes, x: Bytes)
    requires i in {9, 11} && NetSeen(net, i, a, x)
    ensures Enabled(net, StepAt(i)) && NetSeen(Next(net, StepAt(i)), i + 1, a, x)
  {
    hide CallNext, ListenerNext, ReaderNext, CallEnabled, ListenerEnabled, ReaderEnabled;
    var t := Next(net, StepAt(i));
    if i == 11 {
      assert t.conns[0].toAcquirer == [Message(1, x)];
    }
    assert t.conns == ConnsAt(i + 1, a, x);
  }

  lemma NetLeads(codec: Codec, s: System, i: nat, p: Payment)
    requires CanBePacked(codec, p) && SeenAt(codec, s, i, p) && i < PARTS && i !in {0, 3, 10}
    ensures ActionEnabled(codec, s, ActionAt(i, p)) && SeenAt(codec, ActionNext(codec, s, ActionAt(i, p)), i + 1, p)
  {
    hide NetSeen, Next, Enabled, GoodCodec;
    var a, x := codec.pack(p.req).value, codec.pack(p.Reply()).value;
    if i < 3 {
      ConnectingLeads(s.net, i, a, x);
    } else if i < 7 {
      SendingLeads(s.net, i, a, x);
    } else if i < 9 {
      ReaderLeads(s.net, i, a, x);
    } else if i < 12 {
      HandlerLeads(s.net, i, a, x);
    } else if i < 15 {
      RoutingLeads(s.net, i, a, x);
    } else {
      ReturningLeads(s.net, i, a, x);
    }
  }

  lemma DialLeads(codec: Codec, p: Payment)
    requires CanBePacked(codec, p)
    ensures var s := Money.After(codec, Money.Idle(1, 1), [Net(DIAL)]); s.Some? && SeenAt(codec, s.value, 0, p)
    ensures Money.IdsFree(codec, Money.Idle(1, 1), [Net(DIAL)])
  {
    hide GoodCodec;
    var start := Money.Idle(1, 1);
    assert [Net(DIAL)][..0] == [];
    assert Money.After(codec, start, []) == Some(start) && Money.IdsFree(codec, start, []);
    assert ActionEnabled(codec, start, Net(DIAL)) && FreshAction(start, Net(DIAL));
  }

  lemma CreateLeads(codec: Codec, s: System, p: Payment)
    requires CanBePacked(codec, p) && SeenAt(codec, s, 0, p)
    ensures ActionEnabled(codec, s, ActionAt(0, p)) && SeenAt(codec, ActionNext(codec, s, ActionAt(0, p)), 1, p)
  {
    hide Next, Enabled, GoodCodec;
  }

  lemma SubmitLeads(codec: Codec, s: System, p: Payment)
    requires CanBePacked(codec, p) && SeenAt(codec, s, 3, p)
    ensures ActionEnabled(codec, s, ActionAt(3, p)) && SeenAt(codec, ActionNext(codec, s, ActionAt(3, p)), 4, p)
  {
    hide CallNext, ListenerNext, ReaderNext, HandlerNext;
  }

  lemma TheCard(t: Ledger.Table, p: Payment)
    requires p.Possible() && t == map[0 := p.card]
    ensures Ledger.HasPan(t, p.req.pan) && Ledger.IdOf(t, p.req.pan) == 0
    ensures Ledger.WithBalance(t, 0, p.NewBalance()) == map[0 := p.card.(balance := p.NewBalance())]
  {
    assert Ledger.HasPan(t, p.req.pan) by {
      assert 0 in t && t[0].pan == p.req.pan;
    }
  }

  /** A card that can pays, whatever the clock says, and one that can hold the sum is credited. */
  lemma CardPays(s: System, p: Payment)
    requires p.Possible() && s.bank.table == map[0 := p.card]
    requires IsReversal(p.req) ==> 0 in s.found && s.found[0] == Some(0)
    ensures Decided(s, 0, p.req, p.now, true, p.authCode)
            == (p.Approval(), map[0 := p.card.(balance := p.NewBalance())])
  {
    TheCard(s.bank.table, p);
  }

  lemma ExecuteLeads(net: State, a: Bytes, x: Bytes)
    requires NetSeen(net, 10, a, x) && |x| <= MAX_ISO
    ensures HandlerEnabled(net, 0, Execute(Some(x))) && NetSeen(HandlerNext(net, 0, Execute(Some(x))), 11, a, x)
  {
  }

  /** What holds before the decision; a reversal has found its card. */
  ghost predicate Ready(codec: Codec, s: System, p: Payment)
    requires CanBePacked(codec, p)
  {
    && NetSeen(s.net, 10, codec.pack(p.req).value, codec.pack(p.Reply()).value) && s.bank.table == TableAt(10, p)
    && s.found == if IsReversal(p.req) then map[0 := Some(0)] else map[]
  }

  lemma FindLeads(codec: Codec, s: System, p: Payment)
    requires CanBePacked(codec, p) && SeenAt(codec, s, 10, p) && IsReversal(p.req)
    ensures ActionEnabled(codec, s, FindCard(0, true)) && Ready(codec, ActionNext(codec, s, FindCard(0, true)), p)
  {
    TheCard(s.bank.table, p);
    hide GoodCodec;
    assert codec.unpack(s.net.handlers[0].message.iso) == Some(p.req);
  }

  lemma HandleLeads(codec: Codec, s: System, p: Payment)
    requires CanBePacked(codec, p) && Ready(codec, s, p)
    ensures ActionEnabled(codec, s, ActionAt(10, p)) && SeenAt(codec, ActionNext(codec, s, ActionAt(10, p)), 11, p)
  {
    hide HandlerNext, Decided;
    ExecuteLeads(s.net, codec.pack(p.req).value, codec.pack(p.Reply()).value);
    CardPays(s, p);
    assert codec.unpack(s.net.handlers[0].message.iso) == Some(p.req);
  }

  lemma ActionLeads(codec: Codec, s: System, i: nat, p: Payment)
    requires CanBePacked(codec, p) && SeenAt(codec, s, i, p) && i < PARTS && i != 10
    ensures ActionEnabled(codec, s, ActionAt(i, p)) && SeenAt(codec, ActionNext(codec, s, ActionAt(i, p)), i + 1, p)
  {
    hide SeenAt, CanBePacked, ActionEnabled, ActionNext, ActionAt;
    match i
    case 0 => CreateLeads(codec, s, p);
    case 3 => SubmitLeads(codec, s, p);
    case _ => NetLeads(codec, s, i, p);
  }

  /** The one call there is registers under an ID that nobody has. */
  lemma ActionFresh(codec: Codec, s: System, i: nat, p: Payment)
    requires CanBePacked(codec, p) && SeenAt(codec, s, i, p) && i < PARTS
    ensures FreshAction(s, ActionAt(i, p))
  {
    hide GoodCodec;
  }

  lemma OneMore(codec: Codec, start: System, actions: seq<Action>, a: Action)
    requires Money.After(codec, start, actions).Some? && Money.IdsFree(codec, start, actions)
    requires var s := Money.After(codec, start, actions).value; ActionEnabled(codec, s, a) && FreshAction(s, a)
    ensures Money.After(codec, start, actions + [a]) == Some(ActionNext(codec, Money.After(codec, start, actions).value, a))
    ensures Money.IdsFree(codec, start, actions + [a])
  {
    hide ActionEnabled, ActionNext, FreshAction;
    assert (actions + [a])[..|actions|] == actions;
  }

  /** The decision, behind the look-up if there is one. */
  lemma DecisionLeads(codec: Codec, actions: seq<Action>, p: Payment)
    requires CanBePacked(codec, p)
    requires var s := Money.After(codec, Money.Idle(1, 1), actions); s.Some? && SeenAt(codec, s.value, 10, p)
    requires Money.IdsFree(codec, Money.Idle(1, 1), actions)
    ensures var s := Money.After(codec, Money.Idle(1, 1), actions + ActionsAt(10, p)); s.Some? && SeenAt(codec, s.value, 11, p)
    ensures Money.IdsFree(codec, Money.Idle(1, 1), actions + ActionsAt(10, p))
  {
    hide CanBePacked, NetSeen, ActionEnabled, ActionNext, Money.After, Money.IdsFree, Money.Idle;
    var start := Money.Idle(1, 1);
    var s := Money.After(codec, start, actions).value;
    var found := actions;
    if IsReversal(p.req) {
      FindLeads(codec, s, p);
      OneMore(codec, start, actions, FindCard(0, true));
      found := actions + [FindCard(0, true)];
      assert found + [ActionAt(10, p)] == actions + ActionsAt(10, p);
    }
    HandleLeads(codec, Money.After(codec, start, found).value, p);
    OneMore(codec, start, found, ActionAt(10, p));
  }

  lemma {:induction false} PayingLeads(codec: Codec, i: nat, p: Payment)
    requires CanBePacked(codec, p) && i <= PARTS
    ensures var s := Money.After(codec, Money.Idle(1, 1), Paying(p, i)); s.Some? && SeenAt(codec, s.value, i, p)
    ensures Money.IdsFree(codec, Money.Idle(1, 1), Paying(p, i))
  {
    hide CanBePacked, SeenAt, FreshAction, ActionEnabled, ActionNext, ActionAt, Money.After, Money.IdsFree, Money.Idle;
    if i == 0 {
      DialLeads(codec, p);
    } else {
      PayingLeads(codec, i - 1, p);
      var before := Paying(p, i - 1);
      if i - 1 == 10 {
        DecisionLeads(codec, before, p);
      } else {
        var s := Money.After(codec, Money.Idle(1, 1), before).value;
        ActionLeads(codec, s, i - 1, p);
        ActionFresh(codec, s, i - 1, p);
        OneMore(codec, Money.Idle(1, 1), before, ActionAt(i - 1, p));
      }
    }
  }

  /** The whole way of a payment: from an idle system to APPROVED, with the amount taken from the card or given back to it. */
  lemma ApprovedRun(codec: Codec, p: Payment)
    requires CanBePacked(codec, p)
    ensures var s := Money.After(codec, Money.Idle(1, 1), Paying(p, PARTS));
            && s.Some? && Money.Reaches(codec, 1, 1, Paying(p, PARTS), s.value)
            && Verdict(codec, s.value, 1) == Some(StatusApproved)
            && s.value.bank.table == map[0 := p.card.(balance := p.card.balance + SignedAmount(p.req))]
  {
    hide Money.After, Money.IdsFree, Paying;
    PayingLeads(codec, PARTS, p);
  }

  /** There is such a library for every possible payment, and so such a run. */
  lemma PossibleIsApproved(p: Payment)
    requires p.Possible()
    ensures exists codec: Codec, actions: seq<Action>, s: System ::
              && GoodCodec(codec) && Money.Reaches(codec, 1, 1, actions, s)
              && Verdict(codec, s, 1) == Some(StatusApproved)
              && s.bank.table == map[0 := p.card.(balance := p.card.balance + SignedAmount(p.req))]
  {
    hide Money.Reaches, Money.After, Verdict;
    var codec := TwoMessages(p.req, p.Reply());
    TwoMessagesPack(p);
    ApprovedRun(codec, p);
    var s := Money.After(codec, Money.Idle(1, 1), Paying(p, PARTS)).value;
    assert GoodCodec(codec) && Money.Reaches(codec, 1, 1, Paying(p, PARTS), s);
  }
}
