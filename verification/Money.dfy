/**
 Acquirer, network, issuer and ledger as one system: calls of `handleTransaction` travel through the
 protocol, the issuer's handlers decide them on the cards table, and card administration goes on
 beside them. The theorems say that what the acquirer reports agrees with what happened to the money.
 */
module Money {
  import opened Base
  import Ledger
  import opened Engine
  import opened Rules
  import opened Protocol
  import ProtocolProof
  import ProtocolTheorems

  /** One change of one card's balance, and the call that caused it; none for card administration. */
  datatype Entry = Entry(call: Option<nat>, card: nat, delta: int)

  /**
   `found` holds the card a reversal's handler has looked up. `sent`, `decisions` and `log` are
   history: the request message of each call, what was decided on it, and every change of a balance.
   */
  datatype System = System(net: State, bank: Ledger.State, found: map<nat, Option<nat>>,
                           sent: map<nat, Msg>, decisions: map<nat, Decision>, log: seq<Entry>)

  datatype Action =
    | Submit(msg: Msg)                                                   // handleTransaction up to the switch
    | Net(step: Step)                                                    // any other step of the protocol
    | FindCard(handler: nat, up: bool)                                   // the SELECT of a reversal
    | Handle(handler: nat, now: int, up: bool, authCode: string)         // decides; ends in the handler's answer
    | Administer(event: Ledger.Event)                                    // the card service

  /** What is assumed of the message library: packing can be undone, and packed messages fit a frame. */
  ghost predicate GoodCodec(codec: Codec) {
    && Invertible(codec)
    && forall m: Msg :: codec.pack(m).Some? ==> |codec.pack(m).value| <= MAX_ISO
  }

  predicate ByCardService(e: Ledger.Event) {
    !e.Authorize? && !e.Debit?
  }

  /** A reversal whose amount is readable looks its card up before it credits. */
  predicate NeedsCard(req: Msg) {
    IsReversal(req) && AmountOf(req.amount).Some?
  }

  predicate ActionEnabled(codec: Codec, s: System, a: Action) {
    match a
    case Submit(msg) => codec.pack(msg).Some? && |codec.pack(msg).value| <= MAX_ISO
    case Net(step) => Enabled(s.net, step) && !step.Begin? && !(step.HandlerStep? && step.handlerEvent.Execute?)
    case FindCard(h, _) =>
      h in s.net.handlers && s.net.handlers[h].phase.Running? && h !in s.found
      && var req := codec.unpack(s.net.handlers[h].message.iso); req.Some? && NeedsCard(req.value)
    case Handle(h, _, _, _) =>
      h in s.net.handlers && s.net.handlers[h].phase.Running? && s.net.handlers[h].conn in s.net.conns
      && var req := codec.unpack(s.net.handlers[h].message.iso); req.Some? && NeedsCard(req.value) ==> h in s.found
    case Administer(e) => ByCardService(e)
  }

  /** The decision a handler reaches in this state, and the table after it. */
  ghost function Decided(s: System, h: nat, req: Msg, now: int, up: bool, authCode: string): (Decision, Ledger.Table) {
    if IsReversal(req) then
      DecideReversal(s.bank.table, if h in s.found then s.found[h] else None, req, up, authCode)
    else DecidePurchase(s.bank.table, req, now, up, authCode)
  }

  /** The card an approved request moves. */
  ghost function CardOf(s: System, h: nat, req: Msg): nat {
    if IsReversal(req) then if h in s.found && s.found[h].Some? then s.found[h].value else 0
    else if Ledger.HasPan(s.bank.table, req.pan) then Ledger.IdOf(s.bank.table, req.pan) else 0
  }

  ghost function HandleNext(codec: Codec, s: System, h: nat, now: int, up: bool, authCode: string): System
    requires h in s.net.handlers && HandlerEnabled(s.net, h, Execute(None))
  {
    var m := s.net.handlers[h].message;
    match codec.unpack(m.iso)
    case None => s.(net := HandlerNext(s.net, h, Execute(None)))
    case Some(req) =>
      var (d, table) := Decided(s, h, req, now, up, authCode);
      var reply := codec.pack(Respond(req, d));
      s.(net := HandlerNext(s.net, h, Execute(if reply.Some? && |reply.value| <= MAX_ISO then reply else None)),
         bank := s.bank.(table := table),
         decisions := s.decisions[m.call := d],
         log := if d.code == APPROVED && AmountOf(req.amount).Some?
                then s.log + [Entry(Some(m.call), CardOf(s, h, req), SignedAmount(req))] else s.log)
  }

  /** The card an administrative event is about. */
  function CardOfEvent(s: System, e: Ledger.Event): nat {
    match e
    case WriteEdit(edit, _) => if edit in s.bank.edits then s.bank.edits[edit].id else 0
    case Authorize(_, _) => 0
    case _ => e.id
  }

  ghost function AdministerNext(s: System, e: Ledger.Event): System {
    var after, id := Ledger.Next(s.bank, e), CardOfEvent(s, e);
    s.(bank := after,
       log := s.log + [Entry(None, id, Ledger.BalanceOf(after.table, id) - Ledger.BalanceOf(s.bank.table, id))])
  }

  ghost function ActionNext(codec: Codec, s: System, a: Action): System
    requires ActionEnabled(codec, s, a)
  {
    match a
    case Submit(msg) =>
      s.(net := Next(s.net, Begin(codec.pack(msg).value)), sent := s.sent[s.net.counter + 1 := msg])
    case Net(step) => s.(net := Next(s.net, step))
    case FindCard(h, up) =>
      s.(found := s.found[h := CardFound(s.bank.table, codec.unpack(s.net.handlers[h].message.iso).value, up)])
    case Handle(h, now, up, authCode) => HandleNext(codec, s, h, now, up, authCode)
    case Administer(e) => AdministerNext(s, e)
  }

  /** An idle switch in front of an empty cards table. */
  function Idle(poolSize: nat, workerLimit: nat): System
    requires poolSize > 0
  {
    System(Start(poolSize, workerLimit), Ledger.State(map[], map[]), map[], map[], map[], [])
  }

  ghost function After(codec: Codec, start: System, actions: seq<Action>): Option<System> {
    if actions == [] then Some(start)
    else
      var before := After(codec, start, actions[..|actions| - 1]);
      var last := actions[|actions| - 1];
      if before.Some? && ActionEnabled(codec, before.value, last) then Some(ActionNext(codec, before.value, last)) else None
  }

  // ----- what the acquirer reports -----

  /** `handleTransaction`'s verdict on a finished call: the status it records and answers with. */
  function VerdictOn(codec: Codec, outcome: Outcome): Status {
    match outcome
    case Response(iso) =>
      var resp := codec.unpack(iso);
      if resp.None? then StatusError else if resp.value.respCode == APPROVED then StatusApproved else StatusDeclined
    case _ => StatusError
  }

  function Verdict(codec: Codec, s: System, n: nat): Option<Status> {
    if n in s.net.calls && s.net.calls[n].phase.Done? then Some(VerdictOn(codec, s.net.calls[n].phase.outcome)) else None
  }

  /** The entries of the log that a call caused. */
  function EntriesOf(log: seq<Entry>, n: nat): seq<Entry> {
    if log == [] then []
    else
      var last := log[|log| - 1];
      EntriesOf(log[..|log| - 1], n) + if last.call == Some(n) then [last] else []
  }

  function Sum(log: seq<Entry>, card: nat): int {
    if log == [] then 0
    else
      var last := log[|log| - 1];
      Sum(log[..|log| - 1], card) + if last.card == card then last.delta else 0
  }

  lemma LogAppend(log: seq<Entry>, e: Entry, n: nat, card: nat)
    ensures EntriesOf(log + [e], n) == EntriesOf(log, n) + if e.call == Some(n) then [e] else []
    ensures Sum(log + [e], card) == Sum(log, card) + if e.card == card then e.delta else 0
  {
    assert (log + [e])[..|log|] == log;
  }

  // ----- the invariant -----

  /** Each call carries its own packed request. */
  ghost predicate SentInv(codec: Codec, sent: map<nat, Msg>, raw: map<nat, Bytes>) {
    && sent.Keys == raw.Keys
    && forall n :: n in sent ==> codec.pack(sent[n]) == Some(raw[n])
  }

  predicate FoundOk(codec: Codec, found: Option<nat>, m: Message, table: Ledger.Table) {
    var req := codec.unpack(m.iso);
    req.Some? && (found.Some? ==> found.value in table && table[found.value].pan == req.value.pan)
  }

  /** A reversal's handler has found the card of its own request. */
  ghost predicate FoundInv(codec: Codec, found: map<nat, Option<nat>>, handlers: map<nat, Handler>, table: Ledger.Table) {
    forall h :: h in found ==> h in handlers && FoundOk(codec, found[h], handlers[h].message, table)
  }

  /** The issuer's answer to a call is its decision on the call's own request. */
  ghost predicate AnswerInv(codec: Codec, sent: map<nat, Msg>, decisions: map<nat, Decision>, answers: map<nat, Answer>) {
    && decisions.Keys == answers.Keys <= sent.Keys
    && forall n :: n in answers ==> answers[n].response == codec.pack(Respond(sent[n], decisions[n]))
  }

  ghost predicate Charged(table: Ledger.Table, req: Msg, n: nat, entries: seq<Entry>) {
    && AmountOf(req.amount).Some? && AmountOf(req.amount).value > 0
    && |entries| == 1
    && entries[0] == Entry(Some(n), entries[0].card, SignedAmount(req))
    && entries[0].card in table && table[entries[0].card].pan == req.pan
  }

  /** A call has moved money exactly when it was decided to be approved, and then once and by its own amount. */
  ghost predicate LogOk(table: Ledger.Table, sent: map<nat, Msg>, decisions: map<nat, Decision>, log: seq<Entry>, n: nat) {
    if n in decisions && n in sent && decisions[n].code == APPROVED
    then Charged(table, sent[n], n, EntriesOf(log, n))
    else EntriesOf(log, n) == []
  }

  ghost predicate LogInv(table: Ledger.Table, sent: map<nat, Msg>, decisions: map<nat, Decision>, log: seq<Entry>) {
    forall n: nat :: LogOk(table, sent, decisions, log, n)
  }

  /** The log explains every balance. */
  ghost predicate BooksBalance(table: Ledger.Table, log: seq<Entry>) {
    forall card: nat :: Ledger.BalanceOf(table, card) == Sum(log, card)
  }

  ghost predicate SystemInv(codec: Codec, s: System) {
    && Inv(s.net)
    && Ledger.Consistent(s.bank)
    && SentInv(codec, s.sent, s.net.book.raw)
    && FoundInv(codec, s.found, s.net.handlers, s.bank.table)
    && AnswerInv(codec, s.sent, s.decisions, s.net.book.answers)
    && LogInv(s.bank.table, s.sent, s.decisions, s.log)
    && BooksBalance(s.bank.table, s.log)
  }

  lemma IdleInv(codec: Codec, poolSize: nat, workerLimit: nat)
    requires poolSize > 0
    ensures SystemInv(codec, Idle(poolSize, workerLimit))
  {
    ProtocolProof.StartInv(poolSize, workerLimit);
    hide Inv;
  }

  // ----- every action keeps the invariant -----

  lemma FoundKept(codec: Codec, found: map<nat, Option<nat>>, handlers: map<nat, Handler>, handlers': map<nat, Handler>,
                  table: Ledger.Table, table': Ledger.Table)
    requires FoundInv(codec, found, handlers, table) && Ledger.KeepsPans(table, table')
    requires forall h :: h in handlers ==> h in handlers' && handlers'[h].message == handlers[h].message
    ensures FoundInv(codec, found, handlers', table')
  {
  }

  lemma LogKept(table: Ledger.Table, table': Ledger.Table, sent: map<nat, Msg>, decisions: map<nat, Decision>, log: seq<Entry>)
    requires LogInv(table, sent, decisions, log) && Ledger.KeepsPans(table, table')
    ensures LogInv(table', sent, decisions, log)
  {
    forall n: nat ensures LogOk(table', sent, decisions, log, n) {
      assert LogOk(table, sent, decisions, log, n);
    }
  }

  lemma SubmitBooks(codec: Codec, t: Ledger.Table, sent: map<nat, Msg>, decisions: map<nat, Decision>,
                    answers: map<nat, Answer>, log: seq<Entry>, n: nat, msg: Msg)
    requires LogInv(t, sent, decisions, log) && AnswerInv(codec, sent, decisions, answers) && n !in sent
    ensures LogInv(t, sent[n := msg], decisions, log) && AnswerInv(codec, sent[n := msg], decisions, answers)
  {
    var sent' := sent[n := msg];
    forall m: nat ensures LogOk(t, sent', decisions, log, m) {
      assert LogOk(t, sent, decisions, log, m);
    }
  }

  lemma SubmitPreserves(codec: Codec, s: System, msg: Msg)
    requires SystemInv(codec, s) && ActionEnabled(codec, s, Submit(msg))
    ensures SystemInv(codec, ActionNext(codec, s, Submit(msg)))
  {
    hide Inv, Next, Ledger.Consistent, FoundInv, BooksBalance, LogInv, AnswerInv;
    var n, raw := s.net.counter + 1, codec.pack(msg).value;
    ProtocolProof.NewNumber(s.net);
    ProtocolProof.BeginEffect(s.net, raw);
    ProtocolProof.StepPreserves(s.net, Begin(raw));
    SubmitBooks(codec, s.bank.table, s.sent, s.decisions, s.net.book.answers, s.log, n, msg);
  }

  lemma NetPreserves(codec: Codec, s: System, step: Step)
    requires SystemInv(codec, s) && ActionEnabled(codec, s, Net(step)) && FreshStep(s.net, step)
    ensures SystemInv(codec, ActionNext(codec, s, Net(step)))
  {
    hide Inv, Next, Enabled, Ledger.Consistent, FoundInv, BooksBalance, LogInv, AnswerInv, SentInv;
    var net' := Next(s.net, step);
    ProtocolProof.StepPreserves(s.net, step);
    ProtocolTheorems.StepEffect(s.net, step);
    ProtocolTheorems.StepKeepsMessages(s.net, step);
    FoundKept(codec, s.found, s.net.handlers, net'.handlers, s.bank.table, s.bank.table);
  }

  lemma FindPreserves(codec: Codec, s: System, h: nat, up: bool)
    requires SystemInv(codec, s) && ActionEnabled(codec, s, FindCard(h, up))
    ensures SystemInv(codec, ActionNext(codec, s, FindCard(h, up)))
  {
    hide Inv, Ledger.Consistent, BooksBalance, LogInv, AnswerInv, SentInv;
  }

  /** An administrative event changes one card's balance only. */
  lemma OthersUnchanged(s: System, e: Ledger.Event)
    requires ByCardService(e)
    ensures forall c: nat :: c != CardOfEvent(s, e) ==>
              Ledger.BalanceOf(Ledger.Next(s.bank, e).table, c) == Ledger.BalanceOf(s.bank.table, c)
  {
  }

  /** An entry that says what happened to one balance keeps the books. */
  lemma BooksAfter(t: Ledger.Table, t': Ledger.Table, log: seq<Entry>, entry: Entry)
    requires BooksBalance(t, log)
    requires Ledger.BalanceOf(t', entry.card) == Ledger.BalanceOf(t, entry.card) + entry.delta
    requires forall c: nat :: c != entry.card ==> Ledger.BalanceOf(t', c) == Ledger.BalanceOf(t, c)
    ensures BooksBalance(t', log + [entry])
  {
    forall c: nat ensures Ledger.BalanceOf(t', c) == Sum(log + [entry], c) {
      LogAppend(log, entry, 0, c);
    }
  }

  lemma AdminEntry(t: Ledger.Table, sent: map<nat, Msg>, decisions: map<nat, Decision>, log: seq<Entry>, entry: Entry)
    requires LogInv(t, sent, decisions, log) && entry.call == None
    ensures LogInv(t, sent, decisions, log + [entry])
  {
    forall n: nat ensures LogOk(t, sent, decisions, log + [entry], n) {
      assert LogOk(t, sent, decisions, log, n);
      LogAppend(log, entry, n, 0);
    }
  }

  lemma AdministerPreserves(codec: Codec, s: System, e: Ledger.Event)
    requires SystemInv(codec, s) && ActionEnabled(codec, s, Administer(e))
    ensures SystemInv(codec, ActionNext(codec, s, Administer(e)))
  {
    hide Inv, AnswerInv, SentInv, FoundInv, LogInv, BooksBalance, Ledger.Consistent, Ledger.Next;
    var s' := ActionNext(codec, s, Administer(e));
    var t, t' := s.bank.table, s'.bank.table;
    Ledger.ConsistentNext(s.bank, e);
    FoundKept(codec, s.found, s.net.handlers, s.net.handlers, t, t');
    LogKept(t, t', s.sent, s.decisions, s.log);
    OthersUnchanged(s, e);
    var entry := s'.log[|s.log|];
    BooksAfter(t, t', s.log, entry);
    AdminEntry(t', s.sent, s.decisions, s.log, entry);
  }

  /** What a handler decides moves the card of its request by the request's amount, or nothing. */
  lemma DecidedMoves(codec: Codec, s: System, h: nat, req: Msg, now: int, up: bool, authCode: string)
    requires Ledger.UniquePans(s.bank.table)
    requires h in s.net.handlers && codec.unpack(s.net.handlers[h].message.iso) == Some(req)
    requires h in s.found ==> FoundOk(codec, s.found[h], s.net.handlers[h].message, s.bank.table)
    ensures var (d, table) := Decided(s, h, req, now, up, authCode);
            var t, card := s.bank.table, CardOf(s, h, req);
            && (d.code != APPROVED ==> table == t)
            && (d.code == APPROVED ==>
                  && AmountOf(req.amount).Some? && AmountOf(req.amount).value > 0
                  && card in t && t[card].pan == req.pan
                  && table == Ledger.WithBalance(t, card, t[card].balance + SignedAmount(req)))
  {
  }

  /** A running handler holds its own call's request, unanswered. */
  lemma HandlerHolds(codec: Codec, s: System, h: nat)
    requires GoodCodec(codec) && SystemInv(codec, s) && h in s.net.handlers && s.net.handlers[h].phase.Running?
    ensures var m := s.net.handlers[h].message;
            && m.call in s.sent && codec.unpack(m.iso) == Some(s.sent[m.call])
            && m.call !in s.net.book.answers && m.call !in s.decisions
  {
    hide Inv;
    ProtocolProof.AtHandler(s.net, h);
    ProtocolProof.AtBook(s.net, s.net.handlers[h].message.call);
  }

  lemma AnswerAdded(codec: Codec, sent: map<nat, Msg>, decisions: map<nat, Decision>, answers: map<nat, Answer>,
                    k: nat, d: Decision, answer: Answer)
    requires AnswerInv(codec, sent, decisions, answers) && k in sent
    requires answer.response == codec.pack(Respond(sent[k], d))
    ensures AnswerInv(codec, sent, decisions[k := d], answers[k := answer])
  {
  }

  lemma HandledNet(net: State, h: nat, ev: HandlerEvent)
    requires Inv(net) && HandlerEnabled(net, h, ev)
    ensures Inv(HandlerNext(net, h, ev))
  {
    hide Inv, HandlerNext;
    ProtocolTheorems.HandlerEffect(net, h, ev);
    assert Next(net, HandlerStep(h, ev)) == HandlerNext(net, h, ev);
    ProtocolProof.StepPreserves(net, HandlerStep(h, ev));
  }

  /** An approved call's entry is its first. */
  lemma LogWithEntry(table: Ledger.Table, sent: map<nat, Msg>, decisions: map<nat, Decision>, log: seq<Entry>,
                     k: nat, d: Decision, entry: Entry)
    requires LogInv(table, sent, decisions, log) && k in sent && k !in decisions && d.code == APPROVED
    requires entry.call == Some(k) && Charged(table, sent[k], k, [entry])
    ensures LogInv(table, sent, decisions[k := d], log + [entry])
  {
    hide Charged;
    var decisions', log' := decisions[k := d], log + [entry];
    forall n: nat ensures LogOk(table, sent, decisions', log', n) {
      assert LogOk(table, sent, decisions, log, n);
      LogAppend(log, entry, n, 0);
      assert EntriesOf(log', n) == if n == k then [entry] else EntriesOf(log, n);
    }
  }

  lemma LogWithout(table: Ledger.Table, sent: map<nat, Msg>, decisions: map<nat, Decision>, log: seq<Entry>,
                   k: nat, d: Decision)
    requires LogInv(table, sent, decisions, log) && k !in decisions && d.code != APPROVED
    ensures LogInv(table, sent, decisions[k := d], log)
  {
    hide Charged;
    var decisions' := decisions[k := d];
    forall n: nat ensures LogOk(table, sent, decisions', log, n) {
      assert LogOk(table, sent, decisions, log, n);
    }
  }

  lemma HandledBank(codec: Codec, s: System, h: nat, req: Msg, now: int, up: bool, authCode: string)
    requires Ledger.Consistent(s.bank) && FoundInv(codec, s.found, s.net.handlers, s.bank.table)
    requires LogInv(s.bank.table, s.sent, s.decisions, s.log) && BooksBalance(s.bank.table, s.log)
    requires h in s.net.handlers && codec.unpack(s.net.handlers[h].message.iso) == Some(req)
    requires var k := s.net.handlers[h].message.call; k in s.sent && s.sent[k] == req && k !in s.decisions
    ensures var (d, table) := Decided(s, h, req, now, up, authCode);
            var k := s.net.handlers[h].message.call;
            var log := if d.code == APPROVED && AmountOf(req.amount).Some?
                       then s.log + [Entry(Some(k), CardOf(s, h, req), SignedAmount(req))] else s.log;
            && Ledger.KeepsPans(s.bank.table, table)
            && Ledger.Consistent(s.bank.(table := table))
            && LogInv(table, s.sent, s.decisions[k := d], log)
            && BooksBalance(table, log)
  {
    var (d, table) := Decided(s, h, req, now, up, authCode);
    var k := s.net.handlers[h].message.call;
    DecidedMoves(codec, s, h, req, now, up, authCode);
    hide Decided, CardOf;
    LogKept(s.bank.table, table, s.sent, s.decisions, s.log);
    hide LogInv, BooksBalance, Ledger.KeepsPans, Ledger.Consistent, FoundInv, GoodCodec;
    if d.code == APPROVED {
      var entry := Entry(Some(k), CardOf(s, h, req), SignedAmount(req));
      BooksAfter(s.bank.table, table, s.log, entry);
      LogWithEntry(table, s.sent, s.decisions, s.log, k, d, entry);
    } else {
      LogWithout(table, s.sent, s.decisions, s.log, k, d);
    }
  }

  lemma HandlePreserves(codec: Codec, s: System, h: nat, now: int, up: bool, authCode: string)
    requires GoodCodec(codec) && SystemInv(codec, s) && ActionEnabled(codec, s, Handle(h, now, up, authCode))
    ensures SystemInv(codec, ActionNext(codec, s, Handle(h, now, up, authCode)))
  {
    hide Inv, HandlerNext, LogInv, BooksBalance, FoundInv, Decided, CardOf, AnswerInv, SentInv, Ledger.Consistent;
    HandlerHolds(codec, s, h);
    var m := s.net.handlers[h].message;
    var req := s.sent[m.call];
    var (d, table) := Decided(s, h, req, now, up, authCode);
    var reply := codec.pack(Respond(req, d));
    var ev := Execute(reply);
    var s' := ActionNext(codec, s, Handle(h, now, up, authCode));
    assert s'.net == HandlerNext(s.net, h, ev);
    ProtocolTheorems.HandlerEffect(s.net, h, ev);
    ProtocolTheorems.HandlerKeepsMessages(s.net, h, ev);
    HandledNet(s.net, h, ev);
    AnswerAdded(codec, s.sent, s.decisions, s.net.book.answers, m.call, d, Answer(m.iso, reply));
    HandledBank(codec, s, h, req, now, up, authCode);
    FoundKept(codec, s.found, s.net.handlers, s'.net.handlers, s.bank.table, table);
  }

  // ----- runs -----

  /** A call registers only under a correlation ID that is free. */
  ghost predicate FreshAction(s: System, a: Action) {
    a.Net? ==> FreshStep(s.net, a.step)
  }

  ghost predicate IdsFree(codec: Codec, start: System, actions: seq<Action>) {
    if actions == [] then true
    else
      var before := After(codec, start, actions[..|actions| - 1]);
      IdsFree(codec, start, actions[..|actions| - 1]) && before.Some? && FreshAction(before.value, actions[|actions| - 1])
  }

  ghost predicate Reaches(codec: Codec, poolSize: nat, workerLimit: nat, actions: seq<Action>, s: System) {
    && poolSize > 0 && After(codec, Idle(poolSize, workerLimit), actions) == Some(s)
    && IdsFree(codec, Idle(poolSize, workerLimit), actions)
  }

  lemma NetStepEnabled(codec: Codec, s: System, step: Step)
    requires ActionEnabled(codec, s, Net(step))
    ensures Enabled(s.net, step)
  {
  }

  lemma ActionPreserves(codec: Codec, s: System, a: Action)
    requires GoodCodec(codec) && SystemInv(codec, s) && ActionEnabled(codec, s, a)
    requires FreshAction(s, a)
    ensures SystemInv(codec, ActionNext(codec, s, a))
  {
    hide SystemInv, GoodCodec, Decided;
    match a
    case Submit(msg) => SubmitPreserves(codec, s, msg);
    case Net(step) => NetPreserves(codec, s, step);
    case FindCard(h, up) => FindPreserves(codec, s, h, up);
    case Handle(h, now, up, authCode) => HandlePreserves(codec, s, h, now, up, authCode);
    case Administer(e) => AdministerPreserves(codec, s, e);
  }

  lemma {:induction false} ReachesInv(codec: Codec, poolSize: nat, workerLimit: nat, actions: seq<Action>, s: System)
    requires GoodCodec(codec) && Reaches(codec, poolSize, workerLimit, actions, s)
    ensures SystemInv(codec, s)
  {
    hide SystemInv, GoodCodec, ActionEnabled, ActionNext;
    if actions == [] {
      IdleInv(codec, poolSize, workerLimit);
    } else {
      var last := |actions| - 1;
      var before := After(codec, Idle(poolSize, workerLimit), actions[..last]).value;
      ReachesInv(codec, poolSize, workerLimit, actions[..last], before);
      ActionPreserves(codec, before, actions[last]);
    }
  }

  lemma CounterGrows(codec: Codec, s: System, a: Action)
    requires ActionEnabled(codec, s, a)
    ensures s.net.counter <= ActionNext(codec, s, a).net.counter
  {
    hide Next, HandlerNext;
    match a
    case Submit(msg) => ProtocolTheorems.StepEffect(s.net, Begin(codec.pack(msg).value));
    case Net(step) => ProtocolTheorems.StepEffect(s.net, step);
    case Handle(h, now, up, authCode) =>
      forall r: Option<Bytes> | HandlerEnabled(s.net, h, Execute(r))
        ensures HandlerNext(s.net, h, Execute(r)).counter == s.net.counter
      {
        ProtocolTheorems.HandlerEffect(s.net, h, Execute(r));
      }
    case _ =>
  }

  /** In every run with fewer than 2^32 calls the IDs are free. */
  lemma {:induction false} FewCallsReach(codec: Codec, poolSize: nat, workerLimit: nat, actions: seq<Action>, s: System)
    requires GoodCodec(codec) && poolSize > 0 && After(codec, Idle(poolSize, workerLimit), actions) == Some(s)
    requires s.net.counter < CORR_SPACE
    ensures Reaches(codec, poolSize, workerLimit, actions, s)
  {
    hide GoodCodec, ActionEnabled, ActionNext, Inv, FreshId;
    if actions == [] {
    } else {
      var last := |actions| - 1;
      var before := After(codec, Idle(poolSize, workerLimit), actions[..last]).value;
      CounterGrows(codec, before, actions[last]);
      FewCallsReach(codec, poolSize, workerLimit, actions[..last], before);
      ReachesInv(codec, poolSize, workerLimit, actions[..last], before);
      if actions[last].Net? && actions[last].step.CallStep? {
        NetStepEnabled(codec, before, actions[last].step);
        ProtocolTheorems.CallStepKnown(before.net, actions[last].step);
        ProtocolTheorems.NumbersUpTo(before.net, actions[last].step.call);
        ProtocolTheorems.RecentIdsAreFree(before.net, actions[last].step.call);
      }
    }
  }

  // ----- a run of the system is a run of the protocol -----

  /** The protocol's step in an action, if it has one. */
  ghost function StepOf(codec: Codec, s: System, a: Action): Option<Step>
    requires ActionEnabled(codec, s, a)
  {
    match a
    case Submit(msg) => Some(Begin(codec.pack(msg).value))
    case Net(step) => Some(step)
    case FindCard(_, _) => None
    case Handle(h, now, up, authCode) =>
      var req := codec.unpack(s.net.handlers[h].message.iso);
      if req.None? then Some(HandlerStep(h, Execute(None)))
      else
        var reply := codec.pack(Respond(req.value, Decided(s, h, req.value, now, up, authCode).0));
        Some(HandlerStep(h, Execute(if reply.Some? && |reply.value| <= MAX_ISO then reply else None)))
    case Administer(_) => None
  }

  ghost function NetSteps(codec: Codec, start: System, actions: seq<Action>): seq<Step>
    requires After(codec, start, actions).Some?
  {
    if actions == [] then []
    else
      var last := |actions| - 1;
      var step := StepOf(codec, After(codec, start, actions[..last]).value, actions[last]);
      NetSteps(codec, start, actions[..last]) + if step.Some? then [step.value] else []
  }

  lemma ActionIsStep(codec: Codec, s: System, a: Action)
    requires ActionEnabled(codec, s, a)
    ensures var step, net' := StepOf(codec, s, a), ActionNext(codec, s, a).net;
            if step.None? then net' == s.net
            else Enabled(s.net, step.value) && net' == Next(s.net, step.value) && (FreshAction(s, a) ==> FreshStep(s.net, step.value))
  {
    hide CallNext, ListenerNext, ReaderNext, HandlerNext, CallEnabled, ListenerEnabled, ReaderEnabled, Decided, CardOf, FreshId;
  }

  /** So every theorem on runs of the protocol holds of the whole system. */
  lemma {:induction false} NetReaches(codec: Codec, poolSize: nat, workerLimit: nat, actions: seq<Action>, s: System)
    requires Reaches(codec, poolSize, workerLimit, actions, s)
    ensures ProtocolTheorems.Reaches(poolSize, workerLimit, NetSteps(codec, Idle(poolSize, workerLimit), actions), s.net)
  {
    hide ActionEnabled, ActionNext, FreshAction, FreshStep, StepOf, Next, Enabled;
    if actions == [] {
    } else {
      var start, last := Idle(poolSize, workerLimit), |actions| - 1;
      var before := After(codec, start, actions[..last]).value;
      NetReaches(codec, poolSize, workerLimit, actions[..last], before);
      ActionIsStep(codec, before, actions[last]);
      var steps, step := NetSteps(codec, start, actions[..last]), StepOf(codec, before, actions[last]);
      if step.Some? {
        assert (steps + [step.value])[..|steps|] == steps;
      } else {
        assert steps + [] == steps;
      }
    }
  }

  // ----- the theorems -----

  /** The verdict on a call that got an answer is the issuer's decision on it. */
  lemma VerdictIsDecision(codec: Codec, s: System, n: nat)
    requires GoodCodec(codec) && SystemInv(codec, s)
    requires Verdict(codec, s, n).Some? && Verdict(codec, s, n) != Some(StatusError)
    ensures n in s.sent && n in s.decisions
    ensures Verdict(codec, s, n) == Some(StatusApproved) <==> s.decisions[n].code == APPROVED
  {
    hide Inv, LogInv, FoundInv, BooksBalance, Ledger.Consistent;
    ProtocolProof.AtCall(s.net, n);
    var iso := s.net.calls[n].phase.outcome.iso;
    assert codec.pack(Respond(s.sent[n], s.decisions[n])) == Some(iso);
  }

  /** The call's only entry in the log changes the balance of its own card by this much. */
  ghost predicate MovedOnce(s: System, n: nat, delta: int) {
    n in s.sent && exists card: nat ::
      card in s.bank.table && s.bank.table[card].pan == s.sent[n].pan && EntriesOf(s.log, n) == [Entry(Some(n), card, delta)]
  }

  lemma AtLog(codec: Codec, s: System, n: nat)
    requires SystemInv(codec, s)
    ensures LogOk(s.bank.table, s.sent, s.decisions, s.log, n)
  {
    hide Inv;
  }

  lemma ChargedIsMoved(s: System, n: nat)
    requires n in s.sent && Charged(s.bank.table, s.sent[n], n, EntriesOf(s.log, n))
    ensures MovedOnce(s, n, SignedAmount(s.sent[n]))
  {
    var entries := EntriesOf(s.log, n);
    assert entries == [Entry(Some(n), entries[0].card, SignedAmount(s.sent[n]))];
  }

  /**
   Money agreement. When the acquirer reports APPROVED, the request names a positive amount and its
   own card was debited by exactly that (credited, for a reversal), exactly once, for that request.
   */
  lemma ApprovedMeansMoved(codec: Codec, poolSize: nat, workerLimit: nat, actions: seq<Action>, s: System, n: nat)
    requires GoodCodec(codec) && Reaches(codec, poolSize, workerLimit, actions, s)
    requires Verdict(codec, s, n) == Some(StatusApproved)
    ensures n in s.sent && AmountOf(s.sent[n].amount).Some? && AmountOf(s.sent[n].amount).value > 0
    ensures var amount: int := AmountOf(s.sent[n].amount).value;
            MovedOnce(s, n, if IsReversal(s.sent[n]) then amount else -amount)
  {
    ReachesInv(codec, poolSize, workerLimit, actions, s);
    hide SystemInv, GoodCodec, MovedOnce, Verdict;
    VerdictIsDecision(codec, s, n);
    AtLog(codec, s, n);
    ChargedIsMoved(s, n);
  }

  /** When the acquirer reports DECLINED, the call moved no money; so money it did move was not declined. */
  lemma DeclinedMeansUntouched(codec: Codec, poolSize: nat, workerLimit: nat, actions: seq<Action>, s: System, n: nat)
    requires GoodCodec(codec) && Reaches(codec, poolSize, workerLimit, actions, s)
    ensures Verdict(codec, s, n) == Some(StatusDeclined) ==> EntriesOf(s.log, n) == []
    ensures EntriesOf(s.log, n) != [] ==>
              Verdict(codec, s, n) in {None, Some(StatusError), Some(StatusApproved)}
  {
    hide SystemInv, GoodCodec, Reaches, Verdict, EntriesOf;
    ReachesInv(codec, poolSize, workerLimit, actions, s);
    match Verdict(codec, s, n)
    case Some(StatusDeclined) =>
      VerdictIsDecision(codec, s, n);
      AtLog(codec, s, n);
    case _ =>
  }

  /** No call ever moves money twice, whatever its fate, and what it moves is its own card's and its own amount. */
  lemma MovedAtMostOnce(codec: Codec, poolSize: nat, workerLimit: nat, actions: seq<Action>, s: System, n: nat)
    requires GoodCodec(codec) && Reaches(codec, poolSize, workerLimit, actions, s)
    ensures |EntriesOf(s.log, n)| <= 1
    ensures EntriesOf(s.log, n) != [] ==>
              var e := EntriesOf(s.log, n)[0];
              && n in s.sent && AmountOf(s.sent[n].amount).Some? && e.delta == SignedAmount(s.sent[n]) != 0
              && e.card in s.bank.table && s.bank.table[e.card].pan == s.sent[n].pan
  {
    hide SystemInv, GoodCodec, Reaches, EntriesOf;
    ReachesInv(codec, poolSize, workerLimit, actions, s);
    AtLog(codec, s, n);
  }

  /** Every balance is the sum of its logged changes: nothing moves outside the log. */
  lemma LogExplainsBalances(codec: Codec, poolSize: nat, workerLimit: nat, actions: seq<Action>, s: System, card: nat)
    requires GoodCodec(codec) && Reaches(codec, poolSize, workerLimit, actions, s)
    ensures Ledger.BalanceOf(s.bank.table, card) == Sum(s.log, card)
  {
    ReachesInv(codec, poolSize, workerLimit, actions, s);
  }

  lemma UnsentUndecided(codec: Codec, s: System, n: nat)
    requires SystemInv(codec, s) && n in s.net.calls && s.net.calls[n].phase == Done(SendFailed)
    ensures n !in s.decisions
  {
    hide Inv, LogInv, FoundInv, BooksBalance, SentInv;
    ProtocolProof.AtCall(s.net, n);
    ProtocolProof.AtBook(s.net, n);
  }

  lemma UndecidedMovesNothing(s: System, n: nat)
    requires LogOk(s.bank.table, s.sent, s.decisions, s.log, n) && n !in s.decisions
    ensures EntriesOf(s.log, n) == []
  {
  }

  /** A call whose request could not be sent has moved nothing. */
  lemma UnsentMovesNothing(codec: Codec, poolSize: nat, workerLimit: nat, actions: seq<Action>, s: System, n: nat)
    requires GoodCodec(codec) && Reaches(codec, poolSize, workerLimit, actions, s)
    requires n in s.net.calls && s.net.calls[n].phase == Done(SendFailed)
    ensures EntriesOf(s.log, n) == []
  {
    hide GoodCodec, Reaches, SystemInv, LogOk, EntriesOf;
    ReachesInv(codec, poolSize, workerLimit, actions, s);
    AtLog(codec, s, n);
    UnsentUndecided(codec, s, n);
    UndecidedMovesNothing(s, n);
  }

  // ----- no overdraft -----

  /** What a handler decides leaves every balance in range. */
  lemma DecidedInRange(s: System, h: nat, req: Msg, now: int, up: bool, authCode: string)
    requires Ledger.AllInRange(s.bank)
    ensures Ledger.AllInRange(s.bank.(table := Decided(s, h, req, now, up, authCode).1))
  {
  }

  lemma ActionInRange(codec: Codec, s: System, a: Action)
    requires ActionEnabled(codec, s, a) && Ledger.AllInRange(s.bank)
    requires a.Administer? ==> Ledger.SetsInRange(a.event)
    ensures Ledger.AllInRange(ActionNext(codec, s, a).bank)
  {
    hide Next, HandlerNext, HandlerEnabled, Enabled, Decided, CardOf, Ledger.AllInRange, Ledger.Next;
    match a
    case Handle(h, now, up, authCode) =>
      var req := codec.unpack(s.net.handlers[h].message.iso);
      if req.Some? {
        DecidedInRange(s, h, req.value, now, up, authCode);
      }
    case Administer(e) => Ledger.InRangeNext(s.bank, e);
    case _ =>
  }

  /**
   No run of the whole system, of any length and with any message library, takes a balance below zero or out of
   BIGINT while the balances that the card service sets outright are in range.
   */
  lemma {:induction false} NeverOverdrawn(codec: Codec, start: System, actions: seq<Action>, s: System)
    requires After(codec, start, actions) == Some(s) && Ledger.AllInRange(start.bank)
    requires forall i :: 0 <= i < |actions| && actions[i].Administer? ==> Ledger.SetsInRange(actions[i].event)
    ensures forall id :: id in s.bank.table ==> 0 <= s.bank.table[id].balance <= Ledger.MAX_INT64
    ensures Ledger.AllInRange(s.bank)
  {
    hide ActionEnabled, ActionNext, Ledger.SetsInRange;
    if actions == [] {
    } else {
      var last := |actions| - 1;
      var before := After(codec, start, actions[..last]).value;
      NeverOverdrawn(codec, start, actions[..last], before);
      ActionInRange(codec, before, actions[last]);
    }
  }
}
