/**
 The cards table and the statements that read and write it. Each SQL statement is one atomic step.
 The card service's `UpdateCard` reads a row and writes it back later, so it is two steps.
 */
module Ledger {
  import opened Base

  const MAX_INT64: int := 0x7fff_ffff_ffff_ffff

  const ACTIVE := "ACTIVE"
  const DELETED := "DELETED"

  datatype Card = Card(pan: string, expiry: string, status: string, scheme: string, currency: string,
                       limit: int, balance: int)

  type Table = map<nat, Card>

  /** The UNIQUE constraint on `pan`. */
  ghost predicate UniquePans(t: Table) {
    forall a, b :: a in t && b in t && t[a].pan == t[b].pan ==> a == b
  }

  predicate HasPan(t: Table, pan: string) {
    exists id :: id in t && t[id].pan == pan
  }

  /** The row a `WHERE pan = $1` finds. */
  ghost function IdOf(t: Table, pan: string): (id: nat)
    requires HasPan(t, pan)
    ensures id in t && t[id].pan == pan
  {
    var id :| id in t && t[id].pan == pan;
    id
  }

  function BalanceOf(t: Table, id: nat): int {
    if id in t then t[id].balance else 0
  }

  function WithBalance(t: Table, id: nat, balance: int): Table
    requires id in t
  {
    t[id := t[id].(balance := balance)]
  }

  // ----- the statements -----

  datatype DebitResult =
    | DebitError                                  // rejected before the statement, or the statement failed
    | NoCard
    | NotDebited(card: Card)
    | Debited(card: Card, before: int, after: int)

  predicate CanDebit(card: Card, amount: int) {
    card.balance >= amount && card.status == ACTIVE
  }

  ghost function AuthorizeAndDebit(t: Table, pan: string, amount: int): (DebitResult, Table) {
    if amount <= 0 then (DebitError, t)
    else if !HasPan(t, pan) then (NoCard, t)
    else
      var id := IdOf(t, pan);
      var card := t[id];
      if CanDebit(card, amount) then
        (Debited(card, card.balance, card.balance - amount), WithBalance(t, id, card.balance - amount))
      else (NotDebited(card), t)
  }

  /** `DebitIfSufficient`: by ID and whatever the status. */
  function DebitIfSufficient(t: Table, id: nat, amount: int): Table {
    if amount > 0 && id in t && t[id].balance >= amount then WithBalance(t, id, t[id].balance - amount) else t
  }

  /** `CreditBalance`: refused for a non-positive amount, an unknown card or a sum above BIGINT. */
  predicate CanCredit(t: Table, id: nat, amount: int) {
    amount > 0 && id in t && t[id].balance + amount <= MAX_INT64
  }

  function CreditBalance(t: Table, id: nat, amount: int): Table {
    if CanCredit(t, id, amount) then WithBalance(t, id, t[id].balance + amount) else t
  }

  /** The UPDATE of `UpdateCard`: every column but the PAN is overwritten from the given row. */
  function StoreRow(t: Table, id: nat, row: Card): Table {
    if id in t then t[id := row.(pan := t[id].pan)] else t
  }

  function SoftDelete(t: Table, id: nat): Table {
    if id in t then t[id := t[id].(status := DELETED)] else t
  }

  function InsertCard(t: Table, id: nat, card: Card): Table {
    if id !in t && !HasPan(t, card.pan) then t[id := card] else t
  }

  /** A row is inserted exactly when its ID and its number are new, and is then the only change. */
  lemma InsertMeans(t: Table, id: nat, card: Card)
    ensures var isNew := id !in t && forall a :: a in t ==> t[a].pan != card.pan;
            && (isNew ==> InsertCard(t, id, card) == t[id := card]) && (!isNew ==> InsertCard(t, id, card) == t)
  {
  }

  // ----- the card service's read-modify-write -----

  datatype UpdateRequest = UpdateRequest(expiry: string, scheme: string, currency: string,
                                         limit: Option<int>, balance: Option<int>, status: string)

  /** What Go's `unicode.IsSpace` holds for. */
  predicate IsSpace(c: char) {
    || c == ' ' || '\t' <= c <= '\r' || c == '\U{85}' || c == '\U{A0}' || c == '\U{1680}'
    || '\U{2000}' <= c <= '\U{200A}' || c == '\U{2028}' || c == '\U{2029}' || c == '\U{202F}'
    || c == '\U{205F}' || c == '\U{3000}'
  }

  function TrimLeft(s: string): string {
    if s != "" && IsSpace(s[0]) then TrimLeft(s[1..]) else s
  }

  function TrimRight(s: string): string {
    if s != "" && IsSpace(s[|s| - 1]) then TrimRight(s[..|s| - 1]) else s
  }

  function Trim(s: string): string {
    TrimRight(TrimLeft(s))
  }

  predicate IsDigits(s: string) {
    forall i :: 0 <= i < |s| ==> '0' <= s[i] <= '9'
  }

  function OrElse(s: string, default: string): string {
    if Trim(s) == "" then default else Trim(s)
  }

  /** The row `UpdateCard` stores, given the one it read; none when the expiry date is malformed. */
  function Edited(read: Card, req: UpdateRequest): Option<Card> {
    var expiry := Trim(req.expiry);
    if expiry != "" && (|expiry| != 4 || !IsDigits(expiry)) then None
    else Some(read.(expiry := if expiry == "" then read.expiry else expiry,
                    scheme := OrElse(req.scheme, read.scheme),
                    currency := OrElse(req.currency, read.currency),
                    status := OrElse(req.status, read.status),
                    limit := if req.limit.Some? then req.limit.value else read.limit,
                    balance := if req.balance.Some? then req.balance.value else read.balance))
  }

  /** Trimming takes the blanks off both ends and nothing else. */
  lemma {:induction false} TrimLeftMeans(s: string)
    ensures var t := TrimLeft(s);
            && |t| <= |s| && t == s[|s| - |t|..] && (t != "" ==> !IsSpace(t[0]))
            && forall i :: 0 <= i < |s| - |t| ==> IsSpace(s[i])
  {
    if s != "" && IsSpace(s[0]) {
      TrimLeftMeans(s[1..]);
      assert forall i :: 1 <= i < |s| ==> s[i] == s[1..][i - 1];
    }
  }

  lemma {:induction false} TrimRightMeans(s: string)
    ensures var t := TrimRight(s);
            && |t| <= |s| && t == s[..|t|] && (t != "" ==> !IsSpace(t[|t| - 1]))
            && forall i :: |t| <= i < |s| ==> IsSpace(s[i])
  {
    if s != "" && IsSpace(s[|s| - 1]) {
      TrimRightMeans(s[..|s| - 1]);
    }
  }

  lemma TrimMeans(s: string)
    ensures exists i, j :: 0 <= i <= j <= |s| && Trim(s) == s[i..j]
                           && (forall k :: 0 <= k < i || j <= k < |s| ==> IsSpace(s[k]))
                           && (i < j ==> !IsSpace(s[i]) && !IsSpace(s[j - 1]))
  {
    hide IsSpace;
    TrimLeftMeans(s);
    var left := TrimLeft(s);
    TrimRightMeans(left);
    var i := |s| - |left|;
    var j := i + |TrimRight(left)|;
    assert Trim(s) == s[i..j];
  }

  /** The blanks, one by one. */
  lemma Blanks(c: char)
    ensures IsSpace(c) <==>
            c as int in {0x9, 0xA, 0xB, 0xC, 0xD, 0x20, 0x85, 0xA0, 0x1680, 0x2000, 0x2001, 0x2002, 0x2003, 0x2004, 0x2005,
                         0x2006, 0x2007, 0x2008, 0x2009, 0x200A, 0x2028, 0x2029, 0x202F, 0x205F, 0x3000}
  {
  }

  /** What an `UpdateCard` stores, column by column: what the request names, without its blanks, and else what was read. */
  lemma StoredColumns(read: Card, req: UpdateRequest)
    ensures Edited(read, req).None? <==>
            Trim(req.expiry) != "" && !(|Trim(req.expiry)| == 4 && forall i :: 0 <= i < 4 ==> '0' <= Trim(req.expiry)[i] <= '9')
    ensures Edited(read, req).Some? ==>
              var row := Edited(read, req).value;
              && row.pan == read.pan
              && row.expiry == (if Trim(req.expiry) == "" then read.expiry else Trim(req.expiry))
              && row.scheme == (if Trim(req.scheme) == "" then read.scheme else Trim(req.scheme))
              && row.currency == (if Trim(req.currency) == "" then read.currency else Trim(req.currency))
              && row.status == (if Trim(req.status) == "" then read.status else Trim(req.status))
              && row.limit == req.limit.GetOr(read.limit) && row.balance == req.balance.GetOr(read.balance)
  {
    hide Trim;
  }

  // ----- runs -----

  /** An edit in progress: the row that was read and its ID. */
  datatype Edit = Edit(id: nat, read: Card)

  datatype State = State(table: Table, edits: map<nat, Edit>)

  datatype Event =
    | Authorize(pan: string, amount: int)
    | Debit(id: nat, amount: int)
    | Credit(id: nat, amount: int)          // a top-up or a reversal
    | SetBalance(id: nat, balance: int)
    | ReadForEdit(edit: nat, id: nat)
    | WriteEdit(edit: nat, req: UpdateRequest)
    | Delete(id: nat)
    | Create(id: nat, card: Card)

  ghost function Next(s: State, e: Event): State {
    match e
    case Authorize(pan, amount) => s.(table := AuthorizeAndDebit(s.table, pan, amount).1)
    case Debit(id, amount) => s.(table := DebitIfSufficient(s.table, id, amount))
    case Credit(id, amount) => s.(table := CreditBalance(s.table, id, amount))
    case SetBalance(id, balance) => if id in s.table then s.(table := WithBalance(s.table, id, balance)) else s
    case ReadForEdit(edit, id) => if id in s.table then s.(edits := s.edits[edit := Edit(id, s.table[id])]) else s
    case WriteEdit(edit, req) =>
      if edit !in s.edits then s
      else
        var row := Edited(s.edits[edit].read, req);
        State(if row.Some? then StoreRow(s.table, s.edits[edit].id, row.value) else s.table, s.edits - {edit})
    case Delete(id) => s.(table := SoftDelete(s.table, id))
    case Create(id, card) => s.(table := InsertCard(s.table, id, card))
  }

  ghost function After(s: State, events: seq<Event>): State {
    if events == [] then s else Next(After(s, events[..|events| - 1]), events[|events| - 1])
  }

  // ----- invariants of every run -----

  /** Edits refer to rows that exist; rows are never removed and keep their PAN. */
  ghost predicate Consistent(s: State) {
    && UniquePans(s.table)
    && forall e :: e in s.edits ==> s.edits[e].id in s.table && s.edits[e].read.pan == s.table[s.edits[e].id].pan
  }

  /** A statement changes neither the IDs nor the PANs of the rows there are. */
  ghost predicate KeepsPans(t: Table, t': Table) {
    t.Keys <= t'.Keys && forall id :: id in t ==> t'[id].pan == t[id].pan
  }

  lemma PansKept(s: State, e: Event)
    ensures KeepsPans(s.table, Next(s, e).table)
    ensures !e.Create? ==> Next(s, e).table.Keys == s.table.Keys
  {
  }

  lemma EditsKept(s: State, e: Event)
    ensures forall x :: x in Next(s, e).edits ==>
              || (x in s.edits && Next(s, e).edits[x] == s.edits[x])
              || (Next(s, e).edits[x].id in s.table && Next(s, e).edits[x].read == s.table[Next(s, e).edits[x].id])
  {
  }

  lemma InsertKeepsUnique(t: Table, id: nat, card: Card)
    requires UniquePans(t)
    ensures UniquePans(InsertCard(t, id, card))
  {
    if id !in t && !HasPan(t, card.pan) {
      forall a | a in t ensures t[a].pan != card.pan {
      }
    }
  }

  lemma ConsistentNext(s: State, e: Event)
    requires Consistent(s)
    ensures Consistent(Next(s, e)) && KeepsPans(s.table, Next(s, e).table)
  {
    PansKept(s, e);
    EditsKept(s, e);
    if e.Create? {
      InsertKeepsUnique(s.table, e.id, e.card);
    } else {
      var t, t' := s.table, Next(s, e).table;
      hide Next;
      forall a, b | a in t' && b in t' && t'[a].pan == t'[b].pan ensures a == b {
        assert t[a].pan == t[b].pan;
      }
    }
  }

  predicate InRange(balance: int) {
    0 <= balance <= MAX_INT64
  }

  /** No explicit balance of the event is negative or above BIGINT. */
  predicate SetsInRange(e: Event) {
    match e
    case SetBalance(_, balance) => InRange(balance)
    case WriteEdit(_, req) => req.balance.Some? ==> InRange(req.balance.value)
    case Create(_, card) => InRange(card.balance)
    case _ => true
  }

  ghost predicate AllInRange(s: State) {
    && (forall id :: id in s.table ==> InRange(s.table[id].balance))
    && (forall e :: e in s.edits ==> InRange(s.edits[e].read.balance))
  }

  lemma InRangeNext(s: State, e: Event)
    requires AllInRange(s) && SetsInRange(e)
    ensures AllInRange(Next(s, e))
  {
  }

  /**
   No overdraft: while the balances that are set outright are not negative, no run takes a balance
   below zero or out of BIGINT, however edits interleave with debits and credits.
   */
  lemma {:induction false} NeverOverdrawn(s: State, events: seq<Event>)
    requires AllInRange(s) && forall i :: 0 <= i < |events| ==> SetsInRange(events[i])
    ensures AllInRange(After(s, events))
  {
    if events == [] {
    } else {
      NeverOverdrawn(s, events[..|events| - 1]);
      InRangeNext(After(s, events[..|events| - 1]), events[|events| - 1]);
    }
  }

  // ----- conservation -----

  /** Money that an event pays into a card, or takes out of it when negative. */
  ghost function Flow(s: State, e: Event, id: nat): int {
    match e
    case Authorize(pan, amount) =>
      if amount > 0 && HasPan(s.table, pan) && IdOf(s.table, pan) == id && CanDebit(s.table[id], amount) then -amount else 0
    case Debit(d, amount) => if d == id && amount > 0 && id in s.table && s.table[id].balance >= amount then -amount else 0
    case Credit(d, amount) => if d == id && CanCredit(s.table, id, amount) then amount else 0
    case Create(d, card) => if d == id && id !in s.table && !HasPan(s.table, card.pan) then card.balance else 0
    case _ => 0
  }

  /** Whether the event is an edit that stores a row for this card. */
  ghost predicate Stores(s: State, e: Event, id: nat) {
    e.WriteEdit? && e.edit in s.edits && s.edits[e.edit].id == id && id in s.table
    && Edited(s.edits[e.edit].read, e.req).Some?
  }

  /** What an event that names a new balance adds to the old one. */
  ghost function Set(s: State, e: Event, id: nat): int {
    if e.SetBalance? && e.id == id && id in s.table then e.balance - s.table[id].balance
    else if Stores(s, e, id) && e.req.balance.Some? then e.req.balance.value - s.table[id].balance
    else 0
  }

  /** What an edit that names no balance does to it: it puts back the balance it read. */
  ghost function Drift(s: State, e: Event, id: nat): int {
    if Stores(s, e, id) && e.req.balance.None? then s.edits[e.edit].read.balance - s.table[id].balance else 0
  }

  ghost function FlowOver(s: State, events: seq<Event>, id: nat): int {
    if events == [] then 0
    else FlowOver(s, events[..|events| - 1], id) + Flow(After(s, events[..|events| - 1]), events[|events| - 1], id)
  }

  ghost function SetOver(s: State, events: seq<Event>, id: nat): int {
    if events == [] then 0
    else SetOver(s, events[..|events| - 1], id) + Set(After(s, events[..|events| - 1]), events[|events| - 1], id)
  }

  ghost function DriftOver(s: State, events: seq<Event>, id: nat): int {
    if events == [] then 0
    else DriftOver(s, events[..|events| - 1], id) + Drift(After(s, events[..|events| - 1]), events[|events| - 1], id)
  }

  lemma BalanceNext(s: State, e: Event, id: nat)
    requires UniquePans(s.table)
    ensures BalanceOf(Next(s, e).table, id) == BalanceOf(s.table, id) + Flow(s, e, id) + Set(s, e, id) + Drift(s, e, id)
  {
  }

  lemma {:induction false} ConsistentAfter(s: State, events: seq<Event>)
    requires Consistent(s)
    ensures Consistent(After(s, events)) && s.table.Keys <= After(s, events).table.Keys
  {
    if events == [] {
    } else {
      ConsistentAfter(s, events[..|events| - 1]);
      ConsistentNext(After(s, events[..|events| - 1]), events[|events| - 1]);
    }
  }

  /** Over every run a balance is what it was, plus what was paid in and out, plus what was set, plus the drift. */
  lemma {:induction false} Conservation(s: State, events: seq<Event>, id: nat)
    requires Consistent(s)
    ensures BalanceOf(After(s, events).table, id)
            == BalanceOf(s.table, id) + FlowOver(s, events, id) + SetOver(s, events, id) + DriftOver(s, events, id)
  {
    if events == [] {
    } else {
      var before := events[..|events| - 1];
      Conservation(s, before, id);
      ConsistentAfter(s, before);
      BalanceNext(After(s, before), events[|events| - 1], id);
    }
  }

  predicate Touches(e: Event, edit: nat) {
    (e.ReadForEdit? || e.WriteEdit?) && e.edit == edit
  }

  lemma {:induction false} EditKept(s: State, events: seq<Event>, edit: nat)
    requires edit in s.edits && forall i :: 0 <= i < |events| ==> !Touches(events[i], edit)
    ensures edit in After(s, events).edits && After(s, events).edits[edit] == s.edits[edit]
  {
    if events == [] {
    } else {
      EditKept(s, events[..|events| - 1], edit);
    }
  }

  lemma ReadNext(s: State, edit: nat, id: nat)
    requires id in s.table
    ensures var read := Next(s, ReadForEdit(edit, id));
            edit in read.edits && read.edits[edit] == Edit(id, s.table[id]) && read.table == s.table
  {
  }

  lemma WriteRestores(s: State, edit: nat, id: nat, row: Card, req: UpdateRequest)
    requires edit in s.edits && s.edits[edit] == Edit(id, row) && id in s.table
    requires req.balance.None? && Edited(row, req).Some?
    ensures Drift(s, WriteEdit(edit, req), id) == row.balance - s.table[id].balance
    ensures BalanceOf(Next(s, WriteEdit(edit, req)).table, id) == row.balance
  {
  }

  /**
   An `UpdateCard` that names no balance loses exactly what happened to the balance between its
   read and its write: every payment, every balance set and every other edit's drift in between.
   */
  lemma EditLosesWhatItMissed(s: State, edit: nat, id: nat, between: seq<Event>, req: UpdateRequest)
    requires Consistent(s) && id in s.table
    requires forall i :: 0 <= i < |between| ==> !Touches(between[i], edit)
    requires req.balance.None? && Edited(s.table[id], req).Some?
    ensures var read := Next(s, ReadForEdit(edit, id));
            var late := After(read, between);
            && Drift(late, WriteEdit(edit, req), id)
               == -(FlowOver(read, between, id) + SetOver(read, between, id) + DriftOver(read, between, id))
            && BalanceOf(Next(late, WriteEdit(edit, req)).table, id) == s.table[id].balance
  {
    var read := Next(s, ReadForEdit(edit, id));
    ReadNext(s, edit, id);
    hide After, Next, Flow, Set, Drift, FlowOver, SetOver, DriftOver, Edited, Consistent, Touches;
    ConsistentNext(s, ReadForEdit(edit, id));
    ConsistentAfter(read, between);
    EditKept(read, between, edit);
    Conservation(read, between, id);
    WriteRestores(After(read, between), edit, id, s.table[id], req);
  }

  lemma WrittenStatus(s: State, edit: nat, id: nat, row: Card, req: UpdateRequest)
    requires edit in s.edits && s.edits[edit] == Edit(id, row) && id in s.table && Edited(row, req).Some?
    ensures var after := Next(s, WriteEdit(edit, req)).table;
            id in after && after[id].status == if Trim(req.status) == "" then row.status else Trim(req.status)
  {
  }

  /**
   A card is deleted behind an edit exactly when the request names that status, or names none and the card was
   deleted when it was read. What happened to the card between the read and the write, deletion included, is lost.
   */
  lemma DeletedAfterEditIff(s: State, edit: nat, id: nat, between: seq<Event>, req: UpdateRequest)
    requires Consistent(s) && id in s.table && Edited(s.table[id], req).Some?
    requires forall i :: 0 <= i < |between| ==> !Touches(between[i], edit)
    ensures var late := After(Next(s, ReadForEdit(edit, id)), between);
            var after := Next(late, WriteEdit(edit, req)).table;
            && id in after
            && (after[id].status == DELETED <==>
                  Trim(req.status) == DELETED || (Trim(req.status) == "" && s.table[id].status == DELETED))
  {
    var read := Next(s, ReadForEdit(edit, id));
    ReadNext(s, edit, id);
    hide After, Next, Edited, Consistent, Touches, Trim;
    ConsistentNext(s, ReadForEdit(edit, id));
    ConsistentAfter(read, between);
    EditKept(read, between, edit);
    WrittenStatus(After(read, between), edit, id, s.table[id], req);
  }

  /** One way to lose a deletion: an edit that was in progress and names no status brings the card back. */
  lemma EditUndoesDeletion(s: State, edit: nat, id: nat, req: UpdateRequest)
    requires id in s.table && s.table[id].status == "ACTIVE" && Trim(req.status) == "" && Edited(s.table[id], req).Some?
    ensures var deleted := Next(Next(s, ReadForEdit(edit, id)), Delete(id));
            var restored := Next(deleted, WriteEdit(edit, req));
            && id in deleted.table && deleted.table[id].status == "DELETED"
            && id in restored.table && restored.table[id].status == "ACTIVE"
  {
    var read := Next(s, ReadForEdit(edit, id));
    var deleted := Next(read, Delete(id));
    assert deleted.edits[edit].read == s.table[id];
  }

  /** The other: an edit that names a status overwrites the deletion although it has read it. */
  lemma NamedStatusUndoesDeletion(s: State, edit: nat, id: nat, req: UpdateRequest)
    requires id in s.table && s.table[id].status == "DELETED" && Trim(req.status) == "ACTIVE" && Edited(s.table[id], req).Some?
    ensures var restored := Next(Next(s, ReadForEdit(edit, id)), WriteEdit(edit, req));
            id in restored.table && restored.table[id].status == "ACTIVE"
  {
    ReadNext(s, edit, id);
    WrittenStatus(Next(s, ReadForEdit(edit, id)), edit, id, s.table[id], req);
  }

  // ----- the repository -----

  /**
   The repository's methods on the table. `up` says whether the database answers: a statement that
   fails changes nothing.
   */
  class CardRepository {
    var cards: Table

    constructor ()
      ensures cards == map[]
    {
      cards := map[];
    }

    method GetCardByPAN(pan: string, up: bool) returns (r: Option<Option<nat>>)
      requires UniquePans(cards)
      ensures r == if !up then None else if HasPan(cards, pan) then Some(Some(IdOf(cards, pan))) else Some(None)
    {
      if !up {
        return None;
      }
      if HasPan(cards, pan) {
        var id :| id in cards && cards[id].pan == pan;
        return Some(Some(id));
      }
      return Some(None);
    }

    method Debit(pan: string, amount: int, up: bool) returns (r: DebitResult)
      requires UniquePans(cards)
      modifies this
      ensures (r, cards) == if up then AuthorizeAndDebit(old(cards), pan, amount) else (DebitError, old(cards))
    {
      if amount <= 0 || !up {
        return DebitError;
      }
      if !HasPan(cards, pan) {
        return NoCard;
      }
      var id :| id in cards && cards[id].pan == pan;
      var card := cards[id];
      if card.balance >= amount && card.status == ACTIVE {
        cards := cards[id := card.(balance := card.balance - amount)];
        return Debited(card, cards[id].balance + amount, cards[id].balance);
      }
      return NotDebited(card);
    }

    /** An error, or the balances before and after if the card was debited. */
    method DebitIfEnough(id: nat, amount: int, up: bool) returns (r: Option<Option<(int, int)>>)
      modifies this
      ensures r.None? <==> amount <= 0 || !up
      ensures cards == if r.Some? then DebitIfSufficient(old(cards), id, amount) else old(cards)
      ensures r.Some? ==> (r.value.Some? <==> id in old(cards) && old(cards)[id].balance >= amount)
      ensures r.Some? && r.value.Some? ==>
                r.value.value == (old(cards)[id].balance, old(cards)[id].balance - amount) && BalanceOf(cards, id) == r.value.value.1
    {
      if amount <= 0 || !up {
        return None;
      }
      if id !in cards || cards[id].balance < amount {
        return Some(None);
      }
      cards := cards[id := cards[id].(balance := cards[id].balance - amount)];
      return Some(Some((cards[id].balance + amount, cards[id].balance)));
    }

    method UpdateBalance(id: nat, balance: int, up: bool) returns (ok: bool)
      modifies this
      ensures ok == (up && id in old(cards))
      ensures cards == if ok then WithBalance(old(cards), id, balance) else old(cards)
    {
      ok := up && id in cards;
      if ok {
        cards := cards[id := cards[id].(balance := balance)];
      }
    }

    method Credit(id: nat, amount: int, up: bool) returns (ok: bool)
      modifies this
      ensures ok == (up && CanCredit(old(cards), id, amount))
      ensures cards == if ok then CreditBalance(old(cards), id, amount) else old(cards)
    {
      if amount <= 0 || !up || id !in cards {
        return false;
      }
      if cards[id].balance > MAX_INT64 - amount {
        return false;
      }
      cards := cards[id := cards[id].(balance := cards[id].balance + amount)];
      return true;
    }

    method Update(id: nat, row: Card, up: bool) returns (ok: bool)
      modifies this
      ensures ok == (up && id in old(cards))
      ensures cards == if ok then StoreRow(old(cards), id, row) else old(cards)
    {
      ok := up && id in cards;
      if ok {
        cards := cards[id := row.(pan := cards[id].pan)];
      }
    }

    method Delete(id: nat, up: bool) returns (ok: bool)
      modifies this
      ensures ok == (up && id in old(cards))
      ensures cards == if ok then SoftDelete(old(cards), id) else old(cards)
      ensures ok ==> cards == old(cards)[id := old(cards)[id].(status := "DELETED")]
    {
      ok := up && id in cards;
      if ok {
        cards := cards[id := cards[id].(status := DELETED)];
      }
    }
  }

  /** The card service's operations, run with nothing between their statements. */
  class CardService {
    const repo: CardRepository

    constructor (repo: CardRepository)
      ensures this.repo == repo
    {
      this.repo := repo;
    }

    /** Returns the stored row, or none when the card is unknown, the expiry is malformed or a statement fails. */
    method UpdateCard(id: nat, req: UpdateRequest, upRead: bool, upWrite: bool) returns (r: Option<Card>)
      modifies repo
      ensures r.Some? <==> upRead && upWrite && id in old(repo.cards) && Edited(old(repo.cards)[id], req).Some?
      ensures r.Some? ==> r == Edited(old(repo.cards)[id], req) && repo.cards == old(repo.cards)[id := r.value]
      ensures repo.cards == if r.Some? then StoreRow(old(repo.cards), id, r.value) else old(repo.cards)
    {
      if !upRead || id !in repo.cards {
        return None;
      }
      var existing := repo.cards[id];
      var expiry := Trim(req.expiry);
      if expiry == "" {
        expiry := existing.expiry;
      } else if |expiry| != 4 || !IsDigits(expiry) {
        return None;
      }
      existing := existing.(expiry := expiry, scheme := OrElse(req.scheme, existing.scheme),
                            currency := OrElse(req.currency, existing.currency),
                            status := OrElse(req.status, existing.status));
      if req.limit.Some? {
        existing := existing.(limit := req.limit.value);
      }
      if req.balance.Some? {
        existing := existing.(balance := req.balance.value);
      }
      var ok := repo.Update(id, existing, upWrite);
      return if ok then Some(existing) else None;
    }

    /** Credits the card and reads it back. */
    method TopUp(id: nat, amount: int, upCredit: bool, upRead: bool) returns (r: Option<Card>)
      modifies repo
      ensures repo.cards == if upCredit then CreditBalance(old(repo.cards), id, amount) else old(repo.cards)
      ensures r.Some? <==> upCredit && upRead && CanCredit(old(repo.cards), id, amount)
      ensures r.Some? ==> r.value.balance == old(repo.cards)[id].balance + amount
    {
      if amount <= 0 {
        return None;
      }
      var ok := repo.Credit(id, amount, upCredit);
      if !ok || !upRead {
        return None;
      }
      return Some(repo.cards[id]);
    }
  }
}
