/** The issuer's decisions: the authorization engine and the service that turns a request into a reply. */
module Engine {
  import opened Base
  import opened Ledger
  import opened Rules

  /** The fields of an ISO message that decisions and records look at; the rest travel in `other`. */
  datatype Msg = Msg(mti: string, pan: string, amount: string, respCode: string, authId: string,
                     stan: string, currency: string, other: map<nat, string>)

  const APPROVED := "00"
  const DO_NOT_HONOR := "05"
  const INVALID_CARD := "14"
  const INSUFFICIENT := "51"
  const EXPIRED := "54"
  const BLOCKED := "78"
  const MALFUNCTION := "96"

  datatype Decision = Decision(code: string, authCode: Option<string>, reason: Option<string>,
                               before: Option<int>, after: Option<int>)

  function Declined(code: string, reason: string): Decision {
    Decision(code, None, Some(reason), None, None)
  }

  function ResponseMti(mti: string): string {
    if |mti| == 4 then mti[..2] + "10" else mti
  }

  predicate IsReversal(req: Msg) {
    |req.mti| == 4 && req.mti[..2] == "04"
  }

  /** `decideResponse`: the answer the service starts from, before the engine is asked. */
  function DefaultResponse(req: Msg): Msg {
    req.(mti := ResponseMti(req.mti), respCode := if req.amount == "" then DO_NOT_HONOR else APPROVED)
  }

  // ----- what the engine decides -----

  /** The answer that carries a decision. */
  function Respond(req: Msg, d: Decision): Msg {
    req.(mti := ResponseMti(req.mti), respCode := d.code,
         authId := if d.authCode.Some? then d.authCode.value else req.authId)
  }

  /** Why a card was not debited. */
  function Refusal(card: Card, now: int): Decision {
    if card.status != ACTIVE then Declined(BLOCKED, "card is not active")
    else if !ExpiryValid(card.expiry, now) then Declined(EXPIRED, "card expired")
    else Declined(INSUFFICIENT, "insufficient funds")
  }

  ghost function DecidePurchase(t: Table, req: Msg, now: int, up: bool, authCode: string): (Decision, Table) {
    match AmountOf(req.amount)
    case None => (Declined(DO_NOT_HONOR, "invalid amount"), t)
    case Some(amount) =>
      var (result, t') := if up then AuthorizeAndDebit(t, req.pan, amount) else (DebitError, t);
      match result
      case DebitError => (Declined(MALFUNCTION, "db error"), t')
      case NoCard => (Declined(INVALID_CARD, "card not found"), t')
      case NotDebited(card) => (Refusal(card, now), t')
      case Debited(_, before, after) => (Decision(APPROVED, Some(authCode), None, Some(before), Some(after)), t')
  }

  /** `found` is the card a reversal looked up; none when there is no such card or the lookup failed. */
  function DecideReversal(t: Table, found: Option<nat>, req: Msg, up: bool, authCode: string): (Decision, Table) {
    match AmountOf(req.amount)
    case None => (Declined(DO_NOT_HONOR, "invalid amount"), t)
    case Some(amount) =>
      if found.None? then (Declined(MALFUNCTION, "card lookup failed"), t)
      else if !up || !CanCredit(t, found.value, amount) then (Declined(MALFUNCTION, "credit failed"), t)
      else (Decision(APPROVED, Some(authCode), None, None, None), CreditBalance(t, found.value, amount))
  }

  ghost function CardFound(t: Table, req: Msg, up: bool): Option<nat> {
    if up && HasPan(t, req.pan) then Some(IdOf(t, req.pan)) else None
  }

  /** A decision with nothing between its statements. `up` and `upCredit` say whether each statement succeeds. */
  ghost function Decide(t: Table, req: Msg, now: int, up: bool, upCredit: bool, authCode: string): (Decision, Table) {
    if IsReversal(req) then DecideReversal(t, CardFound(t, req, up), req, upCredit, authCode)
    else DecidePurchase(t, req, now, up, authCode)
  }

  // ----- what the decisions mean -----

  /** When the amount is a positive number and the database answers, each code has exactly one cause. */
  lemma PurchaseCodes(t: Table, req: Msg, now: int, authCode: string)
    requires UniquePans(t) && AmountOf(req.amount).Some? && AmountOf(req.amount).value > 0
    ensures var amount := AmountOf(req.amount).value;
            var (d, t') := DecidePurchase(t, req, now, true, authCode);
            && (d.code == "14" <==> forall id :: id in t ==> t[id].pan != req.pan)
            && forall id :: id in t && t[id].pan == req.pan ==>
                 var card := t[id];
                 && (d.code == "78" <==> card.status != "ACTIVE")
                 && (d.code == "54" <==> card.status == "ACTIVE" && card.balance < amount && !ExpiryValid(card.expiry, now))
                 && (d.code == "51" <==>
                       card.status == "ACTIVE" && card.balance < amount && ExpiryValid(card.expiry, now))
                 && (d.code == "00" <==> card.status == "ACTIVE" && card.balance >= amount)
                 && (d.code == "00" ==> t' == t[id := card.(balance := card.balance - amount)]
                                            && d.before == Some(card.balance) && d.after == Some(card.balance - amount))
  {
  }

  /** The answers that need no card: a malformed amount, and a zero amount or a failed statement. */
  lemma PurchaseErrors(t: Table, req: Msg, now: int, up: bool, authCode: string)
    ensures var d := DecidePurchase(t, req, now, up, authCode).0;
            && (d.code == "05" <==> AmountOf(req.amount).None?)
            && (d.code == "96" <==> AmountOf(req.amount).Some? && (!up || AmountOf(req.amount).value == 0))
  {
  }

  /**
   The codes of a reversal. It is approved exactly when its amount is positive, both statements succeed, and its card
   exists and can hold the sum, whatever the card's status and expiry; then the card has the sum.
   */
  lemma ReversalCodes(t: Table, req: Msg, now: int, up: bool, upCredit: bool, authCode: string)
    requires UniquePans(t) && |req.mti| == 4 && req.mti[..2] == "04"
    ensures var (d, t') := Decide(t, req, now, up, upCredit, authCode);
            && (d.code == "05" <==> AmountOf(req.amount).None?)
            && (d.code == "00" <==>
                  && AmountOf(req.amount).Some? && AmountOf(req.amount).value > 0 && up && upCredit
                  && exists id :: id in t && t[id].pan == req.pan
                                  && t[id].balance + AmountOf(req.amount).value <= 0x7fff_ffff_ffff_ffff)
            && (d.code == "96" <==> d.code != "05" && d.code != "00")
            && (d.code == "00" ==>
                  && (forall id :: id in t && t[id].pan == req.pan ==>
                        t' == t[id := t[id].(balance := t[id].balance + AmountOf(req.amount).value)])
                  && d == Decision("00", Some(authCode), None, None, None))
            && (d.code != "00" ==> t' == t && d.authCode.None? && d.reason.Some? && d.before.None? && d.after.None?)
  {
  }

  /** The reason that goes with a code. */
  lemma ReasonOfCode(t: Table, req: Msg, now: int, up: bool, upCredit: bool, authCode: string)
    ensures var d := Decide(t, req, now, up, upCredit, authCode).0;
            && (d.code == "00" ==> d.reason.None?)
            && (d.code == "05" ==> d.reason == Some("invalid amount"))
            && (d.code == "14" ==> d.reason == Some("card not found"))
            && (d.code == "51" ==> d.reason == Some("insufficient funds"))
            && (d.code == "54" ==> d.reason == Some("card expired"))
            && (d.code == "78" ==> d.reason == Some("card is not active"))
            && (d.code == "96" ==> d.reason == Some(if !IsReversal(req) then "db error"
                                                    else if !up || !HasPan(t, req.pan) then "card lookup failed"
                                                    else "credit failed"))
            && (!IsReversal(req) ==>
                  (d.code == "96" <==> AmountOf(req.amount).Some? && (!up || AmountOf(req.amount).value == 0)))
  {
  }

  /** What an answer carries: the request, its type in the response class, the code, and the authorization if there is one. */
  lemma ResponseSays(req: Msg, d: Decision)
    ensures var r := Respond(req, d);
            && r == req.(mti := r.mti, respCode := d.code, authId := r.authId)
            && (d.authCode == Some(r.authId) || (d.authCode.None? && r.authId == req.authId))
            && (if |req.mti| == 4 then |r.mti| == 4 && r.mti[0] == req.mti[0] && r.mti[1] == req.mti[1]
                                       && r.mti[2] == '1' && r.mti[3] == '0'
                else r.mti == req.mti)
  {
  }

  /**
   Expiry does not stop a payment: the documentation's code 54 for an expired card is given exactly
   when the balance is too low as well. With enough money the expired card is charged.
   */
  lemma ExpiredCardDeclinedIff(t: Table, id: nat, req: Msg, now: int, authCode: string)
    requires UniquePans(t) && id in t && t[id].pan == req.pan
    requires t[id].status == ACTIVE && !ExpiryValid(t[id].expiry, now)
    requires AmountOf(req.amount).Some? && AmountOf(req.amount).value > 0
    ensures var (d, t') := DecidePurchase(t, req, now, true, authCode);
            && (d.code == EXPIRED <==> t[id].balance < AmountOf(req.amount).value)
            && (d.code != EXPIRED ==> d.code == APPROVED && t' == WithBalance(t, id, t[id].balance - AmountOf(req.amount).value))
  {
    PurchaseCodes(t, req, now, authCode);
  }

  /** The difference an approved request makes to its card. */
  function SignedAmount(req: Msg): int
    requires AmountOf(req.amount).Some?
  {
    var amount: int := AmountOf(req.amount).value;
    if IsReversal(req) then amount else -amount
  }

  /** An approval is backed by exactly one change of one card by the amount; anything else changes nothing. */
  lemma ApprovedIffMoved(t: Table, req: Msg, now: int, up: bool, upCredit: bool, authCode: string)
    requires UniquePans(t)
    ensures var (d, t') := Decide(t, req, now, up, upCredit, authCode);
            && (d.code == APPROVED ==>
                  && AmountOf(req.amount).Some? && AmountOf(req.amount).value > 0 && HasPan(t, req.pan)
                  && t' == WithBalance(t, IdOf(t, req.pan), t[IdOf(t, req.pan)].balance + SignedAmount(req)))
            && (d.code != APPROVED ==> t' == t)
            && (d.code == APPROVED <==> d.authCode == Some(authCode))
  {
  }

  // ----- the engine -----

  /** The code and reason against a card, or two empty strings. */
  method ValidateCardBasic(card: Card, now: int) returns (code: string, reason: string)
    ensures code == "" <==> card.status == ACTIVE && ExpiryValid(card.expiry, now)
    ensures code != "" ==> Refusal(card, now) == Declined(code, reason)
  {
    if card.status != ACTIVE {
      return BLOCKED, "card is not active";
    }
    if !ExpiryValid(card.expiry, now) {
      return EXPIRED, "card expired";
    }
    return "", "";
  }

  /** `Authorize` and `handleReversal`, which fill in a decision and a response step by step. */
  class AuthEngine {
    const cards: CardRepository

    constructor (cards: CardRepository)
      ensures this.cards == cards
    {
      this.cards := cards;
    }

    method Authorize(req: Msg, now: int, up: bool, upCredit: bool, authCode: string)
      returns (resp: Msg, d: Decision)
      requires UniquePans(cards.cards)
      modifies cards
      ensures (d, cards.cards) == Decide(old(cards.cards), req, now, up, upCredit, authCode)
      ensures resp == Respond(req, d)
    {
      if |req.mti| == 4 && req.mti[..2] == "04" {
        resp, d := HandleReversal(req, up, upCredit, authCode);
        return;
      }
      resp := req;
      if |resp.mti| == 4 {
        resp := resp.(mti := resp.mti[..2] + "10");
      }
      d := Decision("", None, None, None, None);
      var amount := ParseAmount12(req.amount);
      if amount.None? {
        d := d.(code := DO_NOT_HONOR, reason := Some("invalid amount"));
        resp := resp.(respCode := d.code);
        return;
      }
      var result := cards.Debit(req.pan, amount.value, up);
      if result.DebitError? {
        d := d.(code := MALFUNCTION, reason := Some("db error"));
        resp := resp.(respCode := d.code);
        return;
      }
      if result.NoCard? {
        d := d.(code := INVALID_CARD, reason := Some("card not found"));
        resp := resp.(respCode := d.code);
        return;
      }
      if result.NotDebited? {
        var code, reason := ValidateCardBasic(result.card, now);
        if code == "" {
          code, reason := INSUFFICIENT, "insufficient funds";
        }
        d := d.(code := code, reason := Some(reason));
        resp := resp.(respCode := d.code);
        return;
      }
      d := d.(code := APPROVED, before := Some(result.before), after := Some(result.after), authCode := Some(authCode));
      resp := resp.(respCode := d.code, authId := authCode);
    }

    method HandleReversal(req: Msg, up: bool, upCredit: bool, authCode: string) returns (resp: Msg, d: Decision)
      requires UniquePans(cards.cards) && IsReversal(req)
      modifies cards
      ensures (d, cards.cards) == DecideReversal(old(cards.cards), CardFound(old(cards.cards), req, up), req, upCredit, authCode)
      ensures resp == Respond(req, d)
    {
      resp := req.(mti := req.mti[..2] + "10");
      d := Decision("", None, None, None, None);
      var amount := ParseAmount12(req.amount);
      if amount.None? {
        d := d.(code := DO_NOT_HONOR, reason := Some("invalid amount"));
        resp := resp.(respCode := d.code);
        return;
      }
      var row := cards.GetCardByPAN(req.pan, up);
      if row.None? || row.value.None? {
        d := d.(code := MALFUNCTION, reason := Some("card lookup failed"));
        resp := resp.(respCode := d.code);
        return;
      }
      var ok := cards.Credit(row.value.value, amount.value, upCredit);
      if !ok {
        d := d.(code := MALFUNCTION, reason := Some("credit failed"));
        resp := resp.(respCode := d.code);
        return;
      }
      d := d.(code := APPROVED, authCode := Some(authCode));
      resp := resp.(respCode := d.code, authId := authCode);
    }
  }

  // ----- the service -----

  /** Pack and unpack of the message library, which is not part of this model. */
  datatype Codec = Codec(pack: Msg -> Option<Bytes>, unpack: Bytes -> Option<Msg>)

  /** What is assumed of it: a message that packs is unpacked to itself. */
  ghost predicate Invertible(codec: Codec) {
    forall m: Msg :: codec.pack(m).Some? ==> codec.unpack(codec.pack(m).value) == Some(m)
  }

  datatype Status = StatusApproved | StatusDeclined | StatusError

  datatype AuditRecord = AuditRecord(stan: string, mti: string, amount: int, currency: string, status: Status,
                                     code: Option<string>, authCode: Option<string>, reason: Option<string>,
                                     before: Option<int>, after: Option<int>)

  /** The record of one decision. A malformed amount is recorded as 0. */
  function AuditOf(req: Msg, resp: Msg, d: Decision): AuditRecord {
    AuditRecord(Trim(req.stan), Trim(req.mti), if AmountOf(req.amount).Some? then AmountOf(req.amount).value else 0,
                Trim(req.currency), if resp.respCode == APPROVED then StatusApproved else StatusDeclined,
                if Trim(resp.respCode) != "" then Some(Trim(resp.respCode)) else None,
                d.authCode, d.reason, d.before, d.after)
  }

  /** The codes have no blanks around them. */
  lemma CodeTrimmed(code: string)
    requires |code| == 2 && '0' <= code[0] <= '9' && '0' <= code[1] <= '9'
    ensures Trim(code) == code
  {
  }

  /** Code 00 is a change of the card's balance, with everything that goes with it; any other code is no change and a reason. */
  lemma DecisionAgrees(t: Table, req: Msg, now: int, up: bool, upCredit: bool, authCode: string)
    requires UniquePans(t)
    ensures var (d, t') := Decide(t, req, now, up, upCredit, authCode);
            && d.code in {"00", "05", "14", "51", "54", "78", "96"}
            && (d.code == "00" <==> exists id :: id in t && t[id].pan == req.pan && BalanceOf(t', id) != BalanceOf(t, id))
            && (d.code == "00" ==>
                  && d.authCode == Some(authCode) && d.reason.None? && AmountOf(req.amount).Some?
                  && forall id :: id in t && t[id].pan == req.pan ==>
                       if IsReversal(req) then BalanceOf(t', id) - BalanceOf(t, id) == AmountOf(req.amount).value > 0
                       else BalanceOf(t, id) - BalanceOf(t', id) == AmountOf(req.amount).value > 0
                            && d.before == Some(BalanceOf(t, id)) && d.after == Some(BalanceOf(t', id)))
            && (d.code != "00" ==> t' == t && d.authCode.None? && d.reason.Some? && d.before.None? && d.after.None?)
  {
  }

  /**
   The issuer's books agree with the cards. A record is APPROVED exactly when the balance of the request's card
   changed, and then it names by how much, the code 00, the authorization code of the answer and, for a purchase, both
   balances; a record DECLINED means an unchanged table and names the answer's code and a reason.
   */
  lemma AuditAgrees(t: Table, req: Msg, now: int, up: bool, upCredit: bool, authCode: string)
    requires UniquePans(t)
    ensures var (d, t') := Decide(t, req, now, up, upCredit, authCode);
            var resp := Respond(req, d);
            var r := AuditOf(req, resp, d);
            && r.stan == Trim(req.stan) && r.mti == Trim(req.mti) && r.currency == Trim(req.currency)
            && r.code == Some(resp.respCode)
            && (if AmountOf(req.amount).Some? then r.amount == AmountOf(req.amount).value else r.amount == 0)
            && (r.status == StatusApproved <==>
                  exists id :: id in t && t[id].pan == req.pan && BalanceOf(t', id) != BalanceOf(t, id))
            && (r.status == StatusApproved ==>
                  && r.code == Some("00") && r.authCode == Some(resp.authId) && r.reason.None?
                  && forall id :: id in t && t[id].pan == req.pan ==>
                       if IsReversal(req) then BalanceOf(t', id) - BalanceOf(t, id) == r.amount > 0
                       else BalanceOf(t, id) - BalanceOf(t', id) == r.amount > 0
                            && r.before == Some(BalanceOf(t, id)) && r.after == Some(BalanceOf(t', id)))
            && (r.status != StatusApproved ==>
                  && r.status == StatusDeclined && t' == t
                  && r.authCode.None? && r.reason.Some? && r.before.None? && r.after.None?)
  {
    hide Decide, Trim;
    DecisionAgrees(t, req, now, up, upCredit, authCode);
    CodeTrimmed(Decide(t, req, now, up, upCredit, authCode).0.code);
  }

  const AUDIT_CAPACITY: nat := 1000

  class IssuerService {
    const engine: AuthEngine
    const codec: Codec
    var queue: seq<AuditRecord>   // the bounded audit channel
    var written: seq<AuditRecord> // the issuer_transactions table

    constructor (engine: AuthEngine, codec: Codec)
      ensures this.engine == engine && this.codec == codec && queue == [] && written == []
    {
      this.engine, this.codec, queue, written := engine, codec, [], [];
    }

    /**
     Handles one raw request. The reply, when there is one, carries the engine's decision and never
     the default answer; the audit record is dropped only when the channel is full.
     */
    method Handle(raw: Bytes, now: int, up: bool, upCredit: bool, authCode: string) returns (reply: Option<Bytes>)
      requires UniquePans(engine.cards.cards)
      modifies this`queue, engine.cards
      ensures codec.unpack(raw).None? ==>
                reply == None && engine.cards.cards == old(engine.cards.cards) && queue == old(queue)
      ensures codec.unpack(raw).Some? ==>
                var req := codec.unpack(raw).value;
                var (d, table) := Decide(old(engine.cards.cards), req, now, up, upCredit, authCode);
                && engine.cards.cards == table
                && reply == codec.pack(Respond(req, d))
                && queue == if reply.Some? && |old(queue)| < 1000
                            then old(queue) + [AuditOf(req, Respond(req, d), d)] else old(queue)
    {
      var parsed := codec.unpack(raw);
      if parsed.None? {
        return None;
      }
      var req := parsed.value;
      var resp := DefaultResponse(req);
      var authResp, d := engine.Authorize(req, now, up, upCredit, authCode);
      resp := authResp;
      reply := codec.pack(resp);
      if reply.None? {
        return;
      }
      var amount := ParseAmount12(req.amount);
      var record := AuditRecord(Trim(req.stan), Trim(req.mti), if amount.Some? then amount.value else 0,
                                Trim(req.currency), if resp.respCode == APPROVED then StatusApproved else StatusDeclined,
                                if Trim(resp.respCode) != "" then Some(Trim(resp.respCode)) else None,
                                d.authCode, d.reason, d.before, d.after);
      if |queue| < AUDIT_CAPACITY {
        queue := queue + [record];
      }
    }

    /** One turn of `auditWorker`: takes the oldest record; a failed insert loses it. */
    method WriteAudit(up: bool)
      requires queue != []
      modifies this`queue, this`written
      ensures queue == old(queue)[1..]
      ensures written == if up then old(written) + [old(queue)[0]] else old(written)
    {
      if up {
        written := written + [queue[0]];
      }
      queue := queue[1..];
    }
  }

  /**
   No unbacked approval: when the reply to a request reads "00", the card's balance moved by exactly
   the amount; when it reads anything else, no balance moved. The default "00" never gets out.
   */
  lemma NoUnbackedApproval(codec: Codec, t: Table, req: Msg, now: int, up: bool, upCredit: bool, authCode: string)
    requires Invertible(codec) && UniquePans(t)
    ensures var (d, t') := Decide(t, req, now, up, upCredit, authCode);
            var reply := codec.pack(Respond(req, d));
            reply.Some? ==>
              && codec.unpack(reply.value).Some?
              && (codec.unpack(reply.value).value.respCode == APPROVED ==>
                    && AmountOf(req.amount).Some? && HasPan(t, req.pan) && SignedAmount(req) != 0
                    && t' == WithBalance(t, IdOf(t, req.pan), t[IdOf(t, req.pan)].balance + SignedAmount(req)))
              && (codec.unpack(reply.value).value.respCode != APPROVED ==> t' == t)
  {
    ApprovedIffMoved(t, req, now, up, upCredit, authCode);
  }

  /**
   The default answer is the engine's exactly when the engine approves, or when the amount is empty: both then say 05.
   Any other decline it would have turned into an approval.
   */
  lemma DefaultAgreesIff(t: Table, req: Msg, now: int, up: bool, upCredit: bool, authCode: string)
    ensures var code := Decide(t, req, now, up, upCredit, authCode).0.code;
            && (DefaultResponse(req).respCode == code <==> code == APPROVED || req.amount == "")
            && (DefaultResponse(req).respCode != code ==> DefaultResponse(req).respCode == APPROVED)
            && DefaultResponse(req).mti == Respond(req, Decide(t, req, now, up, upCredit, authCode).0).mti
  {
    assert AmountOf("").None?;
  }

  /** So it would approve a payment from a card that does not exist. */
  lemma DefaultResponseIsOptimistic(t: Table, req: Msg, now: int, authCode: string)
    requires AmountOf(req.amount).Some? && AmountOf(req.amount).value > 0 && !HasPan(t, req.pan)
    ensures DefaultResponse(req).respCode == APPROVED
    ensures DecidePurchase(t, req, now, true, authCode).0.code == INVALID_CARD
  {
  }
}
