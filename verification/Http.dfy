/** The acquirer's HTTP side of a payment: status mapping, the record kept of it, and the bounded audit channel. */
module Http {
  import opened Base
  import opened Engine
  import opened Ledger
  import opened Money
  import opened Protocol
  import ProtocolProof
  import opened Rules

  datatype TxRecord = TxRecord(stan: string, mti: string, amount: int, currency: string, status: Status,
                               responseCode: Option<string>, request: Bytes, response: Option<Bytes>)

  /** 400, 422, 502, or 200 with both messages. */
  datatype Reply = BadRequest | Unprocessable | BadGateway | Completed(request: Bytes, response: Bytes, message: Msg)

  const AUDIT_BUFFER: nat := 1000

  /** The record of a request that was sent and of how the switch's call for it ended. */
  function RecordOf(codec: Codec, req: Msg, request: Bytes, outcome: Outcome): TxRecord {
    var status := VerdictOn(codec, outcome);
    TxRecord(Trim(req.stan), Trim(req.mti), if AmountOf(req.amount).Some? then AmountOf(req.amount).value else 0,
             Trim(req.currency), status,
             if status.StatusError? then None else Some(codec.unpack(outcome.iso).value.respCode),
             request, if outcome.Response? then Some(outcome.iso) else None)
  }

  /** What a record names besides its verdict: the request's own fields and bytes, and the answer if there was one. */
  lemma RecordSays(codec: Codec, req: Msg, request: Bytes, outcome: Outcome)
    ensures var r := RecordOf(codec, req, request, outcome);
            && r.stan == Trim(req.stan) && r.mti == Trim(req.mti) && r.currency == Trim(req.currency)
            && (if AmountOf(req.amount).Some? then r.amount == AmountOf(req.amount).value else r.amount == 0)
            && r.request == request
            && (r.response.Some? <==> outcome.Response?) && (r.response.Some? ==> r.response.value == outcome.iso)
            && (r.responseCode.Some? <==> outcome.Response? && codec.unpack(outcome.iso).Some?)
            && (r.responseCode.Some? ==> r.responseCode == Some(codec.unpack(outcome.iso).value.respCode))
            && (r.status == StatusApproved <==> r.responseCode == Some("00"))
            && (r.status == StatusDeclined <==> r.responseCode.Some? && r.responseCode != Some("00"))
  {
  }

  class HttpServer {
    const codec: Codec
    var auditCh: seq<TxRecord>
    var saved: seq<TxRecord>  // the acquirer_transactions table

    constructor (codec: Codec)
      ensures this.codec == codec && auditCh == [] && saved == []
    {
      this.codec, auditCh, saved := codec, [], [];
    }

    /** The non-blocking send: a full channel drops the record. */
    method AsyncLogAcquirerTx(req: Msg, request: Bytes, response: Option<Bytes>, status: Status, responseCode: Option<string>)
      modifies this`auditCh
      ensures var amount := AmountOf(req.amount);
              var tx := TxRecord(Trim(req.stan), Trim(req.mti), if amount.Some? then amount.value else 0,
                                 Trim(req.currency), status, responseCode, request, response);
              auditCh == if |old(auditCh)| < AUDIT_BUFFER then old(auditCh) + [tx] else old(auditCh)
    {
      var amount := ParseAmount12(req.amount);
      var tx := TxRecord(Trim(req.stan), Trim(req.mti), if amount.Some? then amount.value else 0,
                         Trim(req.currency), status, responseCode, request, response);
      if |auditCh| < AUDIT_BUFFER {
        auditCh := auditCh + [tx];
      }
    }

    /**
     `handleTransaction`. `body` is the bound JSON, if it could be bound, and `outcome` how the switch's call ends.
     Nothing is recorded of a request that was not sent; of any other exactly one record is made, with the
     verdict that the reply gives as well, and it is lost only when the channel is full.
     */
    method HandleTransaction(body: Option<Msg>, outcome: Outcome) returns (reply: Reply)
      modifies this`auditCh
      ensures reply.BadRequest? <==> body.None?
      ensures reply.Unprocessable? <==> body.Some? && codec.pack(body.value).None?
      ensures reply.BadRequest? || reply.Unprocessable? ==> auditCh == old(auditCh)
      ensures body.Some? && codec.pack(body.value).Some? ==>
                var request := codec.pack(body.value).value;
                var verdict := VerdictOn(codec, outcome);
                && (reply.BadGateway? <==> verdict.StatusError?)
                && (reply.Completed? ==> outcome.Response? && reply.request == request && reply.response == outcome.iso
                                         && codec.unpack(outcome.iso) == Some(reply.message)
                                         && (reply.message.respCode == APPROVED <==> verdict.StatusApproved?))
                && auditCh == if |old(auditCh)| < 1000
                              then old(auditCh) + [RecordOf(codec, body.value, request, outcome)] else old(auditCh)
    {
      if body.None? {
        return BadRequest;
      }
      var req := body.value;
      var packed := codec.pack(req);
      if packed.None? {
        return Unprocessable;
      }
      if !outcome.Response? {
        AsyncLogAcquirerTx(req, packed.value, None, StatusError, None);
        return BadGateway;
      }
      var response := outcome.iso;
      var respMsg := codec.unpack(response);
      if respMsg.None? {
        AsyncLogAcquirerTx(req, packed.value, Some(response), StatusError, None);
        return BadGateway;
      }
      var status := StatusDeclined;
      if respMsg.value.respCode == APPROVED {
        status := StatusApproved;
      }
      AsyncLogAcquirerTx(req, packed.value, Some(response), status, Some(respMsg.value.respCode));
      return Completed(packed.value, response, respMsg.value);
    }

    /** One turn of an audit worker: takes the oldest record; a failed insert loses it. */
    method WriteAudit(up: bool)
      requires auditCh != []
      modifies this`auditCh, this`saved
      ensures auditCh == old(auditCh)[1..]
      ensures saved == if up then old(saved) + [old(auditCh)[0]] else old(saved)
    {
      if up {
        saved := saved + [auditCh[0]];
      }
      auditCh := auditCh[1..];
    }
  }

  lemma CallsAreSent(codec: Codec, s: System, n: nat)
    requires SystemInv(codec, s) && n in s.net.calls
    ensures n in s.sent && codec.pack(s.sent[n]) == Some(s.net.calls[n].raw)
  {
    hide FoundInv, LogInv, AnswerInv, BooksBalance;
    ProtocolProof.AtCall(s.net, n);
  }

  /**
   What the acquirer's books say of a finished call agrees with the issuer's. A record APPROVED names a
   positive amount, and the card in the request was debited by it (credited, for a reversal) exactly once;
   a record DECLINED means that no balance moved; and money that moved is recorded as APPROVED or as ERROR.
   */
  lemma RecordsAgreeWithMoney(codec: Codec, poolSize: nat, workerLimit: nat, actions: seq<Action>, s: System, n: nat)
    requires GoodCodec(codec) && Reaches(codec, poolSize, workerLimit, actions, s)
    requires n in s.net.calls && s.net.calls[n].phase.Done?
    ensures n in s.sent && codec.pack(s.sent[n]) == Some(s.net.calls[n].raw)
    ensures var r := RecordOf(codec, s.sent[n], s.net.calls[n].raw, s.net.calls[n].phase.outcome);
            && (r.status == StatusApproved ==>
                  r.amount > 0 && MovedOnce(s, n, if IsReversal(s.sent[n]) then r.amount else -r.amount))
            && (r.status == StatusDeclined ==> EntriesOf(s.log, n) == [])
            && (EntriesOf(s.log, n) != [] ==> r.status in {StatusApproved, StatusError})
            && (r.responseCode == Some(APPROVED) <==> r.status == StatusApproved)
  {
    hide GoodCodec, Reaches, MovedOnce, EntriesOf, SystemInv;
    ReachesInv(codec, poolSize, workerLimit, actions, s);
    CallsAreSent(codec, s, n);
    var r := RecordOf(codec, s.sent[n], s.net.calls[n].raw, s.net.calls[n].phase.outcome);
    assert Verdict(codec, s, n) == Some(r.status);
    if r.status == StatusApproved {
      ApprovedMeansMoved(codec, poolSize, workerLimit, actions, s, n);
    }
    DeclinedMeansUntouched(codec, poolSize, workerLimit, actions, s, n);
  }
}
