# Verification of the payment laboratory

The repository is a small card-payment system. An acquirer takes payments over HTTP, limits how many it
works on at once, and forwards them as ISO 8583 messages over a pool of TCP connections. An issuer reads
them, decides them against a table of cards and answers. A web client encodes and decodes messages,
inspects chip data and makes up card numbers. This project models the parts where something can go wrong
and proves what they promise, for every input, every run and every interleaving.

| file | what it holds |
|---|---|
| `Base.dfy` | optional values, bytes, big-endian numbers, hexadecimal text |
| `Framing.dfy` | TPDU frames on a byte stream: readers, writers, the write mutex of a shared connection |
| `Protocol.dfy` | acquirer switch and issuer server as one transition system, and its invariant |
| `ProtocolProof.dfy` | every step keeps the invariant |
| `ProtocolTheorems.dfy` | what follows for every run: response integrity, at-most-once processing, no leaks |
| `ProtocolPlaces.dfy` | conservation: no message disappears without a step that discards it |
| `ProtocolFates.dfy` | the protocol from each participant's side: how calls end, where messages go, what can be done |
| `ProtocolBytes.dfy` | the protocol's queues are what the bytes on its connections carry |
| `ProtocolWrap.dfy` | a run of more than 2^32 calls, in which an ID is not free and a response goes to the wrong call |
| `Switch.dfy` | the switch as the object it is; each method does what a step of the protocol does |
| `Ledger.dfy` | the cards table, its statements, the card service's read-modify-write |
| `Rules.dfy` | amounts and expiry dates |
| `Engine.dfy` | the authorization engine and the issuer service |
| `Money.dfy` | acquirer, network, issuer and ledger together: reports agree with balances |
| `MoneyWitness.dfy` | runs of the whole system that end in APPROVED, for every purchase and reversal that its card allows |
| `Http.dfy` | status mapping, transaction records, the bounded audit channel |
| `Limiter.dfy` | the concurrency limiter under every interleaving |
| `JsText.dfy` | JavaScript's `parseInt`, `substring` and `fromCharCode`, for every text |
| `Bitmap.dfy` | field numbers and bitmaps, built and read |
| `IsoEngine.dfy` | the client's ISO 8583 encoder and decoder over any field table |
| `SpecTable.dfy` | the field table of `web/spec.json` and what it implies |
| `Emv.dfy` | the TLV parser and builder, with 64-bit lengths |
| `Luhn.dfy` | generator and validator of card numbers |

Run `dafny verify dfyconfig.toml` to check everything.

## How the concurrent parts are modelled

A goroutine is a control state. Every section that is atomic in the program (an atomic operation, a section
under a mutex, a channel operation, one SQL statement) is one step, and a run is any sequence of enabled
steps. `Protocol.Book` is history: for each call its bytes, where its one message is, which handler got it
and what the handler made of it. The theorems in `ProtocolTheorems` and `Money` speak of every state that
some run reaches, however long, under one condition. Correlation IDs have 32 bits and come round, so whenever a call
registers its ID must be free: no other call with it is registered, and no message of such a call is on its way.
That is exactly what the invariant needs (`ProtocolTheorems.RegisterPreservesIff`). It holds while everything unfinished
belongs to the last 2^32 calls (`RecentIdsAreFree`), so in every run with fewer (`FewCallsReach`).
`ProtocolWrap.IntegrityNeedsFreeIds` is a run without it, in which a call returns the response to another's request.

The pool mutex is held over one step everywhere but in `ensureConnection`, which dials for up to five seconds under it.
So dialling is two steps, and until the second no call can pick a slot (`ProtocolTheorems.CallNotBlocked`).

Of the network it is assumed that a failed write delivers no complete frame, and that nothing later arrives
on that connection if it delivered part of one; that read deadlines fire only between frames; and that a
connection may stop delivering at any moment. The protocol speaks of queues of messages.
`ProtocolBytes.BytesCarryMessages` joins them to the byte streams: every run drives the byte-level channel of
`Framing` on each connection, and what the readers make of the bytes is what the queues held.

Of the message library it is assumed that a message that packs is unpacked to itself and fits a frame. The
second half is what `SpecTable.MessagesFit` derives from the field table.

## Where the code and its documentation differ

The model follows the code; the lemmas named here say what it does instead, and when the two agree.

- The documentation gives code 54 for an expired card (`docs/TRANSACTION_SCENARIOS.md`). The code charges an
  expired card that has enough money: `Engine.ExpiredCardDeclinedIff`.
- The limiter's `queued` is described as the number of waiting requests. It also counts requests from the
  queue that already run: `Limiter.QueuedCountsWaitersIff`, and `Limiter.QueuedWithoutWaiters` for a run where it
  is one although nobody waits.
- The limiter's queue is described as switched off by `MAX_QUEUE=0`. The setting is read by `envInt`, which takes
  0 for absent, so the queue then has its default length: `Limiter.QueueNeverDisabled`.
- The client's encoder writes data for fields above 64 but announces none of them, and a short fixed field
  shifts everything behind it. `IsoEngine.RoundTripIff` says for which messages decoding gives the message back.
- A TLV length of eight bytes or more overflows and can take the parser backwards: `Emv.OutOfRangeIff`. A
  value of 65536 bytes or more is written with its length cut off: `Emv.TagsRoundTripIff`.
- An `UpdateCard` without a balance undoes every payment since it read the card: `Ledger.EditLosesWhatItMissed`.
- A deleted card need not stay deleted. `Ledger.DeletedAfterEditIff` says when it is after an `UpdateCard`, whatever
  happened in between. It can come back in two ways: the request names no status and had read the card before the
  deletion (`Ledger.EditUndoesDeletion`), or it names another status (`Ledger.NamedStatusUndoesDeletion`).
- A card expires one nanosecond before its month ends: `Rules.GoodThroughItsMonth`.

## Model

| member | source | states |
|---|---|---|
| ProtocolTheorems.ResponseIntegrity | internal/acquirer/switch.go:131-167 | in every interleaving of calls, retries, timeouts, reconnects, listeners and handlers, a response that a call returns was computed by an issuer handler from exactly that call's bytes |
| ProtocolTheorems.ProcessedAtMostOnce | internal/issuer/tcp_server.go:110-157 | two executions of the same call in one run are the same execution, whatever bytes and answers they had |
| ProtocolTheorems.PendingExact | internal/acquirer/switch.go:139-142 | the pending map's keys are exactly the correlation IDs of the calls past registration that have not left, each mapped to its own call |
| ProtocolTheorems.ChannelNeverFull | internal/acquirer/switch.go:262-271 | when a listener sends on a response channel the channel is empty, so the default branch that drops a response is never taken |
| ProtocolTheorems.LateReplyHarmless | internal/acquirer/switch.go:272-278 | a response to a call that has left is dropped at the lookup, or fills only the abandoned channel |
| ProtocolTheorems.SendBounds | internal/acquirer/switch.go:300-364 | a call picks at most three slots and writes successfully at most once; sending fails exactly when no write succeeded, after three picks, and then the issuer never answers |
| ProtocolTheorems.RoundRobinIsFair | internal/acquirer/switch.go:305-309 | under any interleaving the k-th selection takes slot k mod poolSize, and two slots' counts differ by at most one |
| ProtocolTheorems.WorkerAccounting | internal/issuer/tcp_server.go:91-113 | slots in use are the handlers that have not released, never above the pool size; admissions are releases plus slots in use; no two handlers have the same call |
| ProtocolTheorems.CallNotBlocked | internal/acquirer/switch.go:198-341 | a call that is to write can; one that is to pick a slot waits exactly while a listener dials under the pool mutex, and can pick when the dial has ended, which it can at any time, either way |
| ProtocolTheorems.ListenerNotBlocked | internal/acquirer/switch.go:258-271 | a listener that has read a packet can always route it |
| ProtocolTheorems.IssuerNotBlocked | internal/issuer/tcp_server.go:112-150 | a handler with an answer can send it, and one that leaves can give its slot back |
| ProtocolTheorems.ReaderNotBlocked | internal/issuer/tcp_server.go:76-104 | a read loop can take the next request, and hand a waiting one to every unused handler exactly while fewer handlers than the limit occupy slots |
| ProtocolFates.RunChoices | internal/issuer/tcp_server.go:76-157 | at every reachable state each call, listener, read loop and handler can do exactly what its own phase offers |
| ProtocolFates.CallOutcomeIff | internal/acquirer/switch.go:131-167 | in every run a call has ended in a response exactly when it took that response, timed out or cancelled exactly when it was told so, and failed to send exactly when its third attempt found no connection or could not write |
| ProtocolFates.RunFate | internal/issuer/tcp_server.go:76-157 | every step takes every message where its way goes from where it is, and whoever has it then really has it; a response is routed exactly while its own call is registered |
| ProtocolFates.ListenerGoes | internal/acquirer/switch.go:169-280 | what each step of its own makes of a listener; a response goes on to its own call exactly while that is registered |
| ProtocolFates.PoolGoes | internal/acquirer/switch.go:197-219 | a slot is filled by its own listener's dial, emptied by its close, and changed by nothing else; the pool mutex is held from a dial to its end |
| ProtocolFates.ReaderGoes | internal/issuer/tcp_server.go:66-104 | a read loop takes the first request, hands it to a new handler or drops it, and ends with a failed read |
| ProtocolFates.HandlerGoes | internal/issuer/tcp_server.go:110-157 | what each step of its own makes of a handler |
| ProtocolFates.ShutdownIff | internal/acquirer/switch.go:110-115 | the switch shuts down exactly when it is told to |
| ProtocolTheorems.RegisterPreservesIff | internal/acquirer/switch.go:131-142 | a registration keeps the protocol's invariant exactly when no other registered call, and no message of another call that is on its way, has its correlation ID |
| ProtocolTheorems.RegisterStealsIff | internal/acquirer/switch.go:131-142 | it takes another call's entry in the pending map exactly when another registered call has its ID |
| ProtocolTheorems.MisroutedIff | internal/acquirer/switch.go:258-271 | a response is handed to another call than its own exactly when another registered call has its ID |
| ProtocolTheorems.RecentIdsAreFree | internal/acquirer/switch.go:43 | an ID is free when all calls registered and all messages on their way are less than 2^32 numbers away |
| ProtocolTheorems.FewCallsReach | internal/acquirer/switch.go:131-142 | every run with fewer than 2^32 calls is one in which IDs are free |
| ProtocolTheorems.SharedCorrId | internal/acquirer/switch.go:43 | two calls share a correlation ID exactly when their numbers are a multiple of 2^32 apart |
| ProtocolWrap.IntegrityNeedsFreeIds | internal/acquirer/switch.go:131-167 | a run of more than 2^32 calls, one of which registers under an ID in use, in which a call returns a response that the issuer computed for another call, from that call's request, while the other waits in vain |
| ProtocolProof.StepPreserves | internal/acquirer/switch.go:131-280 | every step of every participant, registrations under free IDs, keeps the protocol's invariant |
| ProtocolPlaces.EveryMessageHeld | internal/issuer/tcp_server.go:76-157 | at every moment the message of every call is really in the queue, read loop, handler, listener or buffer where history puts it, or a step has discarded it |
| ProtocolPlaces.AwaitingIsNowhereElse | internal/issuer/tcp_server.go:87-104 | a request that waits for a worker waits once, is on no connection, has and had no handler and no answer |
| ProtocolBytes.BytesCarryMessages | internal/issuer/tcp_server.go:163-213 | in every run, in both directions of every connection, the byte-level channel delivers the frames put on the queue, and a reader of its bytes gets the correlation IDs and ISO bytes of the messages already taken and then of those still queued |
| Switch.AcquirerSwitch.NextCorrId | internal/acquirer/switch.go:132-133 | the atomic addition is the protocol's new call and gives its correlation ID |
| Switch.AcquirerSwitch.Register | internal/acquirer/switch.go:135-141 | storing a fresh channel is the protocol's registration |
| Switch.AcquirerSwitch.Unregister | internal/acquirer/switch.go:142 | the deferred deletion is the protocol's, and the key is gone |
| Switch.AcquirerSwitch.Receive | internal/acquirer/switch.go:155-158 | receiving is the protocol's receipt and yields the buffered response |
| Switch.AcquirerSwitch.PickConnection | internal/acquirer/switch.go:304-309 | the section under the pool mutex is the protocol's selection |
| Switch.AcquirerSwitch.EnsureConnection | internal/acquirer/switch.go:197-219 | from locking to unlocking, a connection is dialled exactly for an empty slot, and its two outcomes are the protocol's |
| Switch.AcquirerSwitch.CloseConnection | internal/acquirer/switch.go:389-397 | emptying a slot is the protocol's close |
| Switch.AcquirerSwitch.CloseAllConnections | internal/acquirer/switch.go:400-410 | the loop empties the whole pool and nothing else |
| Switch.AcquirerSwitch.Load | internal/acquirer/switch.go:252-264 | the ID in bytes 1 to 4 finds the channel of the call that the protocol finds |
| Switch.AcquirerSwitch.Send | internal/acquirer/switch.go:264-271 | the non-blocking send is the protocol's delivery |
| Switch.AcquirerSwitch.SendToIssuer | internal/acquirer/switch.go:300-364 | the retry loop is a run of the protocol's steps; it succeeds exactly when the call then waits, and it writes the call's frame to exactly the connections tried, in order |
| Switch.SendSucceedsIff | internal/acquirer/switch.go:300-364 | sending succeeds exactly when one of the three attempts, each at the next slot of the pool, finds a connection whose write succeeds |
| Framing.StreamRoundTrip | internal/acquirer/switch.go:367-386 | any sequence of frames that fit is read back exactly, in order, with nothing left over |
| Framing.TruncatedStream | internal/issuer/tcp_server.go:163-180 | a stream cut anywhere gives exactly its complete frames and leaves the beginning of the next |
| Framing.ChannelIsFrameQueue | internal/issuer/tcp_server.go:141-145 | however writers take turns under the write mutex and bytes are cut up, both readers get exactly the delivered frames in mutex order |
| Framing.ReadBackIff | internal/acquirer/switch.go:327-341 | a frame is read back exactly when its total length is at most 8192, although the length field is a 16-bit cast |
| Framing.HeaderRoundTrip | internal/acquirer/switch.go:325-326 | the correlation ID written into the header is the one read from it |
| Framing.HeaderLayout | internal/acquirer/switch.go:325-326 | the header is 0x60 and the ID with its high byte first |
| Framing.PacketLayout | internal/acquirer/switch.go:327-334 | a packet is the length in two bytes, its high byte first, the header and the body |
| Framing.ReadPacketMeans | internal/acquirer/switch.go:367-386 | a packet is read exactly from a stream that begins with a length of 1 to 8192 and that many bytes, and each failure has its one cause |
| Framing.CleanIsFrames | internal/issuer/tcp_server.go:163-190 | what the issuer reads without complaint is whole frames that fit, one after another, and the rest it has not read |
| Framing.ShortPacket | internal/acquirer/switch.go:253-257 | a packet too short for a header is skipped by the acquirer and ends the issuer's connection |
| Framing.ReadTpduPacket | internal/acquirer/switch.go:367-386 | fills its buffers from the stream and returns what the packet format says, error cases included |
| Framing.ReadTpduFrame | internal/issuer/tcp_server.go:163-190 | splits a packet into header and body, and refuses one without room for a header |
| Framing.BuildPacket | internal/issuer/tcp_server.go:194-213 | the buffer filled in place is the frame's packet |
| Framing.Stream.ReadFull | internal/issuer/tcp_server.go:164-180 | fills the whole buffer and moves on by its length, or fails having taken what was left |
| Ledger.Conservation | internal/store/postgres/card.go:167-331 | over every run a balance is its start, plus payments in and out, plus explicit sets, plus the drift of edits that name no balance |
| Ledger.EditLosesWhatItMissed | internal/card/service.go:120-165 | such an edit loses exactly the net of everything that happened to the balance between its read and its write |
| Ledger.DeletedAfterEditIff | internal/card/service.go:120-165 | after an `UpdateCard`, whatever happened between its read and its write, the card is deleted exactly when the request names that status, or names none and the card was deleted when it was read |
| Ledger.EditUndoesDeletion | internal/card/service.go:146-160 | a card read, deleted and then written by an edit without a status is active again |
| Ledger.NamedStatusUndoesDeletion | internal/card/service.go:146-160 | an edit that names the status ACTIVE revives a card that it has read as deleted |
| Ledger.NeverOverdrawn | internal/store/postgres/card.go:235-331 | while balances set outright are not negative, no run takes any balance below zero or out of 64 bits |
| Ledger.ConsistentNext | internal/store/postgres/card.go:55-75 | every statement keeps card numbers unique and never changes one |
| Ledger.CardRepository.GetCardByPAN | internal/store/postgres/card.go:76-109 | finds the one row with the number, or none |
| Ledger.CardRepository.Debit | internal/store/postgres/card.go:263-331 | one statement: debits an active card with enough balance by the amount, and otherwise changes nothing |
| Ledger.CardRepository.DebitIfEnough | internal/store/postgres/card.go:235-258 | debits by ID whatever the status; reports balances that differ by the amount |
| Ledger.CardRepository.UpdateBalance | internal/store/postgres/card.go:220-233 | overwrites one balance |
| Ledger.CardRepository.Credit | internal/store/postgres/card.go:202-218 | credits an existing card by a positive amount whose sum fits 64 bits |
| Ledger.CardRepository.Update | internal/store/postgres/card.go:167-187 | overwrites a row and keeps its number |
| Ledger.CardRepository.Delete | internal/store/postgres/card.go:189-200 | marks a row as deleted |
| Ledger.CardService.UpdateCard | internal/card/service.go:120-165 | stores the row it read with the named fields replaced; a malformed expiry or a missing card changes nothing |
| Ledger.StoredColumns | internal/card/service.go:129-156 | column by column, the stored row has what the request names, trimmed, and else what was read; only four digits are an expiry |
| Ledger.TrimMeans | internal/card/service.go:129-146 | trimming takes the blanks off both ends and nothing else |
| Ledger.InsertMeans | internal/store/postgres/card.go:53-74 | a row is inserted exactly when its ID and its number are new |
| Ledger.CardService.TopUp | internal/card/service.go:210-231 | adds the amount to the balance and returns the new row, and fails for an amount that is not positive or a missing card |
| Rules.ParseAmount12 | internal/util/util.go:30-43 | exactly the twelve-digit strings are amounts, with their decimal value, which always fits 64 bits |
| Rules.DigitsRoundTrip | internal/util/util.go:30-43 | a number written with enough digits is read as itself |
| Rules.AmountIff | internal/util/util.go:30-43 | a text is the amount v exactly when it is v, below 10^12, in twelve digits |
| Rules.ExpiryMeans | internal/auth/rules.go:26-51 | a card of year 2000 + y and month m is valid exactly until one nanosecond before the first day of the month after, and never with a month that does not exist |
| Rules.ValidIsYearAndMonth | internal/auth/rules.go:26-61 | nothing but two digits of year and a month from 01 to 12 is ever valid |
| Rules.Calendar | internal/auth/rules.go:45-48 | counting month by month gives the calendar in closed form, leap years included |
| Rules.MonthLength | internal/auth/rules.go:45-48 | each month of each year has its length |
| Rules.GoodThroughItsMonth | internal/auth/rules.go:26-51 | a card is good in each month up to the one it names, except in the last nanosecond of that month |
| Rules.MalformedExpiryIsInvalid | internal/auth/rules.go:26-61 | an expiry that is not four digits, or names month 00, is never valid |
| Engine.PurchaseCodes | internal/auth/engine.go:61-115 | codes 14, 78, 54, 51 and 00 each have exactly one cause in the card's row, the amount and the clock; 00 comes with the debit and both balances |
| Engine.PurchaseErrors | internal/auth/engine.go:49-75 | code 05 exactly for a malformed amount; 96 exactly for a zero amount or a failed statement |
| Engine.ReversalCodes | internal/auth/engine.go:118-157 | a reversal gets 05 exactly for a malformed amount, 00 exactly when its amount is positive, both statements succeed and its card can hold the sum, which it then has, and 96 otherwise |
| Engine.ReasonOfCode | internal/auth/engine.go:49-157 | each code goes with its reason, and 96 with the statement that failed |
| Engine.ResponseSays | internal/auth/engine.go:36-115 | an answer is its request with the type in the response class, the code, and the authorization code if there is one |
| Engine.ExpiredCardDeclinedIff | internal/auth/engine.go:90-115 | an active expired card gets 54 exactly when its balance is too low, and is charged otherwise |
| Engine.ApprovedIffMoved | internal/auth/engine.go:36-157 | an approval moved the request's card by its positive amount; anything else moved nothing |
| Engine.AuthEngine.Authorize | internal/auth/engine.go:36-115 | the step-by-step code reaches the one decision on row, amount and clock, and answers with it |
| Engine.AuthEngine.HandleReversal | internal/auth/engine.go:118-157 | the same for reversals: look up, then credit |
| Engine.ValidateCardBasic | internal/auth/rules.go:10-24 | no objection exactly for an active card with a valid expiry |
| Engine.IssuerService.Handle | internal/issuer/service.go:46-132 | the reply carries the engine's decision, the table changes with it, and one record is queued unless the channel is full |
| Engine.AuditAgrees | internal/issuer/service.go:88-128 | a record is APPROVED exactly when the balance of the request's card changed, and names by how much, code 00, the answer's authorization code and, for a purchase, both balances; a record DECLINED means an unchanged table and names the answer's code and a reason |
| Engine.IssuerService.WriteAudit | internal/issuer/service.go:38-42 | a worker takes the oldest record, and a failed insert loses it |
| Engine.NoUnbackedApproval | internal/issuer/service.go:55-72 | every packed "00" stands for one change of the card by the amount, and every other reply for none |
| Engine.DefaultAgreesIff | internal/issuer/service.go:55-66 | the default response has the engine's code exactly when the engine approves or the amount is empty, and would approve in every other case |
| Engine.DefaultResponseIsOptimistic | internal/issuer/service.go:136-150 | for every table without the card, the default response alone would approve the payment, which the engine declines with 14 |
| Money.ApprovedMeansMoved | internal/acquirer/http.go:287-326 | in every run, APPROVED means that the issuer moved the request's card by exactly the amount, exactly once, for that request |
| Money.DeclinedMeansUntouched | internal/acquirer/http.go:316-326 | DECLINED means that no balance moved for the call; money that moved belongs to a call approved, failed with an error, or not finished |
| Money.MovedAtMostOnce | internal/auth/engine.go:70-115 | no call moves money twice, and what it moves is its own card's and its own amount |
| Money.LogExplainsBalances | internal/store/postgres/card.go:167-331 | in every run each balance is the sum of its logged changes |
| Money.UnsentMovesNothing | internal/acquirer/switch.go:147-149 | a call whose send failed moved nothing |
| Money.VerdictIsDecision | internal/acquirer/http.go:302-326 | the acquirer's verdict on an answered call is the issuer's decision on it |
| Money.ActionPreserves | internal/issuer/service.go:46-132 | every action of acquirer, network, issuer and card service, registrations under free IDs, keeps the joint invariant |
| Money.NetReaches | internal/acquirer/http.go:234-364 | a run of the whole system is a run of the protocol, so all that holds of those holds of it |
| Money.NeverOverdrawn | internal/auth/engine.go:51-115 | no run of the whole system takes a balance below zero or out of 64 bits while the balances that the card service sets outright are in range, with any message library and any IDs |
| MoneyWitness.ApprovedRun | internal/acquirer/http.go:234-364 | with any message library that packs request and response, every purchase that its card can pay and every reversal that its card can hold has a run from the idle system to APPROVED, with the amount taken from the card or given back |
| MoneyWitness.PossibleIsApproved | internal/acquirer/http.go:234-364 | such a library exists, and so does the run |
| Http.HttpServer.HandleTransaction | internal/acquirer/http.go:234-364 | 400, 422, 502 and 200 in exactly their cases; one record per sent request, with the verdict of the reply, lost only when the channel is full |
| Http.HttpServer.AsyncLogAcquirerTx | internal/acquirer/http.go:448-490 | a record goes to the end of the channel or, when it is full, nowhere |
| Http.HttpServer.WriteAudit | internal/acquirer/http.go:52-56 | a worker takes the oldest record, and a failed insert loses it |
| Http.RecordsAgreeWithMoney | internal/acquirer/http.go:287-326 | in every run a record APPROVED names the positive amount by which the card was moved once, a record DECLINED means that nothing moved, and money that moved is recorded as APPROVED or as ERROR |
| Http.RecordSays | internal/acquirer/http.go:448-490 | a record names the request's own fields and bytes, the answer's bytes exactly when there was one, and the answer's code exactly when it was readable |
| Limiter.LimiterSafe | internal/acquirer/middleware.go:82-172 | in every interleaving `inflight` is the number of slot holders and within the limit, `queued` is the admitted plus the transient excess, the admitted never exceed `maxQueue`, and `rejectedTotal` is the number turned away |
| Limiter.StepPreserves | internal/acquirer/middleware.go:113-208 | every load, swap, addition and deferred release keeps the limiter's invariant |
| Limiter.QuiescentIsZero | internal/acquirer/middleware.go:96-98 | when all requests have left, both counters are zero and every request was served or counted as rejected |
| Limiter.QueuedCountsWaitersIff | internal/acquirer/middleware.go:25-32 | `queued` is the number of waiting requests exactly when no other counted request exists |
| Limiter.QueuedWithoutWaiters | internal/acquirer/middleware.go:25-32 | a run with one slot and one place in the queue reaches a state in which `queued` is one and nobody waits |
| Limiter.ServedStillQueued | internal/acquirer/middleware.go:153-171 | a request that the queue served stays in `queued` while its handler runs |
| Limiter.OutcomeIsFinal | internal/acquirer/middleware.go:113-208 | a request that has left keeps its one outcome through every further run |
| Limiter.OutcomeIff | internal/acquirer/middleware.go:113-208 | in every run a request is served exactly when a swap of its own took a free slot, cancelled exactly when it found its context done, timed out exactly when it found its timer fired, the queue wait after it joined, and turned away exactly when the queue was full, or switched off |
| Limiter.QueueFullOnlyWhenFull | internal/acquirer/middleware.go:127-152 | a request is refused as over the queue exactly when `maxQueue` requests are counted, and as disabled exactly when there is no queue |
| Limiter.QueueNeverDisabled | internal/acquirer/middleware.go:220-227 | with a limiter made from the environment limit and queue are the settings, or 200 and 500; there is always a queue, and no run refuses a request for the lack of one |
| Limiter.PollingEnds | internal/acquirer/middleware.go:163-207 | among any number of requests and in any interleaving, a request sleeps through at most as many turns of its loop as there were milliseconds left to its deadline when it joined the queue, and at most as many as the queue wait has, if there is one |
| Limiter.PollsToTheEnd | internal/acquirer/middleware.go:163-207 | that bound is reached for every deadline and queue wait, and then the request is cancelled, or timed out if its timer was first |
| Limiter.StartClamps | internal/acquirer/middleware.go:48-60 | a new limiter counts nothing and has at least one slot and no negative queue, and keeps what is given otherwise |
| Limiter.AttemptOutcome | internal/acquirer/middleware.go:82-94 | whatever steps the others take before each of its loads and swaps, an attempt ends with a slot within the limit, or without one when all are taken |
| Limiter.ConcurrencyLimiter.TryAcquire | internal/acquirer/middleware.go:82-94 | the loop is the state machine's loads and swaps, with any steps of the others before each load and before each swap, and goes on exactly while its swaps fail |
| Limiter.ConcurrencyLimiter.Enqueue | internal/acquirer/middleware.go:127-152 | counting in is the state machine's step, and admits exactly while the queue is not exceeded |
| Limiter.ConcurrencyLimiter.Dequeue | internal/acquirer/middleware.go:142-154 | undoing the count, at once or deferred, is the state machine's step |
| Limiter.ConcurrencyLimiter.Release | internal/acquirer/middleware.go:96-98 | the deferred release is the state machine's step |
| Limiter.ConcurrencyLimiter.CountRejected | internal/acquirer/middleware.go:128-190 | counting a rejection is the state machine's step |
| Limiter.Poll | internal/acquirer/middleware.go:163-207 | one request on its own, which finds a slot or not at each turn: the loop ends by its deadline and by the queue wait if there is one, with the outcome of its last turn |
| IsoEngine.RoundTripIff | web/iso-engine.js:27-99 | for any field table, decoding an encoded message, as leniently as JavaScript does, gives every present field in its normal form exactly when the type is four one-byte characters, all fields are 2 to 64, and each can be read back |
| IsoEngine.ReencodeSame | web/iso-engine.js:27-99 | such a message goes out, comes back, and goes out as the same text |
| IsoEngine.EncodeExpected | web/iso-engine.js:104-132 | encoding the padded and cut values gives the same text as encoding the originals, for every message |
| IsoEngine.FieldBackIff | web/iso-engine.js:104-159 | one field is read back exactly when its characters are one byte, a prefixed length fits its prefix, and a fixed value has full length or is the last; then the next field starts where it ends |
| IsoEngine.LlvarBackIff | web/iso-engine.js:120-159 | a one-byte value in an `llvar` field goes out behind two decimal digits, and comes back exactly up to 99 characters |
| IsoEngine.LllvarBackIff | web/iso-engine.js:120-159 | in an `lllvar` field it goes out behind three, and comes back exactly up to 999 |
| IsoEngine.FieldsBackIff | web/iso-engine.js:86-96 | the same for a list of fields, one after another |
| IsoEngine.NormalMeans | web/iso-engine.js:104-118 | what padding and cutting make of a value, on either side |
| IsoEngine.ExpectedExactly | web/iso-engine.js:86-96 | the message that should come back has every present field under its name and nothing else |
| IsoEngine.OutsideLost | web/iso-engine.js:164-171 | a field outside 2 to 64 is never read back, whatever is around it |
| IsoEngine.SecondBitmapStops | web/iso-engine.js:86-91 | a message that announces a second bitmap is decoded to its type alone |
| IsoEngine.TextBack | web/iso-engine.js:311-328 | one-byte text comes back from its hexadecimal form |
| IsoEngine.HexLength | web/iso-engine.js:311-317 | the hexadecimal form has two digits a character exactly for one-byte text, and more otherwise |
| IsoEngine.StringToHexLoop | web/iso-engine.js:311-317 | the loop gives the hexadecimal form |
| JsText.HexToStringLoop | web/iso-engine.js:322-328 | the loop reads two digits a character, and an odd last one alone, of any text |
| JsText.CharMeans | web/iso-engine.js:322-328 | the character of a pair is `fromCharCode` of what `parseInt` makes of it: 0 for NaN, and modulo 2^16 for a negative number |
| JsText.DecimalRead | web/iso-engine.js:142-150 | `parseInt` reads decimal digits as the number that they denote |
| JsText.ParseDecimal | web/iso-engine.js:37-38 | `parseInt` reads decimal digits as far as they go, behind blanks and a sign |
| JsText.ParseHexadecimal | web/iso-engine.js:37-38 | and hexadecimal ones behind `0x` |
| JsText.ParseNothing | web/iso-engine.js:37-38 | and gives no number where there is no digit |
| JsText.SubstringMeans | web/iso-engine.js:142-154 | `substring` takes NaN and what lies before the text for its beginning, what lies behind it for its end, and bounds either way round |
| IsoEngine.Engine.Encode | web/iso-engine.js:27-65 | the entries with a value and a place in the table, a later spelling of a number winning, give type, bitmap and formatted fields in ascending order; entries whose key is no number are skipped |
| IsoEngine.EntriesMean | web/iso-engine.js:34-48 | the fields of an object are those that an entry names with a value and a number in the table |
| IsoEngine.EntryValue | web/iso-engine.js:34-48 | and each has the value of the last such entry |
| IsoEngine.TypeMeans | web/iso-engine.js:50-52 | the type is the entry of that name, and 0100 without one |
| IsoEngine.Engine.Decode | web/iso-engine.js:70-99 | of any text, the loop reads the announced fields by name and stops at one that the table lacks; a length that is no number or negative moves the position as in JavaScript |
| IsoEngine.Engine.ExtractBitmap | web/iso-engine.js:205-234 | of any text, type and bitmaps; a second bitmap is shown when announced, but no field above 64 is ever listed |
| Bitmap.ReadBuilt | web/iso-engine.js:164-200 | reading a built bitmap gives the members of the set between 2 and 64, ascending |
| Bitmap.BuildRead | web/iso-engine.js:164-200 | building what was read gives the sixteen digits back with bit 1 cleared |
| Bitmap.StableIff | web/iso-engine.js:164-200 | reading and building changes nothing exactly for sixteen capital digits without bit 1 |
| Bitmap.BuildBitmap | web/iso-engine.js:164-181 | cells set in place in any order give the set's bitmap |
| Bitmap.ParseBitmap | web/iso-engine.js:186-200 | lists the marked fields up to 64 in ascending order, so that its sort changes nothing |
| Bitmap.ParseIso8583Hex | web/index.html:2647-2673 | of any text of 24 characters or more, the type, and the marked bits of both bitmaps in ascending order without bit 1; characters that are no digits count as JavaScript reads them |
| Bitmap.InspectorOnHex | web/index.html:2659-2671 | in hexadecimal text the inspector's bytes mark exactly what the digits of both bitmaps do |
| Bitmap.InspectorAgrees | web/index.html:2661-2671 | without a second bitmap the inspector and the engine list the same fields of hexadecimal text |
| Bitmap.SecondBitmapUnlisted | web/iso-engine.js:216-224 | appending a second bitmap adds nothing to the engine's list |
| SpecTable.TableRoundTrip | web/spec.json:4-360 | with the shipped table the round trip works for exactly the readable messages |
| SpecTable.SpecJsonOk | web/spec.json:4-360 | the table has distinct names, no empty field and no data element 1 |
| SpecTable.TableByLength | web/spec.json:4-360 | which elements have which format and length, and which are filled up with zeros |
| SpecTable.EncodedSize | web/iso-engine.js:50-65 | the client's text of a message has two digits for each byte of the packed message, but for the second bitmap, which it never writes |
| SpecTable.NetworkManagementLost | web/iso-engine.js:164-171 | data element 70 is written without a bit and lost |
| SpecTable.MessagesFit | web/spec.json:4-360 | every message whose fields keep to the table's lengths makes a packet that both readers accept |
| Emv.ItemsTile | internal/scheme/emv.go:57-122 | for every input the parsed items are well formed and tile a prefix of it in order, and at the end no further item can be read |
| Emv.RebuildIff | internal/scheme/emv.go:57-168 | building what was parsed gives the input back exactly when all of it was consumed and every length has the builder's form |
| Emv.TagsRoundTripIff | internal/scheme/emv.go:47-168 | well-formed tags come back from their text, in order and with the right lengths, exactly when every value is shorter than 65536 bytes |
| Emv.OutOfRangeIff | internal/scheme/emv.go:92-108 | parsing slices out of range exactly when it comes to a header whose length is negative in 64 bits or takes the position behind the header past the largest `int` |
| Emv.ItemOutOfRangeIff | internal/scheme/emv.go:92-108 | one turn of the loop slices out of range exactly at such a header |
| Emv.ShortFieldsInRange | internal/scheme/emv.go:92-100 | a header with a length field of at most eight bytes never does that |
| Emv.ShortFieldsParse | internal/scheme/emv.go:60-122 | data whose headers all have such length fields, as far as the parser comes, is parsed without a slice out of range |
| Emv.EightByteLength | internal/scheme/emv.go:92-108 | data of ten bytes with eight length bytes of 255 does, and parsing it slices out of range |
| Emv.ParseItems | internal/scheme/emv.go:60-122 | well-formed items are parsed as they are, and parsing goes on behind them |
| Emv.BuiltIsShortest | internal/scheme/emv.go:154-161 | no well-formed item has a shorter length field than the builder's |
| Emv.LengthFieldSays | internal/scheme/emv.go:154-161 | the builder's length field is read as the length, cut to 16 bits |
| Emv.LongTagIsCut | internal/scheme/emv.go:158-160 | the first value of 65536 bytes or more is read with its length modulo 65536 |
| Emv.LongLength | internal/scheme/emv.go:92-100 | the inner loop accumulates the length bytes in 64 bits |
| Emv.ReadHeader | internal/scheme/emv.go:65-101 | reads tag and length, and breaks off exactly where the data does not hold them whole |
| Emv.ParseEmvData | internal/scheme/emv.go:47-125 | the loop gives exactly the tags of the data; bad hexadecimal is an error, and so is a slice out of range |
| Emv.BuildEmvData | internal/scheme/emv.go:138-168 | the first tag that is not hexadecimal is refused, and otherwise all items are written in order |
| Luhn.CheckDigitUnique | web/index.html:2323-2331 | the generator's check digit, and no other digit, makes the number valid |
| Luhn.ShareMeans | internal/card/service.go:198-203 | a doubled digit counts as the sum of the digits of its double |
| Luhn.SumFromLeft | internal/card/service.go:193-208 | the doubled digits are those at an odd distance from the last |
| Luhn.KnownNumbers | internal/card/service.go:193-208 | 5959 is valid and 5958 is not |
| Luhn.SingleErrorDetected | internal/card/service.go:193-208 | changing any single digit of a valid number makes it invalid |
| Luhn.TranspositionDetectedIff | internal/card/service.go:193-208 | swapping two different neighbours goes unnoticed exactly for 0 and 9 |
| Luhn.LuhnValid | internal/card/service.go:193-208 | of any string of bytes, digits or not, the loop computes the check sum from the right |
| Luhn.LuhnCheckDigit | web/index.html:2323-2331 | the loop computes the digit that is missing to a multiple of ten |
| Luhn.GeneratePan | web/index.html:2333-2345 | every generated number has its prefix and length and is valid |

## Left out

- HTTP routing, JSON binding, static files, metrics, tracing, logging, configuration and migrations: plumbing without a claim.
- The message library of `internal/iso`: an abstract pair of functions, assumed inverse, takes its place.
- Postgres: each statement is one atomic step, and a statement that fails changes nothing; a statement that commits although its reply is lost is not modelled. VARCHAR widths are not checked.
- The network: see the assumptions above. A deadline that fires inside a frame, after which the acquirer goes on without the bytes it has read, is outside the model.
- Runs in which a call registers under an ID in use, but for the one in `ProtocolWrap.IntegrityNeedsFreeIds`: the theorems on runs promise nothing there.
- Time: timeouts and cancellations may happen at any moment in the protocol. The polling loop and the expiry rule take the clock as a parameter.
- Auth codes, UUIDs, timestamps and hashes are opaque values. Masked numbers and the decline texts of the HTTP errors are not modelled.
- Fairness and starvation in the limiter: polling promises no order. `rejectedTotal` does not wrap.
- Digits outside ASCII, which the card service's `unicode.IsDigit` accepts.
- Card creation's validation and BIN prefixes, response-code texts, EMV tag names and cryptogram checks: lookups.
- IsoEngine.Engine.Encode: takes values as text.
- Characters outside the basic plane, which JavaScript stores as two units, and in `parseISO8583Hex` the one letter (the dotted capital I) that lower-casing turns into two.
- SpecTable.MessagesFit: takes the packed length from the message format, because the library that packs is not part of this model.
- Second bitmaps in the client's engine: it neither writes nor reads one, so there is no round trip to prove.
- Luhn.GeneratePan: the choice of scheme and prefix is a parameter.
- Limiter.Poll: whether a turn finds a slot is a parameter; the loop among other requests is in `Limiter.PollingEnds`.
- Switch.AcquirerSwitch.SendToIssuer: runs without other goroutines' steps between its attempts, and so while nobody dials; the full interleaving is `ProtocolTheorems.SendBounds`.
- Switch.SendSucceedsIff: the same; the slots are those at the start.
- Http.HttpServer.HandleTransaction: takes the outcome of the switch's call as a parameter; the outcomes of all runs are in `Http.RecordsAgreeWithMoney`.
- The display code of `web/index.html`, its own TLV viewer included.
