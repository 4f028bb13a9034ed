/**
 The protocol's queues and the bytes on its connections. Every run of the protocol is, on each connection and in
 each direction, a run of the byte-level channel under its write mutex: what the channel delivers is what was put
 on the queue, and what a reader makes of its bytes is what was taken from the queue and what still lies in it.
 */
module ProtocolBytes {
  import opened Base
  import opened Framing
  import opened Protocol
  import opened ProtocolProof
  import opened ProtocolTheorems

  datatype Direction = Requests | Replies

  /** What a step does to one direction of a connection that is still delivering. */
  datatype Traffic =
    | Quiet
    | Puts(writer: nat, message: Message)
    | Breaks(writer: nat, message: Message, torn: bool)

  predicate Open(s: State, c: nat, dir: Direction) {
    c in s.conns ==> if dir.Requests? then s.conns[c].requestsOpen else s.conns[c].repliesOpen
  }

  function Queue(s: State, c: nat, dir: Direction): seq<Message> {
    if c !in s.conns then [] else if dir.Requests? then s.conns[c].toIssuer else s.conns[c].toAcquirer
  }

  function RequestTraffic(s: State, step: Step, c: nat): Traffic
    requires Enabled(s, step)
  {
    if !step.CallStep? || !s.calls[step.call].phase.Writing? || s.calls[step.call].phase.conn != c then Quiet
    else
      var n := step.call;
      var m := Message(n, s.calls[n].raw);
      match step.callEvent
      case WriteOk => Puts(n, m)
      case WriteFails(torn) => Breaks(n, m, torn)
      case _ => Quiet
  }

  function ReplyTraffic(s: State, step: Step, c: nat): Traffic
    requires Enabled(s, step)
  {
    if !step.HandlerStep? || !s.handlers[step.handler].phase.Computed? || s.handlers[step.handler].conn != c then Quiet
    else
      var h := step.handler;
      var m := Message(s.handlers[h].message.call, s.handlers[h].phase.response);
      match step.handlerEvent
      case Reply => Puts(h, m)
      case ReplyFails(torn) => Breaks(h, m, torn)
      case _ => Quiet
  }

  function TrafficOf(s: State, step: Step, c: nat, dir: Direction): Traffic
    requires Enabled(s, step)
  {
    if !Open(s, c, dir) then Quiet
    else if dir.Requests? then RequestTraffic(s, step, c)
    else ReplyTraffic(s, step, c)
  }

  /** Whether a step takes the first message of a queue. */
  predicate Takes(s: State, step: Step, c: nat, dir: Direction)
    requires Enabled(s, step)
  {
    if dir.Requests? then step == ReaderStep(c, ReadRequest)
    else step.ListenerStep? && step.listenerEvent.ReadReply? && s.listeners[step.slot].conn == c
  }

  /** What a step adds to a queue, behind what it leaves of it. */
  function PutBy(t: Traffic): seq<Message> {
    if t.Puts? then [t.message] else []
  }

  // ----- one step -----

  /** Whether a step ends a direction: the listener that gives up its connection sends no more requests on it. */
  predicate Closes(s: State, step: Step, c: nat, dir: Direction)
    requires Enabled(s, step)
  {
    dir.Requests? && step.ListenerStep? && step.listenerEvent.Close? && s.listeners[step.slot].conn == c
  }

  /** A queue and whether its direction still delivers, before and after a step that did this to it. */
  predicate Carried(q: seq<Message>, q': seq<Message>, open: bool, open': bool, takes: bool, closes: bool, t: Traffic) {
    && (takes ==> q != [])
    && q' == (if takes then q[1..] else q) + PutBy(t)
    && (open' <==> open && !closes && !(t.Breaks? && t.torn))
  }

  predicate Carries(s: State, step: Step, c: nat, dir: Direction)
    requires Enabled(s, step)
  {
    var s' := Next(s, step);
    Carried(Queue(s, c, dir), Queue(s', c, dir), Open(s, c, dir), Open(s', c, dir),
            Takes(s, step, c, dir), Closes(s, step, c, dir), TrafficOf(s, step, c, dir))
  }

  lemma CallCarries(s: State, n: nat, ev: CallEvent, c: nat, dir: Direction)
    requires CallEnabled(s, n, ev)
    ensures Carries(s, CallStep(n, ev), c, dir)
  {
  }

  lemma ReadReplyCarries(s: State, p: nat, c: nat, dir: Direction)
    requires ListenerEnabled(s, p, ReadReply)
    ensures Carries(s, ListenerStep(p, ReadReply), c, dir)
  {
    hide CallNext, ReaderNext, HandlerNext, CallEnabled, ReaderEnabled, HandlerEnabled;
  }

  lemma PoolCarries(s: State, p: nat, ev: ListenerEvent, c: nat, dir: Direction)
    requires ListenerEnabled(s, p, ev) && !ev.ReadReply?
    ensures Carries(s, ListenerStep(p, ev), c, dir)
  {
    hide CallNext, ReaderNext, HandlerNext, CallEnabled, ReaderEnabled, HandlerEnabled;
  }

  lemma ListenerCarries(s: State, p: nat, ev: ListenerEvent, c: nat, dir: Direction)
    requires ListenerEnabled(s, p, ev)
    ensures Carries(s, ListenerStep(p, ev), c, dir)
  {
    hide Carries, ListenerNext;
    if ev.ReadReply? {
      ReadReplyCarries(s, p, c, dir);
    } else {
      PoolCarries(s, p, ev, c, dir);
    }
  }

  lemma ReaderCarries(s: State, d: nat, ev: ReaderEvent, c: nat, dir: Direction)
    requires ReaderEnabled(s, d, ev)
    ensures Carries(s, ReaderStep(d, ev), c, dir)
  {
  }

  lemma HandlerCarries(s: State, h: nat, ev: HandlerEvent, c: nat, dir: Direction)
    requires HandlerEnabled(s, h, ev)
    ensures Carries(s, HandlerStep(h, ev), c, dir)
  {
  }

  lemma StepCarries(s: State, step: Step, c: nat, dir: Direction)
    requires Enabled(s, step)
    ensures Carries(s, step, c, dir)
  {
    match step
    case CallStep(n, ev) =>
      hide Carries, CallNext;
      CallCarries(s, n, ev, c, dir);
    case ListenerStep(p, ev) =>
      hide Carries, ListenerNext;
      ListenerCarries(s, p, ev, c, dir);
    case ReaderStep(d, ev) =>
      hide Carries, ReaderNext;
      ReaderCarries(s, d, ev, c, dir);
    case HandlerStep(h, ev) =>
      hide Carries, HandlerNext;
      HandlerCarries(s, h, ev, c, dir);
    case _ =>
  }

  // ----- every message makes a frame that fits -----

  predicate SizesOk(calls: map<nat, Call>, handlers: map<nat, Handler>) {
    && (forall n :: n in calls ==> |calls[n].raw| <= MAX_ISO)
    && (forall h :: h in handlers && handlers[h].phase.Computed? ==> |handlers[h].phase.response| <= MAX_ISO)
  }

  lemma CallSizes(s: State, n: nat, ev: CallEvent)
    requires CallEnabled(s, n, ev) && SizesOk(s.calls, s.handlers)
    ensures SizesOk(CallNext(s, n, ev).calls, CallNext(s, n, ev).handlers)
  {
  }

  lemma ListenerSizes(s: State, p: nat, ev: ListenerEvent)
    requires ListenerEnabled(s, p, ev) && SizesOk(s.calls, s.handlers)
    ensures SizesOk(ListenerNext(s, p, ev).calls, ListenerNext(s, p, ev).handlers)
  {
  }

  lemma ReaderSizes(s: State, c: nat, ev: ReaderEvent)
    requires ReaderEnabled(s, c, ev) && SizesOk(s.calls, s.handlers)
    ensures SizesOk(ReaderNext(s, c, ev).calls, ReaderNext(s, c, ev).handlers)
  {
  }

  lemma HandlerSizes(s: State, h: nat, ev: HandlerEvent)
    requires HandlerEnabled(s, h, ev) && SizesOk(s.calls, s.handlers)
    ensures SizesOk(HandlerNext(s, h, ev).calls, HandlerNext(s, h, ev).handlers)
  {
  }

  lemma StepSizes(s: State, step: Step)
    requires Enabled(s, step) && SizesOk(s.calls, s.handlers)
    ensures SizesOk(Next(s, step).calls, Next(s, step).handlers)
  {
    hide CallNext, ListenerNext, ReaderNext, HandlerNext;
    match step
    case CallStep(n, ev) => CallSizes(s, n, ev);
    case ListenerStep(p, ev) => ListenerSizes(s, p, ev);
    case ReaderStep(c, ev) => ReaderSizes(s, c, ev);
    case HandlerStep(h, ev) => HandlerSizes(s, h, ev);
    case _ =>
  }

  // ----- frames of messages -----

  /** The frame of a message: its header carries the correlation ID. */
  function FrameOf(m: Message): (f: Frame)
    ensures Framed(f)
  {
    Frame(Header(m.Id()), m.iso)
  }

  function Frames(messages: seq<Message>): seq<Frame> {
    seq(|messages|, i requires 0 <= i < |messages| => FrameOf(messages[i]))
  }

  lemma FramesTogether(a: seq<Message>, b: seq<Message>)
    ensures Frames(a + b) == Frames(a) + Frames(b)
  {
  }

  /** What a reader learns of a message, and all that it acts on: the correlation ID and the ISO bytes. */
  datatype Content = Content(id: nat, iso: Bytes)

  function ContentsSent(messages: seq<Message>): seq<Content> {
    seq(|messages|, i requires 0 <= i < |messages| => Content(messages[i].Id(), messages[i].iso))
  }

  function ContentRead(f: Frame): Content
    requires Framed(f)
  {
    Content(CorrelationOf(f.header), f.body)
  }

  function ContentsRead(frames: seq<Frame>): seq<Content>
    requires forall i :: 0 <= i < |frames| ==> Framed(frames[i])
  {
    seq(|frames|, i requires 0 <= i < |frames| => ContentRead(frames[i]))
  }

  /** Framing a message and reading the frame gives its correlation ID and its bytes. */
  lemma ContentBack(m: Message)
    ensures ContentRead(FrameOf(m)) == Content(m.Id(), m.iso)
  {
    HeaderRoundTrip(m.Id());
  }

  lemma ContentsBack(messages: seq<Message>)
    ensures ContentsRead(Frames(messages)) == ContentsSent(messages)
  {
    hide FrameOf, ContentRead;
    forall i | 0 <= i < |messages|
      ensures ContentRead(FrameOf(messages[i])) == Content(messages[i].Id(), messages[i].iso)
    {
      ContentBack(messages[i]);
    }
  }

  predicate TrafficFits(t: Traffic) {
    !t.Quiet? ==> Fits(FrameOf(t.message))
  }

  lemma StepFits(s: State, step: Step, c: nat, dir: Direction)
    requires Enabled(s, step) && SizesOk(s.calls, s.handlers)
    ensures TrafficFits(TrafficOf(s, step, c, dir))
  {
  }

  // ----- the channel's steps -----

  /** The writer gets the mutex and sends its whole packet, or fails before its first byte or behind it. */
  function ChannelSteps(t: Traffic): seq<ChannelStep> {
    match t
    case Quiet => []
    case Puts(w, m) => [Acquire(w, FrameOf(m)), Send(|Packet(FrameOf(m))|), Finish]
    case Breaks(w, m, torn) =>
      if torn then [Acquire(w, FrameOf(m)), Send(1), Fail] else [Acquire(w, FrameOf(m)), Fail]
  }

  lemma ChannelOne(steps: seq<ChannelStep>, step: ChannelStep)
    requires ChannelRun(steps).Some? && ChannelEnabled(ChannelRun(steps).value, step)
    ensures ChannelRun(steps + [step]) == Some(ChannelNext(ChannelRun(steps).value, step))
  {
    assert (steps + [step])[..|steps|] == steps;
  }

  lemma DeliveredOne(log: seq<(nat, Frame)>, w: nat, f: Frame)
    ensures FramesOf(log + [(w, f)]) == FramesOf(log) + [f]
  {
  }

  lemma PutCarried(steps: seq<ChannelStep>, w: nat, f: Frame)
    requires ChannelRun(steps).Some? && Fits(f)
    requires ChannelRun(steps).value.lock.Free? && !ChannelRun(steps).value.torn
    ensures var run := ChannelRun(steps + [Acquire(w, f), Send(|Packet(f)|), Finish]);
            var before := ChannelRun(steps).value;
            && run.Some? && run.value.lock.Free? && !run.value.torn
            && run.value.delivered == before.delivered + [(w, f)]
  {
    hide ChannelRun, Packet;
    ChannelOne(steps, Acquire(w, f));
    ChannelOne(steps + [Acquire(w, f)], Send(|Packet(f)|));
    ChannelOne(steps + [Acquire(w, f)] + [Send(|Packet(f)|)], Finish);
    assert steps + [Acquire(w, f)] + [Send(|Packet(f)|)] + [Finish]
        == steps + [Acquire(w, f), Send(|Packet(f)|), Finish];
  }

  lemma BreakCarried(steps: seq<ChannelStep>, w: nat, f: Frame, torn: bool)
    requires ChannelRun(steps).Some? && Fits(f)
    requires ChannelRun(steps).value.lock.Free? && !ChannelRun(steps).value.torn
    ensures var run := ChannelRun(steps + if torn then [Acquire(w, f), Send(1), Fail] else [Acquire(w, f), Fail]);
            var before := ChannelRun(steps).value;
            && run.Some? && run.value.lock.Free? && run.value.torn == torn
            && run.value.delivered == before.delivered
  {
    hide ChannelRun, Packet;
    ChannelOne(steps, Acquire(w, f));
    if torn {
      ChannelOne(steps + [Acquire(w, f)], Send(1));
      ChannelOne(steps + [Acquire(w, f)] + [Send(1)], Fail);
      assert steps + [Acquire(w, f)] + [Send(1)] + [Fail] == steps + [Acquire(w, f), Send(1), Fail];
    } else {
      ChannelOne(steps + [Acquire(w, f)], Fail);
      assert steps + [Acquire(w, f)] + [Fail] == steps + [Acquire(w, f), Fail];
    }
  }

  /** What traffic makes of an intact channel that nobody holds. */
  lemma ChannelCarries(steps: seq<ChannelStep>, t: Traffic)
    requires ChannelRun(steps).Some? && TrafficFits(t)
    requires ChannelRun(steps).value.lock.Free? && (t.Quiet? || !ChannelRun(steps).value.torn)
    ensures var run := ChannelRun(steps + ChannelSteps(t));
            var before := ChannelRun(steps).value;
            && run.Some? && run.value.lock.Free?
            && FramesOf(run.value.delivered) == FramesOf(before.delivered) + Frames(PutBy(t))
            && (run.value.torn ==> before.torn || (t.Breaks? && t.torn))
  {
    hide ChannelRun, Packet, FrameOf, Fits, FramesOf;
    match t
    case Quiet =>
      assert steps + [] == steps;
    case Puts(w, m) =>
      PutCarried(steps, w, FrameOf(m));
      DeliveredOne(ChannelRun(steps).value.delivered, w, FrameOf(m));
    case Breaks(w, m, torn) =>
      BreakCarried(steps, w, FrameOf(m), torn);
  }

  // ----- runs -----

  /** What a run has put on a queue, taken from it, and done to the channel. */
  datatype Record = Record(put: seq<Message>, taken: seq<Message>, channelSteps: seq<ChannelStep>)

  function RecordOf(start: State, steps: seq<Step>, c: nat, dir: Direction): Record
    requires After(start, steps).Some?
  {
    if steps == [] then Record([], [], [])
    else
      var last := |steps| - 1;
      var before, step := After(start, steps[..last]).value, steps[last];
      var r, t := RecordOf(start, steps[..last], c, dir), TrafficOf(before, step, c, dir);
      Record(r.put + PutBy(t),
             if Takes(before, step, c, dir) && Queue(before, c, dir) != [] then r.taken + [Queue(before, c, dir)[0]] else r.taken,
             r.channelSteps + ChannelSteps(t))
  }

  predicate RecordFits(r: Record, q: seq<Message>, open: bool) {
    && r.put == r.taken + q
    && ChannelRun(r.channelSteps).Some?
    && var channel := ChannelRun(r.channelSteps).value;
       && channel.lock.Free? && FramesOf(channel.delivered) == Frames(r.put) && (open ==> !channel.torn)
  }

  lemma NoSteps(poolSize: nat, workerLimit: nat, c: nat, dir: Direction)
    requires poolSize > 0
    ensures var s := Start(poolSize, workerLimit);
            SizesOk(s.calls, s.handlers)
            && RecordFits(Record([], [], []), Queue(s, c, dir), Open(s, c, dir))
  {
  }

  lemma QuietUnlessOpen(s: State, step: Step, c: nat, dir: Direction)
    requires Enabled(s, step)
    ensures TrafficOf(s, step, c, dir).Quiet? || Open(s, c, dir)
  {
  }

  lemma StepRecord(s: State, step: Step, c: nat, dir: Direction, r: Record, r': Record)
    requires Enabled(s, step) && RecordFits(r, Queue(s, c, dir), Open(s, c, dir))
    requires var t := TrafficOf(s, step, c, dir);
             && TrafficFits(t)
             && r'.put == r.put + PutBy(t)
             && r'.taken == (if Takes(s, step, c, dir) && Queue(s, c, dir) != [] then r.taken + [Queue(s, c, dir)[0]] else r.taken)
             && r'.channelSteps == r.channelSteps + ChannelSteps(t)
    ensures var s' := Next(s, step); RecordFits(r', Queue(s', c, dir), Open(s', c, dir))
  {
    hide Next, Takes, ChannelRun, Enabled, Frames;
    var q, q', t := Queue(s, c, dir), Queue(Next(s, step), c, dir), TrafficOf(s, step, c, dir);
    StepCarries(s, step, c, dir);
    QuietUnlessOpen(s, step, c, dir);
    hide TrafficOf, Queue, Open;
    ChannelCarries(r.channelSteps, t);
    FramesTogether(r.put, PutBy(t));
    if Takes(s, step, c, dir) {
      assert r.taken + [q[0]] + q[1..] == r.taken + q;
      assert r.taken + [q[0]] + (q[1..] + PutBy(t)) == (r.taken + [q[0]] + q[1..]) + PutBy(t);
    } else {
      assert r.taken + (q + PutBy(t)) == (r.taken + q) + PutBy(t);
    }
  }

  lemma {:induction false} RunFits(poolSize: nat, workerLimit: nat, steps: seq<Step>, s: State, c: nat, dir: Direction)
    requires poolSize > 0 && After(Start(poolSize, workerLimit), steps) == Some(s)
    ensures SizesOk(s.calls, s.handlers)
    ensures RecordFits(RecordOf(Start(poolSize, workerLimit), steps, c, dir), Queue(s, c, dir), Open(s, c, dir))
  {
    hide Next, Enabled, TrafficOf, Takes, ChannelRun, Carries, SizesOk, RecordFits;
    if steps == [] {
      NoSteps(poolSize, workerLimit, c, dir);
    } else {
      var start, last := Start(poolSize, workerLimit), |steps| - 1;
      var before, step := After(start, steps[..last]).value, steps[last];
      RunFits(poolSize, workerLimit, steps[..last], before, c, dir);
      StepSizes(before, step);
      StepFits(before, step, c, dir);
      StepRecord(before, step, c, dir, RecordOf(start, steps[..last], c, dir), RecordOf(start, steps, c, dir));
    }
  }

  /**
   Bytes carry messages. In every run, in each direction of each connection, the byte-level channel that the run
   drives delivers the frames put on the queue; and what either reader makes of the channel's bytes is the correlation
   IDs and bytes of the messages already taken from the queue and then of those still in it.
   */
  lemma BytesCarryMessages(poolSize: nat, workerLimit: nat, steps: seq<Step>, s: State, c: nat, dir: Direction, side: Side)
    requires poolSize > 0 && After(Start(poolSize, workerLimit), steps) == Some(s)
    ensures var r := RecordOf(Start(poolSize, workerLimit), steps, c, dir);
            && ChannelRun(r.channelSteps).Some?
            && var channel := ChannelRun(r.channelSteps).value;
               var read := Drain(channel.stream, side);
               && FramesOf(channel.delivered) == Frames(r.put)
               && (forall i :: 0 <= i < |read.frames| ==> Framed(read.frames[i]))
               && ContentsRead(read.frames) == ContentsSent(r.taken + Queue(s, c, dir))
               && read.stop != Malformed
  {
    hide Drain, ChannelRun, Queue, Open, ContentRead;
    var r := RecordOf(Start(poolSize, workerLimit), steps, c, dir);
    RunFits(poolSize, workerLimit, steps, s, c, dir);
    ChannelIsFrameQueue(r.channelSteps, side);
    ContentsBack(r.put);
  }
}
