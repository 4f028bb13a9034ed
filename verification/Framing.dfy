/**
 TPDU framing over a TCP byte stream: a 2-byte big-endian length, a 5-byte header (0x60 and the
 correlation ID) and the ISO message. Both ends build packets the same way. They read alike too,
 except that the issuer gives up on a packet too short for a header and the acquirer skips it.
 */
module Framing {
  import opened Base

  const HEADER_LENGTH := 5
  const MAX_PACKET := 8192
  const TPDU_ID: Byte := 0x60

  datatype Frame = Frame(header: Bytes, body: Bytes)

  predicate Framed(f: Frame) {
    |f.header| == HEADER_LENGTH
  }

  /** Frames that both readers accept. */
  predicate Fits(f: Frame) {
    Framed(f) && HEADER_LENGTH + |f.body| <= MAX_PACKET
  }

  predicate AllFit(frames: seq<Frame>) {
    forall i :: 0 <= i < |frames| ==> Fits(frames[i])
  }

  /** The bytes written for a frame. The length is cast to 16 bits whatever the body. */
  function Packet(f: Frame): (p: Bytes)
    requires Framed(f)
    ensures |p| == 2 + HEADER_LENGTH + |f.body|
  {
    Be16((HEADER_LENGTH + |f.body|) % 0x1_0000) + f.header + f.body
  }

  /** The header a call with this correlation ID puts on its request. */
  function Header(corr: nat): (h: Bytes)
    requires corr < 0x1_0000_0000
    ensures |h| == HEADER_LENGTH
  {
    [TPDU_ID] + Be32(corr)
  }

  /** The correlation ID the acquirer's listener takes from bytes 1 to 4. */
  function CorrelationOf(header: Bytes): nat
    requires |header| == HEADER_LENGTH
  {
    FromBe32(header[1..5])
  }

  lemma HeaderRoundTrip(corr: nat)
    requires corr < 0x1_0000_0000
    ensures CorrelationOf(Header(corr)) == corr
  {
    assert Header(corr)[1..5] == Be32(corr);
    Be32RoundTrip(corr);
  }

  lemma LowByteOf(n: nat)
    ensures n % 0x1_0000 / 256 == n / 256 % 256 && n % 0x1_0000 % 256 == n % 256
  {
    var q, r := n / 0x1_0000, n % 0x1_0000;
    RemainderUnique(n, 256 * q + r / 256, r % 256, 256);
    RemainderUnique(256 * q + r / 256, q, r / 256, 256);
  }

  /** The header's bytes: 0x60 and the ID with its high byte first. */
  lemma HeaderLayout(corr: nat)
    requires corr < 0x1_0000_0000
    ensures var h := Header(corr);
            && h[0] == 0x60 && h[1] == corr / 16_777_216 && h[2] == corr / 65_536 % 256
            && h[3] == corr / 256 % 256 && h[4] == corr % 256
  {
  }

  /** A packet's bytes: the length of what follows in two, its high byte first, the header in five, and the body. */
  lemma PacketLayout(f: Frame)
    requires |f.header| == 5
    ensures var p, n := Packet(f), 5 + |f.body|;
            && p[0] == n / 256 % 256 && p[1] == n % 256
            && p[2..7] == f.header && p[7..] == f.body
  {
    LowByteOf(5 + |f.body|);
  }

  // ----- reading -----

  datatype ReadResult =
    | Got(packet: Bytes, rest: Bytes)
    | Eof            // no byte left
    | UnexpectedEof  // the stream ends inside a packet
    | BadLength(length: nat)

  function ReadPacket(s: Bytes): ReadResult {
    if s == [] then Eof
    else if |s| < 2 then UnexpectedEof
    else
      var n := FromBe16(s[..2]);
      if n == 0 || n > MAX_PACKET then BadLength(n)
      else if |s| < 2 + n then UnexpectedEof
      else Got(s[2..2 + n], s[2 + n..])
  }

  /** The stream begins with a packet that a reader accepts. */
  predicate BeginsWith(s: Bytes, packet: Bytes, rest: Bytes) {
    1 <= |packet| <= 8192 && |s| >= 2 && 256 * s[0] as int + s[1] == |packet| && s[2..] == packet + rest
  }

  /** A packet is read exactly where two bytes of length, from 1 to 8192, are followed by that many; and so is each failure. */
  lemma ReadPacketMeans(s: Bytes, packet: Bytes, rest: Bytes)
    ensures ReadPacket(s) == Got(packet, rest) <==> BeginsWith(s, packet, rest)
    ensures ReadPacket(s) == Eof <==> s == []
    ensures |s| == 1 ==> ReadPacket(s) == UnexpectedEof
    ensures |s| >= 2 ==>
              var n := 256 * s[0] as int + s[1];
              && (ReadPacket(s) == BadLength(n) <==> n == 0 || n > 8192)
              && (ReadPacket(s) == UnexpectedEof <==> 1 <= n <= 8192 && |s| < 2 + n)
  {
    if BeginsWith(s, packet, rest) {
      assert s[2..][..|packet|] == packet && s[2..][|packet|..] == rest;
    }
    if ReadPacket(s) == Got(packet, rest) {
      assert s[2..] == packet + rest;
    }
  }

  datatype Side = AcquirerSide | IssuerSide

  datatype Stop = CleanEnd | CutOff | Malformed

  /** What one end takes from a stream before it stops reading: the frames, the unread bytes and why it stopped. */
  datatype Drained = Drained(frames: seq<Frame>, residue: Bytes, stop: Stop)

  function Drain(s: Bytes, side: Side): Drained
    decreases |s|
  {
    match ReadPacket(s)
    case Eof => Drained([], s, CleanEnd)
    case UnexpectedEof => Drained([], s, CutOff)
    case BadLength(_) => Drained([], s, Malformed)
    case Got(packet, rest) =>
      if |packet| >= HEADER_LENGTH then
        var d := Drain(rest, side);
        d.(frames := [Frame(packet[..HEADER_LENGTH], packet[HEADER_LENGTH..])] + d.frames)
      else if side.IssuerSide? then Drained([], rest, Malformed)
      else Drain(rest, side)
  }

  /** The bytes of a sequence of frames written one after the other. */
  function Wire(frames: seq<Frame>): Bytes
    requires forall i :: 0 <= i < |frames| ==> Framed(frames[i])
  {
    if frames == [] then [] else Packet(frames[0]) + Wire(frames[1..])
  }

  lemma ReadAfterPacket(f: Frame, rest: Bytes)
    requires Fits(f)
    ensures ReadPacket(Packet(f) + rest) == Got(f.header + f.body, rest)
  {
    var n := HEADER_LENGTH + |f.body|;
    var s := Packet(f) + rest;
    Be16RoundTrip(n);
    assert s[..2] == Be16(n);
    assert s[2..2 + n] == f.header + f.body;
    assert s[2 + n..] == rest;
  }

  /**
   A frame alone is read back exactly when it fits: a longer one is refused by its length or, once
   the 16-bit length has wrapped, read as a shorter packet.
   */
  lemma ReadBackIff(f: Frame)
    requires Framed(f)
    ensures ReadPacket(Packet(f)) == Got(f.header + f.body, []) <==> 5 + |f.body| <= 8192
  {
    if Fits(f) {
      assert Packet(f) + [] == Packet(f);
      ReadAfterPacket(f, []);
    }
  }

  lemma DrainAfterPacket(f: Frame, rest: Bytes, side: Side)
    requires Fits(f)
    ensures Drain(Packet(f) + rest, side) == Drain(rest, side).(frames := [f] + Drain(rest, side).frames)
  {
    ReadAfterPacket(f, rest);
    var packet := f.header + f.body;
    assert packet[..HEADER_LENGTH] == f.header && packet[HEADER_LENGTH..] == f.body;
  }

  /** A packet too short for a header: the acquirer goes on behind it, the issuer gives the connection up. */
  lemma ShortPacket(s: Bytes, packet: Bytes, rest: Bytes)
    requires BeginsWith(s, packet, rest) && |packet| < 5
    ensures Drain(s, AcquirerSide) == Drain(rest, AcquirerSide)
    ensures Drain(s, IssuerSide).frames == [] && Drain(s, IssuerSide).stop == Malformed
  {
    ReadPacketMeans(s, packet, rest);
  }

  lemma Associate(a: Bytes, b: Bytes, c: Bytes)
    ensures (a + b) + c == a + (b + c)
  {
  }

  lemma ReadIsFrame(s: Bytes, packet: Bytes, rest: Bytes)
    requires BeginsWith(s, packet, rest) && |packet| >= 5
    ensures var f := Frame(packet[..5], packet[5..]); Fits(f) && s == Packet(f) + rest
  {
    var f := Frame(packet[..5], packet[5..]);
    assert packet == f.header + f.body;
    assert s[..2] == Be16(|packet|);
    assert s == s[..2] + s[2..];
    Associate(s[..2], packet, rest);
    Associate(s[..2], f.header, f.body);
  }

  lemma DrainGot(s: Bytes)
    requires ReadPacket(s).Got? && Drain(s, IssuerSide).stop != Malformed
    ensures var packet, rest := ReadPacket(s).packet, ReadPacket(s).rest;
            && |packet| >= 5 && |rest| < |s|
            && Drain(s, IssuerSide) == Drain(rest, IssuerSide).(frames := [Frame(packet[..5], packet[5..])] + Drain(rest, IssuerSide).frames)
  {
    var packet, rest := ReadPacket(s).packet, ReadPacket(s).rest;
    ReadPacketMeans(s, packet, rest);
  }

  lemma DrainStops(s: Bytes)
    requires !ReadPacket(s).Got?
    ensures Drain(s, IssuerSide).frames == [] && Drain(s, IssuerSide).residue == s
    ensures Drain(s, IssuerSide).stop == match ReadPacket(s)
                                         case Eof => CleanEnd
                                         case UnexpectedEof => CutOff
                                         case _ => Malformed
  {
  }

  lemma FrameInFront(f: Frame, frames: seq<Frame>, rest: Bytes)
    requires Fits(f) && AllFit(frames)
    ensures AllFit([f] + frames) && Wire([f] + frames) + rest == Packet(f) + (Wire(frames) + rest)
  {
    assert ([f] + frames)[1..] == frames;
    hide Packet;
    Associate(Packet(f), Wire(frames), rest);
  }

  lemma NoFrames(s: Bytes)
    ensures AllFit([]) && Wire([]) + s == s
  {
  }

  /**
   What the issuer reads without complaint is frames that fit, one after another, and the rest that it has not read;
   it reads them all, and stops cleanly only when nothing is left.
   */
  lemma {:induction false} CleanIsFrames(s: Bytes)
    requires Drain(s, IssuerSide).stop != Malformed
    ensures var d := Drain(s, IssuerSide);
            && AllFit(d.frames) && s == Wire(d.frames) + d.residue
            && (d.stop.CleanEnd? <==> d.residue == []) && (d.stop.CutOff? <==> ReadPacket(d.residue).UnexpectedEof?)
    decreases |s|
  {
    hide Drain, ReadPacket, BeginsWith, Packet, Wire, Fits, AllFit;
    if ReadPacket(s).Got? {
      var packet, rest := ReadPacket(s).packet, ReadPacket(s).rest;
      ReadPacketMeans(s, packet, rest);
      DrainGot(s);
      ReadIsFrame(s, packet, rest);
      CleanIsFrames(rest);
      var d := Drain(rest, IssuerSide);
      FrameInFront(Frame(packet[..5], packet[5..]), d.frames, d.residue);
    } else {
      DrainStops(s);
      ReadPacketMeans(s, [], []);
      NoFrames(s);
    }
  }

  lemma DrainPartialPacket(f: Frame, n: nat, side: Side)
    requires Fits(f) && n < |Packet(f)|
    ensures Drain(Packet(f)[..n], side) == Drained([], Packet(f)[..n], if n == 0 then CleanEnd else CutOff)
  {
    var s := Packet(f)[..n];
    if n >= 2 {
      Be16RoundTrip(HEADER_LENGTH + |f.body|);
      assert s[..2] == Be16(HEADER_LENGTH + |f.body|);
    }
  }

  /** How many of the frames lie wholly within the first n bytes of their stream. */
  function Complete(frames: seq<Frame>, n: nat): (k: nat)
    requires AllFit(frames)
    ensures k <= |frames|
  {
    if frames == [] || n < |Packet(frames[0])| then 0
    else 1 + Complete(frames[1..], n - |Packet(frames[0])|)
  }

  lemma {:induction false} WireSplit(frames: seq<Frame>, k: nat)
    requires AllFit(frames) && k <= |frames|
    ensures Wire(frames) == Wire(frames[..k]) + Wire(frames[k..])
  {
    if k == 0 {
      assert frames[..0] == [] && frames[0..] == frames;
    } else {
      var rest := frames[1..];
      WireSplit(rest, k - 1);
      assert frames[..k][1..] == rest[..k - 1];
      assert rest[k - 1..] == frames[k..];
      Associate(Packet(frames[0]), Wire(rest[..k - 1]), Wire(frames[k..]));
    }
  }

  lemma {:induction false} CompleteBounds(frames: seq<Frame>, n: nat)
    requires AllFit(frames) && n <= |Wire(frames)|
    ensures var k := Complete(frames, n);
            && |Wire(frames[..k])| <= n
            && (k < |frames| ==> n < |Wire(frames[..k])| + |Packet(frames[k])|)
            && (k == |frames| ==> n == |Wire(frames)|)
  {
    var k := Complete(frames, n);
    if k > 0 {
      CompleteBounds(frames[1..], n - |Packet(frames[0])|);
      assert frames[..k][1..] == frames[1..][..k - 1];
    } else {
      assert frames[..k] == [];
    }
  }

  lemma {:induction false} WireAppend(frames: seq<Frame>, f: Frame)
    requires AllFit(frames) && Fits(f)
    ensures Wire(frames + [f]) == Wire(frames) + Packet(f)
  {
    if frames == [] {
      assert [f][1..] == [];
    } else {
      assert (frames + [f])[1..] == frames[1..] + [f];
      WireAppend(frames[1..], f);
    }
  }

  /** A stream of whole frames and the beginning of one more gives the whole ones. */
  lemma {:induction false} DrainWithTail(frames: seq<Frame>, f: Frame, n: nat, side: Side)
    requires AllFit(frames) && Fits(f) && n < |Packet(f)|
    ensures Drain(Wire(frames) + Packet(f)[..n], side)
            == Drained(frames, Packet(f)[..n], if n == 0 then CleanEnd else CutOff)
  {
    hide Packet, Drain;
    if frames == [] {
      assert Wire(frames) + Packet(f)[..n] == Packet(f)[..n];
      DrainPartialPacket(f, n, side);
    } else {
      DrainWithTail(frames[1..], f, n, side);
      DrainAfterPacket(frames[0], Wire(frames[1..]) + Packet(f)[..n], side);
      Associate(Packet(frames[0]), Wire(frames[1..]), Packet(f)[..n]);
    }
  }

  /** Every whole stream of fitting frames is read back exactly, with nothing left over. */
  lemma {:induction false} StreamRoundTrip(frames: seq<Frame>, side: Side)
    requires AllFit(frames)
    ensures Drain(Wire(frames), side) == Drained(frames, [], CleanEnd)
  {
    if frames == [] {
    } else {
      StreamRoundTrip(frames[1..], side);
      DrainAfterPacket(frames[0], Wire(frames[1..]), side);
    }
  }

  /**
   A stream cut after any number of bytes gives exactly the frames complete by then, in order. What
   is left over is the beginning of the frame that was cut, and the reader sees a clean end only
   on a frame boundary.
   */
  lemma TruncatedStream(frames: seq<Frame>, n: nat, side: Side)
    requires AllFit(frames) && n <= |Wire(frames)|
    ensures var k := Complete(frames, n);
            var whole := |Wire(frames[..k])|;
            && whole <= n
            && (k < |frames| ==> n < whole + |Packet(frames[k])|)
            && Drain(Wire(frames)[..n], side)
               == Drained(frames[..k],
                          if k < |frames| then Packet(frames[k])[..n - whole] else [],
                          if n == whole then CleanEnd else CutOff)
  {
    CompleteBounds(frames, n);
    WireSplit(frames, Complete(frames, n));
    var k := Complete(frames, n);
    if k < |frames| {
      var whole := |Wire(frames[..k])|;
      assert Wire(frames)[..n] == Wire(frames[..k]) + Packet(frames[k])[..n - whole];
      DrainWithTail(frames[..k], frames[k], n - |Wire(frames[..k])|, side);
    } else {
      assert frames[..k] == frames && Wire(frames)[..n] == Wire(frames);
      StreamRoundTrip(frames, side);
    }
  }

  // ----- one connection shared by many writers -----

  /** The write mutex of a connection: free, or held by a writer that has got `sent` bytes of its packet out. */
  datatype Lock = Free | Held(writer: nat, frame: Frame, sent: nat)

  /**
   One direction of a connection at byte level. `stream` is what the peer receives. `delivered` and
   `granted` are history: the frames whose last byte has arrived, and the frames in the order their
   writers got the mutex. After a write that failed part-way nothing more arrives (`torn`).
   */
  datatype Channel = Channel(stream: Bytes, lock: Lock, torn: bool, failed: bool,
                             delivered: seq<(nat, Frame)>, granted: seq<(nat, Frame)>)

  datatype ChannelStep =
    | Acquire(writer: nat, frame: Frame)
    | Send(count: nat)
    | Finish
    | Fail

  predicate ChannelEnabled(c: Channel, step: ChannelStep) {
    match step
    case Acquire(_, f) => c.lock.Free? && Fits(f)
    case Send(count) => c.lock.Held? && Framed(c.lock.frame) && 0 < count <= |Packet(c.lock.frame)| - c.lock.sent
    case Finish => c.lock.Held? && Framed(c.lock.frame) && c.lock.sent == |Packet(c.lock.frame)|
    case Fail => c.lock.Held? && Framed(c.lock.frame) && c.lock.sent < |Packet(c.lock.frame)|
  }

  function ChannelNext(c: Channel, step: ChannelStep): Channel
    requires ChannelEnabled(c, step)
  {
    match step
    case Acquire(w, f) => c.(lock := Held(w, f, 0), granted := c.granted + [(w, f)])
    case Send(count) =>
      var Held(w, f, sent) := c.lock;
      if c.torn then c.(lock := Held(w, f, sent + count))
      else c.(stream := c.stream + Packet(f)[sent..sent + count],
              lock := Held(w, f, sent + count),
              delivered := if sent + count == |Packet(f)| then c.delivered + [(w, f)] else c.delivered)
    case Finish => c.(lock := Free)
    case Fail => c.(lock := Free, torn := c.torn || c.lock.sent > 0, failed := true)
  }

  function ChannelRun(steps: seq<ChannelStep>): Option<Channel> {
    if steps == [] then Some(Channel([], Free, false, false, [], []))
    else
      var before := ChannelRun(steps[..|steps| - 1]);
      var last := steps[|steps| - 1];
      if before.Some? && ChannelEnabled(before.value, last) then Some(ChannelNext(before.value, last)) else None
  }

  function FramesOf(log: seq<(nat, Frame)>): (frames: seq<Frame>)
    ensures |frames| == |log|
    ensures forall i :: 0 <= i < |log| ==> frames[i] == log[i].1
  {
    seq(|log|, i requires 0 <= i < |log| => log[i].1)
  }

  /** The stream is the delivered frames and then the first bytes of at most one more frame. */
  ghost predicate Cut(c: Channel, f: Frame, n: nat) {
    && AllFit(FramesOf(c.delivered))
    && Fits(f) && n < |Packet(f)|
    && c.stream == Wire(FramesOf(c.delivered)) + Packet(f)[..n]
  }

  ghost predicate ChannelInv(c: Channel) {
    && AllFit(FramesOf(c.delivered))
    && (c.lock.Held? ==> Fits(c.lock.frame) && c.lock.sent <= |Packet(c.lock.frame)|)
    && (c.torn ==> c.failed && exists f, n :: Cut(c, f, n))
    && (!c.torn ==>
          if c.lock.Held? && c.lock.sent < |Packet(c.lock.frame)| then Cut(c, c.lock.frame, c.lock.sent)
          else c.stream == Wire(FramesOf(c.delivered)))
    && (!c.failed ==>
          if c.lock.Held? && c.lock.sent < |Packet(c.lock.frame)|
          then c.granted == c.delivered + [(c.lock.writer, c.lock.frame)]
          else c.granted == c.delivered)
  }

  lemma ChannelSendPreserves(c: Channel, count: nat)
    requires ChannelInv(c) && ChannelEnabled(c, Send(count)) && !c.torn
    ensures ChannelInv(ChannelNext(c, Send(count)))
  {
    hide Packet;
    var Held(w, f, sent) := c.lock;
    var c' := ChannelNext(c, Send(count));
    var p, frames := Packet(f), FramesOf(c.delivered);
    Associate(Wire(frames), p[..sent], p[sent..sent + count]);
    assert p[..sent] + p[sent..sent + count] == p[..sent + count];
    if sent + count == |p| {
      assert FramesOf(c'.delivered) == frames + [f];
      WireAppend(frames, f);
      assert p[..sent + count] == p;
    } else {
      assert Cut(c', f, sent + count);
    }
  }

  lemma ChannelStepPreserves(c: Channel, step: ChannelStep)
    requires ChannelInv(c) && ChannelEnabled(c, step)
    ensures ChannelInv(ChannelNext(c, step))
  {
    var c' := ChannelNext(c, step);
    if c.torn {
      var f, n :| Cut(c, f, n);
      assert Cut(c', f, n);
    } else {
      match step
      case Acquire(w, f) => assert Cut(c', f, 0);
      case Send(count) => ChannelSendPreserves(c, count);
      case Finish =>
      case Fail =>
        var f, sent := c.lock.frame, c.lock.sent;
        assert Cut(c', f, sent);
    }
  }

  lemma {:induction false} ChannelInvariant(steps: seq<ChannelStep>)
    requires ChannelRun(steps).Some?
    ensures ChannelInv(ChannelRun(steps).value)
  {
    if steps == [] {
    } else {
      var before := steps[..|steps| - 1];
      ChannelInvariant(before);
      ChannelStepPreserves(ChannelRun(before).value, steps[|steps| - 1]);
    }
  }

  lemma {:induction false} FailedIff(steps: seq<ChannelStep>)
    requires ChannelRun(steps).Some?
    ensures ChannelRun(steps).value.failed <==> Fail in steps
  {
    if steps == [] {
    } else {
      FailedIff(steps[..|steps| - 1]);
      assert steps == steps[..|steps| - 1] + [steps[|steps| - 1]];
    }
  }

  /**
   Whatever way concurrent writers take turns, and wherever their bytes are cut up, both readers get
   exactly the delivered frames; until a write fails these are the frames in mutex order, all but
   the one still being sent.
   */
  lemma ChannelIsFrameQueue(steps: seq<ChannelStep>, side: Side)
    requires ChannelRun(steps).Some?
    ensures var c := ChannelRun(steps).value;
            && Drain(c.stream, side).frames == FramesOf(c.delivered)
            && Drain(c.stream, side).stop != Malformed
            && (Fail !in steps && c.lock.Free? ==> c.delivered == c.granted && Drain(c.stream, side).residue == [])
  {
    ChannelInvariant(steps);
    FailedIff(steps);
    var c := ChannelRun(steps).value;
    var frames := FramesOf(c.delivered);
    StreamRoundTrip(frames, side);
    if c.torn {
      var f, n :| Cut(c, f, n);
      DrainWithTail(frames, f, n, side);
    } else if c.lock.Held? && c.lock.sent < |Packet(c.lock.frame)| {
      DrainWithTail(frames, c.lock.frame, c.lock.sent, side);
    }
  }

  // ----- the imperative readers and writers -----

  /** A connection as one reader sees it: the bytes that will arrive before it ends, and how many were taken. */
  class Stream {
    const data: Bytes
    var pos: nat

    constructor (data: Bytes)
      ensures this.data == data && pos == 0
    {
      this.data := data;
      pos := 0;
    }

    ghost predicate Valid()
      reads this
    {
      pos <= |data|
    }

    ghost function Unread(): Bytes
      reads this
      requires Valid()
    {
      data[pos..]
    }

    /** `io.ReadFull`: fills the buffer, or takes what is left and fails. */
    method ReadFull(buf: array<Byte>) returns (ok: bool)
      requires Valid()
      modifies this, buf
      ensures Valid()
      ensures ok <==> buf.Length <= |old(Unread())|
      ensures ok ==> buf[..] == old(Unread())[..buf.Length] && Unread() == old(Unread())[buf.Length..]
      ensures !ok ==> Unread() == []
    {
      var i := 0;
      while i < buf.Length && pos < |data|
        invariant 0 <= i <= buf.Length && pos == old(pos) + i <= |data|
        invariant buf[..i] == data[old(pos)..pos]
      {
        buf[i] := data[pos];
        i, pos := i + 1, pos + 1;
      }
      ok := i == buf.Length;
      if ok {
        assert buf[..] == buf[..i];
      }
    }
  }

  /** `readTPDUPacket`, and the first half of `readTPDUFrame`. */
  method ReadTpduPacket(conn: Stream) returns (r: ReadResult)
    requires conn.Valid()
    modifies conn
    ensures conn.Valid()
    ensures r.Got? ==> r == ReadPacket(old(conn.Unread())) && r.rest == conn.Unread()
    ensures !r.Got? ==> r == ReadPacket(old(conn.Unread()))
  {
    var before := conn.data[conn.pos..];
    var lengthBytes := new Byte[2];
    var ok := conn.ReadFull(lengthBytes);
    if !ok {
      return if before == [] then Eof else UnexpectedEof;
    }
    var length := lengthBytes[0] as int * 256 + lengthBytes[1];
    assert before[..2] == lengthBytes[..];
    if length == 0 || length > MAX_PACKET {
      return BadLength(length);
    }
    var packet := new Byte[length];
    ok := conn.ReadFull(packet);
    if !ok {
      return UnexpectedEof;
    }
    assert before[2..][..length] == before[2..2 + length];
    r := Got(packet[..], conn.data[conn.pos..]);
  }

  /** `readTPDUFrame`: the header to echo and the ISO bytes. A packet without room for a header is an error. */
  method ReadTpduFrame(conn: Stream) returns (frame: Option<Frame>)
    requires conn.Valid()
    modifies conn
    ensures conn.Valid()
    ensures var r := ReadPacket(old(conn.Unread()));
            && (frame.Some? <==> r.Got? && |r.packet| >= HEADER_LENGTH)
            && (frame.Some? ==> Framed(frame.value) && frame.value.header + frame.value.body == r.packet
                                && conn.Unread() == r.rest)
  {
    var r := ReadTpduPacket(conn);
    if !r.Got? || |r.packet| < HEADER_LENGTH {
      return None;
    }
    return Some(Frame(r.packet[..HEADER_LENGTH], r.packet[HEADER_LENGTH..]));
  }

  lemma LowByte(n: nat)
    ensures n % 0x1_0000 % 256 == n % 256
  {
    var q, r := n / 0x1_0000, n % 0x1_0000;
    RemainderUnique(n, q * 256 + r / 256, r % 256, 256);
  }

  /** Fills a packet buffer in place, as `sendToIssuer` and `writeTPDUFrame` do. */
  method BuildPacket(header: Bytes, body: Bytes) returns (packet: array<Byte>)
    requires |header| == HEADER_LENGTH
    ensures fresh(packet) && packet[..] == Packet(Frame(header, body))
  {
    var total := |header| + |body|;
    packet := new Byte[2 + total];
    packet[0], packet[1] := total % 0x1_0000 / 256, total % 256;
    forall i | 0 <= i < |header| {
      packet[2 + i] := header[i];
    }
    forall i | 0 <= i < |body| {
      packet[2 + |header| + i] := body[i];
    }
    LowByte(total);
    assert packet[..2] == Be16(total % 0x1_0000);
    assert packet[2..7] == header;
    assert packet[7..] == body;
    assert packet[..] == packet[..2] + packet[2..7] + packet[7..];
  }
}
