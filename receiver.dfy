/** The RTP side of the client as values: what one pass of the `listenRtp` loop does with a
    datagram or a receive timeout, what a run of passes forwards to the frame sink, and the
    data rate the client prints when it tears down. */
module MediaReceiver {
  import opened Wrappers
  import opened Rtp

  /** The client's receive-side fields: the sequence number of the last frame shown
      (`frameNbr`), the payload bytes counted so far, and the clock readings of the first and
      the latest accepted packet (0 until set). */
  datatype Receiver = Receiver(frameNbr: int, totalPayloadBytes: nat, startTime: int, stopTime: int)

  /** The fields as the client's constructor sets them. */
  const FRESH: Receiver := Receiver(0, 0, 0, 0)

  /** A payload handed to the frame sink, with the sequence number it arrived under. */
  datatype Frame = Frame(seqNum: int, payload: seq<byte>)

  /** What one `recv` on the RTP socket gives: a datagram, read at the given clock time, or a
      timeout. */
  datatype Arrival = Datagram(data: seq<byte>, at: int) | Timeout

  /** A datagram too short for `seqNum()` to read bytes 2 and 3: `decode` keeps it whole as a
      header, and the IndexError is caught by the loop's `except`. */
  predicate TooShortForSeqNum(data: seq<byte>) {
    0 < |data| < 4
  }

  /** The body of the `try` for a nonempty datagram of at least four bytes: decode it, and
      forward the payload only if its sequence number is above `frameNbr`, which it then
      becomes; the first accepted packet starts the clock, every accepted packet adds its
      payload length and moves the stop time. */
  function Receive(r: Receiver, data: seq<byte>, now: int): (Receiver, Option<Frame>)
    requires |data| >= 4
  {
    var n := Min(HEADER_SIZE, |data|);
    var seqNum := SeqNumOf(data[..n]);
    if seqNum > r.frameNbr then
      var payload := data[n..];
      (Receiver(seqNum, r.totalPayloadBytes + |payload|,
                if r.startTime == 0 then now else r.startTime, now),
       Some(Frame(seqNum, payload)))
    else (r, None)
  }

  /** One datagram changes the fields exactly when it is accepted, and then as described. */
  lemma ReceiveAccepts(r: Receiver, data: seq<byte>, now: int)
    requires |data| >= 4
    ensures var n := Min(HEADER_SIZE, |data|);
      var (r', frame) := Receive(r, data, now);
      && (frame.Some? <==> SeqNumOf(data[..n]) > r.frameNbr)
      && (frame.None? ==> r' == r)
      && (frame.Some? ==>
            && frame.value == Frame(SeqNumOf(data[..n]), data[n..])
            && r'.frameNbr == frame.value.seqNum
            && r'.totalPayloadBytes == r.totalPayloadBytes + |frame.value.payload|
            && r'.stopTime == now
            && r'.startTime == (if r.startTime == 0 then now else r.startTime))
  {
  }

  /** The state of a run of the loop: the receiver fields, the frames forwarded so far, and
      whether the loop has broken out. */
  datatype Listening = Listening(receiver: Receiver, frames: seq<Frame>, stopped: bool)

  /** One pass of the `while True` loop. `cancel` is what the `except` branch finds: the play
      event set, or the teardown acknowledged; either breaks the loop. An empty datagram fails
      `if data:` and the loop goes round again. */
  function Pass(l: Listening, a: Arrival, cancel: bool): Listening {
    match a
    case Timeout => l.(stopped := cancel)
    case Datagram(data, now) =>
      if |data| == 0 then l
      else if TooShortForSeqNum(data) then l.(stopped := cancel)
      else
        var (r, frame) := Receive(l.receiver, data, now);
        Listening(r, if frame.Some? then l.frames + [frame.value] else l.frames, false)
  }

  /** The loop over a sequence of arrivals, stopping at the first pass that breaks. */
  function Listen(r: Receiver, cancel: bool, arrivals: seq<Arrival>): Listening
    decreases |arrivals|
  {
    if arrivals == [] then Listening(r, [], false)
    else
      var prev := Listen(r, cancel, arrivals[..|arrivals| - 1]);
      if prev.stopped then prev else Pass(prev, arrivals[|arrivals| - 1], cancel)
  }

  function PayloadBytes(frames: seq<Frame>): nat
    decreases |frames|
  {
    if frames == [] then 0 else PayloadBytes(frames[..|frames| - 1]) + |frames[|frames| - 1].payload|
  }

  /** What the loop keeps true of what it has forwarded since it started from `r`: frames come
      in strictly increasing sequence-number order, all above the starting `frameNbr`;
      `frameNbr` never decreases and is the last forwarded number; the byte count grows by
      exactly the forwarded payloads; a start time once set is never moved. */
  predicate ForwardedSince(r: Receiver, l: Listening) {
    && l.receiver.frameNbr >= r.frameNbr
    && (forall i :: 0 <= i < |l.frames| ==> r.frameNbr < l.frames[i].seqNum <= l.receiver.frameNbr)
    && (forall i, j :: 0 <= i < j < |l.frames| ==> l.frames[i].seqNum < l.frames[j].seqNum)
    && (l.frames == [] ==> l.receiver.frameNbr == r.frameNbr)
    && (l.frames != [] ==> l.frames[|l.frames| - 1].seqNum == l.receiver.frameNbr)
    && l.receiver.totalPayloadBytes == r.totalPayloadBytes + PayloadBytes(l.frames)
    && (r.startTime != 0 ==> l.receiver.startTime == r.startTime)
  }

  /** Forwarding a frame numbered above `frameNbr`, and moving `frameNbr` up to it, keeps the
      invariant. */
  lemma ForwardKeepsForwarded(r: Receiver, l: Listening, r': Receiver, f: Frame)
    requires ForwardedSince(r, l)
    requires f.seqNum > l.receiver.frameNbr && r'.frameNbr == f.seqNum
    requires r'.totalPayloadBytes == l.receiver.totalPayloadBytes + |f.payload|
    requires r.startTime != 0 ==> r'.startTime == l.receiver.startTime
    ensures ForwardedSince(r, Listening(r', l.frames + [f], false))
  {
    var frames := l.frames + [f];
    assert frames[..|frames| - 1] == l.frames;
    assert PayloadBytes(frames) == PayloadBytes(l.frames) + |f.payload|;
    forall i | 0 <= i < |frames|
      ensures r.frameNbr < frames[i].seqNum <= r'.frameNbr
    {
      if i < |l.frames| {
        assert frames[i] == l.frames[i];
      }
    }
    forall i, j | 0 <= i < j < |frames|
      ensures frames[i].seqNum < frames[j].seqNum
    {
      if j < |l.frames| {
        assert frames[i] == l.frames[i] && frames[j] == l.frames[j];
      } else {
        assert frames[i] == l.frames[i];
      }
    }
  }

  /** One pass of the loop keeps the invariant. */
  lemma PassKeepsForwarded(r: Receiver, l: Listening, a: Arrival, cancel: bool)
    requires ForwardedSince(r, l)
    ensures ForwardedSince(r, Pass(l, a, cancel))
  {
    if a.Datagram? && |a.data| >= 4 {
      var out := Receive(l.receiver, a.data, a.at);
      ReceiveAccepts(l.receiver, a.data, a.at);
      if out.1.Some? {
        ForwardKeepsForwarded(r, l, out.0, out.1.value);
      }
    }
  }

  /** Over any run of the loop: forwarded frames come in strictly increasing sequence-number
      order, all above the `frameNbr` the loop started from; `frameNbr` never decreases,
      stays put while nothing is forwarded and ends at the last forwarded number; the byte
      count grows by exactly the forwarded payloads; and a start time once set is never
      moved. */
  lemma {:induction false} ListenForwardsIncreasing(r: Receiver, cancel: bool, arrivals: seq<Arrival>)
    ensures ForwardedSince(r, Listen(r, cancel, arrivals))
    decreases |arrivals|
  {
    if arrivals == [] {
      assert Listen(r, cancel, arrivals) == Listening(r, [], false);
    } else {
      var prev := Listen(r, cancel, arrivals[..|arrivals| - 1]);
      ListenForwardsIncreasing(r, cancel, arrivals[..|arrivals| - 1]);
      if !prev.stopped {
        PassKeepsForwarded(r, prev, arrivals[|arrivals| - 1], cancel);
      }
    }
  }

  /** Arrivals the loop reads past unchanged: a run over more arrivals starts with the frames
      of a run over fewer. */
  lemma {:induction false} ListenExtends(r: Receiver, cancel: bool, arrivals: seq<Arrival>, k: nat)
    requires k <= |arrivals|
    ensures Listen(r, cancel, arrivals[..k]).frames <= Listen(r, cancel, arrivals).frames
    decreases |arrivals| - k
  {
    if k < |arrivals| {
      ListenExtends(r, cancel, arrivals, k + 1);
      var shorter := arrivals[..k + 1];
      assert shorter[..|shorter| - 1] == arrivals[..k];
    } else {
      assert arrivals[..k] == arrivals;
    }
  }

  // ---------------------------------------------------------------- data rate

  /** The whole-session rate `exitClient` prints: payload bytes over the time between the
      first and the latest accepted packet, computed only when that time is positive. */
  function DataRate(r: Receiver): (rate: Option<real>)
    ensures rate.Some? <==> r.stopTime > r.startTime
    ensures rate.Some? ==> rate.value >= 0.0
    ensures rate.Some? ==> rate.value * (r.stopTime - r.startTime) as real == r.totalPayloadBytes as real
  {
    if r.stopTime > r.startTime then
      Some(r.totalPayloadBytes as real / (r.stopTime - r.startTime) as real)
    else None
  }

  // ---------------------------------------------------------------- examples

  /** A datagram holding a header with the given sequence number and `size` payload bytes. */
  function Packet(seqNum: byte, size: nat): seq<byte> {
    [0x80, 26, 0, seqNum, 0, 0, 0, 0, 0, 0, 0, 0] + seq(size, _ => 0)
  }

  /** What one pass does with such a datagram. */
  lemma PassPacket(l: Listening, seqNum: byte, size: nat, at: int, cancel: bool)
    ensures Pass(l, Datagram(Packet(seqNum, size), at), cancel) ==
      if seqNum as int > l.receiver.frameNbr then
        Listening(Receiver(seqNum as int, l.receiver.totalPayloadBytes + size,
                           if l.receiver.startTime == 0 then at else l.receiver.startTime, at),
                  l.frames + [Frame(seqNum as int, seq(size, _ => 0))], false)
      else l.(stopped := false)
  {
    var data := Packet(seqNum, size);
    assert |data| == 12 + size;
    assert data[..12] == [0x80, 26, 0, seqNum, 0, 0, 0, 0, 0, 0, 0, 0];
    assert SeqNumOf(data[..12]) == seqNum as int;
    assert data[12..] == seq(size, _ => 0);
  }

  /** The loop over one more arrival, for a run that has not stopped. */
  lemma ListenStep(r: Receiver, cancel: bool, a: seq<Arrival>, k: nat)
    requires k < |a|
    requires !Listen(r, cancel, a[..k]).stopped
    ensures Listen(r, cancel, a[..k + 1]) == Pass(Listen(r, cancel, a[..k]), a[k], cancel)
  {
    assert a[..k + 1][..k] == a[..k];
  }

  /** Sequence numbers 5, 3, 5, 7, 6, 9 arriving in that order: 5, 7 and 9 are forwarded and
      `frameNbr` ends at 9. */
  lemma LateAndDuplicatePacketsDropped()
    ensures var arrivals := [Datagram(Packet(5, 0), 1), Datagram(Packet(3, 0), 2),
                             Datagram(Packet(5, 0), 3), Datagram(Packet(7, 0), 4),
                             Datagram(Packet(6, 0), 5), Datagram(Packet(9, 0), 6)];
      var out := Listen(FRESH, false, arrivals);
      && |out.frames| == 3
      && out.frames[0].seqNum == 5 && out.frames[1].seqNum == 7 && out.frames[2].seqNum == 9
      && out.receiver.frameNbr == 9
  {
    var a := [Datagram(Packet(5, 0), 1), Datagram(Packet(3, 0), 2),
              Datagram(Packet(5, 0), 3), Datagram(Packet(7, 0), 4),
              Datagram(Packet(6, 0), 5), Datagram(Packet(9, 0), 6)];
    var l0 := Listen(FRESH, false, a[..0]);
    assert l0 == Listening(FRESH, [], false);
    ListenStep(FRESH, false, a, 0);
    PassPacket(l0, 5, 0, 1, false);
    var l1 := Listen(FRESH, false, a[..1]);
    assert l1.receiver.frameNbr == 5 && l1.frames == [Frame(5, [])] && !l1.stopped;
    ListenStep(FRESH, false, a, 1);
    PassPacket(l1, 3, 0, 2, false);
    var l2 := Listen(FRESH, false, a[..2]);
    assert l2 == l1;
    ListenStep(FRESH, false, a, 2);
    PassPacket(l2, 5, 0, 3, false);
    var l3 := Listen(FRESH, false, a[..3]);
    assert l3 == l1;
    ListenStep(FRESH, false, a, 3);
    PassPacket(l3, 7, 0, 4, false);
    var l4 := Listen(FRESH, false, a[..4]);
    assert l4.receiver.frameNbr == 7 && l4.frames == [Frame(5, []), Frame(7, [])] && !l4.stopped;
    ListenStep(FRESH, false, a, 4);
    PassPacket(l4, 6, 0, 5, false);
    var l5 := Listen(FRESH, false, a[..5]);
    assert l5 == l4;
    ListenStep(FRESH, false, a, 5);
    PassPacket(l5, 9, 0, 6, false);
    assert a[..6] == a;
  }

  /** Payloads of 100, 200 and 300 bytes accepted at times 1, 2 and 3: 600 bytes in 2 seconds,
      300 bytes per second. */
  lemma ThroughputExample()
    ensures var arrivals := [Datagram(Packet(1, 100), 1), Datagram(Packet(2, 200), 2),
                             Datagram(Packet(3, 300), 3)];
      var out := Listen(FRESH, false, arrivals);
      && out.receiver.totalPayloadBytes == 600
      && out.receiver.stopTime - out.receiver.startTime == 2
      && DataRate(out.receiver) == Some(300.0)
  {
    var a := [Datagram(Packet(1, 100), 1), Datagram(Packet(2, 200), 2), Datagram(Packet(3, 300), 3)];
    var l0 := Listen(FRESH, false, a[..0]);
    assert l0 == Listening(FRESH, [], false);
    ListenStep(FRESH, false, a, 0);
    PassPacket(l0, 1, 100, 1, false);
    var l1 := Listen(FRESH, false, a[..1]);
    assert l1.receiver == Receiver(1, 100, 1, 1) && !l1.stopped;
    ListenStep(FRESH, false, a, 1);
    PassPacket(l1, 2, 200, 2, false);
    var l2 := Listen(FRESH, false, a[..2]);
    assert l2.receiver == Receiver(2, 300, 1, 2) && !l2.stopped;
    ListenStep(FRESH, false, a, 2);
    PassPacket(l2, 3, 300, 3, false);
    assert a[..3] == a;
  }

  /** The clock reading 0 is the "not started" mark of `startTime`: a first packet accepted
      at clock 0 does not start the clock, and the next accepted one does. Payloads of 100,
      200 and 300 bytes at clocks 0, 1 and 2 count 600 bytes over the single second from 1
      to 2. */
  lemma FirstPacketAtClockZeroNotTimed()
    ensures var arrivals := [Datagram(Packet(1, 100), 0), Datagram(Packet(2, 200), 1),
                             Datagram(Packet(3, 300), 2)];
      var out := Listen(FRESH, false, arrivals);
      && out.receiver.totalPayloadBytes == 600
      && out.receiver.startTime == 1 && out.receiver.stopTime == 2
      && DataRate(out.receiver) == Some(600.0)
  {
    var a := [Datagram(Packet(1, 100), 0), Datagram(Packet(2, 200), 1), Datagram(Packet(3, 300), 2)];
    var l0 := Listen(FRESH, false, a[..0]);
    assert l0 == Listening(FRESH, [], false);
    ListenStep(FRESH, false, a, 0);
    PassPacket(l0, 1, 100, 0, false);
    var l1 := Listen(FRESH, false, a[..1]);
    assert l1.receiver == Receiver(1, 100, 0, 0) && !l1.stopped;
    ListenStep(FRESH, false, a, 1);
    PassPacket(l1, 2, 200, 1, false);
    var l2 := Listen(FRESH, false, a[..2]);
    assert l2.receiver == Receiver(2, 300, 1, 1) && !l2.stopped;
    ListenStep(FRESH, false, a, 2);
    PassPacket(l2, 3, 300, 2, false);
    assert a[..3] == a;
  }
}
