/** The `Client` class of the video client: its fields and the methods that change them. The
    button handlers, `sendRtspRequest` and `parseRtspReply` change the control fields as the
    functions of module `Rtsp` say; one datagram, and a run of the RTP listening loop, change
    the receive-side fields as the functions of module `MediaReceiver` say. */
module VideoClient {
  import opened Wrappers
  import opened Text
  import opened Rtp
  import opened Rtsp
  import opened MediaReceiver

  class Client {
    const fileName: string
    const rtpPort: int

    var state: State
    var rtspSeq: int
    var sessionId: int
    var requestSent: Option<Request>
    var teardownAcked: bool
    var playEvent: bool
    var rtpOpen: bool

    var frameNbr: int
    var totalPayloadBytes: nat
    var startTime: int
    var stopTime: int

    /** The control fields as one value. */
    function Control(): Session
      reads this
    {
      Session(state, rtspSeq, sessionId, requestSent, teardownAcked, playEvent, rtpOpen)
    }

    /** The receive-side fields as one value. */
    function Receiving(): Receiver
      reads this
    {
      Receiver(frameNbr, totalPayloadBytes, startTime, stopTime)
    }

    /** `__init__`, without the window and the TCP connection. */
    constructor (rtpPort: int, fileName: string)
      ensures this.rtpPort == rtpPort && this.fileName == fileName
      ensures Control() == INITIAL && Receiving() == FRESH
    {
      this.rtpPort := rtpPort;
      this.fileName := fileName;
      state := Init;
      rtspSeq := 0;
      sessionId := 0;
      requestSent := None;
      teardownAcked := false;
      playEvent := false;
      rtpOpen := false;
      frameNbr := 0;
      totalPayloadBytes := 0;
      startTime := 0;
      stopTime := 0;
    }

    /** `sendRtspRequest(code)`: the request text that goes to the socket, if any. */
    method SendRtspRequest(code: Request) returns (request: Option<string>)
      modifies this
      ensures (Control(), request) == OnRequest(old(Control()), code, fileName, rtpPort)
      ensures Receiving() == old(Receiving())
    {
      if code == Setup && state == Init {
        rtspSeq := rtspSeq + 1;
        requestSent := Some(Setup);
      } else if code == Play && state == Ready {
        rtspSeq := rtspSeq + 1;
        requestSent := Some(Play);
      } else if code == Pause && state == Playing {
        rtspSeq := rtspSeq + 1;
        requestSent := Some(Pause);
      } else if code == Teardown && state != Init {
        rtspSeq := rtspSeq + 1;
        requestSent := Some(Teardown);
      } else {
        if rtspSeq > 0 {
          rtspSeq := rtspSeq - 1;
        }
        return None;
      }
      var text := WriteRequest(code);
      request := Some(text);
    }

    /** The text each branch of `sendRtspRequest` builds, line by line, from the counter
        already advanced: the request line, the CSeq header, then the Transport header for
        SETUP and the Session header for the others. The four branches of the source differ
        only in the method name and the last header. */
    method WriteRequest(code: Request) returns (text: string)
      ensures text == RequestText(code, fileName, rtspSeq, rtpPort, sessionId)
    {
      text := MethodName(code) + " " + fileName + " RTSP/1.0\n";
      text := text + "CSeq: " + IntToString(rtspSeq) + "\n";
      if code == Setup {
        text := text + "Transport: RTP/UDP; client_port= " + IntToString(rtpPort);
      } else {
        text := text + "Session: " + IntToString(sessionId);
      }
      RequestTextLayout(code, fileName, rtspSeq, rtpPort, sessionId);
    }

    /** `setupMovie`: SETUP, only from INIT. */
    method SetupMovie() returns (request: Option<string>)
      modifies this
      ensures (Control(), request) == Press(old(Control()), Setup, fileName, rtpPort)
      ensures Receiving() == old(Receiving())
    {
      request := None;
      if state == Init {
        request := SendRtspRequest(Setup);
      }
    }

    /** `playMovie`: from READY, a new cleared play event, then PLAY. Starting the listening
        thread is `ListenRtp`, run separately. */
    method PlayMovie() returns (request: Option<string>)
      modifies this
      ensures (Control(), request) == Press(old(Control()), Play, fileName, rtpPort)
      ensures Receiving() == old(Receiving())
    {
      request := None;
      if state == Ready {
        playEvent := false;
        request := SendRtspRequest(Play);
      }
    }

    /** `pauseMovie`: PAUSE, only from PLAYING. */
    method PauseMovie() returns (request: Option<string>)
      modifies this
      ensures (Control(), request) == Press(old(Control()), Pause, fileName, rtpPort)
      ensures Receiving() == old(Receiving())
    {
      request := None;
      if state == Playing {
        request := SendRtspRequest(Pause);
      }
    }

    /** `exitClient`: TEARDOWN whatever the state, and the data rate it prints, which exists
        exactly when the stop time is after the start time. */
    method ExitClient() returns (request: Option<string>, rate: Option<real>)
      modifies this
      ensures (Control(), request) == OnRequest(old(Control()), Teardown, fileName, rtpPort)
      ensures Receiving() == old(Receiving())
      ensures rate == DataRate(old(Receiving()))
      ensures rate.Some? <==> old(stopTime) > old(startTime)
      ensures rate.Some? ==> rate.value * (old(stopTime) - old(startTime)) as real == old(totalPayloadBytes) as real
    {
      request := SendRtspRequest(Teardown);
      rate := None;
      if stopTime > startTime {
        var streamingTime := stopTime - startTime;
        rate := Some(totalPayloadBytes as real / streamingTime as real);
      }
    }

    /** `parseRtspReply(data)`. A reply on which `int()` or an index raises leaves every field
        as it was: the receiving loop swallows the exception. */
    method ParseRtspReply(data: string)
      modifies this
      ensures Control() == OnReply(old(Control()), data)
      ensures Receiving() == old(Receiving())
    {
      var lines := Split(data, '\n');
      var statusCode := SecondWordInt(lines[0]);
      if statusCode.None? || |lines| < 2 {
        return;
      }
      var seqNum := SecondWordInt(lines[1]);
      if seqNum.None? {
        return;
      }
      if seqNum.value == rtspSeq {
        var session := SessionOf(lines);
        if sessionId == 0 && session != 0 {
          sessionId := session;
        }
        if sessionId == session || requestSent == Some(Setup) {
          if statusCode.value == 200 {
            match requestSent
            case Some(Setup) =>
              state := Ready;
              rtpOpen := true;
            case Some(Play) =>
              state := Playing;
            case Some(Pause) =>
              state := Ready;
              playEvent := true;
            case Some(Teardown) =>
              state := Init;
              teardownAcked := true;
            case None =>
          }
        }
      }
    }

    /** The body of the listening loop's `try` for one datagram read at clock time `now`: the
        frame forwarded to the display, if any, and whether `seqNum()` raised on a datagram
        too short to hold a sequence number. `shared` is the `RtpPacket.header` class attribute
        the new packet starts with; `decode` replaces it before anything reads it. */
    method ReceiveDatagram(shared: array<byte>, data: seq<byte>, now: int) returns (frame: Option<Frame>, raised: bool)
      modifies this
      ensures Control() == old(Control())
      ensures raised <==> TooShortForSeqNum(data)
      ensures |data| >= 4 ==> (Receiving(), frame) == Receive(old(Receiving()), data, now)
      ensures |data| < 4 ==> Receiving() == old(Receiving()) && frame == None
    {
      frame := None;
      raised := false;
      if |data| == 0 {
        return;
      }
      var packet := new RtpPacket(shared);
      packet.Decode(data);
      if packet.header.Length < 4 {
        raised := true;
        return;
      }
      var currFrameNbr := packet.SeqNum();
      if currFrameNbr > frameNbr {
        if startTime == 0 {
          startTime := now;
        }
        totalPayloadBytes := totalPayloadBytes + |packet.GetPayload()|;
        stopTime := now;
        frameNbr := currFrameNbr;
        frame := Some(Frame(currFrameNbr, packet.GetPayload()));
      }
    }

    /** `listenRtp` over the given arrivals, read one by one until the loop breaks: the frames
        forwarded, how many arrivals were read and whether the loop broke. A timeout or a
        raising datagram breaks it when the play event is set, or when the teardown was
        acknowledged, in which case the RTP socket is closed. Forwarded frames come in strictly
        increasing sequence-number order, above the `frameNbr` the loop started from, and
        `frameNbr` ends at the last of them. */
    method ListenRtp(shared: array<byte>, arrivals: seq<Arrival>) returns (frames: seq<Frame>, consumed: nat, stopped: bool)
      modifies this
      ensures consumed <= |arrivals| && (stopped || consumed == |arrivals|)
      ensures stopped ==> old(playEvent || teardownAcked)
      ensures Listen(old(Receiving()), old(playEvent || teardownAcked), arrivals[..consumed])
                == Listening(Receiving(), frames, stopped)
      ensures Control() ==
        if stopped && !old(playEvent) then old(Control()).(rtpOpen := false) else old(Control())
      ensures forall i, j :: 0 <= i < j < |frames| ==> frames[i].seqNum < frames[j].seqNum
      ensures forall i :: 0 <= i < |frames| ==> old(frameNbr) < frames[i].seqNum <= frameNbr
      ensures frames != [] ==> frames[|frames| - 1].seqNum == frameNbr
      ensures totalPayloadBytes == old(totalPayloadBytes) + PayloadBytes(frames)
    {
      ghost var r0 := Receiving();
      ghost var cancel := playEvent || teardownAcked;
      frames, consumed, stopped := [], 0, false;
      while consumed < |arrivals| && !stopped
        invariant consumed <= |arrivals|
        invariant Listen(r0, cancel, arrivals[..consumed]) == Listening(Receiving(), frames, stopped)
        invariant Control() ==
          if stopped && !old(playEvent) then old(Control()).(rtpOpen := false) else old(Control())
        invariant stopped ==> cancel
        decreases |arrivals| - consumed
      {
        ListenStep(r0, cancel, arrivals, consumed);
        var raised := false;
        match arrivals[consumed] {
          case Timeout =>
            raised := true;
          case Datagram(data, now) =>
            var frame;
            frame, raised := ReceiveDatagram(shared, data, now);
            if frame.Some? {
              frames := frames + [frame.value];
            }
        }
        consumed := consumed + 1;
        if raised {
          if playEvent {
            stopped := true;
          } else if teardownAcked {
            rtpOpen := false;
            stopped := true;
          }
        }
      }
      ListenForwardsIncreasing(r0, cancel, arrivals[..consumed]);
    }
  }
}
