/** The RTSP/1.0 dialogue of the video client, as values: the request table of
    `sendRtspRequest`, the reply reading and state changes of `parseRtspReply`, and what
    follows from them over any sequence of requests and replies. The client class applies
    these to its fields; here they are functions of the old session state.

    Requests carry the CSeq header of section 12.17 of RFC 2326 and, after SETUP, the
    Session header of section 12.37; the client follows the state machine of Appendix A of
    RFC 2326 with the states INIT, READY and PLAYING. */
module Rtsp {
  import opened Wrappers
  import opened Text

  /** `Client.INIT`, `Client.READY`, `Client.PLAYING` (0, 1, 2). */
  datatype State = Init | Ready | Playing

  /** `Client.SETUP`, `Client.PLAY`, `Client.PAUSE`, `Client.TEARDOWN` (0 to 3). */
  datatype Request = Setup | Play | Pause | Teardown

  /** The control fields of the client. `requestSent` is `None` before the first request
      (the source's -1); `playEvent` is whether the event that stops the RTP listener is set;
      `rtpOpen` records that `openRtpPort` was called and the RTP socket not yet closed. */
  datatype Session = Session(
    state: State, rtspSeq: int, sessionId: int, requestSent: Option<Request>,
    teardownAcked: bool, playEvent: bool, rtpOpen: bool)

  /** The fields as the client's constructor sets them. */
  const INITIAL: Session := Session(Init, 0, 0, None, false, false, false)

  // ---------------------------------------------------------------- requests

  /** The guard of each branch of `sendRtspRequest`. */
  predicate Allowed(state: State, code: Request) {
    match code
    case Setup => state == Init
    case Play => state == Ready
    case Pause => state == Playing
    case Teardown => state != Init
  }

  function MethodName(code: Request): string {
    match code
    case Setup => "SETUP"
    case Play => "PLAY"
    case Pause => "PAUSE"
    case Teardown => "TEARDOWN"
  }

  function RequestLine(code: Request, fileName: string): string {
    MethodName(code) + " " + fileName + " RTSP/1.0"
  }

  function CSeqLine(cseq: int): string {
    "CSeq: " + IntToString(cseq)
  }

  /** The Transport header for SETUP, the Session header for the others. */
  function LastLine(code: Request, rtpPort: int, sessionId: int): string {
    if code == Setup then "Transport: RTP/UDP; client_port= " + IntToString(rtpPort)
    else "Session: " + IntToString(sessionId)
  }

  /** The text of a request: three lines, the last without a line break. */
  function RequestText(code: Request, fileName: string, cseq: int, rtpPort: int, sessionId: int): string {
    RequestLine(code, fileName) + "\n" + CSeqLine(cseq) + "\n" + LastLine(code, rtpPort, sessionId)
  }

  /** `sendRtspRequest(code)`: the new fields and the text sent, if any. An allowed request
      takes the next CSeq and is recorded in `requestSent`; any other sends nothing and lowers
      a positive CSeq counter by one. The state is never changed here. */
  function OnRequest(s: Session, code: Request, fileName: string, rtpPort: int): (r: (Session, Option<string>))
    ensures r.0.state == s.state && r.0.sessionId == s.sessionId
    ensures r.0.teardownAcked == s.teardownAcked && r.0.playEvent == s.playEvent && r.0.rtpOpen == s.rtpOpen
    ensures r.1.Some? <==> Allowed(s.state, code)
    ensures r.1.Some? ==> r.0.rtspSeq == s.rtspSeq + 1 && r.0.requestSent == Some(code)
    ensures r.1.None? ==> r.0.requestSent == s.requestSent
    ensures r.1.None? ==> r.0.rtspSeq == if s.rtspSeq > 0 then s.rtspSeq - 1 else s.rtspSeq
  {
    if Allowed(s.state, code) then
      var cseq := s.rtspSeq + 1;
      (s.(rtspSeq := cseq, requestSent := Some(code)),
       Some(RequestText(code, fileName, cseq, rtpPort, s.sessionId)))
    else
      (s.(rtspSeq := if s.rtspSeq > 0 then s.rtspSeq - 1 else s.rtspSeq), None)
  }

  /** The Setup, Play and Pause buttons (`setupMovie`, `playMovie`, `pauseMovie`): each
      checks the state its request needs before calling `sendRtspRequest`, so a press in any
      other state changes nothing, and a button never lowers the CSeq counter. Play first
      creates a new, cleared play event. (The Teardown button calls `sendRtspRequest`
      unguarded: that is `OnRequest(s, Teardown, ...)`.) */
  function Press(s: Session, code: Request, fileName: string, rtpPort: int): (r: (Session, Option<string>))
    requires code != Teardown
    ensures r.1.Some? <==> Allowed(s.state, code)
    ensures r.1.None? ==> r.0 == s
    ensures r.0.rtspSeq >= s.rtspSeq
    ensures r.1.Some? ==> r.0.rtspSeq == s.rtspSeq + 1 && r.0.requestSent == Some(code)
    ensures r.0.playEvent == (s.playEvent && !(code == Play && r.1.Some?))
  {
    if Allowed(s.state, code) then
      OnRequest(if code == Play then s.(playEvent := false) else s, code, fileName, rtpPort)
    else (s, None)
  }

  /** A refused request takes back the CSeq of the request before it, so the next request
      that goes out carries the same CSeq as that earlier one. */
  lemma RefusedRequestReusesCSeq(s: Session, first: Request, refused: Request, next: Request,
                                 fileName: string, rtpPort: int)
    requires s.rtspSeq >= 0
    requires Allowed(s.state, first) && !Allowed(s.state, refused) && Allowed(s.state, next)
    ensures var (s1, sent1) := OnRequest(s, first, fileName, rtpPort);
      var (s2, sent2) := OnRequest(s1, refused, fileName, rtpPort);
      var (s3, sent3) := OnRequest(s2, next, fileName, rtpPort);
      && sent1 == Some(RequestText(first, fileName, s.rtspSeq + 1, rtpPort, s.sessionId))
      && sent2 == None
      && sent3 == Some(RequestText(next, fileName, s.rtspSeq + 1, rtpPort, s.sessionId))
  {
  }

  /** The request text as `sendRtspRequest` builds it: the request line with its line break,
      then the CSeq line with its line break, then the last header. */
  lemma RequestTextLayout(code: Request, fileName: string, cseq: int, rtpPort: int, sessionId: int)
    ensures var prefix := MethodName(code) + " " + fileName + " RTSP/1.0\n" + "CSeq: " + IntToString(cseq) + "\n";
      RequestText(code, fileName, cseq, rtpPort, sessionId) ==
        if code == Setup then prefix + "Transport: RTP/UDP; client_port= " + IntToString(rtpPort)
        else prefix + "Session: " + IntToString(sessionId)
  {
    var m, c := MethodName(code), IntToString(cseq);
    assert RequestLine(code, fileName) + "\n" == m + " " + fileName + " RTSP/1.0\n";
    assert CSeqLine(cseq) + "\n" == "CSeq: " + c + "\n";
  }

  /** A request splits into its three lines, the CSeq header's value reads back as the counter
      it was written from, and the request line names the method and the file. */
  lemma RequestTextReadsBack(code: Request, fileName: string, cseq: int, rtpPort: int, sessionId: int)
    requires '\n' !in fileName
    ensures var lines := Split(RequestText(code, fileName, cseq, rtpPort, sessionId), '\n');
      && lines == [RequestLine(code, fileName), CSeqLine(cseq), LastLine(code, rtpPort, sessionId)]
      && SecondWordInt(lines[1]) == Some(cseq)
    ensures ' ' !in fileName ==>
      Split(RequestLine(code, fileName), ' ') == [MethodName(code), fileName, "RTSP/1.0"]
  {
    var l0, l1, l2 := RequestLine(code, fileName), CSeqLine(cseq), LastLine(code, rtpPort, sessionId);
    HeaderLinesUnbroken(code, fileName, rtpPort, sessionId);
    CSeqLineReadsBack(cseq);
    ThreeLines(l0, l1, l2, '\n');
    if ' ' !in fileName {
      RequestLineWords(code, fileName);
    }
  }

  lemma HeaderLinesUnbroken(code: Request, fileName: string, rtpPort: int, sessionId: int)
    requires '\n' !in fileName
    ensures '\n' !in RequestLine(code, fileName) && '\n' !in LastLine(code, rtpPort, sessionId)
  {
    NoSeparatorInNumber(rtpPort);
    NoSeparatorInNumber(sessionId);
    assert '\n' !in MethodName(code);
  }

  lemma RequestLineWords(code: Request, fileName: string)
    requires ' ' !in fileName
    ensures Split(RequestLine(code, fileName), ' ') == [MethodName(code), fileName, "RTSP/1.0"]
  {
    assert ' ' !in MethodName(code);
    assert ' ' !in "RTSP/1.0";
    assert " RTSP/1.0" == [' '] + "RTSP/1.0";
    assert RequestLine(code, fileName) == MethodName(code) + [' '] + fileName + [' '] + "RTSP/1.0";
    ThreeLines(MethodName(code), fileName, "RTSP/1.0", ' ');
  }

  /** Three pieces free of a separator, joined by it, split back into the three. */
  lemma ThreeLines(a: string, b: string, c: string, sep: char)
    requires sep !in a && sep !in b && sep !in c
    ensures Split(a + [sep] + b + [sep] + c, sep) == [a, b, c]
  {
    assert [a, b, c][1..] == [b, c];
    assert [b, c][1..] == [c];
    assert Join([b, c], sep) == b + [sep] + c;
    assert Join([a, b, c], sep) == a + [sep] + b + [sep] + c;
    SplitJoin([a, b, c], sep);
  }

  /** A number as `str` writes it holds neither a space nor a line break. */
  lemma NoSeparatorInNumber(n: int)
    ensures ' ' !in IntToString(n) && '\n' !in IntToString(n)
  {
    var s := IntToString(n);
    assert forall i :: 0 <= i < |s| ==> s[i] != ' ' && s[i] != '\n';
  }

  /** A number written after a first word, alone or followed by more words, is read back as
      the line's second word. */
  lemma SecondWordReadsBack(first: string, n: int, rest: Option<string>)
    requires ' ' !in first
    ensures SecondWordInt(first + " " + IntToString(n) + (if rest.Some? then " " + rest.value else ""))
            == Some(n)
  {
    NoSeparatorInNumber(n);
    var number := IntToString(n);
    match rest {
      case None =>
        assert first + " " + number + "" == first + [' '] + number;
        SplitAfterPiece(first, ' ', number);
        SplitWithoutSeparator(number, ' ');
      case Some(more) =>
        assert first + " " + number + (" " + more) == first + [' '] + (number + [' '] + more);
        SplitAfterPiece(first, ' ', number + [' '] + more);
        SplitAfterPiece(number, ' ', more);
    }
    ParseIntOfIntToString(n);
  }

  /** The CSeq line holds no line break, and its second word reads back as the number. */
  lemma CSeqLineReadsBack(cseq: int)
    ensures '\n' !in CSeqLine(cseq)
    ensures SecondWordInt(CSeqLine(cseq)) == Some(cseq)
  {
    NoSeparatorInNumber(cseq);
    SecondWordReadsBack("CSeq:", cseq, None);
    assert "CSeq: " == "CSeq:" + " ";
    assert CSeqLine(cseq) == "CSeq:" + " " + IntToString(cseq) + "";
  }

  // ---------------------------------------------------------------- replies

  /** The three numbers `parseRtspReply` reads: the status code (second word of line 0), the
      CSeq (second word of line 1) and the session id (second word of the first line that
      starts with "Session:", or 0 when there is none or it does not parse). */
  datatype Reply = Reply(status: int, cseq: int, session: int)

  /** The session id of the first "Session:" line; 0 when there is none, when it has no second
      word or when that word is not a number (the try/except around it swallows the error). */
  function SessionOf(lines: seq<string>): int
    decreases |lines|
  {
    if lines == [] then 0
    else if StartsWith(lines[0], "Session:") then
      match SecondWordInt(lines[0])
      case Some(n) => n
      case None => 0
    else SessionOf(lines[1..])
  }

  /** The second space-separated word of a line as an integer; `None` when the line has no
      second word (IndexError) or the word is not a number (ValueError). */
  function SecondWordInt(line: string): Option<int> {
    var words := Split(line, ' ');
    if |words| < 2 then None else ParseInt(words[1])
  }

  /** Tokenising a reply. `None` is a reply on which `parseRtspReply` raises before changing
      anything (a missing line or word, a status or CSeq that is not a number): the receiving
      loop swallows the exception, so such a reply is ignored. */
  function ParseReply(data: string): Option<Reply> {
    var lines := Split(data, '\n');
    match SecondWordInt(lines[0])
    case None => None
    case Some(status) =>
      if |lines| < 2 then None
      else match SecondWordInt(lines[1])
        case None => None
        case Some(cseq) => Some(Reply(status, cseq, SessionOf(lines)))
  }

  /** The state a successful reply to the last request moves to. */
  function Target(sent: Option<Request>, state: State): State {
    match sent
    case Some(Setup) => Ready
    case Some(Play) => Playing
    case Some(Pause) => Ready
    case Some(Teardown) => Init
    case None => state
  }

  /** `parseRtspReply(data)`: a reply whose CSeq is the current counter binds the session id
      if none is bound yet; then, if the reply's session is the bound one or the last request
      was SETUP, a 200 status applies the transition of the last request (SETUP also opens
      the RTP port, PAUSE sets the play event, TEARDOWN records the acknowledgement). Status
      404 and 500 are only reported, other codes ignored. */
  function OnReply(s: Session, data: string): Session {
    match ParseReply(data)
    case None => s
    case Some(reply) =>
      if reply.cseq != s.rtspSeq then s
      else
        var bound := if s.sessionId == 0 && reply.session != 0 then reply.session else s.sessionId;
        var s1 := s.(sessionId := bound);
        if (bound == reply.session || s.requestSent == Some(Setup)) && reply.status == 200 then
          match s.requestSent
          case Some(Setup) => s1.(state := Ready, rtpOpen := true)
          case Some(Play) => s1.(state := Playing)
          case Some(Pause) => s1.(state := Ready, playEvent := true)
          case Some(Teardown) => s1.(state := Init, teardownAcked := true)
          case None => s1
        else s1
  }

  /** Whether a reply is one the client acts on: it parses, carries the current CSeq and
      status 200, and either no session is bound yet, or it names the bound session, or it
      answers SETUP. */
  predicate Accepted(s: Session, data: string) {
    var p := ParseReply(data);
    && p.Some?
    && p.value.cseq == s.rtspSeq
    && p.value.status == 200
    && (s.sessionId == 0 || s.sessionId == p.value.session || s.requestSent == Some(Setup))
  }

  /** A reply that does not parse, or whose CSeq is not the current counter, changes nothing. */
  lemma StaleReplyIgnored(s: Session, data: string)
    requires ParseReply(data).None? || ParseReply(data).value.cseq != s.rtspSeq
    ensures OnReply(s, data) == s
  {
  }

  /** A reply never touches the CSeq counter or the record of the last request. */
  lemma ReplyKeepsRequestFields(s: Session, data: string)
    ensures OnReply(s, data).rtspSeq == s.rtspSeq
    ensures OnReply(s, data).requestSent == s.requestSent
  {
  }

  /** The session id is bound at most once: a bound id never changes, and an unbound one is
      bound exactly by a current reply carrying a nonzero session. */
  lemma SessionBinding(s: Session, data: string)
    ensures s.sessionId != 0 ==> OnReply(s, data).sessionId == s.sessionId
    ensures s.sessionId == 0 ==>
      OnReply(s, data).sessionId ==
        (if ParseReply(data).Some? && ParseReply(data).value.cseq == s.rtspSeq
         then ParseReply(data).value.session else 0)
  {
  }

  /** The state and the teardown acknowledgement change as the transition table says exactly
      when the reply is accepted; any other reply (non-200 status such as 404 or 500, foreign
      session, stale CSeq, unparsable text) leaves both as they were. */
  lemma ReplyTransition(s: Session, data: string)
    ensures Accepted(s, data) ==>
      && OnReply(s, data).state == Target(s.requestSent, s.state)
      && OnReply(s, data).teardownAcked == (s.teardownAcked || s.requestSent == Some(Teardown))
    ensures !Accepted(s, data) ==>
      OnReply(s, data).state == s.state && OnReply(s, data).teardownAcked == s.teardownAcked
  {
  }

  // ---------------------------------------------------------------- the reply format

  /** The status line of a reply: "RTSP/1.0 <status> <reason>". */
  function StatusLine(status: int, reason: string): string {
    "RTSP/1.0 " + IntToString(status) + " " + reason
  }

  function SessionLine(session: int): string {
    "Session: " + IntToString(session)
  }

  /** A reply as the server writes it: status line, CSeq and Session, one per line. */
  function ReplyText(status: int, reason: string, cseq: int, session: int): string {
    StatusLine(status, reason) + "\n" + CSeqLine(cseq) + "\n" + SessionLine(session)
  }

  lemma StatusLineReadsBack(status: int, reason: string)
    requires '\n' !in reason
    ensures '\n' !in StatusLine(status, reason) && !StartsWith(StatusLine(status, reason), "Session:")
    ensures SecondWordInt(StatusLine(status, reason)) == Some(status)
  {
    NoSeparatorInNumber(status);
    SecondWordReadsBack("RTSP/1.0", status, Some(reason));
    assert "RTSP/1.0 " == "RTSP/1.0" + " ";
    assert StatusLine(status, reason) == "RTSP/1.0" + " " + IntToString(status) + (" " + reason);
    assert StatusLine(status, reason)[0] == 'R';
  }

  lemma SessionLineReadsBack(session: int)
    ensures '\n' !in SessionLine(session) && StartsWith(SessionLine(session), "Session:")
    ensures SecondWordInt(SessionLine(session)) == Some(session)
  {
    NoSeparatorInNumber(session);
    SecondWordReadsBack("Session:", session, None);
    assert "Session: " == "Session:" + " ";
    assert SessionLine(session) == "Session:" + " " + IntToString(session) + "";
  }

  /** The client reads back from a well-formed reply exactly the numbers written into it. */
  lemma ParseReplyText(status: int, reason: string, cseq: int, session: int)
    requires '\n' !in reason
    ensures ParseReply(ReplyText(status, reason, cseq, session)) == Some(Reply(status, cseq, session))
  {
    var l0, l1, l2 := StatusLine(status, reason), CSeqLine(cseq), SessionLine(session);
    StatusLineReadsBack(status, reason);
    CSeqLineReadsBack(cseq);
    SessionLineReadsBack(session);
    ThreeLines(l0, l1, l2, '\n');
    assert !StartsWith(l1, "Session:") by {
      assert l1[0] == 'C';
    }
    assert SessionOf([l2]) == session;
    assert [l1, l2][1..] == [l2];
    assert SessionOf([l1, l2]) == session;
    assert [l0, l1, l2][1..] == [l1, l2];
    assert SessionOf([l0, l1, l2]) == session;
  }

  // ---------------------------------------------------------------- runs

  /** What happens to the control fields: a request the user asks for, or a reply received. */
  datatype Event = Intent(code: Request) | Incoming(data: string)

  function Step(s: Session, e: Event, fileName: string, rtpPort: int): Session {
    match e
    case Intent(code) => OnRequest(s, code, fileName, rtpPort).0
    case Incoming(data) => OnReply(s, data)
  }

  function Run(s: Session, events: seq<Event>, fileName: string, rtpPort: int): Session
    decreases |events|
  {
    if events == [] then s else Run(Step(s, events[0], fileName, rtpPort), events[1..], fileName, rtpPort)
  }

  /** Once bound, the session id stays the same whatever requests and replies follow. */
  lemma {:induction false} SessionIdStable(s: Session, events: seq<Event>, fileName: string, rtpPort: int)
    requires s.sessionId != 0
    ensures Run(s, events, fileName, rtpPort).sessionId == s.sessionId
    decreases |events|
  {
    if events != [] {
      var next := Step(s, events[0], fileName, rtpPort);
      if events[0].Incoming? {
        SessionBinding(s, events[0].data);
      }
      SessionIdStable(next, events[1..], fileName, rtpPort);
    }
  }

  /** The CSeq counter never goes below zero: it is lowered only when positive. */
  lemma {:induction false} RtspSeqNonNegative(s: Session, events: seq<Event>, fileName: string, rtpPort: int)
    requires s.rtspSeq >= 0
    ensures Run(s, events, fileName, rtpPort).rtspSeq >= 0
    decreases |events|
  {
    if events != [] {
      var next := Step(s, events[0], fileName, rtpPort);
      if events[0].Incoming? {
        ReplyKeepsRequestFields(s, events[0].data);
      }
      RtspSeqNonNegative(next, events[1..], fileName, rtpPort);
    }
  }

  /** A whole session with a server that answers every request with 200: SETUP binds the
      session id and opens the RTP port, PLAY starts playing, PAUSE sets the play event and
      goes back to READY, TEARDOWN returns to INIT with the acknowledgement recorded; the
      CSeq counter ends at 4. */
  lemma FullSession(fileName: string, rtpPort: int, session: int)
    requires session != 0
    ensures var s1 := OnReply(OnRequest(INITIAL, Setup, fileName, rtpPort).0, ReplyText(200, "OK", 1, session));
      var s2 := OnReply(OnRequest(s1, Play, fileName, rtpPort).0, ReplyText(200, "OK", 2, session));
      var s3 := OnReply(OnRequest(s2, Pause, fileName, rtpPort).0, ReplyText(200, "OK", 3, session));
      var s4 := OnReply(OnRequest(s3, Teardown, fileName, rtpPort).0, ReplyText(200, "OK", 4, session));
      && s1.state == Ready && s1.sessionId == session && s1.rtpOpen
      && s2.state == Playing && !s2.playEvent
      && s3.state == Ready && s3.playEvent
      && s4.state == Init && s4.teardownAcked && s4.rtspSeq == 4 && s4.sessionId == session
  {
    var t0 := OnRequest(INITIAL, Setup, fileName, rtpPort).0;
    assert t0 == INITIAL.(rtspSeq := 1, requestSent := Some(Setup));
    ReplyStep(t0, 1, session);
    var s1 := t0.(state := Ready, sessionId := session, rtpOpen := true);
    var t1 := OnRequest(s1, Play, fileName, rtpPort).0;
    assert t1 == s1.(rtspSeq := 2, requestSent := Some(Play));
    ReplyStep(t1, 2, session);
    var s2 := t1.(state := Playing);
    var t2 := OnRequest(s2, Pause, fileName, rtpPort).0;
    assert t2 == s2.(rtspSeq := 3, requestSent := Some(Pause));
    ReplyStep(t2, 3, session);
    var s3 := t2.(state := Ready, playEvent := true);
    var t3 := OnRequest(s3, Teardown, fileName, rtpPort).0;
    assert t3 == s3.(rtspSeq := 4, requestSent := Some(Teardown));
    ReplyStep(t3, 4, session);
  }

  /** A 200 reply with the current CSeq and the session, to a session bound to it or not yet
      bound, applies the transition of the last request. */
  lemma ReplyStep(s: Session, cseq: int, session: int)
    requires session != 0 && s.rtspSeq == cseq && s.requestSent.Some?
    requires s.sessionId == 0 || s.sessionId == session
    ensures var s' := OnReply(s, ReplyText(200, "OK", cseq, session));
      && s'.sessionId == session && s'.state == Target(s.requestSent, s.state)
      && s'.rtpOpen == (s.rtpOpen || s.requestSent == Some(Setup))
      && s'.playEvent == (s.playEvent || s.requestSent == Some(Pause))
      && s'.teardownAcked == (s.teardownAcked || s.requestSent == Some(Teardown))
      && s'.rtspSeq == s.rtspSeq && s'.requestSent == s.requestSent
  {
    var text := ReplyText(200, "OK", cseq, session);
    ParseReplyText(200, "OK", cseq, session);
    assert ParseReply(text) == Some(Reply(200, cseq, session));
    var s1 := s.(sessionId := session);
    match s.requestSent {
      case Some(Setup) => assert OnReply(s, text) == s1.(state := Ready, rtpOpen := true);
      case Some(Play) => assert OnReply(s, text) == s1.(state := Playing);
      case Some(Pause) => assert OnReply(s, text) == s1.(state := Ready, playEvent := true);
      case Some(Teardown) => assert OnReply(s, text) == s1.(state := Init, teardownAcked := true);
    }
  }
}
