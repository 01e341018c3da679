# RTP/RTSP video streaming client, modelled in Dafny

The repository is a small video-on-demand client. It speaks RTSP/1.0 over TCP to a server
(SETUP, PLAY, PAUSE, TEARDOWN, each carrying a CSeq header). It receives the video as RTP
packets over UDP: a 12-byte fixed header (section 5.1 of RFC 3550) followed by one JPEG frame.
It shows each newly arrived frame. At teardown it prints the data rate it observed.

The model covers two files.

- `RtpPacket.py` is the packet object. Its `encode` writes the twelve header bytes in
  place. Its `decode` replaces the header with a new buffer. Its accessors read fields back.
  - Module `Rtp` holds the pure header layout (`EncodeHeader`, `DecodeFields` and the field
    readers) together with its round-trip lemmas.
  - Class `Rtp.RtpPacket` holds the object: `header` is an `array<byte>` and `payload` a
    sequence.
  - A new packet's header is the class-level `RtpPacket.header` buffer. Every packet that has
    not been decoded shares it, so the constructor takes that buffer as a parameter.
  - `HEADER_SIZE` is the constant 12.
- `Client.py` is the client object.
  - The state constants INIT/READY/PLAYING and SETUP/PLAY/PAUSE/TEARDOWN become the
    datatypes `Rtsp.State` and `Rtsp.Request`.
  - Module `Rtsp` states, as functions of the old control fields, what the following do:
    - the button guards (`Press`);
    - `sendRtspRequest` (`OnRequest`);
    - `parseRtspReply` (`ParseReply`, `OnReply`).
  - Module `MediaReceiver` states what one datagram does (`Receive`), what one pass of the
    `listenRtp` loop does (`Pass`) and what a run of the loop does (`Listen`). It also states
    the rate computed in `exitClient` (`DataRate`).
  - Class `VideoClient.Client` has the client's fields. Its methods update them step by step.
    Each method is proved to produce exactly the new state that those functions describe.
  - Module `Text` models the Python string operations the client relies on: `split`,
    `startswith`, `str(int)` and `int(str)`. It also defines `Join`, which the client never
    calls. `Join` is a proof device: the lemmas `JoinSplit` and `SplitJoin` use it to pin down
    what `Split` returns. Unlike Python's `join`, it needs at least one piece.

Integers are unbounded, as in Python. `(x >> k) & 0xFF` is written `(x / 2^k) % 256` with
Dafny's Euclidean division, which agrees with Python for negative `x` too.

Three behaviours of the code worth knowing:

- `decode` never rejects a short datagram. It keeps up to 12 bytes as the header. The client
  drops a datagram of 1 to 3 bytes only because `seqNum()` then raises an `IndexError`,
  which the loop's `except` catches. A datagram of 4 to 11 bytes is read with its
  sequence number and an empty payload.
- A refused request lowers a positive CSeq counter by one without having raised it. The
  counter does not go back to its value before the call. As a result, the next request reuses
  the CSeq of the previous one (`Rtsp.RefusedRequestReusesCSeq`).
- A `startTime` of 0 means "not started yet" (Client.py:131). The model's clock is any
  integer, so a first packet accepted at clock reading 0 does not start the clock: the next
  accepted packet does (`MediaReceiver.FirstPacketAtClockZeroNotTimed`). A real `time.time()`
  reading is never 0.

## Model

| member | source | states |
|---|---|---|
| Rtp.DecodeEncodeHeader | VideoStreamingSourceCode/RtpPacket.py:20-40 | Reading every field back from an encoded header gives the field, cut to its width: version 2 bits, padding and extension and marker 1 bit, CC 4 bits, PT 7 bits, sequence number mod 2^16, timestamp and SSRC mod 2^32. |
| Rtp.EncodeDecodeHeader | VideoStreamingSourceCode/RtpPacket.py:51-68 | Any 12 bytes are the encoding of the fields read from them, so the readers lose nothing. |
| Rtp.EncodeHeaderInjective | VideoStreamingSourceCode/RtpPacket.py:20-40 | Two field tuples give the same header if and only if they agree after truncation to the field widths. |
| Rtp.RtpPacket.constructor | VideoStreamingSourceCode/RtpPacket.py:6-9 | A new packet's header is the shared class-level buffer itself, not a copy. |
| Rtp.RtpPacket.Encode | VideoStreamingSourceCode/RtpPacket.py:11-43 | Writes into the same buffer the 12 bytes of the header layout for the given fields, and keeps the payload. Version, PT, sequence number (mod 2^16), timestamp and SSRC (mod 2^32) read back. |
| Rtp.RtpPacket.Decode | VideoStreamingSourceCode/RtpPacket.py:45-48 | The header becomes a new buffer holding the first min(12, n) bytes and the payload the rest. `getPacket` gives the datagram back exactly. Nothing is rejected. |
| Rtp.RtpPacket.Version | VideoStreamingSourceCode/RtpPacket.py:51-53 | The version read from byte 0 is in 0..3. |
| Rtp.RtpPacket.SeqNum | VideoStreamingSourceCode/RtpPacket.py:55-58 | The big-endian sequence number from bytes 2-3 is in 0..65535. |
| Rtp.RtpPacket.Timestamp | VideoStreamingSourceCode/RtpPacket.py:60-63 | The big-endian timestamp from bytes 4-7 is in 0..2^32-1. |
| Rtp.RtpPacket.PayloadType | VideoStreamingSourceCode/RtpPacket.py:65-68 | The payload type, the low 7 bits of byte 1, is in 0..127. |
| Rtp.SharedHeaderOverwritten | VideoStreamingSourceCode/RtpPacket.py:6 | Two packets made before any decode share one header. Encoding the second overwrites the first's sequence number. |
| Text.Split | VideoStreamingSourceCode/Client.py:258 | `split` always gives at least one piece, and no piece holds the separator. |
| Text.JoinSplit | VideoStreamingSourceCode/Client.py:258 | Joining the pieces of a split gives back the string. |
| Text.SplitJoin | VideoStreamingSourceCode/Client.py:258 | Splitting a join of separator-free pieces gives back the pieces. |
| Text.NatToString | VideoStreamingSourceCode/Client.py:187 | `str` of a natural number is a nonempty string of digits. |
| Text.IntToString | VideoStreamingSourceCode/Client.py:187 | `str` of an integer is nonempty and holds only digits and '-'. |
| Text.DigitsValueOfNatToString | VideoStreamingSourceCode/Client.py:187 | The digits `str` writes have the value of the number. |
| Text.ParseIntOfIntToString | VideoStreamingSourceCode/Client.py:264 | `int(str(n)) == n` for every integer n, negative ones included. |
| Text.ParseIntRejectsWord | VideoStreamingSourceCode/Client.py:261 | A word that does not start with a digit or sign, such as "RTSP/1.0" or "OK", raises in `int()`. |
| Text.ParseIntRejectsSeparatorBeforeNumber | VideoStreamingSourceCode/Client.py:264 | A number preceded by one of the separators 0x1c-0x1f does not parse, because `int()` does not skip them. |
| Rtsp.OnRequest | VideoStreamingSourceCode/Client.py:176-228 | A request is sent if and only if the state allows it: SETUP in INIT, PLAY in READY, PAUSE in PLAYING, TEARDOWN outside INIT. A sent request raises the CSeq by one and records itself as the last request. A refused one lowers a positive CSeq by one and sends nothing. The state, session id and flags never change. |
| Rtsp.Press | VideoStreamingSourceCode/Client.py:74-114 | The Setup, Play and Pause buttons send if and only if their request is allowed. Otherwise they change nothing. They never lower the CSeq, and Play clears the play event when it sends. The Teardown button is unguarded: it is `OnRequest(Teardown)`, and in INIT it lowers a positive CSeq. |
| Rtsp.RefusedRequestReusesCSeq | VideoStreamingSourceCode/Client.py:225-228 | After a sent request and a refused one, the next request carries the same CSeq as the first. |
| Rtsp.RequestTextReadsBack | VideoStreamingSourceCode/Client.py:186-188 | A request splits into exactly its three lines, and its CSeq header reads back as the counter. For a file name without spaces, the request line reads back as method, file name and "RTSP/1.0". |
| Rtsp.CSeqLineReadsBack | VideoStreamingSourceCode/Client.py:187 | The CSeq line holds no line break, and its second word parses back as the counter. |
| Rtsp.StatusLineReadsBack | VideoStreamingSourceCode/Client.py:261 | A status line "RTSP/1.0 code reason" is one line, does not start with "Session:", and its second word parses as the code. |
| Rtsp.SessionLineReadsBack | VideoStreamingSourceCode/Client.py:268-272 | A "Session: n" line starts with "Session:", and its second word parses back as n. |
| Rtsp.ParseReplyText | VideoStreamingSourceCode/Client.py:258-272 | A reply made of status line, CSeq line and Session line parses to exactly its status, CSeq and session. |
| Rtsp.StaleReplyIgnored | VideoStreamingSourceCode/Client.py:264-266 | A reply that does not parse, or whose CSeq is not the current counter, changes nothing. |
| Rtsp.ReplyKeepsRequestFields | VideoStreamingSourceCode/Client.py:256-296 | A reply never changes the CSeq counter or the record of the last request. |
| Rtsp.SessionBinding | VideoStreamingSourceCode/Client.py:268-277 | A bound session id never changes. An unbound one becomes the session of a current reply, or stays 0. |
| Rtsp.ReplyTransition | VideoStreamingSourceCode/Client.py:279-291 | An accepted reply moves the state to the last request's target and records a TEARDOWN acknowledgement. Any other reply, including 404 and 500, leaves state and acknowledgement alone. |
| Rtsp.ReplyStep | VideoStreamingSourceCode/Client.py:279-291 | A 200 reply to the current request, for the bound session or one not yet bound, applies that request's transition and its side flags. |
| Rtsp.FullSession | VideoStreamingSourceCode/Client.py:176-291 | SETUP, PLAY, PAUSE and TEARDOWN against a server answering 200 go READY, PLAYING, READY, INIT. They bind the session, open the RTP port, set the play event and record the teardown, and the CSeq ends at 4. |
| Rtsp.SessionIdStable | VideoStreamingSourceCode/Client.py:276-277 | Over any sequence of requests and replies, a bound session id stays the same. |
| Rtsp.RtspSeqNonNegative | VideoStreamingSourceCode/Client.py:226-227 | Over any sequence of requests and replies, the CSeq counter never goes below zero. |
| MediaReceiver.PassKeepsForwarded | VideoStreamingSourceCode/Client.py:118-143 | One pass of the loop keeps the forwarding invariant: frames increasing, above the start, ending at `frameNbr`, with the byte count exact and the start time kept. |
| MediaReceiver.ListenForwardsIncreasing | VideoStreamingSourceCode/Client.py:118-152 | Over any run of the loop, forwarded frames have strictly increasing sequence numbers above the starting `frameNbr`. `frameNbr` stays put while nothing is forwarded, and the last frame is the final `frameNbr`, the byte count grows by exactly the forwarded payloads, and a set start time is never moved. |
| MediaReceiver.ListenExtends | VideoStreamingSourceCode/Client.py:118-152 | Reading more arrivals only appends to the forwarded frames. |
| MediaReceiver.DataRate | VideoStreamingSourceCode/Client.py:84-86 | A rate exists if and only if the stop time is after the start time. It is non-negative, and rate × streaming time = payload bytes. |
| MediaReceiver.LateAndDuplicatePacketsDropped | VideoStreamingSourceCode/Client.py:128 | For arrivals 5, 3, 5, 7, 6, 9, exactly 5, 7 and 9 are forwarded, and `frameNbr` ends at 9. |
| MediaReceiver.ThroughputExample | VideoStreamingSourceCode/Client.py:131-135 | Payloads of 100, 200 and 300 bytes at times 1, 2 and 3 give 600 bytes over 2 seconds, or 300 bytes per second. |
| MediaReceiver.FirstPacketAtClockZeroNotTimed | VideoStreamingSourceCode/Client.py:131-135 | A start time of 0 means "not started": payloads of 100, 200 and 300 bytes at clocks 0, 1 and 2 count 600 bytes between clocks 1 and 2, a rate of 600 per second. |
| VideoClient.Client.constructor | VideoStreamingSourceCode/Client.py:24-42 | A new client is in INIT with CSeq 0, no session, no request sent, `frameNbr` 0, no bytes and no clock readings. |
| VideoClient.Client.SendRtspRequest | VideoStreamingSourceCode/Client.py:176-235 | The new control fields and the text sent are exactly `OnRequest` of the old fields. The receive-side fields are unchanged. |
| VideoClient.Client.WriteRequest | VideoStreamingSourceCode/Client.py:186-221 | The text the branches build line by line is the request text for the current CSeq and session. |
| VideoClient.Client.SetupMovie | VideoStreamingSourceCode/Client.py:74-77 | Exactly `Press(Setup)` on the control fields. |
| VideoClient.Client.PauseMovie | VideoStreamingSourceCode/Client.py:102-105 | Exactly `Press(Pause)` on the control fields. |
| VideoClient.Client.PlayMovie | VideoStreamingSourceCode/Client.py:107-114 | Exactly `Press(Play)` on the control fields: the play event is cleared, then PLAY is sent. |
| VideoClient.Client.ExitClient | VideoStreamingSourceCode/Client.py:79-93 | TEARDOWN as `OnRequest` whatever the state. The reported rate exists if and only if stop time > start time, and it satisfies rate × time = bytes. |
| VideoClient.Client.ParseRtspReply | VideoStreamingSourceCode/Client.py:256-296 | The new control fields are exactly `OnReply` of the old ones. The receive-side fields are unchanged. |
| VideoClient.Client.ReceiveDatagram | VideoStreamingSourceCode/Client.py:121-139 | For a datagram of 4 or more bytes, the new receive-side fields and the forwarded frame are `Receive` of the old ones. An empty datagram does nothing. A 1-3 byte datagram raises and changes nothing. |
| VideoClient.Client.ListenRtp | VideoStreamingSourceCode/Client.py:116-152 | The loop's outcome is exactly `Listen` over the arrivals it read. It reads to the end unless it broke. Breaking without the play event set means the teardown was acknowledged, and the RTP socket is then closed. Forwarded frames come in strictly increasing order above the old `frameNbr`, and the byte count is exact. |

## Left out

- The Tk window, the buttons as widgets, `updateMovie` and `writeFrame` are left out. Forwarding a frame to the display is the `Frame` the receive step returns.
- The cache image file and its removal in `exitClient` are left out. So are the `print` calls and their float formatting.
- Sockets are left out: `connectToServer`, `openRtpPort`, `recv`, `send`, `shutdown` and `close`. The model has these instead:
  - a sent request is the returned text;
  - a received reply or datagram is a parameter;
  - an open RTP port is the `rtpOpen` flag.

  A failed connect, a failed bind (the client stays in READY without a working socket) and a failed send (the error is only printed) are not modelled.
- `recv(1024)` and `recv(20480)` can cut a message. The model takes whole messages, so a reply split across two reads is not modelled.
- `recvRtspReply` is left out. It is the thread that loops over `recv` and calls `parseRtspReply`, which is modelled.
- Threads are left out: the RTP and RTSP listeners run beside the button handlers. The model runs each method on its own. During `ListenRtp` the play event and the teardown flag are fixed at their values at the start, so races between the threads are not captured.
- Clocks are left out. `time.time()` is a clock reading the caller gives with each datagram. The two readings the source takes for one packet are taken as equal, so `startTime` and `stopTime` are that one value. Times are integers, not floats.
- VideoClient.Client.ExitClient: the rate is an exact real quotient, not a float. Its formatting and its conversion to Mbps are not modelled.
- An exception raised by `updateMovie` on a payload that is not an image is not modelled. In the source it reaches the `except` branch after `frameNbr` has been updated.
- Text.ParseInt models `int()` on ASCII digits, an optional sign and the surrounding ASCII whitespace `int()` skips: space and `\t\n\v\f\r`. The separators 0x1c-0x1f are not skipped, so they make `int()` raise. Underscores between digits, non-ASCII digits and non-ASCII whitespace such as U+0085 and U+00A0 are not modelled.
- The UTF-8 decoding of a reply is not modelled: the reply is already a string of characters.
- `handler` (closing the window) is not modelled as a method of its own. It is `PauseMovie`, then either `ExitClient` or `PlayMovie` from READY, depending on the user's answer.
- Rtp.RtpPacket.Encode: the source takes the timestamp from `int(time())`. Here it is a parameter.
- Rtp.RtpPacket.Encode requires each field to fit its width. The source gives no guarantee for values that do not fit: it raises only when a byte it writes falls outside 0..255, and otherwise silently mixes bits into neighbouring fields. It also requires a 12-byte header. On a packet decoded from fewer than 12 bytes, the header is shorter and belongs to that packet alone. The source's `encode` writes the first bytes there and then raises `IndexError`, and that error path is not modelled.
- `GetPayload` and `GetPacket` are modelled as plain accessors. What `GetPacket` returns after a decode is stated by `Rtp.RtpPacket.Decode`.
- The reason phrase of a status line is not read, and neither are any headers after the Session line. The source ignores them too.
