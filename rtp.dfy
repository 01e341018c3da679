/** The RTP packet of the video client: the 12-byte fixed header of section 5.1 of RFC 3550
    followed by the payload.

      byte 0      V (2 bits) | P (1) | X (1) | CC (4)
      byte 1      M (1) | PT (7)
      bytes 2-3   sequence number, big-endian
      bytes 4-7   timestamp, big-endian
      bytes 8-11  SSRC, big-endian

    Integers are unbounded, as in Python. `(x >> k) & 0xFF` on a Python integer, negative ones
    included, is `(x / 2^k) % 256` with Dafny's Euclidean division, and `a << k | b` on fields
    whose bits do not overlap is `a * 2^k + b`; the model writes the shifts and masks that way. */
module Rtp {

  /** An element of a Python `bytes` or `bytearray`. */
  type byte = b: int | 0 <= b < 0x100

  const HEADER_SIZE: nat := 12

  function Min(a: int, b: int): int {
    if a <= b then a else b
  }

  // ---------------------------------------------------------------- header fields

  /** `header[0] >> 6` */
  function VersionOf(h: seq<byte>): int
    requires |h| >= 1
  {
    h[0] / 64
  }

  /** `header[1] & 127` */
  function PayloadTypeOf(h: seq<byte>): int
    requires |h| >= 2
  {
    h[1] % 128
  }

  /** `header[2] << 8 | header[3]` */
  function SeqNumOf(h: seq<byte>): int
    requires |h| >= 4
  {
    (h[2] as int) * 0x100 + h[3]
  }

  /** The big-endian 32-bit word at bytes i..i+3. */
  function Word32(h: seq<byte>, i: nat): int
    requires i + 4 <= |h|
  {
    (h[i] as int) * 0x100_0000 + (h[i + 1] as int) * 0x1_0000 + (h[i + 2] as int) * 0x100 + h[i + 3]
  }

  /** `header[4] << 24 | header[5] << 16 | header[6] << 8 | header[7]` */
  function TimestampOf(h: seq<byte>): int
    requires |h| >= 8
  {
    Word32(h, 4)
  }

  /** The arguments of `RtpPacket.encode` (the timestamp is supplied by the caller). */
  datatype Fields = Fields(
    version: int, padding: int, extension: int, cc: int, seqnum: int,
    marker: int, pt: int, ssrc: int, timestamp: int)
  {
    /** Every bit-field fits its width, so the first two header bytes are in 0..255. */
    predicate Fits() {
      && 0 <= version < 4 && 0 <= padding < 2 && 0 <= extension < 2 && 0 <= cc < 16
      && 0 <= marker < 2 && 0 <= pt < 128
    }

    /** The values the header can carry: the numeric fields cut to 16 and 32 bits. */
    function Truncated(): Fields {
      this.(seqnum := seqnum % 0x1_0000, ssrc := ssrc % 0x1_0000_0000,
            timestamp := timestamp % 0x1_0000_0000)
    }
  }

  /** The twelve bytes `encode` writes into the header. */
  function EncodeHeader(f: Fields): (h: seq<byte>)
    requires f.Fits()
  {
    [ f.version * 64 + f.padding * 32 + f.extension * 16 + f.cc,
      f.marker * 128 + f.pt,
      (f.seqnum / 0x100) % 0x100, f.seqnum % 0x100,
      (f.timestamp / 0x100_0000) % 0x100, (f.timestamp / 0x1_0000) % 0x100,
      (f.timestamp / 0x100) % 0x100, f.timestamp % 0x100,
      (f.ssrc / 0x100_0000) % 0x100, (f.ssrc / 0x1_0000) % 0x100,
      (f.ssrc / 0x100) % 0x100, f.ssrc % 0x100 ]
  }

  /** Every field read back from a header: the four readers the packet class has, and the
      padding, extension, CSRC count, marker and SSRC under the same layout. */
  function DecodeFields(h: seq<byte>): Fields
    requires |h| >= HEADER_SIZE
  {
    Fields(VersionOf(h), (h[0] / 32) % 2, (h[0] / 16) % 2, h[0] % 16, SeqNumOf(h),
           h[1] / 128, PayloadTypeOf(h), Word32(h, 8), TimestampOf(h))
  }

  // ---------------------------------------------------------------- arithmetic

  /** Quotient and remainder are determined by any decomposition with a remainder in range. */
  lemma DivModUnique(x: int, d: int, q: int, r: int)
    requires d > 0 && x == q * d + r && 0 <= r < d
    ensures x / d == q && x % d == r
  {
    var q', r' := x / d, x % d;
    assert d * (q' - q) == r - r';
    if q' != q {
      MulAtLeast(d, if q' > q then q' - q else q - q');
      assert false;
    }
  }

  lemma MulAtLeast(d: int, k: int)
    requires d > 0 && k >= 1
    ensures d * k >= d
  {
  }

  /** The two bytes `encode` writes for a 16-bit field are those of `x mod 2^16`. */
  lemma Bytes16(x: int)
    ensures ((x / 0x100) % 0x100) * 0x100 + x % 0x100 == x % 0x1_0000
  {
    var q1 := x / 0x100;
    var q2 := q1 / 0x100;
    assert x == q2 * 0x1_0000 + ((q1 % 0x100) * 0x100 + x % 0x100);
    DivModUnique(x, 0x1_0000, q2, (q1 % 0x100) * 0x100 + x % 0x100);
  }

  /** The four bytes `encode` writes for a 32-bit field are those of `x mod 2^32`. */
  lemma Bytes32(x: int)
    ensures (x / 0x100_0000) % 0x100 * 0x100_0000 + (x / 0x1_0000) % 0x100 * 0x1_0000
            + (x / 0x100) % 0x100 * 0x100 + x % 0x100 == x % 0x1_0000_0000
  {
    var q1 := x / 0x100;
    var q2 := q1 / 0x100;
    var q3 := q2 / 0x100;
    var q4 := q3 / 0x100;
    assert x == q2 * 0x1_0000 + ((q1 % 0x100) * 0x100 + x % 0x100);
    DivModUnique(x, 0x1_0000, q2, (q1 % 0x100) * 0x100 + x % 0x100);
    assert x == q3 * 0x100_0000 + ((q2 % 0x100) * 0x1_0000 + (q1 % 0x100) * 0x100 + x % 0x100);
    DivModUnique(x, 0x100_0000, q3, (q2 % 0x100) * 0x1_0000 + (q1 % 0x100) * 0x100 + x % 0x100);
    var low := (q3 % 0x100) * 0x100_0000 + (q2 % 0x100) * 0x1_0000 + (q1 % 0x100) * 0x100 + x % 0x100;
    assert x == q4 * 0x1_0000_0000 + low;
    DivModUnique(x, 0x1_0000_0000, q4, low);
  }

  /** Reading the 16-bit value back and cutting it into bytes again gives the same bytes. */
  lemma SplitWord16(hi: byte, lo: byte)
    ensures ((hi * 0x100 + lo) / 0x100) % 0x100 == hi && (hi * 0x100 + lo) % 0x100 == lo
  {
    DivModUnique(hi * 0x100 + lo, 0x100, hi, lo);
  }

  /** Reading the 32-bit value back and cutting it into bytes again gives the same bytes. */
  lemma SplitWord32(b0: byte, b1: byte, b2: byte, b3: byte)
    ensures var w := b0 * 0x100_0000 + b1 * 0x1_0000 + b2 * 0x100 + b3;
      && (w / 0x100_0000) % 0x100 == b0 && (w / 0x1_0000) % 0x100 == b1
      && (w / 0x100) % 0x100 == b2 && w % 0x100 == b3
  {
    var w := b0 * 0x100_0000 + b1 * 0x1_0000 + b2 * 0x100 + b3;
    DivModUnique(w, 0x100_0000, b0, b1 * 0x1_0000 + b2 * 0x100 + b3);
    DivModUnique(w, 0x1_0000, b0 * 0x100 + b1, b2 * 0x100 + b3);
    DivModUnique(b0 * 0x100 + b1, 0x100, b0, b1);
    DivModUnique(w, 0x100, b0 * 0x1_0000 + b1 * 0x100 + b2, b3);
    DivModUnique(b0 * 0x1_0000 + b1 * 0x100 + b2, 0x100, b0 * 0x100 + b1, b2);
  }

  /** The first header byte splits back into version, padding, extension and CSRC count. */
  lemma SplitFirstByte(b: byte)
    ensures b == (b / 64) * 64 + ((b / 32) % 2) * 32 + ((b / 16) % 2) * 16 + b % 16
  {
    DivModUnique(b, 16, b / 16, b % 16);
    DivModUnique(b / 16, 2, b / 32, (b / 16) % 2);
    DivModUnique(b / 32, 2, b / 64, (b / 32) % 2);
  }

  // ---------------------------------------------------------------- round trips

  /** What `encode` writes, the readers give back: version and payload type as given, the
      sequence number modulo 2^16, timestamp and SSRC modulo 2^32, and the other bit-fields
      as given. */
  lemma {:induction false} DecodeEncodeHeader(f: Fields)
    requires f.Fits()
    ensures |EncodeHeader(f)| == HEADER_SIZE
    ensures DecodeFields(EncodeHeader(f)) == f.Truncated()
  {
    var h := EncodeHeader(f);
    var b0 := f.version * 64 + f.padding * 32 + f.extension * 16 + f.cc;
    DivModUnique(b0, 16, f.version * 4 + f.padding * 2 + f.extension, f.cc);
    DivModUnique(f.version * 4 + f.padding * 2 + f.extension, 2, f.version * 2 + f.padding, f.extension);
    DivModUnique(f.version * 2 + f.padding, 2, f.version, f.padding);
    DivModUnique(b0, 32, f.version * 2 + f.padding, f.extension * 16 + f.cc);
    DivModUnique(b0, 64, f.version, f.padding * 32 + f.extension * 16 + f.cc);
    DivModUnique(f.marker * 128 + f.pt, 128, f.marker, f.pt);
    Bytes16(f.seqnum);
    Bytes32(f.timestamp);
    Bytes32(f.ssrc);
  }

  /** Every 12-byte header is the encoding of the fields read from it, so no two different
      headers read back the same fields. */
  lemma {:induction false} EncodeDecodeHeader(h: seq<byte>)
    requires |h| == HEADER_SIZE
    ensures DecodeFields(h).Fits()
    ensures EncodeHeader(DecodeFields(h)) == h
  {
    var f := DecodeFields(h);
    SplitFirstByte(h[0]);
    DivModUnique(h[1], 128, h[1] / 128, h[1] % 128);
    SplitWord16(h[2], h[3]);
    SplitWord32(h[4], h[5], h[6], h[7]);
    SplitWord32(h[8], h[9], h[10], h[11]);
    assert EncodeHeader(f)[0] == h[0];
    assert EncodeHeader(f)[1] == h[1];
  }

  /** Two encodings are the same exactly when the fields agree up to the header's widths. */
  lemma EncodeHeaderInjective(f: Fields, g: Fields)
    requires f.Fits() && g.Fits()
    ensures EncodeHeader(f) == EncodeHeader(g) <==> f.Truncated() == g.Truncated()
  {
    DecodeEncodeHeader(f);
    DecodeEncodeHeader(g);
    if f.Truncated() == g.Truncated() {
      EncodeDecodeHeader(EncodeHeader(f));
      EncodeDecodeHeader(EncodeHeader(g));
    }
  }

  // ---------------------------------------------------------------- the packet object

  /** `RtpPacket`: a header buffer written in place by `encode` and replaced by `decode`,
      and a payload. The buffer a new packet starts with is the class attribute
      `RtpPacket.header`, one `bytearray(12)` shared by every packet that has not been
      decoded: `encode` on one such packet rewrites the header of all of them. */
  class RtpPacket {
    var header: array<byte>
    var payload: seq<byte>

    /** `RtpPacket()`, given the shared class-level buffer. The payload, unset in the source
        until `encode` or `decode`, starts empty. */
    constructor (shared: array<byte>)
      ensures header == shared && payload == []
    {
      header := shared;
      payload := [];
    }

    /** `encode`: write the twelve header bytes one by one and keep the payload. */
    method Encode(version: int, padding: int, extension: int, cc: int, seqnum: int,
                  marker: int, pt: int, ssrc: int, payload: seq<byte>, timestamp: int)
      requires header.Length == HEADER_SIZE
      requires Fields(version, padding, extension, cc, seqnum, marker, pt, ssrc, timestamp).Fits()
      modifies this, header
      ensures header == old(header)
      ensures header[..] == EncodeHeader(Fields(version, padding, extension, cc, seqnum,
                                                marker, pt, ssrc, timestamp))
      ensures this.payload == payload
      ensures Version() == version && PayloadType() == pt
      ensures SeqNum() == seqnum % 0x1_0000 && Timestamp() == timestamp % 0x1_0000_0000
      ensures Word32(header[..], 8) == ssrc % 0x1_0000_0000
      ensures GetPayload() == payload
    {
      header[0] := version * 64 + padding * 32 + extension * 16 + cc;
      header[1] := marker * 128 + pt;

      header[2] := (seqnum / 0x100) % 0x100;
      header[3] := seqnum % 0x100;

      header[4] := (timestamp / 0x100_0000) % 0x100;
      header[5] := (timestamp / 0x1_0000) % 0x100;
      header[6] := (timestamp / 0x100) % 0x100;
      header[7] := timestamp % 0x100;

      header[8] := (ssrc / 0x100_0000) % 0x100;
      header[9] := (ssrc / 0x1_0000) % 0x100;
      header[10] := (ssrc / 0x100) % 0x100;
      header[11] := ssrc % 0x100;

      this.payload := payload;

      var f := Fields(version, padding, extension, cc, seqnum, marker, pt, ssrc, timestamp);
      assert header[..] == EncodeHeader(f);
      DecodeEncodeHeader(f);
    }

    /** `decode`: the header becomes a new buffer holding the first (at most) twelve bytes of
        the stream and the payload the rest; nothing is rejected, however short the stream. */
    method Decode(byteStream: seq<byte>)
      modifies this
      ensures fresh(header)
      ensures header[..] == byteStream[..Min(HEADER_SIZE, |byteStream|)]
      ensures payload == byteStream[Min(HEADER_SIZE, |byteStream|)..]
      ensures GetPacket() == byteStream
    {
      var n := Min(HEADER_SIZE, |byteStream|);
      header := new byte[n](i requires 0 <= i < n => byteStream[i]);
      payload := byteStream[n..];
      assert header[..] == byteStream[..n];
    }

    /** `version()` */
    function Version(): (v: int)
      reads this, header
      requires header.Length >= 1
      ensures 0 <= v < 4
    {
      VersionOf(header[..])
    }

    /** `seqNum()` */
    function SeqNum(): (n: int)
      reads this, header
      requires header.Length >= 4
      ensures 0 <= n < 0x1_0000
    {
      SeqNumOf(header[..])
    }

    /** `timestamp()` */
    function Timestamp(): (t: int)
      reads this, header
      requires header.Length >= 8
      ensures 0 <= t < 0x1_0000_0000
    {
      TimestampOf(header[..])
    }

    /** `payloadType()` */
    function PayloadType(): (pt: int)
      reads this, header
      requires header.Length >= 2
      ensures 0 <= pt < 128
    {
      PayloadTypeOf(header[..])
    }

    /** `getPayload()` */
    function GetPayload(): seq<byte>
      reads this
    {
      payload
    }

    /** `getPacket()`: header followed by payload. */
    function GetPacket(): seq<byte>
      reads this, header
    {
      header[..] + payload
    }
  }

  /** Two packets made before either is decoded share one header: encoding the second
      overwrites the sequence number the first was encoded with, and both read back the
      second's. */
  method SharedHeaderOverwritten(shared: array<byte>) returns (first: int, second: int)
    requires shared.Length == HEADER_SIZE
    modifies shared
    ensures first == 2 && second == 2
  {
    var p := new RtpPacket(shared);
    var q := new RtpPacket(shared);
    p.Encode(2, 0, 0, 0, 1, 0, 26, 0, [], 0);
    q.Encode(2, 0, 0, 0, 2, 0, 26, 0, [], 0);
    first := p.SeqNum();
    second := q.SeqNum();
  }
}
