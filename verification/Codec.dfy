/**
 The wire format: frames, SYN payloads, and the server's way of reading a tunnel as a byte stream.
 The address part of a SYN payload has the form of section 5 of RFC 1928.
 */
module Codec {
  import opened Basics

  const HEADER_SIZE: nat := 11
  const MAX_PAYLOAD: nat := 8192
  const SOCKS_VERSION: byte := 0x05

  const FLAG_SYN: byte := 0x01
  const FLAG_FIN: byte := 0x02
  const FLAG_RST: byte := 0x04
  const FLAG_ACK: byte := 0x08
  const FLAG_REVERSE: byte := 0x10
  const FLAG_DATA: byte := 0x00

  datatype Frame = Frame(connId: u32, num: u32, flags: byte, payload: Bytes)

  predicate IsSyn(flags: byte) { flags % 2 == 1 }
  predicate IsFin(flags: byte) { flags / 2 % 2 == 1 }
  predicate IsRst(flags: byte) { flags / 4 % 2 == 1 }
  predicate IsAck(flags: byte) { flags / 8 % 2 == 1 }

  function Bit(b: bool, weight: byte): byte {
    if b then weight else 0
  }

  /** The predicates read the bits that the flag constants set, in every combination. */
  lemma {:induction false} FlagsAreBits(syn: bool, fin: bool, rst: bool, ack: bool, reverse: bool)
    ensures var flags := Bit(syn, FLAG_SYN) as int + Bit(fin, FLAG_FIN) + Bit(rst, FLAG_RST) + Bit(ack, FLAG_ACK) + Bit(reverse, FLAG_REVERSE);
            && flags < 0x20
            && (IsSyn(flags) <==> syn) && (IsFin(flags) <==> fin) && (IsRst(flags) <==> rst) && (IsAck(flags) <==> ack)
    ensures IsSyn(0x01) && IsFin(0x02) && IsRst(0x04) && IsAck(0x08)
  {
  }

  /** The four control bits are the low ones. */
  lemma {:induction false} NoControlBits(flags: byte)
    ensures !IsSyn(flags) && !IsFin(flags) && !IsRst(flags) && !IsAck(flags) <==> flags % 16 == 0
  {
    var q, r := flags / 16, flags % 16;
    assert flags == 16 * q + r;
    assert flags % 2 == r % 2;
    assert flags / 2 == 8 * q + r / 2 && flags / 2 % 2 == r / 2 % 2;
    assert flags / 4 == 4 * q + r / 4 && flags / 4 % 2 == r / 4 % 2;
    assert flags / 8 == 2 * q + r / 8 && flags / 8 % 2 == r / 8 % 2;
  }

  predicate Encodable(f: Frame) {
    |f.payload| <= MAX_PAYLOAD
  }

  // ------------------------------------------------------------------ big-endian numbers

  function PutU32(x: u32): Bytes {
    [x / 0x100_0000, x / 0x1_0000 % 0x100, x / 0x100 % 0x100, x % 0x100]
  }

  function GetU32(b: Bytes): u32
    requires |b| == 4
  {
    ((b[0] as int * 0x100 + b[1]) * 0x100 + b[2]) * 0x100 + b[3]
  }

  function PutU16(x: nat): Bytes
    requires x < 0x1_0000
  {
    [x / 0x100, x % 0x100]
  }

  function GetU16(b: Bytes): nat
    requires |b| == 2
  {
    b[0] as int * 0x100 + b[1]
  }

  lemma {:induction false} U32RoundTrip(x: u32)
    ensures GetU32(PutU32(x)) == x
  {
  }

  // ------------------------------------------------------------------ frames

  function Header(f: Frame): (h: Bytes)
    requires Encodable(f)
    ensures |h| == HEADER_SIZE
  {
    PutU32(f.connId) + PutU32(f.num) + [f.flags] + PutU16(|f.payload|)
  }

  function Encode(f: Frame): (b: Bytes)
    requires Encodable(f)
    ensures |b| == HEADER_SIZE + |f.payload|
  {
    Header(f) + f.payload
  }

  /** Why reading stopped: a clean end between frames, an end inside a frame, or a length above the limit. */
  datatype Stop = Eof | Truncated | TooLarge

  datatype ReadResult = Got(frame: Frame, used: nat) | Stopped(why: Stop)

  function PayloadLength(h: Bytes): nat
    requires |h| == HEADER_SIZE
  {
    GetU16(h[9..11])
  }

  function FrameOf(h: Bytes, payload: Bytes): Frame
    requires |h| == HEADER_SIZE
  {
    Frame(GetU32(h[0..4]), GetU32(h[4..8]), h[8], payload)
  }

  /** Read one frame from the front of the bytes still to come. */
  function ReadFrame(b: Bytes): (r: ReadResult)
    ensures r.Got? ==> HEADER_SIZE <= r.used <= |b|
  {
    if b == [] then Stopped(Eof)
    else if |b| < HEADER_SIZE then Stopped(Truncated)
    else
      var len := PayloadLength(b[..HEADER_SIZE]);
      if len > MAX_PAYLOAD then Stopped(TooLarge)
      else if |b| < HEADER_SIZE + len then Stopped(Truncated)
      else Got(FrameOf(b[..HEADER_SIZE], b[HEADER_SIZE..HEADER_SIZE + len]), HEADER_SIZE + len)
  }

  /** The header of an encoded frame gives back every field, including the payload length. */
  lemma {:induction false} HeaderRoundTrip(f: Frame)
    requires Encodable(f)
    ensures PayloadLength(Header(f)) == |f.payload|
    ensures FrameOf(Header(f), f.payload) == f
  {
    var h := Header(f);
    assert h[0..4] == PutU32(f.connId);
    assert h[4..8] == PutU32(f.num);
    assert h[9..11] == PutU16(|f.payload|);
    U32RoundTrip(f.connId);
    U32RoundTrip(f.num);
  }

  lemma {:induction false} ReadBack(f: Frame, rest: Bytes)
    requires Encodable(f)
    ensures ReadFrame(Encode(f) + rest) == Got(f, |Encode(f)|)
  {
    var b := Encode(f) + rest;
    assert b[..HEADER_SIZE] == Header(f);
    assert b[HEADER_SIZE..HEADER_SIZE + |f.payload|] == f.payload;
    HeaderRoundTrip(f);
  }

  /** A proper prefix of an encoded frame is not a frame. */
  lemma {:induction false} PrefixStops(f: Frame, n: nat)
    requires Encodable(f) && n < |Encode(f)|
    ensures ReadFrame(Encode(f)[..n]) == Stopped(if n == 0 then Eof else Truncated)
  {
    var b := Encode(f)[..n];
    if n >= HEADER_SIZE {
      assert b[..HEADER_SIZE] == Header(f);
      HeaderRoundTrip(f);
    }
  }

  /** Four bytes, the most significant first. */
  function BigEndian(b: Bytes, at: nat): int
    requires at + 4 <= |b|
  {
    b[at] as int * 0x100_0000 + b[at + 1] as int * 0x1_0000 + b[at + 2] as int * 0x100 + b[at + 3]
  }

  /** A 16-bit number, the more significant byte first. */
  function LengthField(b: Bytes): int
    requires |b| >= 11
  {
    b[9] as int * 0x100 + b[10]
  }

  /** What is on the wire, byte by byte: ConnID, sequence number, flags, payload length, payload. */
  lemma {:induction false} WireLayout(f: Frame)
    requires Encodable(f)
    ensures var b := Encode(f);
            && |b| == 11 + |f.payload|
            && BigEndian(b, 0) == f.connId && BigEndian(b, 4) == f.num && b[8] == f.flags
            && LengthField(b) == |f.payload| && b[11..] == f.payload
  {
    U32Digits(f.connId);
    U32Digits(f.num);
    var b := Encode(f);
    assert b[..4] == PutU32(f.connId) && b[4..8] == PutU32(f.num);
  }

  lemma {:induction false} U32Digits(x: u32)
    ensures BigEndian(PutU32(x), 0) == x
  {
    U32RoundTrip(x);
  }

  lemma {:induction false} U32Back(b: Bytes)
    requires |b| == 4
    ensures PutU32(GetU32(b)) == b
  {
    var x := GetU32(b) as int;
    var y := (b[0] as int * 0x100 + b[1]) * 0x100 + b[2];
    var z := b[0] as int * 0x100 + b[1];
    assert x == y * 0x100 + b[3] && x / 0x100 == y && x % 0x100 == b[3];
    assert y == z * 0x100 + b[2] && y / 0x100 == z && y % 0x100 == b[2];
    assert z / 0x100 == b[0] && z % 0x100 == b[1];
    assert x / 0x1_0000 == z;
    assert x / 0x100_0000 == b[0];
  }

  lemma {:induction false} HeaderBack(b: Bytes)
    requires |b| >= HEADER_SIZE && LengthField(b) <= MAX_PAYLOAD && |b| >= HEADER_SIZE + LengthField(b)
    ensures var f := FrameOf(b[..HEADER_SIZE], b[HEADER_SIZE..HEADER_SIZE + LengthField(b)]);
            Encodable(f) && Encode(f) == b[..HEADER_SIZE + LengthField(b)]
  {
    var n := LengthField(b);
    var h := b[..HEADER_SIZE];
    var f := FrameOf(h, b[HEADER_SIZE..HEADER_SIZE + n]);
    U32Back(h[0..4]);
    U32Back(h[4..8]);
    assert PutU16(n) == h[9..11];
    assert h == h[0..4] + h[4..8] + [h[8]] + h[9..11];
    assert Header(f) == h;
    assert b[..HEADER_SIZE + n] == h + f.payload;
  }

  /**
   Exactly how reading ends, by the bytes that are there: cleanly if there are none, with a complaint about the size
   if a whole header announces more than 8192 bytes, with a frame if what is there starts with the encoding of one,
   namely that frame, and otherwise inside a frame.
   */
  lemma {:induction false} ReadsIff(b: Bytes)
    ensures ReadFrame(b) == Stopped(Eof) <==> b == []
    ensures ReadFrame(b) == Stopped(TooLarge) <==> |b| >= 11 && LengthField(b) > 8192
    ensures ReadFrame(b).Got? <==> exists f :: Encodable(f) && Encode(f) <= b
    ensures ReadFrame(b).Got? ==> Encodable(ReadFrame(b).frame) && Encode(ReadFrame(b).frame) == b[..ReadFrame(b).used]
  {
    if |b| >= 11 {
      assert PayloadLength(b[..HEADER_SIZE]) == LengthField(b);
    }
    if ReadFrame(b).Got? {
      HeaderBack(b);
      assert Encode(ReadFrame(b).frame) <= b;
    }
    if f :| Encodable(f) && Encode(f) <= b {
      ReadBack(f, b[|Encode(f)|..]);
      assert b == Encode(f) + b[|Encode(f)|..];
    }
  }

  // ------------------------------------------------------------------ a tunnel as a stream of frames

  datatype Parsed = Parsed(frames: seq<Frame>, why: Stop)

  /** The read loop: frames until the first error. */
  function ParseAll(b: Bytes): Parsed
    decreases |b|
  {
    match ReadFrame(b)
    case Stopped(why) => Parsed([], why)
    case Got(f, used) =>
      var p := ParseAll(b[used..]);
      Parsed([f] + p.frames, p.why)
  }

  /** What the server makes of an incoming connection. */
  datatype Incoming = Dropped | Passthrough | Framed(parsed: Parsed)

  /**
   The first byte decides the protocol; the first frame is then read with its own header code, which carries
   on reading frames even when that first header is unusable.
   */
  function Accept(b: Bytes): Incoming {
    if b == [] then Dropped
    else if b[0] == SOCKS_VERSION then Passthrough
    else if |b| < HEADER_SIZE then Framed(Parsed([], Truncated))
    else
      var len := PayloadLength(b[..HEADER_SIZE]);
      if len > MAX_PAYLOAD then Framed(ParseAll(b[HEADER_SIZE..]))
      else if |b| < HEADER_SIZE + len then Framed(Parsed([], Eof))
      else
        var first := FrameOf(b[..HEADER_SIZE], b[HEADER_SIZE..HEADER_SIZE + len]);
        var p := ParseAll(b[HEADER_SIZE + len..]);
        Framed(Parsed([first] + p.frames, p.why))
  }

  function EncodeAll(fs: seq<Frame>): Bytes
    requires forall f :: f in fs ==> Encodable(f)
  {
    if fs == [] then [] else Encode(fs[0]) + EncodeAll(fs[1..])
  }

  lemma {:induction false} ParseBack(fs: seq<Frame>, cut: Frame, n: nat)
    requires (forall f :: f in fs ==> Encodable(f)) && Encodable(cut) && n < |Encode(cut)|
    ensures ParseAll(EncodeAll(fs) + Encode(cut)[..n]) == Parsed(fs, if n == 0 then Eof else Truncated)
  {
    var tail := Encode(cut)[..n];
    if fs == [] {
      assert EncodeAll(fs) + tail == tail;
      PrefixStops(cut, n);
    } else {
      var rest := EncodeAll(fs[1..]) + tail;
      var b := EncodeAll(fs) + tail;
      assert b == Encode(fs[0]) + rest;
      ReadBack(fs[0], rest);
      assert b[|Encode(fs[0])|..] == rest;
      ParseBack(fs[1..], cut, n);
      assert fs == [fs[0]] + fs[1..];
    }
  }

  /** The top byte of a connection identifier, which is the first byte a frame puts on the wire. */
  function TopByte(connId: u32): byte {
    connId / 0x100_0000
  }

  lemma {:induction false} FirstFrame(f: Frame, rest: Bytes)
    requires Encodable(f)
    ensures Accept(Encode(f) + rest)
            == if TopByte(f.connId) == SOCKS_VERSION then Passthrough
               else Framed(Parsed([f] + ParseAll(rest).frames, ParseAll(rest).why))
  {
    var b := Encode(f) + rest;
    assert b[0] == TopByte(f.connId);
    assert b[..HEADER_SIZE] == Header(f);
    assert b[HEADER_SIZE..HEADER_SIZE + |f.payload|] == f.payload;
    assert b[HEADER_SIZE + |f.payload|..] == rest;
    HeaderRoundTrip(f);
  }

  /**
   Framed stream round trip.  For every non-empty list of frames within the size limit, followed by any
   proper prefix of another frame, the server reads exactly that list and then stops, if and only if the
   first connection identifier does not start with the SOCKS version byte; otherwise it reads no frame at all.
   */
  lemma {:induction false} StreamRoundTrip(fs: seq<Frame>, cut: Frame, n: nat)
    requires fs != [] && (forall f :: f in fs ==> Encodable(f)) && Encodable(cut) && n < |Encode(cut)|
    ensures Accept(EncodeAll(fs) + Encode(cut)[..n])
            == if TopByte(fs[0].connId) == SOCKS_VERSION then Passthrough
               else Framed(Parsed(fs, if n == 0 then Eof else Truncated))
  {
    var rest := EncodeAll(fs[1..]) + Encode(cut)[..n];
    assert EncodeAll(fs) + Encode(cut)[..n] == Encode(fs[0]) + rest;
    FirstFrame(fs[0], rest);
    ParseBack(fs[1..], cut, n);
    assert fs == [fs[0]] + fs[1..];
  }

  /**
   A first header that announces too much is skipped, its payload is not: the server carries on reading frames right
   after the header.
   */
  lemma {:induction false} OversizedFirstIsSkipped(h: Bytes, fs: seq<Frame>)
    requires |h| == HEADER_SIZE && h[0] != SOCKS_VERSION && LengthField(h) > 8192
    requires forall f :: f in fs ==> Encodable(f)
    ensures Accept(h + EncodeAll(fs)) == Framed(Parsed(fs, Eof))
  {
    var b, cut := h + EncodeAll(fs), Frame(0, 0, 0, []);
    assert b[..HEADER_SIZE] == h && b[HEADER_SIZE..] == EncodeAll(fs);
    assert PayloadLength(h) == LengthField(h);
    ParseBack(fs, cut, 0);
    assert EncodeAll(fs) + Encode(cut)[..0] == EncodeAll(fs);
  }

  /** A tunnel that ends inside its first frame yields no frame at all. */
  lemma {:induction false} CutFirstFrame(cut: Frame, n: nat)
    requires Encodable(cut) && n < |Encode(cut)|
    ensures Accept(Encode(cut)[..n])
            == if n == 0 then Dropped
               else if TopByte(cut.connId) == SOCKS_VERSION then Passthrough
               else Framed(Parsed([], if n < HEADER_SIZE then Truncated else Eof))
  {
    var b := Encode(cut)[..n];
    if n > 0 {
      assert b[0] == Encode(cut)[0] == TopByte(cut.connId);
    }
    if n >= HEADER_SIZE {
      assert b[..HEADER_SIZE] == Header(cut);
      HeaderRoundTrip(cut);
    }
  }

  // ------------------------------------------------------------------ target addresses

  datatype Target = Target(atyp: byte, addr: Bytes, port: Bytes)

  /** IPv4, a length-prefixed domain name, or IPv6, and a two-byte port. */
  predicate WellFormed(t: Target) {
    && |t.port| == 2
    && (|| (t.atyp == 0x01 && |t.addr| == 4)
        || (t.atyp == 0x03 && |t.addr| >= 1 && |t.addr| == 1 + t.addr[0] as int)
        || (t.atyp == 0x04 && |t.addr| == 16))
  }

  function EncodeSyn(t: Target): Bytes {
    [t.atyp] + t.addr + t.port
  }

  function DecodeSyn(p: Bytes): Option<Target> {
    if |p| < 4 then None
    else if p[0] != 0x01 && p[0] != 0x03 && p[0] != 0x04 then None
    else
      var addrLen: nat := if p[0] == 0x01 then 4 else if p[0] == 0x03 then 1 + p[1] as int else 16;
      if |p| < 1 + addrLen + 2 then None
      else Some(Target(p[0], p[1..1 + addrLen], p[1 + addrLen..1 + addrLen + 2]))
  }

  /** Decoding undoes encoding, ignoring whatever follows. */
  lemma {:induction false} SynRoundTrip(t: Target, junk: Bytes)
    requires WellFormed(t)
    ensures DecodeSyn(EncodeSyn(t) + junk) == Some(t)
  {
    var p := EncodeSyn(t) + junk;
    assert p[1..1 + |t.addr|] == t.addr;
    assert p[1 + |t.addr|..1 + |t.addr| + 2] == t.port;
    assert t.atyp == 0x03 ==> p[1] == t.addr[0];
  }

  /** A payload decodes exactly when it starts with the encoding of a well-formed target, namely the decoded one. */
  lemma {:induction false} DecodesIff(p: Bytes)
    ensures DecodeSyn(p).Some? <==> exists t :: WellFormed(t) && EncodeSyn(t) <= p
    ensures DecodeSyn(p).Some? ==> WellFormed(DecodeSyn(p).value) && EncodeSyn(DecodeSyn(p).value) <= p
  {
    if DecodeSyn(p).Some? {
      var t := DecodeSyn(p).value;
      assert EncodeSyn(t) == p[..|EncodeSyn(t)|];
      assert WellFormed(t) && EncodeSyn(t) <= p;
    }
    if t :| WellFormed(t) && EncodeSyn(t) <= p {
      SynRoundTrip(t, p[|EncodeSyn(t)|..]);
      assert EncodeSyn(t) + p[|EncodeSyn(t)|..] == p;
    }
  }

  /** The outcome of reading a CONNECT request: a target, or one of the ways to refuse it. */
  datatype Request = Accepted(target: Target, used: nat) | BadCommand | BadAddressType | Incomplete

  function TakePort(atyp: byte, addr: Bytes, req: Bytes, at: nat): Request
    requires at <= |req|
  {
    if |req| < at + 2 then Incomplete else Accepted(Target(atyp, addr, req[at..at + 2]), at + 2)
  }

  /** VER, CMD, RSV, ATYP, then the address and the port (section 4 of RFC 1928); VER and RSV are not looked at. */
  function Capture(req: Bytes): Request {
    if |req| < 4 then Incomplete
    else if req[1] != 0x01 then BadCommand
    else if req[3] == 0x01 then
      if |req| < 8 then Incomplete else TakePort(req[3], req[4..8], req, 8)
    else if req[3] == 0x03 then
      if |req| < 5 || |req| < 5 + req[4] as int then Incomplete
      else TakePort(req[3], [req[4]] + req[5..5 + req[4]], req, 5 + req[4] as int)
    else if req[3] == 0x04 then
      if |req| < 20 then Incomplete else TakePort(req[3], req[4..20], req, 20)
    else BadAddressType
  }

  /** An address type of section 5 of RFC 1928. */
  predicate KnownType(atyp: byte) {
    atyp == 0x01 || atyp == 0x03 || atyp == 0x04
  }

  /**
   Exactly how a request is answered, by its bytes: any command but CONNECT and any unknown address type is refused,
   and one is accepted if and only if a well-formed target follows the first three bytes, namely the captured one.
   */
  lemma {:induction false} CaptureIff(req: Bytes)
    ensures Capture(req) == BadCommand <==> |req| >= 4 && req[1] != 0x01
    ensures Capture(req) == BadAddressType <==> |req| >= 4 && req[1] == 0x01 && !KnownType(req[3])
    ensures Capture(req).Accepted?
            <==> |req| >= 4 && req[1] == 0x01 && exists t :: WellFormed(t) && EncodeSyn(t) <= req[3..]
  {
    if Capture(req).Accepted? {
      CaptureIsWellFormed(req);
      assert EncodeSyn(Capture(req).target) <= req[3..];
    }
    if |req| >= 4 && req[1] == 0x01 {
      if t :| WellFormed(t) && EncodeSyn(t) <= req[3..] {
        TargetIsCaptured(req, t);
      }
    }
  }

  lemma {:induction false} TargetIsCaptured(req: Bytes, t: Target)
    requires |req| >= 4 && req[1] == 0x01 && WellFormed(t) && EncodeSyn(t) <= req[3..]
    ensures Capture(req).Accepted?
  {
    assert req[3] == EncodeSyn(t)[0] == t.atyp;
    if t.atyp == 0x03 {
      assert req[4] == EncodeSyn(t)[1] == t.addr[0];
    }
  }

  /** What the server writes to its SOCKS upstream: greeting and CONNECT request in one go. */
  function Handshake(t: Target): Bytes {
    [0x05, 0x01, 0x00] + [0x05, 0x01, 0x00, t.atyp] + t.addr + t.port
  }

  lemma {:induction false} CaptureIsWellFormed(req: Bytes)
    requires Capture(req).Accepted?
    ensures var r := Capture(req);
            WellFormed(r.target) && 3 <= r.used <= |req| && EncodeSyn(r.target) == req[3..r.used]
  {
    var r := Capture(req);
    assert EncodeSyn(r.target) == req[3..r.used];
  }

  /** Decodes to a target whose replay to the upstream is the greeting followed by `bytes`. */
  predicate Replays(payload: Bytes, bytes: Bytes) {
    DecodeSyn(payload).Some? && Handshake(DecodeSyn(payload).value) == [0x05, 0x01, 0x00, 0x05, 0x01, 0x00] + bytes
  }

  lemma {:induction false} SynArrives(t: Target, connId: u32, num: u32, fs: seq<Frame>)
    requires WellFormed(t) && TopByte(connId) != SOCKS_VERSION
    requires forall f :: f in fs ==> Encodable(f)
    ensures var syn := Frame(connId, num, FLAG_SYN, EncodeSyn(t));
            && Encodable(syn) && IsSyn(syn.flags)
            && Accept(EncodeAll([syn] + fs)) == Framed(Parsed([syn] + fs, Eof))
            && DecodeSyn(syn.payload) == Some(t) && Replays(syn.payload, EncodeSyn(t))
  {
    assert Handshake(t) == [0x05, 0x01, 0x00, 0x05, 0x01, 0x00] + EncodeSyn(t);
    var syn := Frame(connId, num, FLAG_SYN, EncodeSyn(t));
    SynRoundTrip(t, []);
    assert EncodeSyn(t) + [] == EncodeSyn(t);
    StreamRoundTrip([syn] + fs, syn, 0);
    assert EncodeAll([syn] + fs) + Encode(syn)[..0] == EncodeAll([syn] + fs);
  }

  /**
   The target address survives the whole path.  Whatever address is captured from a CONNECT request fits a
   SYN frame; sent over a fresh tunnel, whatever frames follow it, the server reads that frame first, decodes
   the same target, and replays the request's own ATYP, ADDR and PORT bytes to its upstream.
   */
  lemma {:induction false} TargetSurvives(req: Bytes, connId: u32, num: u32, fs: seq<Frame>)
    requires Capture(req).Accepted? && TopByte(connId) != SOCKS_VERSION
    requires forall f :: f in fs ==> Encodable(f)
    ensures 3 <= Capture(req).used <= |req|
    ensures var syn := Frame(connId, num, FLAG_SYN, EncodeSyn(Capture(req).target));
            && Encodable(syn) && IsSyn(syn.flags)
            && Accept(EncodeAll([syn] + fs)) == Framed(Parsed([syn] + fs, Eof))
            && DecodeSyn(syn.payload) == Some(Capture(req).target)
            && Replays(syn.payload, req[3..Capture(req).used])
  {
    CaptureIsWellFormed(req);
    SynArrives(Capture(req).target, connId, num, fs);
  }
}
