/** Writing frames to and reading them from a tunnel, as the loops over buffers and readers that the codec describes. */
module Wire {
  import opened Basics
  import opened Codec

  /** The bytes a tunnel delivers before it ends, and how many of them have been read. */
  class Reader {
    const data: Bytes
    var pos: nat

    ghost predicate Valid()
      reads this
    {
      pos <= |data|
    }

    ghost function Left(): Bytes
      reads this
      requires Valid()
    {
      data[pos..]
    }

    constructor (data: Bytes)
      ensures Valid() && Left() == data
    {
      this.data, pos := data, 0;
    }

    /** Exactly `n` bytes, or everything that is left and the reason why it is not enough. */
    method ReadFull(n: nat) returns (b: Bytes, failed: Option<Stop>)
      requires Valid()
      modifies this
      ensures Valid()
      ensures if n <= |old(Left())| then failed == None && b == old(Left())[..n] && Left() == old(Left())[n..]
              else Left() == [] && failed == Some(if old(Left()) == [] then Eof else Truncated)
    {
      if pos + n <= |data| {
        b, failed := data[pos..pos + n], None;
        pos := pos + n;
      } else {
        b, failed := data[pos..], Some(if pos == |data| then Eof else Truncated);
        pos := |data|;
      }
    }
  }

  /** The bytes a tunnel has taken. */
  class Writer {
    var out: Bytes

    constructor ()
      ensures out == []
    {
      out := [];
    }
  }

  method PutUint32(buf: array<byte>, at: nat, x: u32)
    requires at + 4 <= buf.Length
    modifies buf
    ensures buf[at..at + 4] == PutU32(x)
    ensures forall i :: 0 <= i < buf.Length && !(at <= i < at + 4) ==> buf[i] == old(buf[i])
  {
    buf[at] := x / 0x100_0000;
    buf[at + 1] := x / 0x1_0000 % 0x100;
    buf[at + 2] := x / 0x100 % 0x100;
    buf[at + 3] := x % 0x100;
  }

  /** Build the whole frame in one buffer. */
  method Marshal(f: Frame) returns (buf: array<byte>)
    requires Encodable(f)
    ensures fresh(buf) && buf[..] == Encode(f)
  {
    var n := |f.payload|;
    buf := new byte[HEADER_SIZE + n];
    PutUint32(buf, 0, f.connId);
    PutUint32(buf, 4, f.num);
    buf[8] := f.flags;
    buf[9] := n / 0x100;
    buf[10] := n % 0x100;
    assert buf[..4] == PutU32(f.connId) && buf[4..8] == PutU32(f.num);
    for i := 0 to n
      invariant buf[..4] == PutU32(f.connId) && buf[4..8] == PutU32(f.num) && buf[8] == f.flags
      invariant buf[9] == n / 0x100 && buf[10] == n % 0x100
      invariant buf[HEADER_SIZE..HEADER_SIZE + i] == f.payload[..i]
    {
      buf[HEADER_SIZE + i] := f.payload[i];
    }
    assert buf[..HEADER_SIZE] == buf[..4] + buf[4..8] + [buf[8]] + [buf[9], buf[10]];
    assert buf[..] == buf[..HEADER_SIZE] + buf[HEADER_SIZE..];
  }

  /** An oversized frame is refused and leaves no trace on the wire; `works` says whether the socket takes the write. */
  method WriteFrame(w: Writer, f: Frame, works: bool) returns (ok: bool)
    modifies w
    ensures ok <==> Encodable(f) && works
    ensures w.out == old(w.out) + if ok then Encode(f) else []
  {
    if |f.payload| > MAX_PAYLOAD {
      return false;
    }
    var buf := Marshal(f);
    if works {
      w.out := w.out + buf[..];
    }
    return works;
  }

  datatype Reading = Frm(frame: Frame) | End(why: Stop)

  method ReadNext(r: Reader) returns (res: Reading)
    requires r.Valid()
    modifies r
    ensures r.Valid()
    ensures match ReadFrame(old(r.Left()))
            case Got(f, used) => res == Frm(f) && r.Left() == old(r.Left())[used..]
            case Stopped(why) => res == End(why)
  {
    var hdr, failed := r.ReadFull(HEADER_SIZE);
    if failed.Some? {
      return End(failed.value);
    }
    var len := GetU16(hdr[9..11]);
    if len > MAX_PAYLOAD {
      return End(TooLarge);
    }
    var payload: Bytes := [];
    if len > 0 {
      payload, failed := r.ReadFull(len);
      if failed.Some? {
        return End(Truncated);
      }
    }
    return Frm(FrameOf(hdr, payload));
  }

  /** The server's own reading of the first header and its payload; a bad one is skipped. */
  method ParseHeader(hdr: Bytes, r: Reader) returns (first: Option<Frame>)
    requires r.Valid() && |hdr| == HEADER_SIZE
    modifies r
    ensures r.Valid()
    ensures var len, left := PayloadLength(hdr), old(r.Left());
            if len > MAX_PAYLOAD then first == None && r.Left() == left
            else if |left| < len then first == None && r.Left() == []
            else first == Some(FrameOf(hdr, left[..len])) && r.Left() == left[len..]
  {
    var len := GetU16(hdr[9..11]);
    if len > MAX_PAYLOAD {
      return None;
    }
    var payload: Bytes := [];
    if len > 0 {
      var failed;
      payload, failed := r.ReadFull(len);
      if failed.Some? {
        return None;
      }
    }
    return Some(FrameOf(hdr, payload));
  }

  /** The identifiers of the frames a source carried. */
  function Served(frames: seq<Frame>): set<u32> {
    set f | f in frames :: f.connId
  }

  lemma {:induction false} ParseStep(b: Bytes, done: seq<Frame>)
    requires ReadFrame(b).Got?
    ensures var r := ReadFrame(b);
            done + ParseAll(b).frames == done + [r.frame] + ParseAll(b[r.used..]).frames && ParseAll(b).why == ParseAll(b[r.used..]).why
  {
  }

  /** The frame loop: read until the first error. */
  method ReadLoop(r: Reader, first: seq<Frame>) returns (parsed: Parsed, served: set<u32>)
    requires r.Valid()
    modifies r
    ensures r.Valid() && parsed == Parsed(first + ParseAll(old(r.Left())).frames, ParseAll(old(r.Left())).why)
    ensures served == Served(parsed.frames)
  {
    var frames := first;
    served := Served(first);
    ghost var all := Parsed(first + ParseAll(r.Left()).frames, ParseAll(r.Left()).why);
    while true
      invariant r.Valid() && served == Served(frames)
      invariant all == Parsed(frames + ParseAll(r.Left()).frames, ParseAll(r.Left()).why)
      decreases |r.Left()|
    {
      ghost var left := r.Left();
      if ReadFrame(left).Got? {
        ParseStep(left, frames);
      }
      var next := ReadNext(r);
      if next.End? {
        assert frames + [] == frames;
        return Parsed(frames, next.why), served;
      }
      frames := frames + [next.frame];
      served := served + {next.frame.connId};
    }
  }

  lemma {:induction false} AcceptFirst(b: Bytes)
    requires |b| >= HEADER_SIZE && b[0] != SOCKS_VERSION
    ensures var hdr, left := b[..HEADER_SIZE], b[HEADER_SIZE..];
            var len := PayloadLength(hdr);
            Accept(b) == Framed(
              if len > MAX_PAYLOAD then ParseAll(left)
              else if |left| < len then ParseAll([])
              else Parsed([FrameOf(hdr, left[..len])] + ParseAll(left[len..]).frames, ParseAll(left[len..]).why))
  {
    var len := PayloadLength(b[..HEADER_SIZE]);
    if len <= |b| - HEADER_SIZE {
      assert b[HEADER_SIZE..][..len] == b[HEADER_SIZE..HEADER_SIZE + len];
      assert b[HEADER_SIZE..][len..] == b[HEADER_SIZE + len..];
    }
  }

  /** Everything from the first byte to the end of the tunnel; the frames are dispatched in this order. */
  method HandleIncoming(r: Reader) returns (got: Incoming, served: set<u32>)
    requires r.Valid()
    modifies r
    ensures r.Valid() && got == Accept(old(r.Left()))
    ensures got.Framed? ==> served == Served(got.parsed.frames)
  {
    ghost var b := r.Left();
    var first, failed := r.ReadFull(1);
    if failed.Some? {
      return Dropped, {};
    }
    if first[0] == SOCKS_VERSION {
      return Passthrough, {};
    }
    var rest;
    rest, failed := r.ReadFull(HEADER_SIZE - 1);
    if failed.Some? {
      return Framed(Parsed([], Truncated)), {};
    }
    var hdr := first + rest;
    assert hdr == b[..HEADER_SIZE] && r.Left() == b[HEADER_SIZE..];
    AcceptFirst(b);
    var frame := ParseHeader(hdr, r);
    var parsed;
    parsed, served := ReadLoop(r, if frame.Some? then [frame.value] else []);
    got := Framed(parsed);
  }

  // ------------------------------------------------------------------ the client's CONNECT request

  /** Fill `buf[from..from + n]`. */
  method ReadInto(r: Reader, buf: array<byte>, from: nat, n: nat) returns (failed: bool)
    requires r.Valid() && from + n <= buf.Length
    modifies r, buf
    ensures r.Valid() && (failed <==> |old(r.Left())| < n)
    ensures !failed ==> buf[..] == old(buf[..from]) + old(r.Left())[..n] + old(buf[from + n..]) && r.Left() == old(r.Left())[n..]
  {
    var b, short := r.ReadFull(n);
    if short.Some? {
      return true;
    }
    for i := 0 to n
      invariant r.Valid() && r.Left() == old(r.Left())[n..]
      invariant buf[from..from + i] == b[..i]
      invariant forall j :: 0 <= j < buf.Length && !(from <= j < from + i) ==> buf[j] == old(buf[j])
    {
      buf[from + i] := b[i];
    }
    assert buf[..from] == old(buf[..from]) && buf[from + n..] == old(buf[from + n..]);
    assert buf[..] == buf[..from] + buf[from..from + n] + buf[from + n..];
    return false;
  }

  /** How long the domain name at the front of `left` is, its length byte included. */
  function DomainLength(left: Bytes): nat
    requires left != []
  {
    1 + left[0] as int
  }

  /** A domain name goes through the scratch buffer for its length byte. */
  method CaptureDomain(r: Reader, buf: array<byte>) returns (addr: Bytes, failed: bool)
    requires r.Valid() && buf.Length == 258
    modifies r, buf
    ensures r.Valid() && (failed <==> old(r.Left()) == [] || |old(r.Left())| < DomainLength(old(r.Left())))
    ensures !failed ==> var n := DomainLength(old(r.Left())); addr == old(r.Left())[..n] && r.Left() == old(r.Left())[n..]
  {
    ghost var left := r.Left();
    failed := ReadInto(r, buf, 0, 1);
    if failed {
      return [], true;
    }
    assert buf[0] == left[0];
    var bytes := new byte[1 + buf[0] as int];
    bytes[0] := buf[0];
    failed := ReadInto(r, bytes, 1, buf[0]);
    addr := bytes[..];
    assert !failed ==> addr == [left[0]] + left[1..][..left[0]];
  }

  method CaptureFixed(r: Reader, n: nat) returns (addr: Bytes, failed: bool)
    requires r.Valid()
    modifies r
    ensures r.Valid() && (failed <==> |old(r.Left())| < n)
    ensures !failed ==> addr == old(r.Left())[..n] && r.Left() == old(r.Left())[n..]
  {
    var bytes := new byte[n];
    failed := ReadInto(r, bytes, 0, n);
    addr := bytes[..];
  }

  /** Read one CONNECT request.  `buf` is scratch space that earlier steps have used and this one uses twice. */
  method CaptureRequest(r: Reader, buf: array<byte>) returns (req: Request)
    requires r.Valid() && buf.Length == 258
    modifies r, buf
    ensures r.Valid() && req == Capture(old(r.Left()))
    ensures req.Accepted? ==> r.Left() == old(r.Left())[req.used..]
  {
    ghost var all := r.Left();
    var failed := ReadInto(r, buf, 0, 4);
    if failed {
      return Incomplete;
    }
    assert buf[1] == all[1] && buf[3] == all[3];
    if buf[1] != 0x01 {
      return BadCommand;
    }
    var atyp := buf[3];
    var addr, port;
    if atyp == 0x01 {
      addr, failed := CaptureFixed(r, 4);
    } else if atyp == 0x03 {
      addr, failed := CaptureDomain(r, buf);
    } else if atyp == 0x04 {
      addr, failed := CaptureFixed(r, 16);
    } else {
      return BadAddressType;
    }
    if failed {
      return Incomplete;
    }
    ghost var at := 4 + |addr|;
    assert addr == all[4..at] && r.Left() == all[at..];
    port, failed := CaptureFixed(r, 2);
    if failed {
      return Incomplete;
    }
    assert port == all[at..at + 2];
    CaptureIs(all, at);
    return Accepted(Target(atyp, addr, port), 4 + |addr| + 2);
  }

  lemma {:induction false} CaptureIs(req: Bytes, at: nat)
    requires |req| >= at + 2 && at >= 5 && req[1] == 0x01
    requires (req[3] == 0x01 && at == 8) || (req[3] == 0x03 && at == 5 + req[4] as int) || (req[3] == 0x04 && at == 20)
    ensures Capture(req) == Accepted(Target(req[3], req[4..at], req[at..at + 2]), at + 2)
  {
    assert req[3] == 0x03 ==> [req[4]] + req[5..at] == req[4..at];
  }
}
