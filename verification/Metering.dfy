/**
 Byte accounting: the rate-limited writer, and what a whole relay charges to its user in the two modes.
 The token bucket is taken to grant any request of at most its burst.
 */
module Metering {
  import opened Basics
  import opened Users

  /** An output that accepts a prefix of what it is given and reports an error when that is not everything. */
  class Sink {
    var out: Bytes
    var requests: seq<nat>

    constructor ()
      ensures out == [] && requests == []
    {
      out, requests := [], [];
    }

    method Write(p: Bytes, accepts: nat) returns (n: nat, failed: bool)
      modifies this
      ensures n == (if accepts < |p| then accepts else |p|) && (failed <==> n < |p|)
      ensures out == old(out) + p[..n] && requests == old(requests) + [|p|]
    {
      n := if accepts < |p| then accepts else |p|;
      failed := n < |p|;
      out, requests := out + p[..n], requests + [|p|];
    }
  }

  /** No request since the first `from` of them was larger than a positive burst. */
  predicate WithinBurst(requests: seq<nat>, from: nat, burst: int) {
    burst > 0 ==> forall i :: from <= i < |requests| ==> requests[i] <= burst
  }

  class LimitedWriter {
    const sink: Sink
    const user: User
    const burst: int

    constructor (sink: Sink, user: User, burst: int)
      ensures this.sink == sink && this.user == user && this.burst == burst
    {
      this.sink, this.user, this.burst := sink, user, burst;
    }

    /**
     Writes in pieces of at most the burst.  The k-th piece is accepted up to `accepts(k)` bytes.  Exactly a
     prefix of the input comes out, of the returned length; exactly that many bytes are charged; it is
     everything unless an error is reported; and no request exceeds the burst.
     */
    method Write(p: Bytes, accepts: nat -> nat) returns (total: nat, failed: bool)
      modifies sink, user`usedBytes
      ensures total <= |p| && sink.out == old(sink.out) + p[..total]
      ensures user.usedBytes == old(user.usedBytes) + total
      ensures failed <==> total < |p|
      ensures failed ==> exists k: nat :: accepts(k) < |p|
      ensures |old(sink.requests)| <= |sink.requests| && WithinBurst(sink.requests, |old(sink.requests)|, burst)
    {
      total := 0;
      var rest := p;
      var calls: nat := 0;
      while rest != []
        invariant total <= |p| && rest == p[total..]
        invariant sink.out == old(sink.out) + p[..total]
        invariant user.usedBytes == old(user.usedBytes) + total
        invariant |old(sink.requests)| <= |sink.requests| && WithinBurst(sink.requests, |old(sink.requests)|, burst)
        decreases |rest|
      {
        var chunk := |rest|;
        if burst > 0 && chunk > burst {
          chunk := burst;
        }
        var n, err := sink.Write(rest[..chunk], accepts(calls));
        calls := calls + 1;
        assert rest[..chunk][..n] == p[total..total + n];
        assert p[..total] + p[total..total + n] == p[..total + n];
        total := total + n;
        if n > 0 {
          user.AddUsedBytes(n);
        }
        if err {
          return total, true;
        }
        rest := rest[n..];
      }
      return total, false;
    }
  }

  function Size(chunks: seq<Bytes>): nat {
    |Flatten(chunks)|
  }

  /** Copy without errors; a limited reader charges every chunk it reads. */
  method CopyIn(user: User, limited: bool, chunks: seq<Bytes>, sink: Sink) returns (n: nat)
    modifies user`usedBytes, sink
    ensures n == Size(chunks) && sink.out == old(sink.out) + Flatten(chunks)
    ensures user.usedBytes == old(user.usedBytes) + if limited then Size(chunks) else 0
  {
    n := 0;
    for i := 0 to |chunks|
      invariant n == Size(chunks[..i]) && sink.out == old(sink.out) + Flatten(chunks[..i])
      invariant user.usedBytes == old(user.usedBytes) + if limited then n else 0
    {
      FlattenSnoc(chunks[..i], chunks[i]);
      assert chunks[..i + 1] == chunks[..i] + [chunks[i]];
      if limited {
        user.AddUsedBytes(|chunks[i]|);
      }
      var m, failed := sink.Write(chunks[i], |chunks[i]|);
      n := n + m;
    }
    assert chunks[..|chunks|] == chunks;
  }

  /** Copy without errors; a limited writer charges every chunk it writes. */
  method CopyOut(user: User, limited: bool, burst: int, chunks: seq<Bytes>, sink: Sink) returns (n: nat)
    modifies user`usedBytes, sink
    ensures n == Size(chunks) && sink.out == old(sink.out) + Flatten(chunks)
    ensures user.usedBytes == old(user.usedBytes) + if limited then Size(chunks) else 0
  {
    n := 0;
    var writer := new LimitedWriter(sink, user, burst);
    for i := 0 to |chunks|
      invariant n == Size(chunks[..i]) && sink.out == old(sink.out) + Flatten(chunks[..i])
      invariant user.usedBytes == old(user.usedBytes) + if limited then n else 0
    {
      FlattenSnoc(chunks[..i], chunks[i]);
      assert chunks[..i + 1] == chunks[..i] + [chunks[i]];
      var m, failed;
      if limited {
        m, failed := writer.Write(chunks[i], _ => |chunks[i]|);
      } else {
        m, failed := sink.Write(chunks[i], |chunks[i]|);
      }
      n := n + m;
    }
    assert chunks[..|chunks|] == chunks;
  }

  /** An error-free connection-level relay charges what it carried, once, with or without a rate limit. */
  method Relay(user: User, limited: bool, burst: int, tx: seq<Bytes>, rx: seq<Bytes>, upstream: Sink, client: Sink)
    requires upstream != client
    modifies user`usedBytes, upstream, client
    ensures upstream.out == old(upstream.out) + Flatten(tx) && client.out == old(client.out) + Flatten(rx)
    ensures user.usedBytes == old(user.usedBytes) + Size(tx) + Size(rx)
  {
    var clientToUpstream := CopyIn(user, limited, tx, upstream);
    var upstreamToClient := CopyOut(user, limited, burst, rx, client);
    if !limited {
      user.AddUsedBytes(clientToUpstream + upstreamToClient);
    }
  }

  /**
   An error-free packet-split relay adds its totals at the end in any case, so it charges what it carried
   exactly once if and only if the user is not rate limited or nothing was carried; otherwise exactly twice.
   */
  method RelayPacketSplit(user: User, limited: bool, burst: int, tx: seq<Bytes>, rx: seq<Bytes>, tunnel: Sink, client: Sink)
    requires tunnel != client
    modifies user`usedBytes, tunnel, client
    ensures tunnel.out == old(tunnel.out) + Flatten(tx) && client.out == old(client.out) + Flatten(rx)
    ensures user.usedBytes == old(user.usedBytes) + (if limited then 2 else 1) * (Size(tx) + Size(rx))
    ensures user.usedBytes == old(user.usedBytes) + Size(tx) + Size(rx) <==> !limited || Size(tx) + Size(rx) == 0
  {
    var txN := CopyIn(user, limited, tx, tunnel);
    var rxN := CopyOut(user, limited, burst, rx, client);
    user.AddUsedBytes(txN + rxN);
  }
}
