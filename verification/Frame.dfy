/** Length-prefix framing over a socket that delivers and accepts bytes in
    pieces of any size: a 4-byte big-endian length, then the payload. */
module Frame {
  import opened CTypes
  import opened Sequences
  import opened Wrappers

  const MAX_PAYLOAD: int := 32 * 1024 * 1024

  type Payload = seq<uint8>

  // ---- the wire format ----

  function Header(n: nat): (h: seq<uint8>)
    ensures |h| == 4
  {
    BigEndianBytes(n)
  }

  function Length(h: seq<uint8>): (n: uint32)
    requires |h| >= 4
  {
    BigEndian(h[0], h[1], h[2], h[3])
  }

  lemma LengthOfHeader(n: uint32)
    ensures Length(Header(n)) == n
  {
    assert n / 0x100 == n / 0x1_0000 * 256 + n / 0x100 % 256;
    assert n / 0x1_0000 == n / 0x100_0000 * 256 + n / 0x1_0000 % 256;
  }

  function Wire(p: Payload): seq<uint8> {
    Header(|p|) + p
  }

  function WireAll(ps: seq<Payload>): seq<uint8> {
    if ps == [] then [] else WireAll(ps[..|ps|-1]) + Wire(ps[|ps|-1])
  }

  predicate Legal(p: Payload) {
    0 < |p| <= MAX_PAYLOAD
  }

  /** The first frame of a byte stream and what follows it, if one is there. */
  function ParseFrame(s: seq<uint8>): Option<(Payload, seq<uint8>)> {
    if |s| < 4 || Length(s) == 0 || Length(s) > MAX_PAYLOAD || |s| < 4 + Length(s) then None
    else Some((s[4..4 + Length(s)], s[4 + Length(s)..]))
  }

  /** A frame the writer sends is read back exactly when it is not empty:
      the writer accepts an empty payload, the reader refuses it. */
  lemma ParseWritten(p: Payload, rest: seq<uint8>)
    requires |p| <= MAX_PAYLOAD
    ensures ParseFrame(Wire(p) + rest) == (if Legal(p) then Some((p, rest)) else None)
  {
    var s := Wire(p) + rest;
    LengthOfHeader(|p|);
    assert s[0] == Header(|p|)[0] && s[1] == Header(|p|)[1] && s[2] == Header(|p|)[2] && s[3] == Header(|p|)[3];
    if Legal(p) {
      assert s[4..4 + |p|] == p && s[4 + |p|..] == rest;
    }
  }

  /** All frames of a stream, in order; None if it does not parse to its end. */
  function ParseAll(s: seq<uint8>): Option<seq<Payload>>
    decreases |s|
  {
    if s == [] then Some([])
    else match ParseFrame(s)
      case None => None
      case Some((p, rest)) => AfterFirst(p, ParseAll(rest))
  }

  lemma {:induction false} WireAllFront(ps: seq<Payload>)
    requires ps != []
    ensures WireAll(ps) == Wire(ps[0]) + WireAll(ps[1..])
  {
    var n := |ps| - 1;
    if n == 0 {
      assert ps[..0] == [] && ps[1..] == [];
    } else {
      WireAllFront(ps[..n]);
      assert ps[1..][..n-1] == ps[..n][1..];
      Associate(Wire(ps[0]), WireAll(ps[..n][1..]), Wire(ps[n]));
    }
  }

  lemma ParseFirst(p: Payload, rest: seq<uint8>)
    requires |p| <= MAX_PAYLOAD
    ensures p == [] ==> ParseAll(Wire(p) + rest) == None
    ensures p != [] ==> ParseAll(Wire(p) + rest) == AfterFirst(p, ParseAll(rest))
  {
    ParseWritten(p, rest);
  }

  /** The number that the first four bytes make. */
  function InNumbers(s: seq<uint8>): int
    requires |s| >= 4
  {
    var a: int, b: int, c: int, d: int := s[0], s[1], s[2], s[3];
    16777216 * a + 65536 * b + 256 * c + d
  }

  /** On the wire a payload follows its length in four bytes, the most
      significant first. */
  lemma WireInNumbers(p: Payload)
    requires |p| < 0x1_0000_0000
    ensures var w := Wire(p);
            |w| == 4 + |p| && w[4..] == p && InNumbers(w) == |p|
  {
    LengthOfHeader(|p|);
  }

  /** A frame is there exactly if its length is from 1 to 33554432 and all of
      it has arrived. */
  lemma ParsesInNumbers(s: seq<uint8>)
    ensures ParseFrame(s).Some? <==>
            |s| >= 4 && 1 <= InNumbers(s) <= 33554432 && |s| >= 4 + InNumbers(s)
  {
  }

  function AfterFirst(p: Payload, more: Option<seq<Payload>>): Option<seq<Payload>> {
    match more case None => None case Some(ps) => Some([p] + ps)
  }

  lemma AfterFirstIs(p: Payload, more: Option<seq<Payload>>, ps: seq<Payload>)
    ensures AfterFirst(p, more) == Some([p] + ps) <==> more == Some(ps)
  {
    if more.Some? && AfterFirst(p, more) == Some([p] + ps) {
      assert more.value == ([p] + more.value)[1..] == ([p] + ps)[1..] == ps;
    }
  }

  predicate NoneEmpty(ps: seq<Payload>) {
    forall i :: 0 <= i < |ps| ==> ps[i] != []
  }

  /** Framing loses nothing: the stream of everything a writer agreed to send
      parses back to it if and only if no payload is empty. */
  lemma {:induction false} ParseAllWritten(ps: seq<Payload>)
    requires forall i :: 0 <= i < |ps| ==> |ps[i]| <= MAX_PAYLOAD
    ensures ParseAll(WireAll(ps)) == Some(ps) <==> NoneEmpty(ps)
  {
    if ps != [] {
      var p, more := ps[0], ps[1..];
      WireAllFront(ps);
      ParseFirst(p, WireAll(more));
      ParseAllWritten(more);
      AfterFirstIs(p, ParseAll(WireAll(more)), more);
      assert ps == [p] + more;
      NoneEmptyFront(p, more);
    }
  }

  lemma NoneEmptyFront(p: Payload, more: seq<Payload>)
    ensures NoneEmpty([p] + more) <==> p != [] && NoneEmpty(more)
  {
    if NoneEmpty([p] + more) {
      forall i | 0 <= i < |more| ensures more[i] != [] { assert ([p] + more)[i+1] == more[i]; }
      assert ([p] + more)[0] == p;
    }
  }

  // ---- the socket ----

  /** A connected socket. `plan` is the network's will: how many bytes each
      call moves; zero or less is a failure. A send failure is final. */
  class Socket {
    var incoming: seq<uint8>
    var outgoing: seq<uint8>
    var broken: bool
    var calls: nat
    const plan: nat -> int

    constructor (incoming: seq<uint8>, plan: nat -> int)
      ensures this.incoming == incoming && this.plan == plan
      ensures outgoing == [] && !broken
    {
      this.incoming, this.plan, this.outgoing, this.broken, this.calls := incoming, plan, [], false, 0;
    }

    /** The network never fails a call. */
    ghost predicate Healthy() {
      forall k: nat :: plan(k) > 0
    }

    /** recv: at least one byte and at most n, or a failure, or 0 at the end. */
    method Recv(n: nat) returns (got: int, bytes: seq<uint8>)
      requires n > 0
      modifies this`incoming, this`calls
      ensures got <= n && (got > 0 ==> |bytes| == got && old(incoming) == bytes + incoming)
      ensures got <= 0 ==> incoming == old(incoming)
      ensures Healthy() && old(incoming) != [] ==> got > 0
      ensures got > 0 ==> old(incoming) != []
    {
      var want := plan(calls);
      calls := calls + 1;
      if want <= 0 || incoming == [] { return if want < 0 then -1 else 0, []; }
      got := if want > n then n else want;
      if got > |incoming| { got := |incoming|; }
      bytes := incoming[..got];
      incoming := incoming[got..];
    }

    /** send: takes at least one byte and at most all, or fails for good. */
    method Send(data: seq<uint8>) returns (sent: int)
      requires data != []
      modifies this`outgoing, this`calls, this`broken
      ensures sent <= |data|
      ensures sent > 0 ==> outgoing == old(outgoing) + data[..sent] && broken == old(broken) == false
      ensures sent <= 0 ==> outgoing == old(outgoing) && broken
      ensures Healthy() && !old(broken) ==> sent > 0
    {
      var want := plan(calls);
      calls := calls + 1;
      if want <= 0 || broken {
        broken := true;
        return -1;
      }
      sent := if want > |data| then |data| else want;
      outgoing := outgoing + data[..sent];
    }

    /** Reads exactly n bytes into buf[at..], or fails. */
    method ReadN(buf: array<uint8>, at: nat, n: nat) returns (ok: bool)
      requires at + n <= buf.Length
      modifies this`incoming, this`calls, buf
      ensures ok ==> n <= |old(incoming)| && incoming == old(incoming)[n..]
      ensures ok ==> buf[at..at+n] == old(incoming)[..n]
      ensures buf[..at] == old(buf[..at])
      ensures Healthy() ==> (ok <==> n <= |old(incoming)|)
    {
      var done := 0;
      while done < n
        invariant 0 <= done <= n && done + |incoming| == |old(incoming)|
        invariant incoming == old(incoming)[done..]
        invariant buf[at..at+done] == old(incoming)[..done]
        invariant buf[..at] == old(buf[..at])
      {
        var got, bytes := Recv(n - done);
        if got <= 0 { return false; }
        ghost var before := buf[at..at+done];
        forall i | 0 <= i < got { buf[at + done + i] := bytes[i]; }
        ReadMore(old(incoming), done, bytes, incoming);
        assert buf[at..at+done+got] == before + bytes;
        done := done + got;
      }
      return true;
    }

    /** Sends all of data, or fails after a prefix of it. */
    method WriteN(data: seq<uint8>) returns (ok: bool)
      modifies this`outgoing, this`calls, this`broken
      ensures ok ==> outgoing == old(outgoing) + data && broken == old(broken)
      ensures !ok ==> broken && old(outgoing) <= outgoing <= old(outgoing) + data
      ensures old(broken) ==> broken && outgoing == old(outgoing)
      ensures Healthy() && !old(broken) ==> ok
    {
      var p := 0;
      while p < |data|
        invariant 0 <= p <= |data| && broken == old(broken)
        invariant outgoing == old(outgoing) + data[..p]
        invariant p > 0 ==> !broken
      {
        var sent := Send(data[p..]);
        if sent <= 0 { return false; }
        assert data[..p+sent] == data[..p] + data[p..][..sent];
        p := p + sent;
      }
      return true;
    }

    /** Reads one frame. */
    method FrameRead() returns (r: Option<Payload>)
      modifies this`incoming, this`calls
      ensures r.Some? ==> ParseFrame(old(incoming)) == Some((r.value, incoming))
      ensures Healthy() ==> (r.Some? <==> ParseFrame(old(incoming)).Some?)
    {
      var hdr := new uint8[4](_ => 0);
      var ok := ReadN(hdr, 0, 4);
      if !ok { return None; }
      ghost var s := old(incoming);
      assert hdr[0..4] == s[..4];
      assert hdr[0] == s[0] && hdr[1] == s[1] && hdr[2] == s[2] && hdr[3] == s[3] by {
        assert hdr[0..4][0] == s[0] && hdr[0..4][1] == s[1] && hdr[0..4][2] == s[2] && hdr[0..4][3] == s[3];
      }
      var len := BigEndian(hdr[0], hdr[1], hdr[2], hdr[3]);
      if len == 0 || len > MAX_PAYLOAD { return None; }
      // One byte of the body is awaited before the rest is allocated.
      var first := new uint8[1](_ => 0);
      ok := ReadN(first, 0, 1);
      if !ok { return None; }
      var buf := new uint8[len + 1](_ => 0);
      buf[0] := first[0];
      assert first[0..1][0] == s[4];
      if len > 1 {
        ok := ReadN(buf, 1, len - 1);
        if !ok { return None; }
      }
      assert s[4..][1..] == s[5..] && s[5..][..len-1] == s[5..4+len];
      assert buf[..1][0] == s[4];
      assert buf[..len] == [s[4]] + s[5..4+len] == s[4..4+len];
      return Some(buf[..len]);
    }

    /** Writes one frame; an over-long payload sends nothing. */
    method FrameWrite(p: Payload) returns (ok: bool)
      modifies this`outgoing, this`calls, this`broken
      ensures ok ==> |p| <= 33554432 && outgoing == old(outgoing) + Wire(p) && broken == old(broken)
      ensures !ok && |p| <= MAX_PAYLOAD ==> broken && old(outgoing) <= outgoing <= old(outgoing) + Wire(p)
      ensures |p| > 33554432 ==> !ok && outgoing == old(outgoing) && broken == old(broken)
      ensures old(broken) ==> !ok && broken && outgoing == old(outgoing)
      ensures Healthy() && !old(broken) && |p| <= MAX_PAYLOAD ==> ok
    {
      if |p| > MAX_PAYLOAD { return false; }
      ok := WriteN(Header(|p|));
      if !ok {
        assert old(outgoing) + Wire(p) == old(outgoing) + Header(|p|) + p;
        return false;
      }
      assert old(outgoing) + Header(|p|) + p == old(outgoing) + Wire(p);
      ok := WriteN(p);
    }
  }

  lemma ReadMore(s: seq<uint8>, done: nat, bytes: seq<uint8>, rest: seq<uint8>)
    requires done <= |s| && s[done..] == bytes + rest
    ensures done + |bytes| <= |s| && rest == s[done + |bytes|..]
    ensures s[..done + |bytes|] == s[..done] + bytes
  {
  }

  lemma EmptyWire(ps: seq<Payload>)
    ensures WireAll(ps) == [] ==> ps == []
  {
  }

  /** A reader at the other end recovers exactly the frames sent, however the
      network cuts them. */
  method ReadAll(sock: Socket, ghost ps: seq<Payload>) returns (got: seq<Payload>)
    requires forall i :: 0 <= i < |ps| ==> Legal(ps[i])
    requires sock.incoming == WireAll(ps) && sock.Healthy()
    modifies sock
    ensures got == ps && sock.incoming == []
  {
    got := [];
    while sock.incoming != []
      invariant |got| <= |ps| && got == ps[..|got|] && sock.incoming == WireAll(ps[|got|..])
      decreases |ps| - |got|
    {
      var k := |got|;
      ghost var left := ps[k..];
      WireAllFront(left);
      ParseWritten(left[0], WireAll(left[1..]));
      var r := sock.FrameRead();
      got := got + [r.value];
      assert left[1..] == ps[k+1..];
    }
    EmptyWire(ps[|got|..]);
  }

  /** Sends frames one after the other until one fails. */
  method SendAll(sock: Socket, ps: seq<Payload>) returns (ok: bool)
    requires forall i :: 0 <= i < |ps| ==> |ps[i]| <= MAX_PAYLOAD
    requires sock.outgoing == [] && !sock.broken
    modifies sock
    ensures ok ==> sock.outgoing == WireAll(ps)
    ensures sock.Healthy() ==> ok
  {
    for i := 0 to |ps|
      invariant sock.outgoing == WireAll(ps[..i]) && !sock.broken
    {
      ok := sock.FrameWrite(ps[i]);
      if !ok { return false; }
      assert ps[..i+1][..i] == ps[..i];
    }
    assert ps[..|ps|] == ps;
    return true;
  }
}
