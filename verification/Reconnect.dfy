// A client dropped on a socket error leaves its unframed bytes behind: only the
// read path resets the receive state.  These bytes are put in front of what the
// next client sends.
module Reconnect {
  import opened Bytes
  import opened Framer
  import opened PqServer

  // q agrees with the magic as far as it goes.
  predicate CouldStart(q: seq<byte>) {
    forall i | 0 <= i < |q| && i < 4 :: q[i] == MAGIC_BYTES[i]
  }

  // No header can begin in p.
  predicate Inert(p: seq<byte>) {
    forall k | 0 <= k < |p| :: !CouldStart(p[k..])
  }

  lemma CouldStartIsMagic(q: seq<byte>)
    requires |q| >= 4
    ensures CouldStart(q) <==> HasMagic(q)
  {
    assert forall i | 0 <= i < 4 :: q[..4][i] == q[i];
    if CouldStart(q) {
      assert q[..4] == MAGIC_BYTES;
    }
  }

  lemma SameStart(p: seq<byte>, t: seq<byte>)
    requires |p + t| >= 4 && !CouldStart(p)
    ensures !HasMagic(p + t)
  {
    var i :| 0 <= i < |p| && i < 4 && p[i] != MAGIC_BYTES[i];
    assert (p + t)[..4][i] == p[i];
  }

  // Skipping what cannot start a header.
  lemma {:induction false} SkipToStart(p: seq<byte>, t: seq<byte>, k: nat)
    requires k <= |p| && forall i | 0 <= i < k :: !CouldStart(p[i..])
    ensures |p| - k + |t| >= HEADER_SIZE ==> Packets(p + t) == Packets(p[k..] + t) && Rest(p + t) == Rest(p[k..] + t)
    ensures k == |p| ==> Packets(p + t) == Packets(t)
  {
    if k == 0 {
      assert p[0..] == p;
      assert k == |p| ==> p + t == t;
    } else if |p + t| < HEADER_SIZE {
    } else {
      var s := p + t;
      assert !CouldStart(p[0..]) && p[0..] == p;
      SameStart(p, t);
      TakeContinues(s);
      SplitOfLonger(p, t, 1);
      assert forall i | 0 <= i < k - 1 :: p[1..][i..] == p[i + 1..];
      SkipToStart(p[1..], t, k - 1);
      assert p[1..][k - 1..] == p[k..];
    }
  }

  // Packets are never longer than the stream they come from.
  lemma {:induction false} PacketIsShort(s: seq<byte>, i: nat)
    requires i < |Packets(s)|
    ensures |Packets(s)[i]| <= |s|
    decreases |s|
  {
    var n := Take(s);
    var first := if HasMagic(s) then 1 else 0;
    if i >= first {
      PacketIsShort(s[n..], i - first);
    }
  }

  // A header whose size field, 2^24, leaves room for whatever lower bytes q brings.
  const HEADER: seq<byte> := MAGIC_BYTES + [0, 0, 0, 0, 0, 1]

  // The header that q begins.
  function Head(q: seq<byte>): seq<byte> {
    if |q| < HEADER_SIZE then q + HEADER[|q|..] else q
  }

  lemma HeadStarts(q: seq<byte>)
    requires CouldStart(q) && Take(q) == 0 && (|q| >= HEADER_SIZE ==> SizeField(q) >= 1)
    ensures |Head(q)| >= HEADER_SIZE && HasMagic(Head(q)) && SizeField(Head(q)) > |Head(q)|
  {
    var h := Head(q);
    assert CouldStart(h);
    CouldStartIsMagic(h);
    if |q| < HEADER_SIZE {
      assert HEADER[9] == 1 && h[9] == HEADER[9];
      assert h[6..10][3] == h[9];
    }
  }

  // Bytes that make a packet out of q.
  function Completion(q: seq<byte>): seq<byte>
    requires CouldStart(q) && Take(q) == 0 && (|q| >= HEADER_SIZE ==> SizeField(q) >= 1)
  {
    HeadStarts(q);
    Head(q)[|q|..] + seq(SizeField(Head(q)) - |Head(q)|, _ => 0)
  }

  lemma CompletionCompletes(q: seq<byte>)
    requires CouldStart(q) && Take(q) == 0 && (|q| >= HEADER_SIZE ==> SizeField(q) >= 1)
    ensures |q + Completion(q)| >= HEADER_SIZE
    ensures Packets(q + Completion(q)) == [q + Completion(q)] && Rest(q + Completion(q)) == []
  {
    CompletionIsWellFormed(q);
    hide *;
    OnePacket(q + Completion(q));
  }

  lemma CompletionIsWellFormed(q: seq<byte>)
    requires CouldStart(q) && Take(q) == 0 && (|q| >= HEADER_SIZE ==> SizeField(q) >= 1)
    ensures WellFormedPacket(q + Completion(q)) && |q + Completion(q)| >= HEADER_SIZE
  {
    HeadStarts(q);
    hide HasMagic, SizeField, CouldStart, Head, Take;
    var h := Head(q);
    var pad := seq(SizeField(h) - |h|, _ => 0);
    HeadAndRest(q, pad);
    HeaderOfLonger(h, pad);
  }

  lemma OnePacket(p: seq<byte>)
    requires WellFormedPacket(p)
    ensures Packets(p) == [p] && Rest(p) == []
  {
    assert forall q | q in [p] :: q == p;
    ParseOfWellFormedPackets([p]);
    assert [p][1..] == [] && Flatten([]) == [] && Flatten([p]) == p + [] == p;
  }

  lemma HeadAndRest(q: seq<byte>, pad: seq<byte>)
    ensures |q| <= |Head(q)| && q + (Head(q)[|q|..] + pad) == Head(q) + pad
  {
  }

  // What the next client is served is what it sent, whatever it sends, exactly
  // when the bytes left behind hold no start of a header.
  lemma StaleBytesHarmlessIff(p: seq<byte>)
    requires Take(p) == 0 && !Stuck(p)
    ensures Inert(p) <==> forall t: seq<byte> :: Packets(p + t) == Packets(t)
  {
    if Inert(p) {
      forall t: seq<byte> ensures Packets(p + t) == Packets(t) {
        SkipToStart(p, t, |p|);
      }
    } else {
      Harmed(p);
      var t := Harming(p);
    }
  }

  // A stream that is not served as sent: it completes the first header that the bytes
  // before it could begin.
  function Harming(p: seq<byte>): seq<byte>
    requires Take(p) == 0 && !Stuck(p) && !Inert(p)
  {
    CompletableFrom(p);
    Completion(p[FirstStart(p)..])
  }

  lemma CompletableFrom(p: seq<byte>)
    requires Take(p) == 0 && !Stuck(p) && !Inert(p)
    ensures var q := p[FirstStart(p)..];
      CouldStart(q) && Take(q) == 0 && (|q| >= HEADER_SIZE ==> SizeField(q) >= 1)
  {
    FirstStartIs(p);
    if |p| >= HEADER_SIZE {
      CouldStartIsMagic(p);
    }
  }

  lemma Harmed(p: seq<byte>)
    requires Take(p) == 0 && !Stuck(p) && !Inert(p)
    ensures var t := Harming(p); Packets(p + t) != Packets(t) && !Stuck(p + t)
  {
    var k, t := FirstStart(p), Harming(p);
    CompletableFrom(p);
    FirstStartIs(p);
    CompletionCompletes(p[k..]);
    SkipToStart(p, t, k);
    if Packets(p + t) == Packets(t) {
      PacketIsShort(t, 0);
    }
  }

  function FirstStart(p: seq<byte>): (k: nat)
    ensures k <= |p|
  {
    if p == [] || CouldStart(p) then 0 else 1 + FirstStart(p[1..])
  }

  lemma {:induction false} FirstStartIs(p: seq<byte>)
    requires !Inert(p)
    ensures var k := FirstStart(p);
      && k < |p| && CouldStart(p[k..]) && (k == 0 ==> p[k..] == p) && (CouldStart(p) ==> k == 0)
      && forall i | 0 <= i < k :: !CouldStart(p[i..])
  {
    assert p[0..] == p;
    if !CouldStart(p) {
      var k :| 0 <= k < |p| && CouldStart(p[k..]);
      assert p[1..][k - 1..] == p[k..];
      FirstStartIs(p[1..]);
      var n := FirstStart(p[1..]);
      assert p[1..][n..] == p[n + 1..];
      forall i | 0 <= i < n + 1 ensures !CouldStart(p[i..]) {
        if i > 0 {
          assert p[1..][i - 1..] == p[i..];
        }
      }
    }
  }

  // Rubbish without an "A" in front of commands is skipped, and they are framed as sent.
  lemma RubbishIsSkipped(rubbish: seq<byte>, commands: seq<Command>)
    requires (forall i | 0 <= i < |rubbish| :: rubbish[i] != 0x41) && forall c | c in commands :: Sendable(c)
    ensures Packets(rubbish + Flatten(Wires(commands))) == Wires(commands)
  {
    var t := Flatten(Wires(commands));
    forall k | 0 <= k < |rubbish| ensures !CouldStart(rubbish[k..]) {
      assert rubbish[k..][0] == rubbish[k];
    }
    SkipToStart(rubbish, t, |rubbish|);
    CommandsAreFramed(commands);
  }

  // ----- The receiver after such a drop -----

  // What is pending between two reads.
  lemma Pending(server: Server)
    requires server.Valid()
    ensures server.partial + server.live == Rest(server.received)
    ensures Take(Rest(server.received)) == 0 && !Stuck(Rest(server.received))
  {
    RestTakesNothing(server.received);
  }

  function Bytewise(t: seq<byte>): seq<seq<byte>> {
    if t == [] then [] else [t[..1]] + Bytewise(t[1..])
  }

  lemma {:induction false} BytewiseIs(t: seq<byte>)
    ensures Flatten(Bytewise(t)) == t && forall c | c in Bytewise(t) :: |c| == 1
  {
    if t != [] {
      BytewiseIs(t[1..]);
      assert t == t[..1] + t[1..];
    }
  }

  // Single bytes always find room.
  lemma BytewiseServable(received: seq<byte>, t: seq<byte>)
    requires !Stuck(received + t)
    ensures Servable(received, Bytewise(t)) && Flatten(Bytewise(t)) == t
  {
    BytewiseIs(t);
    hide Stuck, Rest, Flatten, Bytewise;
    assert forall k | 0 <= k < |Bytewise(t)| :: Bytewise(t)[k] in Bytewise(t);
  }

  lemma Harmful(received: seq<byte>, p: seq<byte>)
    requires p == Rest(received) && Take(p) == 0 && !Stuck(p) && !Inert(p)
    ensures Servable(received, Bytewise(Harming(p)))
    ensures Packets(p + Flatten(Bytewise(Harming(p)))) != Packets(Flatten(Bytewise(Harming(p))))
  {
    Harmed(p);
    ReadMore(received, Harming(p));
    BytewiseServable(received, Harming(p));
  }

  // The next client is served what it sends, whatever that is and in whatever pieces it
  // arrives, exactly when the bytes left behind hold no start of a header.
  lemma NextClientUnharmedIff(server: Server)
    requires server.Valid()
    ensures Inert(server.partial + server.live) <==>
      forall chunks | Servable(server.received, chunks) ::
        Packets(server.partial + server.live + Flatten(chunks)) == Packets(Flatten(chunks))
  {
    Pending(server);
    StaleBytesHarmlessIff(server.partial + server.live);
    if !Inert(server.partial + server.live) {
      Harmful(server.received, server.partial + server.live);
    }
    hide Inert, Packets, Rest, Stuck, Take;
  }

  method ServeNextClient(server: Server, chunks: seq<seq<byte>>)
    requires server.Valid() && Servable(server.received, chunks)
    modifies server, server.recvbuf, server.packet
    ensures server.Valid()
    ensures Inert(old(server.partial + server.live)) ==>
      server.requests == old(server.requests) + Packets(Flatten(chunks))
  {
    NextClientUnharmedIff(server);
    hide Inert, Packets, Rest, Stuck, Flatten;
    server.ServeClient(chunks);
  }

  // If they do hold one, some client is served something else.
  method MisserveNextClient(server: Server) returns (chunks: seq<seq<byte>>)
    requires server.Valid() && !Inert(server.partial + server.live)
    modifies server, server.recvbuf, server.packet
    ensures server.Valid() && server.received == old(server.received) + Flatten(chunks)
    ensures server.requests != old(server.requests) + Packets(Flatten(chunks))
  {
    Pending(server);
    var p := PendingBytes(server);
    Harmful(server.received, p);
    hide *;
    chunks := Bytewise(Harming(p));
    DifferBehind(server.requests, Packets(p + Flatten(chunks)), Packets(Flatten(chunks)));
    server.ServeClient(chunks);
  }

  lemma DifferBehind<T>(r: seq<T>, a: seq<T>, b: seq<T>)
    requires a != b
    ensures r + a != r + b
  {
    assert (r + a)[|r|..] == a && (r + b)[|r|..] == b;
  }

  method PendingBytes(server: Server) returns (p: seq<byte>)
    requires server.Rep()
    ensures p == server.partial + server.live
  {
    p := server.recvbuf[server.readPos..server.readPos + server.recvLen];
    if server.packet != null {
      p := server.packet[..server.packet.Length - server.remaining] + p;
    }
  }
}
