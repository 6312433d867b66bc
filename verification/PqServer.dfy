// The receiving half of the PQ daemon: one client socket, one fixed buffer, and
// packets assembled across reads.
module PqServer {
  import opened Bytes
  import opened Framer

  const RECV_BUF_SIZE := 2048

  // What read() on the client socket came back with; Closed stands for end of
  // file and for any error other than "try again".
  datatype ReadResult = WouldBlock | Closed | Data(bytes: seq<byte>)

  // The space read() is offered once `received` has been worked off.
  function Room(received: seq<byte>): (n: int)
    ensures 2039 <= n <= 2048
  {
    var rest := Rest(received);
    RECV_BUF_SIZE - if |rest| < HEADER_SIZE then |rest| else 0
  }

  method Memcpy(dst: array<byte>, at: nat, bytes: seq<byte>)
    requires at + |bytes| <= dst.Length
    modifies dst
    ensures dst[..at] == old(dst[..at])
    ensures dst[..at + |bytes|] == old(dst[..at]) + bytes
    ensures dst[at + |bytes|..] == old(dst[at + |bytes|..])
  {
    forall i | 0 <= i < |bytes| {
      dst[at + i] := bytes[i];
    }
  }

  class Server {
    // packet under assembly
    var recvState: Mode
    var remaining: int
    var packet: array?<byte>

    // raw receive buffer
    const recvbuf: array<byte>
    var recvLen: int
    var readPos: int

    // every packet handed to the command queue, in order
    var requests: seq<seq<byte>>

    // what the fields above stand for: the bytes collected of the packet under
    // assembly, and the bytes received but not looked at
    ghost var partial: seq<byte>
    ghost var live: seq<byte>

    // the bytes read and the requests made since the receive state was last reset,
    // and the requests made before
    ghost var received: seq<byte>
    ghost var framed: seq<seq<byte>>
    ghost var earlier: seq<seq<byte>>

    ghost predicate Rep()
      reads this, recvbuf, packet
    {
      && recvbuf.Length == RECV_BUF_SIZE && packet != recvbuf
      && 0 <= readPos && 0 <= recvLen && readPos + recvLen <= RECV_BUF_SIZE
      && live == recvbuf[readPos..readPos + recvLen]
      && (packet != null <==> recvState == WaitPacket)
      && (if packet == null then partial == [] && remaining == 0
          else 0 <= remaining <= packet.Length && partial == packet[..packet.Length - remaining])
    }

    // Between two reads: the packets framed so far and the bytes pending are the
    // reference parse of everything read, and there is room for the next read.
    ghost predicate Valid()
      reads this, recvbuf, packet
    {
      && Rep() && AtRest(recvState, partial, remaining, live)
      && readPos == 0 && recvLen < HEADER_SIZE
      && requests == earlier + framed
      && framed == Packets(received) && partial + live == Rest(received)
      && !Stuck(received)
    }

    constructor ()
      ensures Valid() && fresh(recvbuf) && requests == [] && received == []
    {
      recvState, remaining, packet := Idle, 0, null;
      recvbuf := new byte[RECV_BUF_SIZE](_ => 0);
      recvLen, readPos := 0, 0;
      requests, earlier, framed, received := [], [], [], [];
      partial, live := [], [];
    }

    // Move the live bytes to the front of the buffer, in place.
    method TrimRecvbuf()
      requires Rep()
      modifies `readPos, recvbuf
      ensures Rep() && readPos == 0
    {
      if readPos == 0 {
        return;
      }
      ghost var from := readPos;
      var i := 0;
      while i < recvLen
        invariant 0 <= i <= recvLen && readPos == from + i
        invariant forall k | 0 <= k < i :: recvbuf[k] == live[k]
        invariant forall k | readPos <= k < from + recvLen :: recvbuf[k] == live[k - from]
      {
        recvbuf[i] := recvbuf[readPos];
        readPos := readPos + 1;
        i := i + 1;
      }
      readPos := 0;
    }

    method PacketInfoReset()
      modifies `packet, `remaining
      ensures packet == null && remaining == 0
    {
      packet := null;
      remaining := 0;
    }

    // Forget everything not yet framed.
    method RecvInfoReset()
      requires recvbuf.Length == RECV_BUF_SIZE
      modifies this
      ensures Valid() && requests == old(requests)
      ensures received == [] && partial + live == []
    {
      assert Packets([]) == [] && Rest([]) == [] && !Stuck([]);
      hide Packets, Rest, Stuck, HasMagic, SizeField;
      recvState := Idle;
      remaining := 0;
      packet := null;
      recvLen := 0;
      readPos := 0;
      partial, live := [], [];
      earlier, framed, received := requests, [], [];
    }

    method CmdqueueAddPacket(p: array<byte>)
      modifies `requests
      ensures requests == old(requests) + [p[..]]
    {
      requests := requests + [p[..]];
    }

    method Consume(n: nat)
      requires recvbuf.Length == RECV_BUF_SIZE && 0 <= readPos && n <= recvLen && readPos + recvLen <= RECV_BUF_SIZE
      requires live == recvbuf[readPos..readPos + recvLen]
      modifies `recvLen, `readPos, `live
      ensures readPos == old(readPos) + n && recvLen == old(recvLen) - n && live == old(live)[n..]
      ensures live == recvbuf[readPos..readPos + recvLen]
    {
      recvLen := recvLen - n;
      readPos := readPos + n;
      live := live[n..];
    }

    // The packet under assembly is complete.
    method FinishPacket()
      requires packet != null && partial == packet[..packet.Length]
      modifies `requests, `packet, `remaining, `partial, `recvState
      ensures requests == old(requests) + [old(partial)]
      ensures packet == null && remaining == 0 && partial == [] && recvState == Idle
    {
      assert packet[..] == partial;
      CmdqueueAddPacket(packet);
      PacketInfoReset();
      partial := [];
      recvState := Idle;
    }

    // The next bytes to be looked at.
    method Front(n: nat) returns (s: seq<byte>)
      requires 0 <= readPos && n <= recvLen && readPos + recvLen <= recvbuf.Length
      requires live == recvbuf[readPos..readPos + recvLen]
      ensures s == live[..n]
    {
      s := recvbuf[readPos..readPos + n];
    }

    // The hunt for the next magic word.
    method SearchHeader()
      requires Rep() && recvState == Idle
      modifies `recvState, `recvLen, `readPos, `live, recvbuf
      ensures Rep() && live == Hunt(old(live))
      ensures recvState == if |live| >= HEADER_SIZE then Start else Idle
    {
      while recvLen >= HEADER_SIZE
        invariant Rep() && recvState == Idle && unchanged(recvbuf)
        invariant Hunt(live) == Hunt(old(live))
        decreases recvLen
      {
        var h := Front(4);
        if h[0] == 0x41 && h[1] == 0x57 && h[2] == 0x50 && h[3] == 0x51 {
          recvState := Start;
          break;
        }
        Consume(1);
      }
      if recvLen < HEADER_SIZE {
        TrimRecvbuf();
      }
    }

    // A header is at the read position: begin its packet.
    method StartPacket()
      requires Rep() && recvState == Start
      requires |live| >= HEADER_SIZE && HasMagic(live) && SizeField(live) >= 0
      modifies `recvState, `remaining, `packet, `recvLen, `readPos, `requests, `partial, `live
      ensures Rep() && (packet != null ==> fresh(packet))
      ensures var h, size := old(live), SizeField(old(live));
        if size <= |h| then
          && recvState == Idle && live == h[size..]
          && requests == old(requests) + [h[..size]]
        else
          && recvState == WaitPacket && live == [] && partial == h && remaining == size - |h|
          && requests == old(requests)
    {
      hide Word, HasMagic, SizeField;
      var h := recvbuf[readPos..readPos + recvLen];
      MagicWordIsMagicBytes(h);
      if Word(h[..4]) != PACKET_MAGIC {
        assert false; // the magic has been seen at this position
        return;
      }

      var size := SizeField(h);
      packet := new byte[size](_ => 0);
      var copysize := if size <= recvLen then size else recvLen;
      AddToPacket(0, copysize);
      assert partial == h[..copysize];
      if copysize == size {
        FinishPacket();
        return;
      }
      remaining := size - copysize;
      recvState := WaitPacket;
    }

    // Part of a packet is there: add what has arrived since.
    method ContinuePacket()
      requires Rep() && recvState == WaitPacket
      requires |partial| >= HEADER_SIZE && SizeField(partial) == |partial| + remaining
      modifies `recvState, `remaining, `packet, `recvLen, `readPos, `requests, `partial, `live, packet
      ensures Rep() && (packet != null ==> packet == old(packet))
      ensures var need := old(remaining);
        if need <= |old(live)| then
          && recvState == Idle && live == old(live)[need..]
          && requests == old(requests) + [old(partial) + old(live)[..need]]
        else
          && recvState == WaitPacket && live == [] && partial == old(partial) + old(live)
          && remaining == need - |old(live)| && requests == old(requests)
    {
      hide Word, HasMagic, SizeField;
      var copysize := if remaining <= recvLen then remaining else recvLen;
      SizeOfPrefix(packet[..], |partial|);
      var d := SizeField(packet[..]) - remaining;
      AddToPacket(d, copysize);
      if copysize == remaining {
        FinishPacket();
        return;
      }
      remaining := remaining - copysize;
    }

    // Copy n bytes behind those of the packet that are there.
    method AddToPacket(d: nat, n: nat)
      requires 0 <= readPos && n <= recvLen && readPos + recvLen <= RECV_BUF_SIZE == recvbuf.Length
      requires live == recvbuf[readPos..readPos + recvLen]
      requires packet != null && packet != recvbuf && d + n <= packet.Length && partial == packet[..d]
      modifies `recvLen, `readPos, `partial, `live, packet
      ensures partial == old(partial) + old(live)[..n] && partial == packet[..|partial|]
      ensures live == old(live)[n..] && recvLen == old(recvLen) - n && readPos == old(readPos) + n
      ensures live == recvbuf[readPos..readPos + recvLen]
    {
      var s := Front(n);
      Memcpy(packet, d, s);
      partial := partial + s;
      Consume(n);
    }

    // A turn of the switch in each state.  `done` is what earlier turns on this buffer have
    // handed on.
    method TurnIdle(ghost input: seq<byte>, ghost done: seq<seq<byte>>)
      requires Rep() && OnTrack(input, done, recvState, partial, remaining, live)
      requires recvState == Idle
      modifies `recvState, `remaining, `packet, `recvLen, `readPos, `requests, `partial, `live, recvbuf, packet
      ensures Rep() && (packet != null ==> packet == old(packet) || fresh(packet))
      ensures old(requests) <= requests
      ensures OnTrack(input, done + requests[|old(requests)|..], recvState, partial, remaining, live)
      ensures recvState == WaitPacket ==> live == []
      ensures HEADER_SIZE <= old(recvLen) && HEADER_SIZE <= recvLen ==>
                Measure(recvLen, recvState) < old(Measure(recvLen, recvState))
    {
      ghost var live0 := live;
      OnTrackFacts(input, done, recvState, partial, remaining, live);
      hide OnTrack, Hunt;
      SearchHeader();
      OnTrackIdle(input, done, live0);
      assert done + [] == done;
    }

    method TurnStart(ghost input: seq<byte>, ghost done: seq<seq<byte>>)
      requires Rep() && OnTrack(input, done, recvState, partial, remaining, live)
      requires recvState == Start && SizeField(live) >= 1
      modifies `recvState, `remaining, `packet, `recvLen, `readPos, `requests, `partial, `live, recvbuf, packet
      ensures Rep() && (packet != null ==> packet == old(packet) || fresh(packet))
      ensures old(requests) <= requests
      ensures OnTrack(input, done + requests[|old(requests)|..], recvState, partial, remaining, live)
      ensures recvState == WaitPacket ==> live == []
      ensures HEADER_SIZE <= old(recvLen) && HEADER_SIZE <= recvLen ==>
                Measure(recvLen, recvState) < old(Measure(recvLen, recvState))
    {
      ghost var live0 := live;
      OnTrackFacts(input, done, recvState, partial, remaining, live);
      hide OnTrack, HasMagic, SizeField;
      StartPacket();
      OnTrackStart(input, done, live0);
    }

    method TurnWait(ghost input: seq<byte>, ghost done: seq<seq<byte>>)
      requires Rep() && OnTrack(input, done, recvState, partial, remaining, live)
      requires recvState == WaitPacket
      modifies `recvState, `remaining, `packet, `recvLen, `readPos, `requests, `partial, `live, recvbuf, packet
      ensures Rep() && (packet != null ==> packet == old(packet) || fresh(packet))
      ensures old(requests) <= requests
      ensures OnTrack(input, done + requests[|old(requests)|..], recvState, partial, remaining, live)
      ensures recvState == WaitPacket ==> live == []
      ensures HEADER_SIZE <= old(recvLen) && HEADER_SIZE <= recvLen ==>
                Measure(recvLen, recvState) < old(Measure(recvLen, recvState))
    {
      ghost var partial0, live0, need0 := partial, live, remaining;
      OnTrackFacts(input, done, recvState, partial, remaining, live);
      hide OnTrack, HasMagic, SizeField;
      ContinuePacket();
      OnTrackWait(input, done, partial0, need0, live0);
    }

    method ParseData(ghost input: seq<byte>, ghost done: seq<seq<byte>>)
      requires Rep() && OnTrack(input, done, recvState, partial, remaining, live)
      requires recvState == Start ==> SizeField(live) >= 1
      modifies `recvState, `remaining, `packet, `recvLen, `readPos, `requests, `partial, `live, recvbuf, packet
      ensures Rep() && (packet != null ==> packet == old(packet) || fresh(packet))
      ensures old(requests) <= requests
      ensures OnTrack(input, done + requests[|old(requests)|..], recvState, partial, remaining, live)
      ensures recvState == WaitPacket ==> live == []
      ensures HEADER_SIZE <= old(recvLen) && HEADER_SIZE <= recvLen ==>
                Measure(recvLen, recvState) < old(Measure(recvLen, recvState))
    {
      hide OnTrack, SizeField;
      match recvState
      case Idle => TurnIdle(input, done);
      case Start => TurnStart(input, done);
      case WaitPacket => TurnWait(input, done);
    }

    lemma PositiveSize(input: seq<byte>, done: seq<seq<byte>>)
      requires Rep() && OnTrack(input, done, recvState, partial, remaining, live) && !Stuck(input)
      ensures recvState == Start ==> |live| >= HEADER_SIZE && SizeField(live) >= 1
    {
      if recvState == Start {
        OnTrackStuck(input, done, live);
      }
    }

    // Turn after turn, until less than a header is buffered.
    method FrameAll(ghost input: seq<byte>)
      requires Rep() && OnTrack(input, [], recvState, partial, remaining, live) && !Stuck(input)
      modifies `recvState, `remaining, `packet, `recvLen, `readPos, `requests, `partial, `live, recvbuf, packet
      ensures Rep() && (packet != null ==> packet == old(packet) || fresh(packet))
      ensures recvLen < HEADER_SIZE && AtRest(recvState, partial, remaining, live)
      ensures requests == old(requests) + Packets(input) && partial + live == Rest(input)
    {
      hide OnTrack, AtRest, Packets, Rest, Stuck;
      PositiveSize(input, []);
      ParseData(input, []);
      ghost var done := requests[|old(requests)|..];
      assert [] + done == done;
      while recvLen >= HEADER_SIZE
        invariant Rep() && (packet != null ==> packet == old(packet) || fresh(packet))
        invariant OnTrack(input, done, recvState, partial, remaining, live)
        invariant recvState == WaitPacket ==> live == []
        invariant requests == old(requests) + done
        decreases Measure(recvLen, recvState)
      {
        ghost var before := |requests|;
        PositiveSize(input, done);
        ParseData(input, done);
        done := done + requests[before..];
      }
      OnTrackEnd(input, done, recvState, partial, remaining, live);
    }

    // What read() itself does to the buffer.
    method AppendRead(bytes: seq<byte>)
      requires Rep() && readPos == 0 && |bytes| <= RECV_BUF_SIZE - recvLen
      modifies `recvLen, `live, recvbuf
      ensures Rep() && live == old(live) + bytes
    {
      Memcpy(recvbuf, recvLen, bytes);
      recvLen := recvLen + |bytes|;
      live := live + bytes;
    }

    // Read once and frame all that can be framed.  The reference parse must not
    // meet a header whose size field is zero or negative.
    method SocketPacketHandle(r: ReadResult) returns (ret: int)
      requires Valid()
      requires r.Data? ==> 1 <= |r.bytes| <= RECV_BUF_SIZE - recvLen
      requires r.Data? ==> !Stuck(received + r.bytes)
      modifies this, recvbuf, packet
      ensures Valid() && (packet != null ==> packet == old(packet) || fresh(packet))
      ensures match r
        case WouldBlock =>
          ret == -1 && received == old(received) && requests == old(requests) && earlier == old(earlier)
        case Closed => ret == 0 && received == [] && requests == old(requests)
        case Data(bytes) => ret == |bytes| && received == old(received) + bytes && earlier == old(earlier)
    {
      match r
      case WouldBlock => return -1;
      case Closed =>
        RecvInfoReset();
        return 0;
      case Data(bytes) =>
        HandleData(bytes);
        ret := |bytes|;
    }

    method HandleData(bytes: seq<byte>)
      requires Valid() && |bytes| <= RECV_BUF_SIZE - recvLen && !Stuck(received + bytes)
      modifies this, recvbuf, packet
      ensures Valid() && (packet != null ==> packet == old(packet) || fresh(packet))
      ensures received == old(received) + bytes && earlier == old(earlier)
    {
      ReadMore(received, bytes);
      hide Stuck, Packets, Rest, AtRest;
      ghost var more := Packets(partial + live + bytes);
      FrameRead(bytes);
      assert earlier + (framed + more) == (earlier + framed) + more;
      framed := framed + more;
      received := received + bytes;
    }

    method FrameRead(bytes: seq<byte>)
      requires Rep() && AtRest(recvState, partial, remaining, live) && readPos == 0
      requires |bytes| <= RECV_BUF_SIZE - recvLen && !Stuck(partial + live + bytes)
      modifies `recvState, `remaining, `packet, `recvLen, `readPos, `requests, `partial, `live, recvbuf, packet
      ensures Rep() && (packet != null ==> packet == old(packet) || fresh(packet))
      ensures readPos == 0 && recvLen < HEADER_SIZE && AtRest(recvState, partial, remaining, live)
      ensures requests == old(requests) + Packets(old(partial + live) + bytes)
      ensures partial + live == Rest(old(partial + live) + bytes)
    {
      OnTrackBegin(recvState, partial, remaining, live, bytes);
      hide OnTrack, AtRest, Packets, Rest, Stuck;
      ghost var input := partial + live + bytes;
      AppendRead(bytes);
      FrameAll(input);
      TrimRecvbuf();
    }

    // A whole connection, in whatever pieces its bytes arrive: what is handed on
    // depends on the bytes alone, and on those an earlier client has left behind.
    method ServeClient(chunks: seq<seq<byte>>)
      requires Valid() && Servable(received, chunks)
      modifies this, recvbuf, packet
      ensures Valid() && received == old(received) + Flatten(chunks) && earlier == old(earlier)
      ensures requests == old(requests) + Packets(old(partial + live) + Flatten(chunks))
      ensures partial + live == Rest(old(partial + live) + Flatten(chunks))
    {
      QueueMore(earlier, received, Flatten(chunks));
      hide Stuck, Packets, Rest, Flatten, Servable, AtRest, Rep;
      ReadChunks(chunks);
    }

    method ReadChunks(chunks: seq<seq<byte>>)
      requires Valid() && Servable(received, chunks)
      modifies this, recvbuf, packet
      ensures Valid() && received == old(received) + Flatten(chunks) && earlier == old(earlier)
      ensures requests == earlier + Packets(received) && partial + live == Rest(received)
    {
      ghost var first := received;
      assert Flatten(chunks[..0]) == [] && first + [] == first;
      hide Stuck, Packets, Rest, Flatten, Servable;
      for k := 0 to |chunks|
        invariant Valid() && received == first + Flatten(chunks[..k]) && earlier == old(earlier)
        invariant packet != null ==> packet == old(packet) || fresh(packet)
      {
        NextChunk(first, chunks, k);
        AtRestTakesNothing(recvState, partial, remaining, live);
        var _ := SocketPacketHandle(Data(chunks[k]));
      }
      assert chunks[..|chunks|] == chunks;
    }

    // At a header with a zero in the size field the turns go on and on: each pair of
    // turns hands on an empty packet and leaves the buffer as it was.
    method SpinOnZeroSize(pairs: nat)
      requires Rep() && recvState == Start
      requires |live| >= HEADER_SIZE && HasMagic(live) && SizeField(live) == 0
      modifies `recvState, `remaining, `packet, `recvLen, `readPos, `requests, `partial, `live, recvbuf
      ensures Rep() && recvState == Start && live == old(live)
      ensures requests == old(requests) + seq(pairs, _ => [])
    {
      for k := 0 to pairs
        invariant Rep() && recvState == Start && live == old(live)
        invariant packet == null
        invariant requests == old(requests) + seq(k, _ => [])
      {
        StartPacket();
        SearchHeader();
      }
    }

    // The turns that lead to such a header.
    method FrameToZeroSize(ghost input: seq<byte>)
      requires Rep() && OnTrack(input, [], recvState, partial, remaining, live)
      requires recvState != Start && Stuck(input) && SizeField(Rest(input)) == 0
      modifies `recvState, `remaining, `packet, `recvLen, `readPos, `requests, `partial, `live, recvbuf, packet
      ensures Rep() && recvState == Start && live == Rest(input)
      ensures requests == old(requests) + Packets(input)
    {
      hide OnTrack, Packets, Rest, Stuck, SizeField, HasMagic;
      ghost var done := TurnToZero(input, []);
      while recvState != Start || SizeField(recvbuf[readPos..readPos + recvLen]) >= 1
        invariant Rep() && (packet != null ==> packet == old(packet) || fresh(packet))
        invariant OnTrack(input, done, recvState, partial, remaining, live)
        invariant recvState != WaitPacket && recvLen >= HEADER_SIZE // the goto is taken
        invariant recvState == Start && SizeField(live) < 1 ==> live == Rest(input) && done == Packets(input)
        invariant requests == old(requests) + done
        decreases Measure(recvLen, recvState)
      {
        done := TurnToZero(input, done);
      }
    }

    // One of them.
    method TurnToZero(ghost input: seq<byte>, ghost done: seq<seq<byte>>) returns (ghost more: seq<seq<byte>>)
      requires Rep() && OnTrack(input, done, recvState, partial, remaining, live)
      requires recvState == Start ==> SizeField(live) >= 1
      requires Stuck(input) && SizeField(Rest(input)) == 0
      modifies `recvState, `remaining, `packet, `recvLen, `readPos, `requests, `partial, `live, recvbuf, packet
      ensures Rep() && (packet != null ==> packet == old(packet) || fresh(packet))
      ensures OnTrack(input, more, recvState, partial, remaining, live)
      ensures recvState != WaitPacket && recvLen >= HEADER_SIZE
      ensures recvState == Start && SizeField(live) < 1 ==> live == Rest(input) && more == Packets(input)
      ensures exists made :: requests == old(requests) + made && more == done + made
      ensures HEADER_SIZE <= old(recvLen) ==> Measure(recvLen, recvState) < old(Measure(recvLen, recvState))
    {
      hide OnTrack, Packets, Rest, Stuck, SizeField, HasMagic;
      ParseData(input, done);
      ghost var made := requests[|old(requests)|..];
      more := done + made;
      OnTrackToZero(input, more, recvState, partial, remaining, live);
    }

    method ReachZeroSize(bytes: seq<byte>)
      requires Rep() && AtRest(recvState, partial, remaining, live) && readPos == 0
      requires |bytes| <= RECV_BUF_SIZE - recvLen
      requires Stuck(partial + live + bytes) && SizeField(Rest(partial + live + bytes)) == 0
      modifies `recvState, `remaining, `packet, `recvLen, `readPos, `requests, `partial, `live, recvbuf, packet
      ensures Rep() && recvState == Start && live == Rest(old(partial + live) + bytes)
      ensures requests == old(requests) + Packets(old(partial + live) + bytes)
    {
      OnTrackBegin(recvState, partial, remaining, live, bytes);
      hide OnTrack, Packets, Rest, Stuck;
      ghost var input := partial + live + bytes;
      AppendRead(bytes);
      FrameToZeroSize(input);
    }

    // A read that brings such a header: the call does not return.  However many turns
    // it makes, it has handed on the packets of the reference parse and then empty ones.
    method SpinOnRead(bytes: seq<byte>, pairs: nat)
      requires Valid() && |bytes| <= RECV_BUF_SIZE - recvLen
      requires Stuck(received + bytes) && SizeField(Rest(received + bytes)) == 0
      modifies `recvState, `remaining, `packet, `recvLen, `readPos, `requests, `partial, `live, recvbuf, packet
      ensures Rep() && recvState == Start && live == Rest(old(received) + bytes)
      ensures requests == earlier + Packets(received + bytes) + seq(pairs, _ => [])
    {
      ReadMore(received, bytes);
      hide Packets, Rest, Stuck, HasMagic, SizeField, AtRest;
      assert earlier + (framed + Packets(Rest(received) + bytes)) == requests + Packets(Rest(received) + bytes);
      ZeroSizeAhead(received + bytes);
      ReachZeroSize(bytes);
      SpinOnZeroSize(pairs);
    }
  }

  // A header tells its size whatever follows it.
  lemma SizeOfPrefix(contents: seq<byte>, n: nat)
    requires HEADER_SIZE <= n <= |contents|
    ensures SizeField(contents) == SizeField(contents[..n])
  {
    assert contents == contents[..n] + contents[n..];
    HeaderOfLonger(contents[..n], contents[n..]);
  }

  lemma ZeroSizeAhead(input: seq<byte>)
    requires Stuck(input)
    ensures |Rest(input)| >= HEADER_SIZE && HasMagic(Rest(input))
  {
  }

  // What a read adds to the reference parse.
  lemma ReadMore(received: seq<byte>, bytes: seq<byte>)
    ensures Packets(received + bytes) == Packets(received) + Packets(Rest(received) + bytes)
    ensures Rest(received + bytes) == Rest(Rest(received) + bytes)
    ensures Stuck(received + bytes) == Stuck(Rest(received) + bytes)
  {
    ParseAppend(received, bytes);
  }

  // Chunks as read() may deliver them behind `received`, never reaching a header whose
  // size field is not positive.
  ghost predicate Servable(received: seq<byte>, chunks: seq<seq<byte>>) {
    && (forall k | 0 <= k < |chunks| :: 1 <= |chunks[k]| <= Room(received + Flatten(chunks[..k])))
    && !Stuck(received + Flatten(chunks))
  }

  lemma QueueMore(earlier: seq<seq<byte>>, received: seq<byte>, bytes: seq<byte>)
    ensures earlier + Packets(received + bytes) == earlier + Packets(received) + Packets(Rest(received) + bytes)
    ensures Rest(received + bytes) == Rest(Rest(received) + bytes)
  {
    ReadMore(received, bytes);
    hide Packets, Rest;
    assert earlier + (Packets(received) + Packets(Rest(received) + bytes))
        == earlier + Packets(received) + Packets(Rest(received) + bytes);
  }

  lemma NextChunk(received: seq<byte>, chunks: seq<seq<byte>>, k: nat)
    requires k < |chunks| && Servable(received, chunks)
    ensures 1 <= |chunks[k]| <= Room(received + Flatten(chunks[..k]))
    ensures received + Flatten(chunks[..k + 1]) == received + Flatten(chunks[..k]) + chunks[k]
    ensures !Stuck(received + Flatten(chunks[..k]) + chunks[k])
  {
    hide Stuck, Flatten, Room;
    assert chunks[..k + 1] == chunks[..k] + [chunks[k]];
    FlattenSnoc(chunks[..k], chunks[k]);
    FlattenSplit(chunks, k + 1);
    var so, more := received + Flatten(chunks[..k + 1]), Flatten(chunks[k + 1..]);
    assert received + Flatten(chunks) == so + more;
    if Stuck(so) {
      StuckStaysStuck(so, more);
    }
  }

  // Commands sent by a client of a receiver that has nothing pending come out as sent, in
  // whatever pieces read() delivers them.
  method ServeCommands(server: Server, commands: seq<Command>, chunks: seq<seq<byte>>)
    requires server.Valid() && server.partial + server.live == []
    requires (forall c | c in commands :: Sendable(c)) && Flatten(chunks) == Flatten(Wires(commands))
    requires forall k | 0 <= k < |chunks| :: 1 <= |chunks[k]| <= Room(server.received + Flatten(chunks[..k]))
    modifies server, server.recvbuf, server.packet
    ensures server.Valid() && server.partial + server.live == []
    ensures server.requests == old(server.requests) + Wires(commands)
  {
    CommandsAreFramed(commands);
    ReadMore(server.received, Flatten(chunks));
    assert [] + Flatten(chunks) == Flatten(chunks);
    assert !Stuck(server.received + Flatten(chunks));
    hide Packets, Rest, Flatten, Stuck, Wires;
    server.ServeClient(chunks);
  }

  // A run that meets a zero: the header of one command, and no size.
  method SpinOnHeader(pairs: nat) returns (server: Server)
    ensures server.requests == seq(pairs, _ => [])
    ensures server.Rep() && server.recvState == Start && server.live == [0x41, 0x57, 0x50, 0x51, 1, 0, 0, 0, 0, 0]
  {
    server := new Server();
    var bytes: seq<byte> := [0x41, 0x57, 0x50, 0x51, 1, 0, 0, 0, 0, 0];
    assert [] + bytes == bytes && server.received + bytes == bytes;
    assert SizeField(bytes) == 0 && HasMagic(bytes) && Take(bytes) == 0;
    assert server.recvLen == 0;
    server.SpinOnRead(bytes, pairs);
  }
}
