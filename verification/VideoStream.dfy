// One bit stream of the video decoder: a parser requests room in the stream buffer,
// fills it and submits it part by part; complete frames go to the stream buffer
// manager, from whose queue the video engine takes them.  Positions are offsets
// into the buffer, and -1 is NULL.
module VideoStream {
  import opened Bytes
  import opened StreamRing

  const NULL := -1

  // A queued frame, as the stream buffer manager keeps it.
  datatype Slot = Slot(pos: int, len: nat, pts: int)

  // The queue holds these frames, one behind the other from `at` on.
  ghost predicate Queued(fifo: seq<Slot>, frames: seq<Frame>, at: nat, size: nat)
    requires at < size
  {
    if fifo == [] then frames == []
    else
      && frames != []
      && fifo[0].len == |frames[0].bytes| <= size && fifo[0].pts == frames[0].pts
      && (fifo[0].len > 0 ==> fifo[0].pos == at)
      && Queued(fifo[1..], frames[1..], Wrap(at + fifo[0].len, size), size)
  }

  lemma {:induction false} QueuedOneMore(fifo: seq<Slot>, frames: seq<Frame>, at: nat, size: nat,
                                         slot: Slot, frame: Frame)
    requires at < size && Queued(fifo, frames, at, size)
    requires |FrameBytes(frames)| + |frame.bytes| <= size
    requires slot.len == |frame.bytes| && slot.pts == frame.pts
    requires slot.len > 0 ==> slot.pos == Wrap(at + |FrameBytes(frames)|, size)
    ensures Queued(fifo + [slot], frames + [frame], at, size)
  {
    if fifo == [] {
      assert frames + [frame] == [frame] && fifo + [slot] == [slot];
      assert [frame][1..] == [] && [slot][1..] == [];
    } else {
      assert (fifo + [slot])[1..] == fifo[1..] + [slot] && (frames + [frame])[1..] == frames[1..] + [frame];
      QueuedOneMore(fifo[1..], frames[1..], Wrap(at + fifo[0].len, size), size, slot, frame);
    }
  }

  // Between the read and the write position lie the queued frames, as the processor
  // wrote them and as the video engine sees them.
  ghost predicate Stored(ring: seq<byte>, seen: seq<byte>, readPos: nat, used: nat, writePos: nat,
                         fifo: seq<Slot>, queue: seq<Frame>)
  {
    && 0 < |ring| == |seen| && readPos < |ring| && used <= |ring|
    && writePos == Wrap(readPos + used, |ring|)
    && used == |FrameBytes(queue)| && Queued(fifo, queue, readPos, |ring|)
    && Range(ring, readPos, used) == FrameBytes(queue)
    && Range(seen, readPos, used) == FrameBytes(queue)
  }

  lemma NothingStored(ring: seq<byte>, seen: seq<byte>, at: nat)
    requires at < |ring| == |seen|
    ensures Stored(ring, seen, at, 0, at, [], []) && Range(ring, at, 0) == []
  {
  }

  lemma StoredOneMore(ring: seq<byte>, seen: seq<byte>, readPos: nat, used: nat, writePos: nat,
                      fifo: seq<Slot>, queue: seq<Frame>, pos: int, frame: Frame)
    requires Stored(ring, seen, readPos, used, writePos, fifo, queue)
    requires var n := |frame.bytes|;
      && used + n <= |ring| && (n > 0 ==> pos == writePos)
      && Range(ring, writePos, n) == frame.bytes == Range(seen, writePos, n)
    ensures Stored(ring, seen, readPos, used + |frame.bytes|, Wrap(writePos + |frame.bytes|, |ring|),
                   fifo + [Slot(pos, |frame.bytes|, frame.pts)], queue + [frame])
  {
    var n := |frame.bytes|;
    FrameBytesOfTwo(queue, [frame]);
    FrameBytesOfOne(true, frame);
    QueuedOneMore(fifo, queue, readPos, |ring|, Slot(pos, n, frame.pts), frame);
    RangeInTwo(ring, readPos, used, n);
    RangeInTwo(seen, readPos, used, n);
    hide FrameBytes, Queued, Range;
  }

  lemma StoredOneLess(ring: seq<byte>, seen: seq<byte>, readPos: nat, used: nat, writePos: nat,
                      fifo: seq<Slot>, queue: seq<Frame>)
    requires Stored(ring, seen, readPos, used, writePos, fifo, queue) && fifo != []
    ensures queue != [] && fifo[0].len == |queue[0].bytes| <= used && fifo[0].pts == queue[0].pts
    ensures fifo[0].len > 0 ==> fifo[0].pos == readPos
    ensures Range(seen, readPos, fifo[0].len) == queue[0].bytes
    ensures Stored(ring, seen, Wrap(readPos + fifo[0].len, |ring|), used - fifo[0].len, writePos, fifo[1..], queue[1..])
  {
    var n := fifo[0].len;
    assert FrameBytes(queue) == queue[0].bytes + FrameBytes(queue[1..]);
    assert Queued(fifo[1..], queue[1..], Wrap(readPos + n, |ring|), |ring|);
    WrapInTwo(readPos, n, used - n, |ring|);
    hide FrameBytes, Range, Queued, Wrap;
    FirstOfRange(ring, readPos, used, queue[0].bytes, FrameBytes(queue[1..]));
    FirstOfRange(seen, readPos, used, queue[0].bytes, FrameBytes(queue[1..]));
  }

  lemma WrapInTwo(at: nat, n: nat, m: nat, size: nat)
    requires at < size && n + m <= size
    ensures Wrap(at + n, size) < size && Wrap(Wrap(at + n, size) + m, size) == Wrap(at + n + m, size)
  {
  }

  lemma FirstOfRange(ring: seq<byte>, at: nat, used: nat, first: seq<byte>, rest: seq<byte>)
    requires at < |ring| && used <= |ring| && |first| <= used && Range(ring, at, used) == first + rest
    ensures Range(ring, at, |first|) == first
    ensures Range(ring, Wrap(at + |first|, |ring|), used - |first|) == rest
  {
    RangeInTwo(ring, at, |first|, used - |first|);
    hide Range;
    SamePrefix(Range(ring, at, |first|), first, Range(ring, Wrap(at + |first|, |ring|), used - |first|), rest);
  }

  lemma SamePrefix(a: seq<byte>, b: seq<byte>, x: seq<byte>, y: seq<byte>)
    requires a + x == b + y && |a| == |b|
    ensures a == b && x == y
  {
    assert a == (a + x)[..|a|] && b == (b + y)[..|b|];
    assert x == (a + x)[|a|..] && y == (b + y)[|b|..];
  }

  // Behind the queued frames lies the partial one; its place may still be unknown if
  // it is empty.
  ghost predicate Partial(ring: seq<byte>, used: nat, writePos: nat, pData: int, bytes: seq<byte>) {
    && writePos < |ring| && used + |bytes| <= |ring|
    && (pData == NULL ==> bytes == []) && (pData != NULL ==> pData == writePos)
    && Range(ring, writePos, |bytes|) == bytes
  }

  lemma PartialOneMore(ring: seq<byte>, used: nat, writePos: nat, pData: int, bytes: seq<byte>,
                       at: int, more: seq<byte>)
    requires Partial(ring, used, writePos, pData, bytes) && used + |bytes| + |more| <= |ring|
    requires Range(ring, Wrap(writePos + |bytes|, |ring|), |more|) == more
    requires (at == NULL ==> more == []) && (at != NULL ==> at == Wrap(writePos + |bytes|, |ring|))
    ensures Partial(ring, used, writePos, if pData == NULL then at else pData, bytes + more)
  {
    RangeInTwo(ring, writePos, |bytes|, |more|);
  }

  ghost predicate Accounted(submitted: seq<Part>, handed: seq<Frame>, pending: Frame, initial: Frame) {
    && initial.bytes == []
    && Assembly(handed, pending) == Assemble(submitted, Assembly([], initial))
  }

  // One part more: what it adds to the history and to the queue.
  lemma OnePartMore(submitted: seq<Part>, handed: seq<Frame>, pending: Frame, initial: Frame, taken: nat, p: Part)
    requires Accounted(submitted, handed, pending, initial) && taken <= |handed|
    ensures Accounted(submitted + [p], handed + Completed(pending, p),
                      if p.last then NOTHING else Extended(pending, p), initial)
    ensures var cut := if p.first && pending.bytes != [] then [pending] else [];
      (handed + Completed(pending, p))[taken..] ==
        if p.last then (handed[taken..] + cut) + [Extended(pending, p)] else handed[taken..] + cut
  {
    AssembleInTwo(submitted, [p], Assembly([], initial));
    assert [p][1..] == [];
    assert Assemble([p], Assembly(handed, pending)) == Step(Assembly(handed, pending), p);
  }

  // Bytes put behind the partial frame leave the frames in the ring alone.
  lemma FillKeeps(before: seq<byte>, after: seq<byte>, readPos: nat, used: nat, partial: nat,
                  buf: nat, n: nat, bytes: seq<byte>)
    requires |before| == |after| && readPos < |before| && used + partial + |bytes| <= |before|
    requires buf == Wrap(Wrap(readPos + used, |before|) + partial, |before|)
    requires n <= |bytes| && buf + n <= |before| && (n < |bytes| ==> buf + n == |before|)
    requires forall i | 0 <= i < |before| ::
      after[i] == if buf <= i < buf + n then bytes[i - buf] else if i < |bytes| - n then bytes[n + i] else before[i]
    ensures Range(after, readPos, used) == Range(before, readPos, used)
    ensures var writePos := Wrap(readPos + used, |before|);
      Range(after, writePos, partial) == Range(before, writePos, partial)
    ensures Range(after, buf, |bytes|) == bytes
  {
  }

  lemma StoredElsewhere(ring: seq<byte>, seen: seq<byte>, ring': seq<byte>, seen': seq<byte>,
                        readPos: nat, used: nat, writePos: nat, fifo: seq<Slot>, queue: seq<Frame>)
    requires Stored(ring, seen, readPos, used, writePos, fifo, queue) && |ring'| == |seen'| == |ring|
    requires Range(ring', readPos, used) == Range(ring, readPos, used)
    requires Range(seen', readPos, used) == Range(seen, readPos, used)
    ensures Stored(ring', seen', readPos, used, writePos, fifo, queue)
  {
  }

  // The buffer after the stretch [at, at + n) of `from` has been copied into `to`.
  function Copied(from: seq<byte>, to: seq<byte>, at: nat, n: nat): (r: seq<byte>)
    requires |from| == |to| && at + n <= |to|
    ensures |r| == |to| && forall i | 0 <= i < |to| :: r[i] == if at <= i < at + n then from[i] else to[i]
  {
    to[..at] + from[at..at + n] + to[at + n..]
  }

  class VideoStream {
    // the stream buffer as the processor sees it and as the video engine does
    const ring: array<byte>
    var memory: seq<byte>
    const needsFlush: bool

    // stream buffer manager
    var writePos: nat
    var used: nat
    var fifo: seq<Slot>

    // partialStreamDataInfo
    var pData: int
    var nLength: nat
    var nPts: int

    // frames the video engine has taken and read
    var played: seq<Frame>

    // where the queued frames begin; the parts submitted and the frames handed on
    // since the last reset; the frame under assembly, at the reset and now
    ghost var readPos: nat
    ghost var submitted: seq<Part>
    ghost var handed: seq<Frame>
    ghost var initial: Frame
    ghost var pending: Frame

    // The buffer as the video engine sees it.
    function Seen(): seq<byte>
      reads `memory, ring
    {
      if needsFlush then memory else ring[..]
    }

    // Where the next bytes go: right behind the partial frame.
    ghost function Next(): nat
      requires ring.Length > 0 && writePos < ring.Length && nLength <= ring.Length
      reads this
    {
      Wrap(writePos + nLength, ring.Length)
    }

    ghost predicate Holds(queue: seq<Frame>)
      reads `memory, `readPos, `used, `writePos, `fifo, ring
    {
      && |memory| == ring.Length
      && Stored(ring[..], Seen(), readPos, used, writePos, fifo, queue)
    }

    ghost predicate HoldsPartial(f: Frame)
      reads `writePos, `used, `nLength, `nPts, `pData, ring
    {
      && nLength == |f.bytes| && nPts == f.pts
      && Partial(ring[..], used, writePos, pData, f.bytes)
    }

    // The frames handed on are those the submitted parts stand for, and the video
    // engine has read the first of them; the ring holds the others.
    ghost predicate Valid()
      reads this, ring
    {
      && Accounted(submitted, handed, pending, initial)
      && played <= handed && Holds(handed[|played|..]) && HoldsPartial(pending)
    }

    constructor (size: nat, needsFlush: bool)
      requires size > 0
      ensures Valid() && fresh(ring) && ring.Length == size && this.needsFlush == needsFlush
      ensures submitted == [] && played == [] && pending == NOTHING
    {
      this.needsFlush := needsFlush;
      ring := new byte[size](_ => 0);
      memory := seq(size, _ => 0);
      writePos, used, fifo := 0, 0, [];
      pData, nLength, nPts := NULL, 0, -1;
      played, submitted, handed := [], [], [];
      readPos, initial, pending := 0, NOTHING, NOTHING;
    }

    lemma InBounds()
      requires Valid()
      ensures writePos < ring.Length == |memory| && used + nLength <= ring.Length && readPos < ring.Length
    {
      hide Accounted, Range;
    }

    // `free` is what SbmRequestBuffer answers when asked for `required` bytes: the free
    // bytes from the write position on, or a negative number.
    method RequestVideoStreamBuffer(requireSize: int, free: int)
        returns (required: int, ok: bool, buf: int, bufSize: nat, ringBuf: int, ringBufSize: nat)
      requires Valid() && free <= ring.Length - used
      ensures required == nLength + if requireSize == 0 then 4 else requireSize
      ensures ok <==> free > nLength
      ensures !ok ==> buf == NULL && ringBuf == NULL && bufSize == 0 && ringBufSize == 0
      ensures ok ==>
        && buf == Next() && 0 < bufSize <= ring.Length - buf && bufSize + ringBufSize == free - nLength
        && (if ringBufSize == 0 then ringBuf == NULL else ringBuf == 0 && buf + bufSize == ring.Length)
        && used + nLength + bufSize + ringBufSize <= ring.Length && ringBufSize <= buf
        && Range(ring[..], Next(), bufSize + ringBufSize) == ring[buf..buf + bufSize] + ring[..ringBufSize]
    {
      hide Accounted, Range, Stored, Partial;
      InBounds();
      ok, buf, bufSize, ringBuf, ringBufSize := false, NULL, 0, NULL, 0;
      required := (if requireSize == 0 then 4 else requireSize) + nLength;
      if free < 0 {
        return;
      }
      if free <= nLength {
        return;
      }
      var start := writePos + nLength;
      if start >= ring.Length {
        start := start - ring.Length;
      }
      ok := true;
      buf, bufSize, ringBuf, ringBufSize := Stretches(start, free - nLength);
    }

    // The range as one stretch, or as two when it comes round to the front.
    method Stretches(start: nat, room: nat) returns (buf: int, bufSize: nat, ringBuf: int, ringBufSize: nat)
      requires start < ring.Length && 0 < room <= ring.Length
      ensures buf == start && 0 < bufSize <= ring.Length - buf && bufSize + ringBufSize == room
      ensures if ringBufSize == 0 then ringBuf == NULL else ringBuf == 0 && buf + bufSize == ring.Length
      ensures ringBufSize <= buf && Range(ring[..], start, room) == ring[buf..buf + bufSize] + ring[..ringBufSize]
    {
      hide Range;
      ringBuf, ringBufSize := NULL, 0;
      if start + room <= ring.Length {
        buf, bufSize := start, room;
      } else {
        buf, bufSize := start, ring.Length - start;
        ringBuf, ringBufSize := 0, room - bufSize;
      }
      RangeAsStretches(ring[..], start, room);
    }

    // Whatever has happened so far, every byte submitted is in one of two places, once
    // and in order: in a frame the video engine has read, or in the ring.
    lemma Delivered()
      requires Valid()
      ensures FrameBytes(played) + Range(ring[..], readPos, used + nLength) == PartBytes(submitted)
    {
      var queue := handed[|played|..];
      assert handed == played + queue;
      Conservation(submitted, Assembly([], initial));
      FrameBytesOfTwo(played, queue);
      RangeInTwo(ring[..], readPos, used, nLength);
      hide FrameBytes, Range, Assemble, PartBytes;
      assert (FrameBytes(played) + FrameBytes(queue)) + pending.bytes
          == FrameBytes(played) + (FrameBytes(queue) + pending.bytes);
      FrameBytesOfNone();
    }

    // Behind the read position lie the frames that have been handed on and not yet been
    // read: in the buffer, and in the memory the video engine reads where the cache has to
    // be written back.
    lemma HandedOn()
      requires Valid()
      ensures Range(ring[..], readPos, used) == FrameBytes(handed[|played|..])
      ensures needsFlush ==> Range(memory, readPos, used) == FrameBytes(handed[|played|..])
    {
      hide Range, FrameBytes;
    }

    // CdcMemFlushCache on a stretch of the buffer.
    method FlushCache(at: nat, n: nat)
      requires |memory| == ring.Length && at + n <= ring.Length
      modifies `memory
      ensures memory == Copied(ring[..], old(memory), at, n)
    {
      memory := memory[..at] + ring[at..at + n] + memory[at + n..];
    }

    // Make the video engine see the partial frame, and nothing else anew.
    method FlushSbmData()
      requires |memory| == ring.Length && 0 <= pData < ring.Length && nLength <= ring.Length
      modifies `memory
      ensures |memory| == ring.Length
      ensures if needsFlush then Overwritten(old(memory), memory, pData, Range(ring[..], pData, nLength))
              else memory == old(memory)
    {
      if needsFlush {
        if pData + nLength <= ring.Length {
          FlushCache(pData, nLength);
        } else {
          var partialLen := ring.Length - pData;
          FlushCache(pData, partialLen);
          FlushCache(0, nLength - partialLen);
        }
      }
    }

    method FlushPartial(ghost queue: seq<Frame>, ghost f: Frame)
      requires Holds(queue) && HoldsPartial(f) && pData != NULL
      modifies `memory
      ensures Holds(queue) && Range(Seen(), writePos, nLength) == f.bytes
    {
      hide FrameBytes, Queued, Range;
      FlushSbmData();
      if needsFlush {
        OverwrittenBehind(old(memory), memory, readPos, used, f.bytes);
      }
    }

    // SbmAddStream: queue the partial frame and move on behind it.
    method SbmAddStream(ghost queue: seq<Frame>, ghost f: Frame)
      requires Holds(queue) && HoldsPartial(f)
      requires Range(Seen(), writePos, nLength) == f.bytes
      modifies `writePos, `used, `fifo
      ensures Holds(queue + [f])
      ensures writePos == old(Next()) && used == old(used) + nLength
    {
      StoredOneMore(ring[..], Seen(), readPos, used, writePos, fifo, queue, pData, f);
      assert 0 < ring.Length && writePos < ring.Length;
      hide Stored, Range;
      fifo := fifo + [Slot(pData, nLength, nPts)];
      writePos := Wrap(writePos + nLength, ring.Length);
      used := used + nLength;
    }

    // What is submitted: n bytes right behind the partial frame, or nothing at all.
    ghost predicate Filled(f: Frame, at: int, bytes: seq<byte>)
      requires HoldsPartial(f)
      reads this, ring
    {
      && (at == NULL ==> bytes == []) && (at != NULL ==> at == Next())
      && used + nLength + |bytes| <= ring.Length && Range(ring[..], Next(), |bytes|) == bytes
    }

    // A first part: hand on what is left of the frame before, and start anew.
    method BeginFrame(at: int, n: nat, pts: int, ghost queue: seq<Frame>, ghost f: Frame, ghost bytes: seq<byte>)
      requires Holds(queue) && HoldsPartial(f) && Filled(f, at, bytes) && n == |bytes|
      modifies `memory, `writePos, `used, `fifo, `pData, `nLength, `nPts
      ensures Holds(queue + if f.bytes != [] then [f] else [])
      ensures HoldsPartial(Frame(bytes, pts)) && pData == at
    {
      hide Stored, Range;
      if nLength != 0 {
        FlushPartial(queue, f);
        SbmAddStream(queue, f);
      } else {
        assert queue + [] == queue;
      }
      pData := at;
      nLength := n;
      nPts := pts;
    }

    method ExtendFrame(at: int, n: nat, pts: int, ghost f: Frame, ghost bytes: seq<byte>)
      requires HoldsPartial(f) && Filled(f, at, bytes) && n == |bytes|
      modifies `pData, `nLength, `nPts
      ensures HoldsPartial(Frame(f.bytes + bytes, if f.pts == UNKNOWN then pts else f.pts))
      ensures pData == if old(pData) == NULL then at else old(pData)
    {
      PartialOneMore(ring[..], used, writePos, pData, f.bytes, at, bytes);
      hide Range, Partial;
      if pData == NULL {
        pData := at;
      }
      nLength := nLength + n;
      if nPts == -1 && pts != -1 {
        nPts := pts;
      }
    }

    method EndFrame(ghost queue: seq<Frame>, ghost f: Frame)
      requires Holds(queue) && HoldsPartial(f)
      modifies `memory, `writePos, `used, `fifo, `pData, `nLength, `nPts
      ensures Holds(queue + [f]) && HoldsPartial(NOTHING) && pData == NULL
    {
      if pData != NULL && nLength != 0 {
        FlushPartial(queue, f);
      } else {
        EmptyRange(Seen(), writePos);
      }
      hide Stored, Range;
      SbmAddStream(queue, f);
      pData := NULL;
      nLength := 0;
      nPts := -1;
      EmptyRange(ring[..], writePos);
    }

    // Submit the n bytes filled in at `at` as a part of a frame.
    method SubmitVideoStreamData(at: int, n: nat, pts: int, first: bool, last: bool, ghost bytes: seq<byte>)
      requires Valid() && Filled(pending, at, bytes) && n == |bytes|
      modifies `memory, `writePos, `used, `fifo, `pData, `nLength, `nPts, `submitted, `handed, `pending
      ensures Valid() && submitted == old(submitted) + [Part(bytes, pts, first, last)]
      ensures handed == old(handed) + Completed(old(pending), Part(bytes, pts, first, last))
      ensures pData == if last then NULL else if first || old(pData) == NULL then at else old(pData)
    {
      hide Stored, Range, HoldsPartial, Holds, Accounted;
      ghost var part := Part(bytes, pts, first, last);
      ghost var queue, f := handed[|played|..], Extended(pending, part);
      ghost var cut := if first && pending.bytes != [] then [pending] else [];
      OnePartMore(submitted, handed, pending, initial, |played|, part);
      if first {
        BeginFrame(at, n, pts, queue, pending, bytes);
      } else {
        ExtendFrame(at, n, pts, pending, bytes);
        assert queue + [] == queue;
      }
      if last {
        EndFrame(queue + cut, f);
      }
      submitted := submitted + [part];
      handed := handed + Completed(pending, part);
      pending := if last then NOTHING else f;
    }

    // The parser writes into the room it was given, first to the end of the buffer
    // and then from its beginning.
    method WriteRoom(bytes: seq<byte>, buf: nat, n: nat)
      requires n <= |bytes| <= ring.Length && buf + n <= ring.Length && |bytes| - n <= buf
      modifies ring
      ensures forall i | 0 <= i < ring.Length ::
        ring[..][i] == if buf <= i < buf + n then bytes[i - buf]
                       else if i < |bytes| - n then bytes[n + i] else old(ring[..])[i]
    {
      forall i | 0 <= i < n {
        ring[buf + i] := bytes[i];
      }
      forall i | n <= i < |bytes| {
        ring[i - n] := bytes[i];
      }
    }

    method Fill(bytes: seq<byte>, buf: nat, bufSize: nat, ringBufSize: nat)
      requires Valid() && buf == Next() && |bytes| <= bufSize + ringBufSize
      requires used + nLength + bufSize + ringBufSize <= ring.Length
      requires bufSize <= ring.Length - buf && (ringBufSize > 0 ==> buf + bufSize == ring.Length)
      modifies ring
      ensures Valid() && Filled(pending, buf, bytes)
    {
      hide Accounted, Range, Queued, FrameBytes;
      ghost var ring0, seen0, queue := ring[..], Seen(), handed[|played|..];
      var n := if |bytes| <= bufSize then |bytes| else bufSize;
      WriteRoom(bytes, buf, n);
      FillKeeps(ring0, ring[..], readPos, used, nLength, buf, n, bytes);
      StoredElsewhere(ring0, seen0, ring[..], Seen(), readPos, used, writePos, fifo, queue);
      assert HoldsPartial(pending);
      hide Stored;
      assert Holds(queue);
    }

    // The video engine takes the oldest frame and reads it; then its room is free.
    method TakeFrame() returns (slot: Slot)
      requires Valid() && fifo != []
      modifies `used, `fifo, `played, `readPos
      ensures Valid() && slot == old(fifo[0]) && used == old(used) - slot.len
      ensures |old(played)| < |handed| && played == old(played) + [handed[|old(played)|]]
    {
      hide Range, Accounted, Stored;
      InBounds();
      ghost var queue := handed[|played|..];
      StoredOneLess(ring[..], Seen(), readPos, used, writePos, fifo, queue);
      slot := fifo[0];
      assert queue[0] == handed[|played|] && queue[1..] == handed[|played| + 1..];
      var data := if slot.len == 0 then [] else Range(Seen(), slot.pos, slot.len);
      played := played + [Frame(data, slot.pts)];
      fifo := fifo[1..];
      used := used - slot.len;
      readPos := Wrap(readPos + slot.len, ring.Length);
    }

    method SbmReset(at: nat)
      requires 0 < ring.Length == |memory| && at < ring.Length
      modifies `writePos, `used, `fifo, `readPos
      ensures Holds([]) && writePos == at && used == 0
    {
      NothingStored(ring[..], Seen(), at);
      hide Stored;
      writePos, used, fifo := at, 0, [];
      readPos := at;
    }

    // The queue and the partial frame are dropped, and its time stamp becomes 0.
    method Reset(at: nat)
      requires Valid() && at < ring.Length
      modifies `writePos, `used, `fifo, `readPos, `pData, `nLength, `nPts,
               `submitted, `handed, `played, `initial, `pending
      ensures Valid() && submitted == [] && played == [] && pending == initial == AFTER_RESET && pData == NULL
    {
      hide Stored, Accounted, Range;
      InBounds();
      SbmReset(at);
      NothingYet(ring[..], at);
      pData, nLength, nPts := NULL, 0, 0; // memset
      played, submitted, handed := [], [], [];
      initial, pending := AFTER_RESET, AFTER_RESET;
      assert handed[|played|..] == [];
      hide Partial;
    }
  }

  lemma FrameBytesOfNone()
    ensures FrameBytes([]) == []
  {
  }

  lemma NothingYet(ring: seq<byte>, at: nat)
    requires at < |ring|
    ensures Partial(ring, 0, at, NULL, []) && Accounted([], [], AFTER_RESET, AFTER_RESET)
  {
    EmptyRange(ring, at);
  }

  lemma EmptyRange(ring: seq<byte>, at: nat)
    requires at < |ring|
    ensures Range(ring, at, 0) == []
  {
  }
}
