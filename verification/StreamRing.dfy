// Ranges of a ring buffer, and the frames a sequence of submitted parts stands for.
module StreamRing {
  import opened Bytes

  // ----- Ranges of a ring -----

  function Wrap(x: nat, size: nat): (r: nat)
    requires x < 2 * size
    ensures r < size
  {
    if x >= size then x - size else x
  }

  // The n bytes from `start` on, going round at the end.
  function Range(ring: seq<byte>, start: nat, n: nat): (r: seq<byte>)
    requires start < |ring| && n <= |ring|
    ensures |r| == n && forall i | 0 <= i < n :: r[i] == ring[Wrap(start + i, |ring|)]
  {
    seq(n, i requires 0 <= i < n => ring[Wrap(start + i, |ring|)])
  }

  lemma RangeInTwo(ring: seq<byte>, start: nat, a: nat, b: nat)
    requires start < |ring| && a + b <= |ring|
    ensures Range(ring, start, a + b) == Range(ring, start, a) + Range(ring, Wrap(start + a, |ring|), b)
  {
  }

  // The same bytes as at most two stretches of the buffer.
  lemma RangeAsStretches(ring: seq<byte>, start: nat, n: nat)
    requires start < |ring| && n <= |ring|
    ensures Range(ring, start, n) ==
      if start + n <= |ring| then ring[start..start + n]
      else ring[start..] + ring[..start + n - |ring|]
  {
  }

  // `after` is `before` with `bytes` put into the ring from `at` on.
  ghost predicate Overwritten(before: seq<byte>, after: seq<byte>, at: nat, bytes: seq<byte>)
    requires at < |before| && |bytes| <= |before|
  {
    && |after| == |before| && Range(after, at, |bytes|) == bytes
    && var behind := Wrap(at + |bytes|, |before|);
      Range(after, behind, |before| - |bytes|) == Range(before, behind, |before| - |bytes|)
  }

  // Writing behind a range leaves the range alone.
  lemma OverwrittenBehind(before: seq<byte>, after: seq<byte>, start: nat, n: nat, bytes: seq<byte>)
    requires start < |before| && n + |bytes| <= |before|
    requires Overwritten(before, after, Wrap(start + n, |before|), bytes)
    ensures Range(after, start, n) == Range(before, start, n)
  {
    var size, m := |before|, |bytes|;
    var at := Wrap(start + n, size);
    var behind := Wrap(at + m, size);
    forall i | 0 <= i < n ensures Range(after, start, n)[i] == Range(before, start, n)[i] {
      var k := size - m - n + i;
      assert Wrap(behind + k, size) == Wrap(start + i, size);
      assert Range(after, behind, size - m)[k] == Range(before, behind, size - m)[k];
    }
  }

  // ----- Frames from parts -----

  // One submission: the bytes of a part, its time stamp (-1: unknown), and whether
  // it begins and ends a frame.
  datatype Part = Part(bytes: seq<byte>, pts: int, first: bool, last: bool)

  datatype Frame = Frame(bytes: seq<byte>, pts: int)

  // The frames handed on and the one under assembly.
  datatype Assembly = Assembly(frames: seq<Frame>, pending: Frame)

  const UNKNOWN := -1
  const NOTHING := Frame([], UNKNOWN)

  // What a part makes of the frame under assembly.
  function Extended(f: Frame, p: Part): Frame {
    if p.first then Frame(p.bytes, p.pts)
    else Frame(f.bytes + p.bytes, if f.pts == UNKNOWN then p.pts else f.pts)
  }

  // The frames a part completes: an unfinished one that the next frame's first part
  // cuts off, and the one it ends.
  function Completed(f: Frame, p: Part): seq<Frame> {
    (if p.first && f.bytes != [] then [f] else []) + (if p.last then [Extended(f, p)] else [])
  }

  function Step(s: Assembly, p: Part): Assembly {
    Assembly(s.frames + Completed(s.pending, p), if p.last then NOTHING else Extended(s.pending, p))
  }

  function Assemble(parts: seq<Part>, from: Assembly): Assembly {
    if parts == [] then from else Assemble(parts[1..], Step(from, parts[0]))
  }

  function PartBytes(parts: seq<Part>): seq<byte> {
    if parts == [] then [] else parts[0].bytes + PartBytes(parts[1..])
  }

  function FrameBytes(frames: seq<Frame>): seq<byte> {
    if frames == [] then [] else frames[0].bytes + FrameBytes(frames[1..])
  }

  lemma {:induction false} FrameBytesOfTwo(a: seq<Frame>, b: seq<Frame>)
    ensures FrameBytes(a + b) == FrameBytes(a) + FrameBytes(b)
  {
    if a == [] {
      assert a + b == b;
    } else {
      assert (a + b)[1..] == a[1..] + b;
      FrameBytesOfTwo(a[1..], b);
    }
  }

  lemma FrameBytesOfOne(given: bool, f: Frame)
    ensures FrameBytes(if given then [f] else []) == if given then f.bytes else []
  {
    assert [f][1..] == [] && f.bytes + [] == f.bytes;
  }

  lemma StepConserves(s: Assembly, p: Part)
    ensures var t := Step(s, p);
      FrameBytes(t.frames) + t.pending.bytes == (FrameBytes(s.frames) + s.pending.bytes) + p.bytes
  {
    var f, e := s.pending, Extended(s.pending, p);
    var cut, done := if p.first && f.bytes != [] then [f] else [], if p.last then [e] else [];
    var b, left := FrameBytes(s.frames), Step(s, p).pending.bytes;
    FrameBytesOfTwo(s.frames, cut + done);
    FrameBytesOfTwo(cut, done);
    FrameBytesOfOne(p.first && f.bytes != [], f);
    FrameBytesOfOne(p.last, e);
    hide FrameBytes;
    assert FrameBytes(done) + left == e.bytes;
    assert FrameBytes(cut) + e.bytes == f.bytes + p.bytes;
    assert s.frames + Completed(f, p) == s.frames + (cut + done);
    Regroup(b, FrameBytes(cut), FrameBytes(done), left, f.bytes, p.bytes);
  }

  lemma Regroup(b: seq<byte>, cut: seq<byte>, done: seq<byte>, left: seq<byte>, f: seq<byte>, p: seq<byte>)
    requires cut + (done + left) == f + p
    ensures (b + (cut + done)) + left == (b + f) + p
  {
    assert (b + (cut + done)) + left == b + (cut + (done + left));
  }

  // Every byte submitted is in one frame handed on or still pending, in order, once.
  lemma {:induction false} Conservation(parts: seq<Part>, from: Assembly)
    ensures var s := Assemble(parts, from);
      FrameBytes(s.frames) + s.pending.bytes == FrameBytes(from.frames) + from.pending.bytes + PartBytes(parts)
  {
    if parts != [] {
      StepConserves(from, parts[0]);
      Conservation(parts[1..], Step(from, parts[0]));
      var b := FrameBytes(from.frames) + from.pending.bytes;
      assert (b + parts[0].bytes) + PartBytes(parts[1..]) == b + PartBytes(parts);
    }
  }

  lemma {:induction false} AssembleInTwo(a: seq<Part>, b: seq<Part>, from: Assembly)
    ensures Assemble(a + b, from) == Assemble(b, Assemble(a, from))
  {
    if a == [] {
      assert a + b == b;
    } else {
      assert (a + b)[1..] == a[1..] + b;
      AssembleInTwo(a[1..], b, Step(from, a[0]));
    }
  }

  // ----- A parser that marks its frames -----

  // The parts of one frame: only the last one is marked last.
  ghost predicate EndsOnce(parts: seq<Part>) {
    parts != [] && forall i | 0 <= i < |parts| :: parts[i].last == (i == |parts| - 1)
  }

  ghost predicate FirstOnlyAtFront(parts: seq<Part>) {
    forall i | 1 <= i < |parts| :: !parts[i].first
  }

  function FirstStamp(parts: seq<Part>): int {
    if parts == [] then UNKNOWN
    else if parts[0].pts != UNKNOWN then parts[0].pts
    else FirstStamp(parts[1..])
  }

  // The frame such parts stand for: their bytes, and the first time stamp given.
  function FrameOf(parts: seq<Part>): Frame { Frame(PartBytes(parts), FirstStamp(parts)) }

  // One frame's parts, met in the middle of the frame.
  lemma {:induction false} AssembleTail(parts: seq<Part>, from: Assembly)
    requires EndsOnce(parts) && forall p | p in parts :: !p.first
    ensures Assemble(parts, from) == Assembly(
      from.frames + [Frame(from.pending.bytes + PartBytes(parts),
                           if from.pending.pts == UNKNOWN then FirstStamp(parts) else from.pending.pts)],
      NOTHING)
  {
    var p, s := parts[0], Step(from, parts[0]);
    assert !p.first;
    if |parts| == 1 {
      assert parts[1..] == [] && p.last;
      assert PartBytes(parts) == p.bytes + [] == p.bytes;
      assert FirstStamp(parts) == p.pts;
    } else {
      assert !p.last;
      assert s.frames == from.frames;
      AssembleTail(parts[1..], s);
      assert (from.pending.bytes + p.bytes) + PartBytes(parts[1..]) == from.pending.bytes + PartBytes(parts);
    }
  }

  // A frame that begins with a first part comes out whole, with its time stamp,
  // whatever state the assembly is in; a frame left unfinished before it is handed
  // on by itself.
  lemma AssembleFrame(parts: seq<Part>, from: Assembly)
    requires Marked(parts)
    ensures Assemble(parts, from) == Assembly(
      from.frames + (if from.pending.bytes != [] then [from.pending] else []) + [FrameOf(parts)], NOTHING)
  {
    var p, s := parts[0], Step(from, parts[0]);
    var cut := if from.pending.bytes != [] then [from.pending] else [];
    if |parts| == 1 {
      assert parts[1..] == [] && p.last;
      assert PartBytes(parts) == p.bytes + [] == p.bytes;
      assert FirstStamp(parts) == p.pts;
      assert from.frames + (cut + [FrameOf(parts)]) == from.frames + cut + [FrameOf(parts)];
    } else {
      assert !p.last;
      assert s == Assembly(from.frames + (cut + []), Frame(p.bytes, p.pts));
      AssembleTail(parts[1..], s);
    }
  }

  // One frame as such a parser submits it.
  ghost predicate Marked(parts: seq<Part>) {
    EndsOnce(parts) && FirstOnlyAtFront(parts) && parts[0].first
  }

  function Concat(frames: seq<seq<Part>>): seq<Part> {
    if frames == [] then [] else frames[0] + Concat(frames[1..])
  }

  function FramesOf(frames: seq<seq<Part>>): (r: seq<Frame>)
    ensures |r| == |frames| && forall i | 0 <= i < |r| :: r[i] == FrameOf(frames[i])
  {
    seq(|frames|, i requires 0 <= i < |frames| => FrameOf(frames[i]))
  }

  // A parser that marks the first and the last part of every frame gets exactly its
  // frames handed on.
  lemma {:induction false} AssembleFrames(frames: seq<seq<Part>>, done: seq<Frame>)
    requires forall f | f in frames :: Marked(f)
    ensures Assemble(Concat(frames), Assembly(done, NOTHING)) == Assembly(done + FramesOf(frames), NOTHING)
  {
    if frames == [] {
      assert done + FramesOf(frames) == done;
    } else {
      hide PartBytes, FirstStamp, Assemble, Step, Marked;
      var f, done' := frames[0], done + [FrameOf(frames[0])];
      assert f in frames;
      AssembleInTwo(f, Concat(frames[1..]), Assembly(done, NOTHING));
      AssembleFrame(f, Assembly(done, NOTHING));
      assert done + [] + [FrameOf(f)] == done';
      AssembleFrames(frames[1..], done');
      assert done' + FramesOf(frames[1..]) == done + FramesOf(frames);
    }
  }

  // ----- Resetting the decoder -----

  // Reset leaves time stamp 0 where a finished frame leaves "unknown".
  const AFTER_RESET := Frame([], 0)

  // The parts that go into the frame under assembly: up to the next first part, or up
  // to and with the next last one.
  function Leading(parts: seq<Part>): (n: nat)
    ensures n <= |parts|
  {
    if parts == [] || parts[0].first then 0
    else if parts[0].last then 1
    else 1 + Leading(parts[1..])
  }

  // That frame is begun anew before anything has been put into it.
  predicate Dropped(parts: seq<Part>, bytes: seq<byte>) {
    var n := Leading(parts);
    n < |parts| && (n > 0 ==> !parts[n - 1].last) && bytes + PartBytes(parts[..n]) == []
  }

  lemma LeadingOneMore(parts: seq<Part>, bytes: seq<byte>)
    requires parts != [] && !parts[0].first && !parts[0].last
    ensures var p, n := parts[0], Leading(parts);
      && n == 1 + Leading(parts[1..]) && parts[..n][1..] == parts[1..][..n - 1]
      && (Dropped(parts, bytes) <==> Dropped(parts[1..], bytes + p.bytes))
  {
    var p, n := parts[0], Leading(parts);
    assert parts[..n][1..] == parts[1..][..n - 1];
    assert bytes + PartBytes(parts[..n]) == (bytes + p.bytes) + PartBytes(parts[1..][..n - 1]);
    assert n > 1 ==> parts[n - 1] == parts[1..][n - 2];
  }

  // Two time stamps for the frame under assembly make a difference unless that frame is
  // dropped.
  lemma {:induction false} StampsDiffer(parts: seq<Part>, done: seq<Frame>, bytes: seq<byte>, u: int, v: int)
    requires u != v && u != UNKNOWN && v != UNKNOWN
    ensures Assemble(parts, Assembly(done, Frame(bytes, u))) == Assemble(parts, Assembly(done, Frame(bytes, v)))
       <==> Dropped(parts, bytes)
  {
    if parts == [] {
    } else if parts[0].first || parts[0].last {
      FirstStepDiffers(parts, done, bytes, u, v);
    } else {
      LeadingOneMore(parts, bytes);
      assert done + [] == done;
      StampsDiffer(parts[1..], done, bytes + parts[0].bytes, u, v);
    }
  }

  // A step that ends the frame under assembly: the assembly is the same afterwards, and
  // so is whatever follows, exactly if the frame is dropped.
  lemma FirstStepDiffers(parts: seq<Part>, done: seq<Frame>, bytes: seq<byte>, u: int, v: int)
    requires parts != [] && (parts[0].first || parts[0].last) && u != v
    requires !parts[0].first ==> Extended(Frame(bytes, u), parts[0]) != Extended(Frame(bytes, v), parts[0])
    ensures Assemble(parts, Assembly(done, Frame(bytes, u))) == Assemble(parts, Assembly(done, Frame(bytes, v)))
       <==> Dropped(parts, bytes)
  {
    var p := parts[0];
    var f, g := Frame(bytes, u), Frame(bytes, v);
    var s, t := Step(Assembly(done, f), p), Step(Assembly(done, g), p);
    assert bytes + PartBytes([]) == bytes;
    assert p.first ==> parts[..Leading(parts)] == [];
    if p.first && bytes == [] {
      assert s == t;
    } else {
      var a, b := if p.first then f else Extended(f, p), if p.first then g else Extended(g, p);
      assert s.frames[|done|] == a && t.frames[|done|] == b;
      AssembleKeepsFrames(parts[1..], s);
      AssembleKeepsFrames(parts[1..], t);
    }
  }

  lemma {:induction false} AssembleKeepsFrames(parts: seq<Part>, from: Assembly)
    ensures from.frames <= Assemble(parts, from).frames
  {
    if parts != [] {
      AssembleKeepsFrames(parts[1..], Step(from, parts[0]));
    }
  }

  // After a reset everything comes out as after a finished frame exactly if the frame
  // under assembly is first given the time stamp 0, or is begun anew before anything
  // has been put into it (which is so if the run begins with a first part).
  lemma ResetStampIff(parts: seq<Part>, done: seq<Frame>)
    ensures Assemble(parts, Assembly(done, AFTER_RESET)) == Assemble(parts, Assembly(done, NOTHING))
       <==> FirstStamp(parts[..Leading(parts)]) == 0 || Dropped(parts, [])
  {
    StampLostIff(parts, done, []);
  }

  lemma {:induction false} StampLostIff(parts: seq<Part>, done: seq<Frame>, bytes: seq<byte>)
    ensures Assemble(parts, Assembly(done, Frame(bytes, 0))) == Assemble(parts, Assembly(done, Frame(bytes, UNKNOWN)))
       <==> FirstStamp(parts[..Leading(parts)]) == 0 || Dropped(parts, bytes)
  {
    var n := Leading(parts);
    if parts == [] || parts[0].first {
      assert parts[..n] == [];
      if parts != [] {
        FirstStepDiffers(parts, done, bytes, 0, UNKNOWN);
      }
    } else if parts[0].last {
      StampLostAtOnce(parts, done, bytes);
    } else {
      var p := parts[0];
      LeadingOneMore(parts, bytes);
      assert done + [] == done;
      assert parts[..n] != [] && parts[..n][0] == p;
      assert FirstStamp(parts[..n]) == if p.pts != UNKNOWN then p.pts else FirstStamp(parts[1..][..n - 1]);
      assert Step(Assembly(done, Frame(bytes, 0)), p) == Assembly(done, Frame(bytes + p.bytes, 0));
      assert Step(Assembly(done, Frame(bytes, UNKNOWN)), p) == Assembly(done, Frame(bytes + p.bytes, p.pts));
      if p.pts == UNKNOWN {
        StampLostIff(parts[1..], done, bytes + p.bytes);
      } else if p.pts != 0 {
        StampsDiffer(parts[1..], done, bytes + p.bytes, 0, p.pts);
      }
    }
  }

  lemma StampLostAtOnce(parts: seq<Part>, done: seq<Frame>, bytes: seq<byte>)
    requires parts != [] && !parts[0].first && parts[0].last
    ensures Assemble(parts, Assembly(done, Frame(bytes, 0))) == Assemble(parts, Assembly(done, Frame(bytes, UNKNOWN)))
       <==> FirstStamp(parts[..Leading(parts)]) == 0 || Dropped(parts, bytes)
  {
    var p := parts[0];
    assert parts[..1] == [p] && FirstStamp([p][1..]) == UNKNOWN;
    if p.pts != 0 {
      FirstStepDiffers(parts, done, bytes, 0, UNKNOWN);
    }
  }

  lemma ResetLosesAStamp()
    ensures var parts := [Part([1, 2, 3], 40, false, true)];
      && Assemble(parts, Assembly([], NOTHING)).frames == [Frame([1, 2, 3], 40)]
      && Assemble(parts, Assembly([], AFTER_RESET)).frames == [Frame([1, 2, 3], 0)]
  {
    var parts := [Part([1, 2, 3], 40, false, true)];
    AssembleTail(parts, Assembly([], NOTHING));
    AssembleTail(parts, Assembly([], AFTER_RESET));
    assert parts[1..] == [] && PartBytes(parts) == [1, 2, 3] + [];
    assert [] + PartBytes(parts) == [1, 2, 3];
  }
}
