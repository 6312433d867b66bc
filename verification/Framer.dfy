// What the packet receiver of the PQ daemon computes: a stream of bytes is cut
// into packets by a parser that resynchronises on a magic word.  This is the
// one-shot reference for the incremental receiver of module PqServer.
module Framer {
  import opened Bytes

  const HEADER_SIZE := 10 // magic:4, cmd:1, type:1, size:4, packed
  const PACKET_MAGIC: int32 := 0x5150_5741
  const MAGIC_BYTES: seq<byte> := [0x41, 0x57, 0x50, 0x51] // "AWPQ"

  predicate HasMagic(s: seq<byte>)
    requires |s| >= 4
  {
    s[..4] == MAGIC_BYTES
  }

  function SizeField(s: seq<byte>): int32
    requires |s| >= HEADER_SIZE
  {
    Word(s[6..10])
  }

  // The two ways the receiver looks at the magic agree: bytewise when it hunts
  // for a header, as a little-endian word once it has one.
  lemma MagicWordIsMagicBytes(s: seq<byte>)
    requires |s| >= 4
    ensures Word(s[..4]) == PACKET_MAGIC <==> HasMagic(s)
  {
    assert Word(MAGIC_BYTES) == PACKET_MAGIC;
    WordIsInjective(s[..4], MAGIC_BYTES);
  }

  // ----- The reference parser -----

  // How many bytes the parser takes off the front of s: a whole packet, one byte
  // of rubbish, or none when the packet is incomplete or its size field is not
  // positive.
  function Take(s: seq<byte>): (n: nat)
    ensures n <= |s|
  {
    if |s| < HEADER_SIZE then 0
    else if !HasMagic(s) then 1
    else if 1 <= SizeField(s) <= |s| then SizeField(s)
    else 0
  }

  // The complete packets of a stream.
  function Packets(s: seq<byte>): seq<seq<byte>>
    decreases |s|
  {
    var n := Take(s);
    if n == 0 then []
    else (if HasMagic(s) then [s[..n]] else []) + Packets(s[n..])
  }

  // What is left behind them.
  function Rest(s: seq<byte>): seq<byte>
    decreases |s|
  {
    var n := Take(s);
    if n == 0 then s else Rest(s[n..])
  }

  // The parser ends at a header whose size field is not positive.
  predicate Stuck(s: seq<byte>) {
    var r := Rest(s);
    |r| >= HEADER_SIZE && HasMagic(r) && SizeField(r) < 1
  }

  // Parsing s yields the packets `out` and then whatever parsing t yields.
  ghost predicate Continues(s: seq<byte>, out: seq<seq<byte>>, t: seq<byte>) {
    Packets(s) == out + Packets(t) && Rest(s) == Rest(t)
  }

  lemma ContinuesTwice(s: seq<byte>, a: seq<seq<byte>>, t: seq<byte>, b: seq<seq<byte>>, u: seq<byte>)
    requires Continues(s, a, t) && Continues(t, b, u)
    ensures Continues(s, a + b, u)
  {
    assert a + (b + Packets(u)) == (a + b) + Packets(u);
  }

  lemma TakeContinues(s: seq<byte>)
    ensures var n := Take(s);
      Continues(s, if n > 0 && HasMagic(s) then [s[..n]] else [], s[n..])
  {
    assert s[0..] == s;
  }

  lemma {:induction false} RestTakesNothing(s: seq<byte>)
    ensures Take(Rest(s)) == 0 && Continues(s, Packets(s), Rest(s))
    ensures |Rest(s)| <= |s|
    decreases |s|
  {
    if Take(s) > 0 {
      RestTakesNothing(s[Take(s)..]);
    }
  }

  // The header that begins s is the header that begins s + t.
  lemma HeaderOfLonger(s: seq<byte>, t: seq<byte>)
    requires |s| >= HEADER_SIZE
    ensures HasMagic(s + t) == HasMagic(s) && SizeField(s + t) == SizeField(s)
    ensures Take(s) > 0 ==> Take(s + t) == Take(s)
  {
    assert (s + t)[..4] == s[..4] && (s + t)[6..10] == s[6..10];
  }

  lemma SplitOfLonger(s: seq<byte>, t: seq<byte>, n: nat)
    requires n <= |s|
    ensures (s + t)[..n] == s[..n] && (s + t)[n..] == s[n..] + t
  {
  }

  lemma SplitBeyond(s: seq<byte>, t: seq<byte>, n: nat)
    requires n <= |t|
    ensures (s + t)[..|s| + n] == s + t[..n] && (s + t)[|s| + n..] == t[n..]
  {
  }

  // Parsing is online: what is left over from one stretch of the stream,
  // followed by more bytes, parses to what is still missing.
  lemma {:induction false} ParseAppend(s: seq<byte>, t: seq<byte>)
    ensures Continues(s + t, Packets(s), Rest(s) + t)
    decreases |s|
  {
    var n := Take(s);
    if n > 0 {
      HeaderOfLonger(s, t);
      SplitOfLonger(s, t, n);
      ParseAppend(s[n..], t);
      TakeContinues(s + t);
      ContinuesTwice(s + t, if HasMagic(s) then [s[..n]] else [], s[n..] + t,
                     Packets(s[n..]), Rest(s[n..]) + t);
    }
  }

  // A stuck parse stays stuck whatever follows.
  lemma StuckStaysStuck(s: seq<byte>, t: seq<byte>)
    requires Stuck(s)
    ensures Stuck(s + t)
  {
    ParseAppend(s, t);
    HeaderOfLonger(Rest(s), t);
  }

  ghost predicate WellFormedPacket(p: seq<byte>) {
    |p| >= HEADER_SIZE && HasMagic(p) && SizeField(p) == |p|
  }

  function Flatten(parts: seq<seq<byte>>): seq<byte> {
    if parts == [] then [] else parts[0] + Flatten(parts[1..])
  }

  lemma {:induction false} FlattenSnoc(a: seq<seq<byte>>, b: seq<byte>)
    ensures Flatten(a + [b]) == Flatten(a) + b
  {
    if a == [] {
      assert a + [b] == [b] && Flatten([]) == [];
    } else {
      assert (a + [b])[1..] == a[1..] + [b];
      FlattenSnoc(a[1..], b);
    }
  }

  lemma {:induction false} FlattenSplit(a: seq<seq<byte>>, k: nat)
    requires k <= |a|
    ensures Flatten(a) == Flatten(a[..k]) + Flatten(a[k..])
  {
    if k > 0 {
      assert a[1..][..k - 1] == a[..k][1..] && a[1..][k - 1..] == a[k..];
      FlattenSplit(a[1..], k - 1);
    } else {
      assert a[k..] == a;
    }
  }

  // A client that sends well-formed packets gets exactly those packets framed.
  lemma {:induction false} ParseOfWellFormedPackets(packets: seq<seq<byte>>)
    requires forall p | p in packets :: WellFormedPacket(p)
    ensures Packets(Flatten(packets)) == packets && Rest(Flatten(packets)) == []
  {
    if packets != [] {
      var p, more := packets[0], Flatten(packets[1..]);
      ParseOfWellFormedPackets(packets[1..]);
      assert WellFormedPacket(p);
      HeaderOfLonger(p, more);
      SplitOfLonger(p, more, |p|);
      TakeContinues(p + more);
      assert packets == [packets[0]] + packets[1..];
    }
  }

  // ----- What clients send -----

  // A command as its sender puts it on the wire: the magic, the command, a reserved byte,
  // the size of the whole packet with its low byte first, and the payload.
  datatype Command = Command(cmd: byte, kind: byte, payload: seq<byte>)

  // A packet's size is a C `int`.
  predicate Sendable(c: Command) { 10 + |c.payload| <= 0x7fff_ffff }

  function Wire(c: Command): (p: seq<byte>)
    requires Sendable(c)
    ensures |p| == 10 + |c.payload|
  {
    var n := 10 + |c.payload|;
    [0x41, 0x57, 0x50, 0x51, c.cmd, c.kind, n % 256, n / 256 % 256, n / 65536 % 256, n / 16777216] + c.payload
  }

  function Wires(commands: seq<Command>): (packets: seq<seq<byte>>)
    requires forall c | c in commands :: Sendable(c)
    ensures |packets| == |commands| && forall i | 0 <= i < |commands| :: packets[i] == Wire(commands[i])
  {
    seq(|commands|, i requires 0 <= i < |commands| => Wire(commands[i]))
  }

  lemma WireIsWellFormed(c: Command)
    requires Sendable(c)
    ensures WellFormedPacket(Wire(c))
  {
    var p, n := Wire(c), 10 + |c.payload|;
    LowByteFirst(n);
    assert p[6..10] == [n % 256, n / 256 % 256, n / 65536 % 256, n / 16777216];
    assert p[..4] == [0x41, 0x57, 0x50, 0x51];
  }

  // Whatever commands are sent, back to back, they come out one for one with nothing left
  // over.
  lemma CommandsAreFramed(commands: seq<Command>)
    requires forall c | c in commands :: Sendable(c)
    ensures Packets(Flatten(Wires(commands))) == Wires(commands) && Rest(Flatten(Wires(commands))) == []
  {
    forall p | p in Wires(commands) ensures WellFormedPacket(p) {
      var i :| 0 <= i < |commands| && Wires(commands)[i] == p;
      WireIsWellFormed(commands[i]);
    }
    ParseOfWellFormedPackets(Wires(commands));
  }

  // ----- The three-state receiver -----

  datatype Mode = Idle | Start | WaitPacket

  // What the hunt for the next header leaves.
  function Hunt(live: seq<byte>): (r: seq<byte>)
    ensures |r| <= |live|
  {
    if |live| >= HEADER_SIZE && !HasMagic(live) then Hunt(live[1..]) else live
  }

  lemma {:induction false} HuntSkipsNoPacket(live: seq<byte>)
    ensures Continues(live, [], Hunt(live))
    ensures |Hunt(live)| >= HEADER_SIZE ==> HasMagic(Hunt(live))
  {
    if |live| >= HEADER_SIZE && !HasMagic(live) {
      HuntSkipsNoPacket(live[1..]);
      TakeContinues(live);
    }
  }

  // Midway through a buffer: `done` has been handed on; the packet under
  // assembly and the live bytes are still to yield the rest of the reference
  // parse of `input`.
  ghost predicate OnTrack(input: seq<byte>, done: seq<seq<byte>>,
                          mode: Mode, partial: seq<byte>, need: int, live: seq<byte>)
  {
    && (mode != WaitPacket ==> partial == [])
    && (mode == Start ==> |live| >= HEADER_SIZE && HasMagic(live))
    && (mode == WaitPacket ==>
          |partial| >= HEADER_SIZE && HasMagic(partial) && need >= 1 && SizeField(partial) == |partial| + need)
    && Continues(input, done, partial + live)
  }

  // What a turn may rely on.
  lemma OnTrackFacts(input: seq<byte>, done: seq<seq<byte>>, mode: Mode, partial: seq<byte>, need: int, live: seq<byte>)
    requires OnTrack(input, done, mode, partial, need, live)
    ensures mode != WaitPacket ==> partial == []
    ensures mode == Start ==> |live| >= HEADER_SIZE && HasMagic(live)
    ensures mode == WaitPacket ==>
      |partial| >= HEADER_SIZE && HasMagic(partial) && need >= 1 && SizeField(partial) == |partial| + need
  {
  }

  // A turn of the receiver in each of its states.
  lemma OnTrackIdle(input: seq<byte>, done: seq<seq<byte>>, live: seq<byte>)
    requires OnTrack(input, done, Idle, [], 0, live)
    ensures OnTrack(input, done, if |Hunt(live)| >= HEADER_SIZE then Start else Idle, [], 0, Hunt(live))
  {
    var r := Hunt(live);
    HuntSkipsNoPacket(live);
    assert [] + live == live && [] + r == r;
    ContinuesTwice(input, done, live, [], r);
    assert done + [] == done;
  }

  lemma OnTrackStart(input: seq<byte>, done: seq<seq<byte>>, live: seq<byte>)
    requires OnTrack(input, done, Start, [], 0, live) && SizeField(live) >= 1
    ensures var n := SizeField(live);
      if n <= |live| then OnTrack(input, done + [live[..n]], Idle, [], 0, live[n..])
      else OnTrack(input, done, WaitPacket, live, n - |live|, [])
  {
    var n := SizeField(live);
    assert [] + live == live && live + [] == live;
    if n <= |live| {
      TakeContinues(live);
      ContinuesTwice(input, done, live, [live[..n]], live[n..]);
      assert [] + live[n..] == live[n..];
    }
  }

  // A header is stuck on exactly if the reference parse ends at it.
  lemma OnTrackStuck(input: seq<byte>, done: seq<seq<byte>>, live: seq<byte>)
    requires OnTrack(input, done, Start, [], 0, live)
    ensures !Stuck(input) ==> SizeField(live) >= 1
    ensures SizeField(live) < 1 ==> Rest(input) == live && done == Packets(input)
  {
    assert [] + live == live;
    assert done + [] == done;
  }

  lemma OnTrackWait(input: seq<byte>, done: seq<seq<byte>>, partial: seq<byte>, need: int, live: seq<byte>)
    requires OnTrack(input, done, WaitPacket, partial, need, live)
    ensures if need <= |live| then OnTrack(input, done + [partial + live[..need]], Idle, [], 0, live[need..])
            else OnTrack(input, done, WaitPacket, partial + live, need - |live|, [])
  {
    var all := partial + live;
    HeaderOfLonger(partial, live);
    if need <= |live| {
      SplitBeyond(partial, live, need);
      TakeContinues(all);
      ContinuesTwice(input, done, all, [partial + live[..need]], live[need..]);
      assert [] + live[need..] == live[need..];
    } else {
      assert all + [] == all;
    }
  }

  // While a header with a zero in its size field lies ahead, every turn leaves a header's
  // worth of bytes; and the turns end up at that header.
  lemma OnTrackToZero(input: seq<byte>, done: seq<seq<byte>>,
                      mode: Mode, partial: seq<byte>, need: int, live: seq<byte>)
    requires OnTrack(input, done, mode, partial, need, live) && (mode == WaitPacket ==> live == [])
    requires Stuck(input) && SizeField(Rest(input)) == 0
    ensures mode != WaitPacket && |live| >= HEADER_SIZE
    ensures mode == Start && SizeField(live) < 1 ==> live == Rest(input) && done == Packets(input)
  {
    assert live == [] ==> partial + live == partial;
    assert partial == [] ==> partial + live == live;
    RestTakesNothing(live);
    if mode == Start {
      OnTrackStuck(input, done, live);
    }
  }

  // Bytes left count first, then whether a header is still to be looked for.
  function Measure(live: int, mode: Mode): int { 2 * live + if mode == Idle then 1 else 0 }

  // The state between two reads.
  ghost predicate AtRest(mode: Mode, partial: seq<byte>, need: int, live: seq<byte>) {
    && mode != Start && |live| < HEADER_SIZE
    && (mode == Idle ==> partial == [])
    && (mode == WaitPacket ==>
          && |partial| >= HEADER_SIZE && HasMagic(partial)
          && need >= 1 && SizeField(partial) == |partial| + need && live == [])
  }

  // Between two reads nothing pending can be handed on.
  lemma AtRestTakesNothing(mode: Mode, partial: seq<byte>, need: int, live: seq<byte>)
    requires AtRest(mode, partial, need, live)
    ensures Take(partial + live) == 0 && |live| == if |partial + live| < HEADER_SIZE then |partial + live| else 0
  {
    assert partial + live == if mode == WaitPacket then partial else live;
  }

  lemma OnTrackBegin(mode: Mode, partial: seq<byte>, need: int, live: seq<byte>, bytes: seq<byte>)
    requires AtRest(mode, partial, need, live)
    ensures OnTrack(partial + live + bytes, [], mode, partial, need, live + bytes)
  {
    assert partial + live + bytes == partial + (live + bytes);
  }

  lemma OnTrackEnd(input: seq<byte>, done: seq<seq<byte>>,
                   mode: Mode, partial: seq<byte>, need: int, live: seq<byte>)
    requires OnTrack(input, done, mode, partial, need, live)
    requires |live| < HEADER_SIZE && (mode == WaitPacket ==> live == [])
    ensures AtRest(mode, partial, need, live)
    ensures done == Packets(input) && partial + live == Rest(input)
  {
    AtRestTakesNothing(mode, partial, need, live);
  }
}
