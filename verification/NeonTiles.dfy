// What the two NEON rotations share: eight by eight tiles go through the register
// networks, with source and destination pointers that step from tile to tile.
module NeonTiles {
  import opened Bytes
  import opened Raster
  import opened Samples
  import opened Interleave
  import opened Rotation
  import opened NeonTranspose

  // ----- Progress within a row of tiles -----

  // Turned so far: all lines above i, and of the next t lines the first j columns and
  // those from lo up to hi.
  ghost predicate ColumnsTo(src: seq<byte>, s: Area, dst: seq<byte>, d: Area, g: Angle, t: nat,
                            i: nat, j: nat, lo: nat, hi: nat)
  {
    forall y: nat, x: nat, b: nat {:trigger Sample(src, s, y, x, b)} |
      y < s.rows && x < s.cols && b < s.unit && (y < i || (y < i + t && (x < j || lo <= x < hi))) ::
      Sample(dst, d, ToRow(g, s.rows, s.cols, y, x), ToCol(g, s.rows, s.cols, y, x), b) == Sample(src, s, y, x, b)
  }

  ghost predicate TilesTo(src: seq<byte>, s: Area, dst: seq<byte>, d: Area, g: Angle, t: nat, i: nat, j: nat) {
    ColumnsTo(src, s, dst, d, g, t, i, j, j, j)
  }

  // ----- Registers -----

  // A register stored at line r from sample c on.
  ghost predicate RunSet(before: seq<byte>, after: seq<byte>, d: Area, r: nat, c: nat, v: seq<byte>) {
    && |after| == |before|
    && forall q | 0 <= q < |after| ::
      after[q] == if Pos(d, r, c, 0) <= q < Pos(d, r, c, 0) + |v| then v[q - Pos(d, r, c, 0)] else before[q]
  }

  // Byte b of sample u of a register.
  function Lane(v: seq<byte>, unit: Unit, u: nat, b: nat): byte {
    if unit * u + b < |v| then v[unit * u + b] else 0
  }

  // A register with column x of the tile: for By90 from the bottom up, for By270 from
  // the top down.
  ghost predicate Column(src: seq<byte>, s: Area, g: Angle, t: nat, i: nat, x: nat, v: seq<byte>) {
    && |v| == s.unit * t
    && forall u: nat, b: nat {:trigger Lane(v, s.unit, u, b)} | u < t && b < s.unit ::
      Lane(v, s.unit, u, b) == Sample(src, s, LaneLine(g, t, i, u), x, b)
  }

  function LaneLine(g: Angle, t: nat, i: nat, u: nat): nat {
    if g == By90 && u < t then i + (t - 1 - u) else i + u
  }

  // The column the k-th register holds, and where the first one is stored.
  function ColumnOf(g: Angle, t: nat, j: nat, k: nat): nat {
    if g == By90 || k >= t then j + k else j + (t - 1 - k)
  }

  function StartRow(g: Angle, s: Area, t: nat, j: nat): int { if g == By90 then j else s.cols - t - j }

  function StartCol(g: Angle, s: Area, t: nat, i: nat): int { if g == By90 then s.rows - t - i else i }

  lemma ColumnGoes(g: Angle, s: Area, t: nat, i: nat, j: nat, k: nat, u: nat)
    requires (g == By90 || g == By270) && k < t && u < t && i + t <= s.rows && j + t <= s.cols
    ensures ToRow(g, s.rows, s.cols, LaneLine(g, t, i, u), ColumnOf(g, t, j, k)) == StartRow(g, s, t, j) + k
    ensures ToCol(g, s.rows, s.cols, LaneLine(g, t, i, u), ColumnOf(g, t, j, k)) == StartCol(g, s, t, i) + u
  {
  }

  lemma RunAfter(before: seq<byte>, after: seq<byte>, d: Area, r: nat, c: nat, t: nat, v: seq<byte>,
                 y: nat, x: nat, b: nat)
    requires Within(d, |before|) && r < d.rows && c + t <= d.cols && |v| == d.unit * t
    requires RunSet(before, after, d, r, c, v) && y < d.rows && x < d.cols && b < d.unit
    ensures Sample(after, d, y, x, b) ==
            if y == r && c <= x < c + t then Lane(v, d.unit, x - c, b) else Sample(before, d, y, x, b)
  {
    var p, q := Pos(d, r, c, 0), Pos(d, y, x, b);
    PosInside(d, y, x, b, |before|);
    RunSpan(d, r, c, t, y, x, b, |before|);
    hide Pos;
  }

  lemma RunSpan(d: Area, r: nat, c: nat, t: nat, y: nat, x: nat, b: nat, size: nat)
    requires Within(d, size) && r < d.rows && c + t <= d.cols && x < d.cols && b < d.unit
    ensures var k := Pos(d, y, x, b) - Pos(d, r, c, 0);
      && (0 <= k < d.unit * t <==> y == r && c <= x < c + t)
      && (y == r && c <= x < c + t ==> k == d.unit * (x - c) + b)
  {
    var k := Pos(d, y, x, b) - Pos(d, r, c, 0);
    UnitFits(d.unit, x, d.cols, b);
    if 0 <= k < d.unit * t {
      if d.unit == 2 {
        assert 2 * c + k < 2 * d.cols;
        DivMod(d.stride, y, 2 * x + b, r, 2 * c + k);
      } else {
        DivMod(d.stride, y, x + b, r, c + k);
      }
    }
  }

  lemma RunOnlyArea(before: seq<byte>, mid: seq<byte>, after: seq<byte>, d: Area, r: nat, c: nat, t: nat, v: seq<byte>)
    requires Within(d, |before|) && r < d.rows && c + t <= d.cols && |v| == d.unit * t && t > 0
    requires OnlyArea(d, before, mid) && RunSet(mid, after, d, r, c, v)
    ensures OnlyArea(d, before, after)
  {
    PosInside(d, r, c, 0, |before|);
    PosInside(d, r, c + t - 1, d.unit - 1, |before|);
    RunSpan(d, r, c, t, r, c + t - 1, d.unit - 1, |before|);
    hide Pos;
  }

  // Storing a register completes its column.
  lemma OneRegister(src: seq<byte>, s: Area, mid: seq<byte>, after: seq<byte>, d: Area, g: Angle,
                    t: nat, i: nat, j: nat, k: nat, lo: nat, hi: nat, lo': nat, hi': nat, v: seq<byte>)
    requires (g == By90 || g == By270) && Receives(d, s, g) && Within(d, |mid|)
    requires i + t <= s.rows && j + t <= s.cols && k < t
    requires ColumnsTo(src, s, mid, d, g, t, i, j, lo, hi)
    requires var x := ColumnOf(g, t, j, k);
      (lo' == lo <= x == hi && hi' == hi + 1) || (hi' == hi && lo' == x && lo == x + 1 && lo <= hi)
    requires RunSet(mid, after, d, StartRow(g, s, t, j) + k, StartCol(g, s, t, i), v)
    requires Column(src, s, g, t, i, ColumnOf(g, t, j, k), v)
    ensures ColumnsTo(src, s, after, d, g, t, i, j, lo', hi')
  {
    hide Sample, RunSet, Within, Lane, ColumnOf;
    var r0, c0, x0 := StartRow(g, s, t, j) + k, StartCol(g, s, t, i), ColumnOf(g, t, j, k);
    ColumnGoes(g, s, t, i, j, k, 0);
    forall y: nat, x: nat, b: nat |
      y < s.rows && x < s.cols && b < s.unit && (y < i || (y < i + t && (x < j || lo' <= x < hi')))
      ensures Sample(after, d, ToRow(g, s.rows, s.cols, y, x), ToCol(g, s.rows, s.cols, y, x), b)
           == Sample(src, s, y, x, b)
    {
      RunAfter(mid, after, d, r0, c0, t, v, ToRow(g, s.rows, s.cols, y, x), ToCol(g, s.rows, s.cols, y, x), b);
      if x == x0 && i <= y < i + t {
        var u := if g == By90 then i + t - 1 - y else y - i;
        assert LaneLine(g, t, i, u) == y;
        ColumnGoes(g, s, t, i, j, k, u);
        assert Lane(v, s.unit, u, b) == Sample(src, s, y, x, b);
      }
    }
  }

  lemma NextPos(a: Area, y: nat, x: nat)
    ensures Pos(a, y + 1, x, 0) == Pos(a, y, x, 0) + a.stride
  {
  }

  // vst1 with post-increment.
  method Store(dst: array<byte>, at: nat, v: Vec)
    requires at + 8 <= dst.Length
    modifies dst
    ensures |dst[..]| == |old(dst[..])| && forall q | 0 <= q < dst.Length ::
      dst[..][q] == if at <= q < at + 8 then Stored(v)[q - at] else old(dst[..])[q]
  {
    var bytes := Stored(v);
    forall k | 0 <= k < 8 {
      dst[at + k] := bytes[k];
    }
  }

  // The columns of a tile, one register each, into consecutive lines.
  method StoreRegisters(dst: array<byte>, yDst0: nat, regs: seq<Vec>, colBytes: nat,
                        ghost src: seq<byte>, ghost s: Area, ghost d: Area, ghost g: Angle,
                        ghost t: nat, ghost i: nat, ghost j: nat, ghost before: seq<byte>)
      returns (yDst: nat)
    requires (g == By90 || g == By270) && Receives(d, s, g) && Within(d, dst.Length)
    requires d.stride == colBytes && |before| == dst.Length
    requires |regs| == t && t > 0 && s.unit * t == 8 && i + t <= s.rows && j + t <= s.cols
    requires yDst0 == Pos(d, StartRow(g, s, t, j), StartCol(g, s, t, i), 0)
    requires forall k | 0 <= k < t :: Column(src, s, g, t, i, ColumnOf(g, t, j, k), Stored(regs[k]))
    requires TilesTo(src, s, dst[..], d, g, t, i, j) && OnlyArea(d, before, dst[..])
    modifies dst
    ensures yDst == Pos(d, StartRow(g, s, t, j) + t, StartCol(g, s, t, i), 0)
    ensures TilesTo(src, s, dst[..], d, g, t, i, j + t) && OnlyArea(d, before, dst[..])
  {
    hide Sample, Within, ColumnsTo, OnlyArea, Stored, Column, At;
    yDst := yDst0;
    ghost var lo, hi := if g == By90 then j else j + t, if g == By90 then j else j + t;
    ghost var r0, c0 := StartRow(g, s, t, j), StartCol(g, s, t, i);
    SameColumns(src, s, dst[..], d, g, t, i, j, lo);
    for k := 0 to |regs|
      invariant yDst == Pos(d, r0 + k, c0, 0)
      invariant if g == By90 then lo == j && hi == j + k else lo == j + t - k && hi == j + t
      invariant ColumnsTo(src, s, dst[..], d, g, t, i, j, lo, hi) && OnlyArea(d, before, dst[..])
    {
      ghost var mid := dst[..];
      PosInside(d, r0 + k, c0 + t - 1, d.unit - 1, dst.Length);
      RunSpan(d, r0 + k, c0, t, r0 + k, c0 + t - 1, d.unit - 1, dst.Length);
      Store(dst, yDst, regs[k]);
      ghost var v := Stored(regs[k]);
      assert RunSet(mid, dst[..], d, r0 + k, c0, v);
      ghost var lo', hi' := if g == By90 then lo else lo - 1, if g == By90 then hi + 1 else hi;
      OneRegister(src, s, mid, dst[..], d, g, t, i, j, k, lo, hi, lo', hi', v);
      RunOnlyArea(before, mid, dst[..], d, r0 + k, c0, t, v);
      NextPos(d, r0 + k, c0);
      yDst := yDst + colBytes;
      lo, hi := lo', hi';
    }
    ColumnsJoin(src, s, dst[..], d, g, t, i, j);
  }

  lemma SameColumns(src: seq<byte>, s: Area, dst: seq<byte>, d: Area, g: Angle, t: nat, i: nat, j: nat, lo: nat)
    requires (g == By90 || g == By270) && TilesTo(src, s, dst, d, g, t, i, j)
    ensures ColumnsTo(src, s, dst, d, g, t, i, j, lo, lo)
  {
    hide Sample;
  }

  lemma ColumnsJoin(src: seq<byte>, s: Area, dst: seq<byte>, d: Area, g: Angle, t: nat, i: nat, j: nat)
    requires (g == By90 || g == By270) && ColumnsTo(src, s, dst, d, g, t, i, j, j, j + t)
    ensures TilesTo(src, s, dst, d, g, t, i, j + t)
  {
    hide Sample;
  }

  // ----- One tile -----

  // The source pointers: line k of the tile row at index k, at sample j.
  ghost predicate LinesAt(ptrs: seq<nat>, s: Area, n: nat, i: nat, j: nat) {
    |ptrs| == n && forall k | 0 <= k < n :: ptrs[k] == Pos(s, i + k, j, 0)
  }

  // vld1 from each pointer.
  method LoadLines(src: array<byte>, ptrs: seq<nat>, ghost s: Area, ghost n: nat, ghost i: nat, ghost j: nat)
      returns (lines: seq<seq<byte>>)
    requires Within(s, src.Length) && LinesAt(ptrs, s, n, i, j) && s.unit * n == 8
    requires i + n <= s.rows && j + n <= s.cols
    ensures |lines| == n && forall k | 0 <= k < n :: |lines[k]| == 8
    ensures forall k: nat, c: nat, b: nat {:trigger Lane(lines[k], s.unit, c, b)} |
      k < n && c < n && b < s.unit :: Lane(lines[k], s.unit, c, b) == Sample(src[..], s, i + k, j + c, b)
  {
    forall k | 0 <= k < n ensures ptrs[k] + 8 <= src.Length {
      InsideLine(s, i + k, j, n, src.Length);
    }
    lines := seq(|ptrs|, k requires 0 <= k < |ptrs| && ptrs[k] + 8 <= src.Length reads src =>
      src[ptrs[k]..ptrs[k] + 8]);
    forall k: nat, c: nat, b: nat | k < n && c < n && b < s.unit
      ensures Lane(lines[k], s.unit, c, b) == Sample(src[..], s, i + k, j + c, b)
    {
      InsideLine(s, i + k, j, n, src.Length);
      LaneOfLine(src[..], s, i + k, j, n, c, b);
    }
  }

  lemma InsideLine(s: Area, y: nat, x: nat, n: nat, size: nat)
    requires Within(s, size) && y < s.rows && x + n <= s.cols && s.unit * n == 8
    ensures Pos(s, y, x, 0) + 8 <= size
  {
    PosInside(s, y, x + n - 1, s.unit - 1, size);
    RunSpan(s, y, x, n, y, x + n - 1, s.unit - 1, size);
  }

  lemma LaneOfLine(buf: seq<byte>, s: Area, y: nat, x: nat, n: nat, c: nat, b: nat)
    requires Within(s, |buf|) && y < s.rows && x + n <= s.cols && s.unit * n == 8 && c < n && b < s.unit
    requires Pos(s, y, x, 0) + 8 <= |buf|
    ensures Lane(buf[Pos(s, y, x, 0)..Pos(s, y, x, 0) + 8], s.unit, c, b) == Sample(buf, s, y, x + c, b)
  {
    RunSpan(s, y, x, n, y, x + c, b, |buf|);
  }

  method LumaTile(src: array<byte>, dst: array<byte>, ptrs: seq<nat>, yDst0: nat, colBytes: nat, g: Angle,
                  ghost s: Area, ghost d: Area, ghost i: nat, ghost j: nat, ghost before: seq<byte>)
      returns (yDst: nat)
    requires src != dst && (g == By90 || g == By270) && Receives(d, s, g)
    requires Within(s, src.Length) && Within(d, dst.Length)
    requires s.unit == 1 && d.stride == colBytes && |before| == dst.Length
    requires i + 8 <= s.rows && j + 8 <= s.cols && LinesAt(ptrs, s, 8, i, j)
    requires yDst0 == Pos(d, StartRow(g, s, 8, j), StartCol(g, s, 8, i), 0)
    requires TilesTo(src[..], s, dst[..], d, g, 8, i, j) && OnlyArea(d, before, dst[..])
    modifies dst
    ensures yDst == Pos(d, StartRow(g, s, 8, j) + 8, StartCol(g, s, 8, i), 0)
    ensures TilesTo(src[..], s, dst[..], d, g, 8, i, j + 8) && OnlyArea(d, before, dst[..])
  {
    hide Sample, Within, ColumnsTo, OnlyArea, LinesAt, Pos;
    var l := LoadLines(src, ptrs, s, 8, i, j);
    var regs := LumaRegisters(g, l);
    LumaColumns(src[..], s, g, i, j, l);
    hide LumaRegisters, Column;
    yDst := StoreRegisters(dst, yDst0, regs, colBytes, src[..], s, d, g, 8, i, j, before);
  }

  function LumaRegisters(g: Angle, l: seq<seq<byte>>): seq<Vec>
    requires |l| == 8 && forall k | 0 <= k < 8 :: |l[k]| == 8
  {
    if g == By90 then
      LumaNetwork(Load(l[0]), Load(l[1]), Load(l[2]), Load(l[3]), Load(l[4]), Load(l[5]), Load(l[6]), Load(l[7]))
    else
      LumaNetwork270(Load(l[0]), Load(l[1]), Load(l[2]), Load(l[3]), Load(l[4]), Load(l[5]), Load(l[6]), Load(l[7]))
  }

  lemma LumaByte(g: Angle, l: seq<seq<byte>>, k: nat, u: nat)
    requires (g == By90 || g == By270) && |l| == 8 && (forall k | 0 <= k < 8 :: |l[k]| == 8) && k < 8 && u < 8
    ensures var y, x := LaneLine(g, 8, 0, u), ColumnOf(g, 8, 0, k);
      |LumaRegisters(g, l)| == 8 && y < 8 && x < 8 && Stored(LumaRegisters(g, l)[k])[u] == l[y][x]
  {
    hide LumaNetwork, LumaNetwork270, Stored, Load;
    if g == By90 {
      LumaBytes(l, k, u);
    } else {
      LumaBytes270(l, k, u);
    }
  }

  // Lines and columns count from the tile's corner.
  lemma InTile(g: Angle, t: nat, i: nat, j: nat, k: nat, u: nat)
    requires k < t && u < t
    ensures LaneLine(g, t, i, u) == i + LaneLine(g, t, 0, u) && LaneLine(g, t, 0, u) < t
    ensures ColumnOf(g, t, j, k) == j + ColumnOf(g, t, 0, k) && ColumnOf(g, t, 0, k) < t
  {
  }

  lemma LumaColumns(src: seq<byte>, s: Area, g: Angle, i: nat, j: nat, l: seq<seq<byte>>)
    requires s.unit == 1 && (g == By90 || g == By270) && |l| == 8 && forall k | 0 <= k < 8 :: |l[k]| == 8
    requires forall k: nat, c: nat, b: nat {:trigger Lane(l[k], s.unit, c, b)} |
      k < 8 && c < 8 && b < s.unit :: Lane(l[k], s.unit, c, b) == Sample(src, s, i + k, j + c, b)
    ensures var regs := LumaRegisters(g, l);
      |regs| == 8 && forall k | 0 <= k < 8 :: Column(src, s, g, 8, i, ColumnOf(g, 8, j, k), Stored(regs[k]))
  {
    var regs := LumaRegisters(g, l);
    hide LumaRegisters, Sample, Stored, LaneLine, ColumnOf;
    LumaByte(g, l, 0, 0);
    forall k: nat, u: nat, b: nat | k < 8 && u < 8 && b < 1
      ensures Lane(Stored(regs[k]), 1, u, b) == Sample(src, s, LaneLine(g, 8, i, u), ColumnOf(g, 8, j, k), b)
    {
      LumaByte(g, l, k, u);
      InTile(g, 8, i, j, k, u);
      var y, x := LaneLine(g, 8, 0, u), ColumnOf(g, 8, 0, k);
      assert Lane(l[y], s.unit, x, b) == l[y][x];
    }
  }

  method ChromaTile(src: array<byte>, dst: array<byte>, ptrs: seq<nat>, uvDst0: nat, colBytes: nat, g: Angle,
                    ghost s: Area, ghost d: Area, ghost i: nat, ghost j: nat, ghost before: seq<byte>)
      returns (uvDst: nat)
    requires src != dst && (g == By90 || g == By270) && Receives(d, s, g)
    requires Within(s, src.Length) && Within(d, dst.Length)
    requires s.unit == 2 && d.stride == colBytes && |before| == dst.Length
    requires i + 4 <= s.rows && j + 4 <= s.cols && LinesAt(ptrs, s, 4, i, j)
    requires uvDst0 == Pos(d, StartRow(g, s, 4, j), StartCol(g, s, 4, i), 0)
    requires TilesTo(src[..], s, dst[..], d, g, 4, i, j) && OnlyArea(d, before, dst[..])
    modifies dst
    ensures uvDst == Pos(d, StartRow(g, s, 4, j) + 4, StartCol(g, s, 4, i), 0)
    ensures TilesTo(src[..], s, dst[..], d, g, 4, i, j + 4) && OnlyArea(d, before, dst[..])
  {
    hide Sample, Within, ColumnsTo, OnlyArea, LinesAt, Pos;
    var l := LoadLines(src, ptrs, s, 4, i, j);
    var regs := ChromaRegisters(g, l);
    ChromaColumns(src[..], s, g, i, j, l);
    hide ChromaRegisters, Column;
    uvDst := StoreRegisters(dst, uvDst0, regs, colBytes, src[..], s, d, g, 4, i, j, before);
  }

  function ChromaRegisters(g: Angle, l: seq<seq<byte>>): seq<Vec>
    requires |l| == 4 && forall k | 0 <= k < 4 :: |l[k]| == 8
  {
    if g == By90 then ChromaNetwork(Load(l[0]), Load(l[1]), Load(l[2]), Load(l[3]))
    else ChromaNetwork270(Load(l[0]), Load(l[1]), Load(l[2]), Load(l[3]))
  }

  lemma ChromaByte(g: Angle, l: seq<seq<byte>>, k: nat, u: nat, b: nat)
    requires (g == By90 || g == By270) && |l| == 4 && (forall k | 0 <= k < 4 :: |l[k]| == 8) && k < 4 && u < 4 && b < 2
    ensures var y, x := LaneLine(g, 4, 0, u), ColumnOf(g, 4, 0, k);
      && |ChromaRegisters(g, l)| == 4 && y < 4 && x < 4
      && Stored(ChromaRegisters(g, l)[k])[2 * u + b] == l[y][2 * x + b]
  {
    hide ChromaNetwork, ChromaNetwork270, Stored, Load;
    if g == By90 {
      ChromaBytes(l, k, u, b);
    } else {
      ChromaBytes270(l, k, u, b);
    }
  }

  lemma ChromaColumns(src: seq<byte>, s: Area, g: Angle, i: nat, j: nat, l: seq<seq<byte>>)
    requires s.unit == 2 && (g == By90 || g == By270) && |l| == 4 && forall k | 0 <= k < 4 :: |l[k]| == 8
    requires forall k: nat, c: nat, b: nat {:trigger Lane(l[k], s.unit, c, b)} |
      k < 4 && c < 4 && b < s.unit :: Lane(l[k], s.unit, c, b) == Sample(src, s, i + k, j + c, b)
    ensures var regs := ChromaRegisters(g, l);
      |regs| == 4 && forall k | 0 <= k < 4 :: Column(src, s, g, 4, i, ColumnOf(g, 4, j, k), Stored(regs[k]))
  {
    var regs := ChromaRegisters(g, l);
    hide ChromaRegisters, Sample, Stored, LaneLine, ColumnOf;
    ChromaByte(g, l, 0, 0, 0);
    forall k: nat, u: nat, b: nat | k < 4 && u < 4 && b < 2
      ensures Lane(Stored(regs[k]), 2, u, b) == Sample(src, s, LaneLine(g, 4, i, u), ColumnOf(g, 4, j, k), b)
    {
      ChromaByte(g, l, k, u, b);
      InTile(g, 4, i, j, k, u);
      var y, x := LaneLine(g, 4, 0, u), ColumnOf(g, 4, 0, k);
      assert Lane(l[y], s.unit, x, b) == l[y][2 * x + b];
    }
  }

  // ----- Both tiles of a step -----

  lemma TilesElsewhere(src: seq<byte>, s: Area, before: seq<byte>, after: seq<byte>, d: Area, o: Area, g: Angle,
                       t: nat, i: nat, j: nat)
    requires Receives(d, s, g) && Within(d, |before|) && Apart(o, d) && OnlyArea(o, before, after)
    requires TilesTo(src, s, before, d, g, t, i, j)
    ensures TilesTo(src, s, after, d, g, t, i, j)
  {
    hide Sample, Within, Apart, OnlyArea;
    forall y: nat, x: nat, b: nat | y < s.rows && x < s.cols && b < s.unit && (y < i || (y < i + t && x < j))
      ensures Sample(after, d, ToRow(g, s.rows, s.cols, y, x), ToCol(g, s.rows, s.cols, y, x), b)
           == Sample(src, s, y, x, b)
    {
      OtherArea(o, d, before, after, ToRow(g, s.rows, s.cols, y, x), ToCol(g, s.rows, s.cols, y, x), b);
    }
  }

  lemma OneOfTwo(a: Area, b: Area, second: bool, before: seq<byte>, mid: seq<byte>, after: seq<byte>)
    requires OnlyTwo(a, b, before, mid) && OnlyArea(if second then b else a, mid, after)
    ensures OnlyTwo(a, b, before, after)
  {
  }

  // The planes of a turn: luma s to d, chroma sc to dc.
  datatype Planes = Planes(s: Area, d: Area, sc: Area, dc: Area)

  ghost predicate Turning(p: Planes, g: Angle, src: int, dst: int) {
    && (g == By90 || g == By270) && Receives(p.d, p.s, g) && Receives(p.dc, p.sc, g)
    && p.s.unit == 1 && p.sc.unit == 2 && p.d.stride == p.dc.stride
    && Within(p.s, src) && Within(p.sc, src) && Within(p.d, dst) && Within(p.dc, dst)
    && Apart(p.d, p.dc) && Apart(p.dc, p.d)
  }

  ghost predicate BothTilesTo(src: seq<byte>, dst: seq<byte>, p: Planes, g: Angle, i: nat, j: nat) {
    TilesTo(src, p.s, dst, p.d, g, 8, i, j) && TilesTo(src, p.sc, dst, p.dc, g, 4, i / 2, j / 2)
  }

  // What the asm blocks are given.
  ghost predicate SourceAt(ys: seq<nat>, uvs: seq<nat>, p: Planes, i: nat, j: nat) {
    LinesAt(ys, p.s, 8, i, j) && LinesAt(uvs, p.sc, 4, i / 2, j / 2)
  }

  // Where they store: the tiles at (i, j), or `done` of them later.
  ghost predicate StoresAt(yDst: int, uvDst: int, p: Planes, g: Angle, i: nat, j: nat, done: nat) {
    && (g == By90 || g == By270) && i + 8 <= p.s.rows && j + 8 <= p.s.cols
    && i / 2 + 4 <= p.sc.rows && j / 2 + 4 <= p.sc.cols
    && yDst == Pos(p.d, StartRow(g, p.s, 8, j) + 8 * done, StartCol(g, p.s, 8, i), 0)
    && uvDst == Pos(p.dc, StartRow(g, p.sc, 4, j / 2) + 4 * done, StartCol(g, p.sc, 4, i / 2), 0)
  }

  // For By90 the next tiles' lines follow, for By270 they are above.
  lemma NextStores(yDst: int, uvDst: int, p: Planes, g: Angle, i: nat, j: nat)
    requires StoresAt(yDst, uvDst, p, g, i, j, 1) && j + 16 <= p.s.cols && j / 2 + 8 <= p.sc.cols
    ensures if g == By90 then StoresAt(yDst, uvDst, p, g, i, j + 8, 0)
            else StoresAt(yDst - 16 * p.d.stride, uvDst - 8 * p.dc.stride, p, g, i, j + 8, 0)
  {
    assert (j + 8) / 2 == j / 2 + 4;
    if g == By270 {
      LinesUp(p.d, StartRow(g, p.s, 8, j + 8), i, 16);
      LinesUp(p.dc, StartRow(g, p.sc, 4, j / 2 + 4), i / 2, 8);
    }
    hide Pos;
  }

  lemma LinesUp(d: Area, r: nat, c: nat, n: nat)
    ensures Pos(d, r + n, c, 0) - n * d.stride == Pos(d, r, c, 0)
  {
  }

  method TilePair(src: array<byte>, dst: array<byte>, ys: seq<nat>, uvs: seq<nat>, yDst0: nat, uvDst0: nat,
                  colBytes: nat, g: Angle, ghost p: Planes, ghost i: nat, ghost j: nat, ghost before: seq<byte>)
      returns (yDst: nat, uvDst: nat)
    requires src != dst && Turning(p, g, src.Length, dst.Length) && |before| == dst.Length
    requires p.d.stride == colBytes && SourceAt(ys, uvs, p, i, j) && StoresAt(yDst0, uvDst0, p, g, i, j, 0)
    requires BothTilesTo(src[..], dst[..], p, g, i, j) && OnlyTwo(p.d, p.dc, before, dst[..])
    modifies dst
    ensures StoresAt(yDst, uvDst, p, g, i, j, 1)
    ensures BothTilesTo(src[..], dst[..], p, g, i, j + 8) && OnlyTwo(p.d, p.dc, before, dst[..])
  {
    hide Within, TilesTo, OnlyArea, OnlyTwo, LinesAt, Pos, Apart, StartRow, StartCol;
    ghost var mid := dst[..];
    NothingElse(p.d, mid);
    yDst := LumaTile(src, dst, ys, yDst0, colBytes, g, p.s, p.d, i, j, mid);
    ghost var mid' := dst[..];
    NothingElse(p.dc, mid');
    TilesElsewhere(src[..], p.sc, mid, mid', p.dc, p.d, g, 4, i / 2, j / 2);
    OneOfTwo(p.d, p.dc, false, before, mid, mid');
    uvDst := ChromaTile(src, dst, uvs, uvDst0, colBytes, g, p.sc, p.dc, i / 2, j / 2, mid');
    TilesElsewhere(src[..], p.s, mid', dst[..], p.d, p.dc, g, 8, i, j + 8);
    OneOfTwo(p.d, p.dc, true, before, mid', dst[..]);
    assert (j + 8) / 2 == j / 2 + 4;
  }

  lemma NothingElse(a: Area, buf: seq<byte>)
    ensures OnlyArea(a, buf, buf)
  {
  }

  // Along the lines and down to the next tile row.
  lemma NextTile(ptrs: seq<nat>, s: Area, n: nat, i: nat, j: nat)
    requires LinesAt(ptrs, s, n, i, j) && s.unit * n == 8
    ensures LinesAt(seq(n, k requires 0 <= k < n => ptrs[k] + 8), s, n, i, j + n)
  {
    if s.unit == 2 {
      assert 2 * (j + n) == 2 * j + 8;
    }
    forall k | 0 <= k < n ensures ptrs[k] + 8 == Pos(s, i + k, j + n, 0) {
      AtPlus(s.stride, i + k, s.unit * j, 8);
    }
  }

  lemma NextTileRow(ptrs: seq<nat>, s: Area, n: nat, i: nat)
    requires LinesAt(ptrs, s, n, i, s.cols) && s.unit * s.cols == s.stride && n > 0
    ensures LinesAt(seq(n, k requires 0 <= k < n => if k == 0 then ptrs[n - 1] else ptrs[k] + s.stride * (n - 1)),
                  s, n, i + n, 0)
  {
    forall k | 0 <= k < n
      ensures (if k == 0 then ptrs[n - 1] else ptrs[k] + s.stride * (n - 1)) == Pos(s, i + n + k, 0, 0)
    {
      assert ptrs[k] == Pos(s, i + k, s.cols, 0) && ptrs[n - 1] == Pos(s, i + n - 1, s.cols, 0);
      EndOfLine(s, i + k, n - 1);
      EndOfLine(s, i + n - 1, 0);
    }
    hide Pos;
  }

  // Every load has moved its pointer on by eight.
  method Advance(ptrs: seq<nat>, ghost s: Area, ghost n: nat, ghost i: nat, ghost j: nat) returns (r: seq<nat>)
    requires LinesAt(ptrs, s, n, i, j) && s.unit * n == 8
    ensures LinesAt(r, s, n, i, j + n)
  {
    NextTile(ptrs, s, n, i, j);
    r := seq(|ptrs|, k requires 0 <= k < |ptrs| => ptrs[k] + 8);
  }

  // The first pointer takes over where the last one is, the others skip the lines done.
  method StepDown(ptrs: seq<nat>, skip: nat, ghost s: Area, ghost n: nat, ghost i: nat) returns (r: seq<nat>)
    requires LinesAt(ptrs, s, n, i, s.cols) && s.unit * s.cols == s.stride && n > 0 && skip == s.stride * (n - 1)
    ensures LinesAt(r, s, n, i + n, 0)
  {
    NextTileRow(ptrs, s, n, i);
    r := seq(|ptrs|, k requires 0 <= k < |ptrs| => if k == 0 then ptrs[|ptrs| - 1] else ptrs[k] + skip);
  }

  lemma EndOfLine(s: Area, y: nat, n: nat)
    requires s.unit * s.cols == s.stride
    ensures Pos(s, y, s.cols, 0) + s.stride * n == Pos(s, y + 1 + n, 0, 0)
  {
    assert (y + 1 + n) * s.stride == y * s.stride + s.stride + n * s.stride;
  }

  lemma WholeTiles(j: nat, width: nat)
    requires j < width && j % 8 == 0 && width % 8 == 0
    ensures j + 8 <= width && (j + 8) % 8 == 0 && (j + 8) / 2 == j / 2 + 4
  {
    var a, b := j / 8, width / 8;
    assert j == 8 * a && width == 8 * b && j + 8 == 8 * (a + 1);
  }

  // Pointers to n lines one below the other.
  function Pointers(base: nat, lineBytes: nat, n: nat): (r: seq<nat>)
    ensures |r| == n && forall k | 0 <= k < n :: r[k] == base + k * lineBytes
  {
    if n == 0 then [] else Pointers(base, lineBytes, n - 1) + [base + (n - 1) * lineBytes]
  }

  lemma FirstPointers(s: Area, n: nat)
    ensures LinesAt(Pointers(s.at, s.stride, n), s, n, 0, 0)
  {
  }

  lemma Even(n: nat)
    requires n % 8 == 0
    ensures 2 * (n / 2) == n
  {
    HalfOfDouble(4 * (n / 8));
  }

  lemma HalfOfDouble(m: nat)
    ensures 2 * m / 2 == m
  {
  }

  lemma NothingTurned(p: Planes, g: Angle, src: seq<byte>, dst: seq<byte>)
    requires Turning(p, g, |src|, |dst|)
    ensures BothTilesTo(src, dst, p, g, 0, 0) && OnlyTwo(p.d, p.dc, dst, dst)
  {
    hide Sample;
  }

  lemma RowDone(src: seq<byte>, s: Area, dst: seq<byte>, d: Area, g: Angle, t: nat, i: nat)
    requires (g == By90 || g == By270) && TilesTo(src, s, dst, d, g, t, i, s.cols)
    ensures TilesTo(src, s, dst, d, g, t, i + t, 0)
  {
    hide Sample;
  }

  lemma AllTurned(src: seq<byte>, s: Area, dst: seq<byte>, d: Area, g: Angle, t: nat)
    requires (g == By90 || g == By270) && Receives(d, s, g) && TilesTo(src, s, dst, d, g, t, s.rows, 0)
    ensures Rotated(src, s, dst, d, g)
  {
    hide Sample;
  }
}
