// The converters from the decoder's tiled chroma to two planes.
module Mb32Planar {
  import opened Bytes
  import opened Raster
  import opened Detile
  import opened Mb32

  // The U plane; the V plane differs in that its bytes are the odd ones.
  function PlaneLayout(lines: Lines, width: nat, height: nat): Layout {
    Layout(Align32(2 * Half(width)) / 32, lines, Even, Align8(Half(width)), Half(height))
  }

  function OddOf(l: Layout): Layout { l.(sampling := Odd) }

  // Both planes are in the buffer, apart from each other.
  ghost predicate Places(l: Layout, size: int, atU: int, atV: int) {
    var n := l.height * l.stride;
    && l.sampling == Even && 0 <= atU && 0 <= atV && atU + n <= size && atV + n <= size
    && (atU + n <= atV || atV + n <= atU)
  }

  // Bytes of a plane.
  function Plane(l: Layout, buf: seq<byte>, at: nat): (r: seq<byte>)
    requires at + l.height * l.stride <= |buf|
    ensures |r| == l.height * l.stride && forall p | 0 <= p < |r| :: r[p] == buf[at + p]
  {
    buf[at..at + l.height * l.stride]
  }

  // Nothing outside the planes changes.
  ghost predicate OnlyPlanes(l: Layout, before: seq<byte>, after: seq<byte>, atU: nat, atV: nat) {
    var n := l.height * l.stride;
    && |after| == |before|
    && forall q | 0 <= q < |after| && !(atU <= q < atU + n) && !(atV <= q < atV + n) :: after[q] == before[q]
  }

  ghost predicate PairTo(l: Layout, src: seq<byte>, before: seq<byte>, after: seq<byte>, atU: nat, atV: nat, ptr: nat)
    requires Places(l, |before|, atU, atV)
  {
    && OnlyPlanes(l, before, after, atU, atV)
    && DoneTo(l, src, Plane(l, before, atU), Plane(l, after, atU), 0, ptr)
    && DoneTo(OddOf(l), src, Plane(l, before, atV), Plane(l, after, atV), 0, ptr)
  }

  // n pairs of tile bytes taken apart.
  ghost predicate PairPut(src: seq<byte>, mid: seq<byte>, after: seq<byte>, startU: nat, startV: nat, n: int, ptr: nat)
    requires ptr + 32 <= |src| && n <= 16
  {
    && |after| == |mid|
    && forall q | 0 <= q < |after| ::
      after[q] == if startU <= q < startU + n then src[ptr + 2 * (q - startU)]
                  else if startV <= q < startV + n then src[ptr + 2 * (q - startV) + 1]
                  else mid[q]
  }

  method CopyPairs(src: array<byte>, dst: array<byte>, ptr: nat, startU: nat, startV: nat)
    requires src != dst && ptr + 32 <= src.Length && startU + 16 <= dst.Length && startV + 16 <= dst.Length
    requires startU + 16 <= startV || startV + 16 <= startU
    modifies dst
    ensures PairPut(src[..], old(dst[..]), dst[..], startU, startV, 16, ptr)
  {
    forall k | 0 <= k < 16 {
      dst[startU + k] := src[ptr + 2 * k];
    }
    forall k | 0 <= k < 16 {
      dst[startV + k] := src[ptr + 2 * k + 1];
    }
  }

  method CopyPairsClipped(src: array<byte>, dst: array<byte>, ptr: nat, startU: nat, startV: nat, room: nat)
    requires src != dst && ptr + 32 <= src.Length
    requires var n := Min(16, room);
      startU + n <= dst.Length && startV + n <= dst.Length && (startU + n <= startV || startV + n <= startU)
    modifies dst
    ensures PairPut(src[..], old(dst[..]), dst[..], startU, startV, Min(16, room), ptr)
  {
    var bufferU := seq(16, k requires 0 <= k < 16 reads src => src[ptr + 2 * k]);
    var bufferV := seq(16, k requires 0 <= k < 16 reads src => src[ptr + 2 * k + 1]);
    ghost var before := dst[..];
    var k := 0;
    while k < 16
      invariant 0 <= k <= Min(16, room)
      invariant PairPut(src[..], before, dst[..], startU, startV, k, ptr)
    {
      if k >= room {
        break;
      }
      dst[startV + k] := bufferV[k];
      dst[startU + k] := bufferU[k];
      k := k + 1;
    }
  }

  // On each plane that puts a tile line.
  lemma PairPutIsLinePut(l: Layout, src: seq<byte>, mid: seq<byte>, after: seq<byte>,
                         atU: nat, atV: nat, offset: nat, n: nat, ptr: nat)
    requires Places(l, |mid|, atU, atV) && ptr + 32 <= |src| && n <= 16 && offset + n <= l.height * l.stride
    requires PairPut(src, mid, after, atU + offset, atV + offset, n, ptr)
    ensures OnlyPlanes(l, mid, after, atU, atV)
    ensures LinePut(l, src, Plane(l, mid, atU), Plane(l, after, atU), offset, n, ptr)
    ensures LinePut(OddOf(l), src, Plane(l, mid, atV), Plane(l, after, atV), offset, n, ptr)
  {
  }

  lemma PairLineDone(l: Layout, src: seq<byte>, before: seq<byte>, mid: seq<byte>, after: seq<byte>,
                     atU: nat, atV: nat, i: nat, j: nat, m: nat)
    requires Places(l, |before|, atU, atV) && Covers(l) && Covers(OddOf(l))
    requires j < l.tilesPerRow && m < l.lines && 16 * j < l.stride
    requires TileLine(l.tilesPerRow, l.lines, i, j, m) + 32 <= |src|
    requires PairTo(l, src, before, mid, atU, atV, TileLine(l.tilesPerRow, l.lines, i, j, m))
    requires var y, x := i * l.lines + m, 16 * j;
      if y < l.height
      then PairPut(src, mid, after, atU + At(l.stride, y, x), atV + At(l.stride, y, x), Min(16, l.stride - x),
                   TileLine(l.tilesPerRow, l.lines, i, j, m))
      else after == mid
    ensures PairTo(l, src, before, after, atU, atV, TileLine(l.tilesPerRow, l.lines, i, j, m) + 1024 / l.lines)
  {
    hide DoneTo, LinePut, TileLine, Tile, At, PairPut;
    var y, x := i * l.lines + m, 16 * j;
    if y < l.height {
      Offset(l.stride, l.height, y, x);
      PairPutIsLinePut(l, src, mid, after, atU, atV, At(l.stride, y, x), Min(16, l.stride - x),
                       TileLine(l.tilesPerRow, l.lines, i, j, m));
    }
    hide Places;
    LineDone(l, src, Plane(l, before, atU), Plane(l, mid, atU), Plane(l, after, atU), 0, i, j, m);
    LineDone(OddOf(l), src, Plane(l, before, atV), Plane(l, mid, atV), Plane(l, after, atV), 0, i, j, m);
  }

  ghost predicate PairFits(l: Layout, src: array<byte>, dst: array<byte>, atU: nat, atV: nat) {
    && src != dst && Places(l, dst.Length, atU, atV)
    && TileLine(l.tilesPerRow, l.lines, TileRows(l), 0, 0) <= src.Length
  }

  // Line y of both planes, as far as tile j covers it.
  method PutPairLine(src: array<byte>, dst: array<byte>, atU: nat, atV: nat, l: Layout,
                     y: nat, j: nat, ptr: nat, whole: bool)
    requires src != dst && Places(l, dst.Length, atU, atV) && ptr + 32 <= src.Length
    requires y < l.height && 16 * j < l.stride && (whole ==> 16 * j + 16 <= l.stride)
    modifies dst
    ensures PairPut(src[..], old(dst[..]), dst[..], atU + At(l.stride, y, 16 * j), atV + At(l.stride, y, 16 * j),
                    Min(16, l.stride - 16 * j), ptr)
  {
    var offset := y * l.stride + j * 16;
    Offset(l.stride, l.height, y, 16 * j);
    hide PairPut, At;
    if whole {
      CopyPairs(src, dst, ptr, atU + offset, atV + offset);
    } else {
      CopyPairsClipped(src, dst, ptr, atU + offset, atV + offset, l.stride - j * 16);
    }
  }

  method DetilePairLine(src: array<byte>, dst: array<byte>, atU: nat, atV: nat, l: Layout,
                        i: nat, j: nat, m: nat, whole: bool, ptr: nat, ghost before: seq<byte>)
    requires PairFits(l, src, dst, atU, atV) && Covers(l) && Covers(OddOf(l)) && |before| == dst.Length
    requires j < l.tilesPerRow && m < l.lines && 16 * j < l.stride && (whole ==> 16 * j + 16 <= l.stride)
    requires ptr == TileLine(l.tilesPerRow, l.lines, i, j, m) && ptr + 32 <= src.Length
    requires PairTo(l, src[..], before, dst[..], atU, atV, ptr)
    modifies dst
    ensures PairTo(l, src[..], before, dst[..], atU, atV, ptr + 1024 / l.lines)
  {
    hide PairTo, TileLine, PairPut, At, Covers;
    ghost var mid := dst[..];
    var lineNum := i * l.lines + m;
    if lineNum < l.height {
      PutPairLine(src, dst, atU, atV, l, lineNum, j, ptr, whole);
    }
    PairLineDone(l, src[..], before, mid, dst[..], atU, atV, i, j, m);
  }

  method DetilePairTile(src: array<byte>, dst: array<byte>, atU: nat, atV: nat, l: Layout,
                        i: nat, j: nat, whole: bool, start: nat, ghost before: seq<byte>)
      returns (ptr: nat)
    requires PairFits(l, src, dst, atU, atV) && Covers(l) && Covers(OddOf(l)) && |before| == dst.Length
    requires i < TileRows(l) && j < l.tilesPerRow && 16 * j < l.stride && (whole ==> 16 * j + 16 <= l.stride)
    requires start == TileLine(l.tilesPerRow, l.lines, i, j, 0)
    requires PairTo(l, src[..], before, dst[..], atU, atV, start)
    modifies dst
    ensures ptr == TileLine(l.tilesPerRow, l.lines, i, j + 1, 0)
    ensures PairTo(l, src[..], before, dst[..], atU, atV, ptr)
  {
    hide PairTo, TileLine, TileRows, Covers;
    ptr := start;
    for m := 0 to l.lines
      invariant ptr == TileLine(l.tilesPerRow, l.lines, i, j, m)
      invariant PairTo(l, src[..], before, dst[..], atU, atV, ptr)
    {
      TileLineInside(l.tilesPerRow, l.lines, i, j, m, TileRows(l));
      NextTileLine(l.tilesPerRow, l.lines, i, j, m);
      DetilePairLine(src, dst, atU, atV, l, i, j, m, whole, ptr, before);
      ptr := ptr + 1024 / l.lines;
    }
    NextTileLine(l.tilesPerRow, l.lines, i, j, 0);
  }

  method PairTileRow(src: array<byte>, dst: array<byte>, atU: nat, atV: nat, l: Layout,
                     i: nat, start: nat, ghost before: seq<byte>)
      returns (ptr: nat)
    requires PairFits(l, src, dst, atU, atV) && |before| == dst.Length && i < TileRows(l)
    requires l.tilesPerRow > 0 ==> Covers(l) && Covers(OddOf(l))
    requires forall j | 0 <= j < l.tilesPerRow :: 16 * j < l.stride
    requires l.stride <= 16 * l.tilesPerRow
    requires start == TileLine(l.tilesPerRow, l.lines, i, 0, 0)
    requires PairTo(l, src[..], before, dst[..], atU, atV, start)
    modifies dst
    ensures ptr == TileLine(l.tilesPerRow, l.lines, i + 1, 0, 0)
    ensures PairTo(l, src[..], before, dst[..], atU, atV, ptr)
  {
    hide PairTo, TileLine, TileRows, Covers;
    var widthMatch := false;
    var whole := l.tilesPerRow - 1;
    if l.tilesPerRow * 16 == l.stride {
      widthMatch := true;
      whole := l.tilesPerRow;
    }
    ptr := start;
    for j := 0 to whole
      invariant ptr == TileLine(l.tilesPerRow, l.lines, i, j, 0)
      invariant PairTo(l, src[..], before, dst[..], atU, atV, ptr)
    {
      assert 16 * j < l.stride && (j + 1 < l.tilesPerRow ==> 16 * (j + 1) < l.stride);
      ptr := DetilePairTile(src, dst, atU, atV, l, i, j, true, ptr, before);
    }
    NextTileLine(l.tilesPerRow, l.lines, i, 0, 0);
    if widthMatch {
      return;
    }
    assert 16 * whole < l.stride;
    ptr := DetilePairTile(src, dst, atU, atV, l, i, whole, false, ptr, before);
  }

  // Both planes, and nothing else.
  ghost predicate PairDetiled(l: Layout, src: seq<byte>, before: seq<byte>, after: seq<byte>, atU: nat, atV: nat)
    requires Places(l, |before|, atU, atV)
  {
    && OnlyPlanes(l, before, after, atU, atV)
    && Detiled(l, src, Plane(l, before, atU), Plane(l, after, atU), 0)
    && Detiled(OddOf(l), src, Plane(l, before, atV), Plane(l, after, atV), 0)
  }

  // ConvertMb32420ToYv12C and ConvertMb32422ToYv12C.
  method ConvertMb32ToYv12C(src: array<byte>, dst: array<byte>, atU: nat, atV: nat,
                            lines: Lines, width: nat, height: nat)
    requires PairFits(PlaneLayout(lines, width, height), src, dst, atU, atV)
    modifies dst
    ensures PairDetiled(PlaneLayout(lines, width, height), src[..], old(dst[..]), dst[..], atU, atV)
  {
    var l := PlaneLayout(lines, width, height);
    ghost var before := dst[..];
    var tileRows := if lines == 32 then Align32(Half(height)) / 32 else Align32(2 * Half(height)) / 32;
    var ptr := 0;
    NoPair(l, src[..], before, atU, atV);
    PlaneCovers(lines, width, height);
    hide PairTo, TileLine, Covers;
    for i := 0 to tileRows
      invariant ptr == TileLine(l.tilesPerRow, l.lines, i, 0, 0)
      invariant PairTo(l, src[..], before, dst[..], atU, atV, ptr)
    {
      ptr := PairTileRow(src, dst, atU, atV, l, i, ptr, before);
    }
    PairDone(l, src[..], before, dst[..], atU, atV, tileRows);
  }

  lemma NoPair(l: Layout, src: seq<byte>, before: seq<byte>, atU: nat, atV: nat)
    requires Places(l, |before|, atU, atV)
    ensures TileLine(l.tilesPerRow, l.lines, 0, 0, 0) == 0
    ensures PairTo(l, src, before, before, atU, atV, 0)
  {
    NothingDone(l, src, Plane(l, before, atU), 0);
    NothingDone(OddOf(l), src, Plane(l, before, atV), 0);
    hide DoneTo;
  }

  lemma PairDone(l: Layout, src: seq<byte>, before: seq<byte>, after: seq<byte>, atU: nat, atV: nat, tileRows: nat)
    requires Places(l, |before|, atU, atV) && (l.stride > 0 ==> Covers(l) && Covers(OddOf(l)))
    requires l.height <= l.lines * tileRows && TileLine(l.tilesPerRow, l.lines, tileRows, 0, 0) <= |src|
    requires PairTo(l, src, before, after, atU, atV, TileLine(l.tilesPerRow, l.lines, tileRows, 0, 0))
    ensures PairDetiled(l, src, before, after, atU, atV)
  {
    hide DoneTo, TileLine, Detiled, Covers;
    AllDone(l, src, Plane(l, before, atU), Plane(l, after, atU), 0, tileRows);
    AllDone(OddOf(l), src, Plane(l, before, atV), Plane(l, after, atV), 0, tileRows);
  }

  lemma PlaneCovers(lines: Lines, width: nat, height: nat)
    ensures var l := PlaneLayout(lines, width, height);
      && (l.stride > 0 <==> l.tilesPerRow > 0) && (l.stride > 0 ==> Covers(l) && Covers(OddOf(l)))
      && l.height <= l.lines * TileRows(l) && l.stride <= 16 * l.tilesPerRow
      && forall j | 0 <= j < l.tilesPerRow :: 16 * j < l.stride
  {
    StrideIsHalf(Half(width));
    var q, t := TileCount(2 * Half(width));
    RowsCovered(Half(height));
    if q > 0 {
      InTile(16 * q - 2, t);
      InTile(16 * q - 1, t);
    }
    hide Align8, Align16, Align32, Half;
  }

  // The stride of a plane is half that of the interleaved chroma, and that is the
  // stride of the luma.
  lemma StrideIsHalf(w: nat)
    ensures Align16(2 * w) == 2 * Align8(w)
  {
    assert (2 * w + 15) / 16 == (w + 7) / 8;
  }

  lemma ChromaStrideIsLumaStride(width: nat)
    ensures Align16(2 * Half(width)) == Align16(width) && 2 * Align8(Half(width)) == Align16(width)
  {
    StrideIsHalf(Half(width));
    assert (2 * Half(width) + 15) / 16 == (width + 15) / 16;
  }
}
