// The converters from the decoder's tiled formats: luma, interleaved chroma and
// planar chroma.
module Mb32 {
  import opened Bytes
  import opened Raster
  import opened Detile

  // vld1 and vst1: 32 bytes as they are.
  method CopyWhole(src: array<byte>, dst: array<byte>, ptr: nat, start: nat, ghost l: Layout)
    requires src != dst && ptr + 32 <= src.Length && start + 32 <= dst.Length && l.sampling == Same
    modifies dst
    ensures LinePut(l, src[..], old(dst[..]), dst[..], start, 32, ptr)
  {
    forall k | 0 <= k < 32 {
      dst[start + k] := src[ptr + k];
    }
  }

  // The same by way of a buffer, as far as the picture's line goes.
  method CopyClipped(src: array<byte>, dst: array<byte>, ptr: nat, start: nat, room: nat, ghost l: Layout)
    requires src != dst && ptr + 32 <= src.Length && start + Min(32, room) <= dst.Length && l.sampling == Same
    modifies dst
    ensures LinePut(l, src[..], old(dst[..]), dst[..], start, Min(32, room), ptr)
  {
    var buffer := src[ptr..ptr + 32];
    var k := 0;
    while k < 32
      invariant 0 <= k <= Min(32, room) && buffer == src[ptr..ptr + 32]
      invariant LinePut(l, src[..], old(dst[..]), dst[..], start, k, ptr)
    {
      if k >= room {
        break;
      }
      dst[start + k] := buffer[k];
      k := k + 1;
    }
  }

  // vld2 takes the pairs apart, the loop puts them together the other way round.
  method CopySwapped(src: array<byte>, dst: array<byte>, ptr: nat, start: nat, room: nat, ghost l: Layout)
    requires src != dst && ptr + 32 <= src.Length && start + Min(32, room) <= dst.Length
    requires l.sampling == Swapped && room % 2 == 0
    modifies dst
    ensures LinePut(l, src[..], old(dst[..]), dst[..], start, Min(32, room), ptr)
  {
    var bufferU := seq(16, k requires 0 <= k < 16 reads src => src[ptr + 2 * k]);
    var bufferV := seq(16, k requires 0 <= k < 16 reads src => src[ptr + 2 * k + 1]);
    ghost var before := dst[..];
    var k := 0;
    while k < 16
      invariant 0 <= 2 * k <= Min(32, room)
      invariant LinePut(l, src[..], before, dst[..], start, 2 * k, ptr)
    {
      if 2 * k >= room {
        break;
      }
      dst[start + 2 * k] := bufferV[k];
      dst[start + 2 * k + 1] := bufferU[k];
      k := k + 1;
    }
  }

  // ----- A plane, line by line of each tile -----

  function TileRows(l: Layout): nat {
    if l.lines == 32 then Align32(l.height) / 32 else Align32(2 * l.height) / 32
  }

  // The tiles are all there, and the plane fits.
  ghost predicate Fits(l: Layout, src: array<byte>, dst: array<byte>, at: nat) {
    && src != dst && at + l.height * l.stride <= dst.Length
    && TileLine(l.tilesPerRow, l.lines, TileRows(l), 0, 0) <= src.Length
    && (l.sampling == Same || (l.sampling == Swapped && l.stride % 2 == 0))
  }

  // Line y of the picture, as far as tile j covers it: whole, or cut off at the end of
  // the picture's line.
  method PutLine(src: array<byte>, dst: array<byte>, at: nat, l: Layout, y: nat, j: nat, ptr: nat, whole: bool)
    requires src != dst && ptr + 32 <= src.Length && at + l.height * l.stride <= dst.Length
    requires y < l.height && 32 * j < l.stride
    requires l.sampling == Same || (l.sampling == Swapped && l.stride % 2 == 0)
    requires whole ==> l.sampling == Same && 32 * j + 32 <= l.stride
    modifies dst
    ensures LinePut(l, src[..], old(dst[..]), dst[..], at + At(l.stride, y, 32 * j), Min(32, l.stride - 32 * j), ptr)
  {
    var offset := y * l.stride + j * 32;
    var room := l.stride - 32 * j;
    Offset(l.stride, l.height, y, 32 * j);
    EvenRoom(l.stride, j);
    hide LinePut, At;
    if whole {
      CopyWhole(src, dst, ptr, at + offset, l);
    } else if l.sampling == Same {
      CopyClipped(src, dst, ptr, at + offset, room, l);
    } else {
      CopySwapped(src, dst, ptr, at + offset, room, l);
    }
  }

  // Lines below the picture are skipped.
  method DetileLine(src: array<byte>, dst: array<byte>, at: nat, l: Layout,
                    i: nat, j: nat, m: nat, whole: bool, ptr: nat, ghost before: seq<byte>)
    requires Fits(l, src, dst, at) && Covers(l)
    requires j < l.tilesPerRow && m < l.lines && 32 * j < l.stride
    requires whole ==> l.sampling == Same && 32 * j + 32 <= l.stride
    requires ptr == TileLine(l.tilesPerRow, l.lines, i, j, m) && ptr + 32 <= src.Length
    requires DoneTo(l, src[..], before, dst[..], at, ptr)
    modifies dst
    ensures DoneTo(l, src[..], before, dst[..], at, ptr + 1024 / l.lines)
  {
    hide DoneTo, TileLine, LinePut, At, Tile;
    ghost var mid := dst[..];
    var lineNum := i * l.lines + m;
    if lineNum < l.height {
      PutLine(src, dst, at, l, lineNum, j, ptr, whole);
    }
    LineDone(l, src[..], before, mid, dst[..], at, i, j, m);
  }

  lemma EvenRoom(stride: nat, j: nat)
    ensures stride % 2 == 0 ==> (stride - 32 * j) % 2 == 0
  {
  }

  lemma Offset(stride: nat, height: nat, y: nat, x: nat)
    requires y < height && x < stride
    ensures y * stride + x == At(stride, y, x) && At(stride, y, x) + (stride - x) <= height * stride
  {
    Farther(stride, y, height);
  }

  method DetileTile(src: array<byte>, dst: array<byte>, at: nat, l: Layout,
                    i: nat, j: nat, whole: bool, start: nat, ghost before: seq<byte>)
      returns (ptr: nat)
    requires Fits(l, src, dst, at) && Covers(l)
    requires i < TileRows(l) && j < l.tilesPerRow && 32 * j < l.stride
    requires whole ==> l.sampling == Same && 32 * j + 32 <= l.stride
    requires start == TileLine(l.tilesPerRow, l.lines, i, j, 0)
    requires DoneTo(l, src[..], before, dst[..], at, start)
    modifies dst
    ensures ptr == TileLine(l.tilesPerRow, l.lines, i, j + 1, 0)
    ensures DoneTo(l, src[..], before, dst[..], at, ptr)
  {
    hide DoneTo, TileLine, TileRows;
    ptr := start;
    for m := 0 to l.lines
      invariant ptr == TileLine(l.tilesPerRow, l.lines, i, j, m)
      invariant DoneTo(l, src[..], before, dst[..], at, ptr)
    {
      TileLineInside(l.tilesPerRow, l.lines, i, j, m, TileRows(l));
      NextTileLine(l.tilesPerRow, l.lines, i, j, m);
      DetileLine(src, dst, at, l, i, j, m, whole, ptr, before);
      ptr := ptr + 1024 / l.lines;
    }
    NextTileLine(l.tilesPerRow, l.lines, i, j, 0);
  }

  // ----- Luma -----

  function LumaLayout(width: nat, height: nat): Layout {
    Layout(Align32(width) / 32, 32, Same, Align16(width), height)
  }

  // Every tile but the last is copied whole, and the last as well if the stride ends
  // with it.
  method LumaTileRow(src: array<byte>, dst: array<byte>, at: nat, l: Layout,
                     i: nat, start: nat, ghost before: seq<byte>)
      returns (ptr: nat)
    requires Fits(l, src, dst, at) && l.sampling == Same && i < TileRows(l)
    requires l.tilesPerRow > 0 ==> Covers(l)
    requires forall j | 0 <= j < l.tilesPerRow :: 32 * j < l.stride
    requires l.stride <= 32 * l.tilesPerRow
    requires start == TileLine(l.tilesPerRow, l.lines, i, 0, 0)
    requires DoneTo(l, src[..], before, dst[..], at, start)
    modifies dst
    ensures ptr == TileLine(l.tilesPerRow, l.lines, i + 1, 0, 0)
    ensures DoneTo(l, src[..], before, dst[..], at, ptr)
  {
    hide DoneTo, TileLine, Fits, Covers, TileRows;
    var widthMatch := false;
    var whole := l.tilesPerRow - 1;
    if l.tilesPerRow * 32 == l.stride {
      widthMatch := true;
      whole := l.tilesPerRow;
    }
    ptr := start;
    for j := 0 to whole
      invariant ptr == TileLine(l.tilesPerRow, l.lines, i, j, 0)
      invariant DoneTo(l, src[..], before, dst[..], at, ptr)
    {
      assert 32 * j < l.stride && (j + 1 < l.tilesPerRow ==> 32 * (j + 1) < l.stride);
      ptr := DetileTile(src, dst, at, l, i, j, true, ptr, before);
    }
    NextTileLine(l.tilesPerRow, l.lines, i, 0, 0);
    if widthMatch {
      return;
    }
    assert 32 * whole < l.stride;
    ptr := DetileTile(src, dst, at, l, i, whole, false, ptr, before);
  }

  method ConvertMb32420ToNv21Y(src: array<byte>, dst: array<byte>, at: nat, width: nat, height: nat)
    requires Fits(LumaLayout(width, height), src, dst, at)
    modifies dst
    ensures Detiled(LumaLayout(width, height), src[..], old(dst[..]), dst[..], at)
  {
    var l := LumaLayout(width, height);
    ghost var before := dst[..];
    var tileRows := Align32(height) / 32;
    var ptr := 0;
    NothingDone(l, src[..], before, at);
    LumaCovers(width, height);
    hide DoneTo, TileLine, Covers;
    for i := 0 to tileRows
      invariant ptr == TileLine(l.tilesPerRow, l.lines, i, 0, 0)
      invariant DoneTo(l, src[..], before, dst[..], at, ptr)
    {
      ptr := LumaTileRow(src, dst, at, l, i, ptr, before);
    }
    AllDone(l, src[..], before, dst[..], at, tileRows);
  }

  lemma NothingDone(l: Layout, src: seq<byte>, before: seq<byte>, at: nat)
    ensures TileLine(l.tilesPerRow, l.lines, 0, 0, 0) == 0
    ensures DoneTo(l, src, before, before, at, 0)
  {
  }

  lemma LumaCovers(width: nat, height: nat)
    ensures var l := LumaLayout(width, height);
      && (l.stride > 0 <==> l.tilesPerRow > 0) && (l.stride > 0 ==> Covers(l))
      && l.height <= l.lines * TileRows(l) && l.stride <= 32 * l.tilesPerRow
      && forall j | 0 <= j < l.tilesPerRow :: 32 * j < l.stride
  {
    var q, t := TileCount(width);
    RowsCovered(height);
    if q > 0 {
      InTile(16 * q - 1, t);
    }
    hide Align16, Align32;
  }

  // ----- Interleaved chroma -----

  function Half(n: nat): nat { (n + 1) / 2 }

  // `lines` is 32 for 4:2:0 and 16 for 4:2:2.
  function ChromaLayout(lines: Lines, width: nat, height: nat): Layout {
    Layout(Align32(2 * Half(width)) / 32, lines, Swapped, Align16(2 * Half(width)), Half(height))
  }

  method ChromaTileRow(src: array<byte>, dst: array<byte>, at: nat, l: Layout,
                       i: nat, start: nat, ghost before: seq<byte>)
      returns (ptr: nat)
    requires Fits(l, src, dst, at) && i < TileRows(l)
    requires l.tilesPerRow > 0 ==> Covers(l)
    requires forall j | 0 <= j < l.tilesPerRow :: 32 * j < l.stride
    requires start == TileLine(l.tilesPerRow, l.lines, i, 0, 0)
    requires DoneTo(l, src[..], before, dst[..], at, start)
    modifies dst
    ensures ptr == TileLine(l.tilesPerRow, l.lines, i + 1, 0, 0)
    ensures DoneTo(l, src[..], before, dst[..], at, ptr)
  {
    hide DoneTo, TileLine, Fits, Covers, TileRows;
    ptr := start;
    for j := 0 to l.tilesPerRow
      invariant ptr == TileLine(l.tilesPerRow, l.lines, i, j, 0)
      invariant DoneTo(l, src[..], before, dst[..], at, ptr)
    {
      assert 32 * j < l.stride;
      ptr := DetileTile(src, dst, at, l, i, j, false, ptr, before);
    }
    NextTileLine(l.tilesPerRow, l.lines, i, 0, 0);
  }

  // ConvertMb32420ToNv21C and ConvertMb32422ToNv21C.
  method ConvertMb32ToNv21C(src: array<byte>, dst: array<byte>, at: nat, lines: Lines, width: nat, height: nat)
    requires Fits(ChromaLayout(lines, width, height), src, dst, at)
    modifies dst
    ensures Detiled(ChromaLayout(lines, width, height), src[..], old(dst[..]), dst[..], at)
  {
    var l := ChromaLayout(lines, width, height);
    ghost var before := dst[..];
    var tileRows := if lines == 32 then Align32(Half(height)) / 32 else Align32(2 * Half(height)) / 32;
    var ptr := 0;
    NothingDone(l, src[..], before, at);
    ChromaCovers(lines, width, height);
    hide DoneTo, TileLine, Covers;
    for i := 0 to tileRows
      invariant ptr == TileLine(l.tilesPerRow, l.lines, i, 0, 0)
      invariant DoneTo(l, src[..], before, dst[..], at, ptr)
    {
      ptr := ChromaTileRow(src, dst, at, l, i, ptr, before);
    }
    AllDone(l, src[..], before, dst[..], at, tileRows);
  }

  lemma ChromaCovers(lines: Lines, width: nat, height: nat)
    ensures var l := ChromaLayout(lines, width, height);
      && (l.stride > 0 <==> l.tilesPerRow > 0) && (l.stride > 0 ==> Covers(l))
      && l.height <= l.lines * TileRows(l) && l.stride % 2 == 0
      && forall j | 0 <= j < l.tilesPerRow :: 32 * j < l.stride
  {
    PairsCovered(2 * Half(width));
    RowsCovered(Half(height));
    hide Align16, Align32, Half;
  }

  lemma PairsCovered(w: nat)
    ensures Align16(w) % 2 == 0 && (Align16(w) > 0 <==> Align32(w) / 32 > 0)
    ensures Align16(w) > 0 ==> TileCol(Swapped, Align16(w) - 1) / 32 < Align32(w) / 32
    ensures forall j | 0 <= j < Align32(w) / 32 :: 32 * j < Align16(w)
  {
    var q, t := TileCount(w);
    Parity(q);
    if q > 0 {
      InTile(16 * q - 2, t);
    }
    hide Align16, Align32;
  }

  // In units of 16 and 32 bytes.
  lemma TileCount(w: nat) returns (q: nat, t: nat)
    ensures Align16(w) == 16 * q && Align32(w) / 32 == t
    ensures q <= 2 * t && (t > 0 ==> q > 2 * (t - 1))
  {
    q, t := (w + 15) / 16, (w + 31) / 32;
    Quotient(t, 0);
    InUnits(w + 15);
    InUnits(w + 31);
    Between(w, q, t);
  }

  lemma Between(w: nat, q: nat, t: nat)
    requires 16 * q <= w + 15 < 16 * q + 16 && 32 * t <= w + 31 < 32 * t + 32
    ensures q <= 2 * t && (t > 0 ==> q > 2 * (t - 1))
  {
  }

  lemma Parity(q: nat)
    ensures 16 * q % 2 == 0
    ensures q > 0 ==> TileCol(Swapped, 16 * q - 1) == 16 * q - 2
  {
  }

  lemma InUnits(n: nat)
    ensures 16 * (n / 16) <= n < 16 * (n / 16) + 16
    ensures 32 * (n / 32) <= n < 32 * (n / 32) + 32
  {
  }

  lemma InTile(n: nat, t: nat)
    requires n < 32 * t
    ensures n / 32 < t
  {
  }

  lemma RowsCovered(h: nat)
    ensures h <= 32 * (Align32(h) / 32) && h <= 16 * (Align32(2 * h) / 32)
  {
    var q, t := TileCount(h);
    var q', t' := TileCount(2 * h);
  }
}
