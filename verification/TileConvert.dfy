// Converting tiled pictures to NV21 and YV12.
module TileConvert {
  import opened Bytes
  import opened Raster
  import opened Detile
  import opened Mb32
  import opened Mb32Planar
  import opened Picture
  import opened PixelLayout
  import opened RotatePicture
  import opened PixelConvert

  function LinesOf(f: PixelFormat): Raster.Lines { if f.Mb32_422? then 16 else 32 }

  // All tiles of a plane are in the buffer.
  ghost predicate HasTiles(l: Layout, size: int) {
    TileLine(l.tilesPerRow, l.lines, TileRows(l), 0, 0) <= size
  }

  // In numbers: 1024 bytes for every tile that a picture touches.
  lemma RoomForTiles(width: nat, height: nat, size: int)
    ensures HasTiles(LumaLayout(width, height), size) <==> (height + 31) / 32 * ((width + 31) / 32) * 1024 <= size
    ensures HasTiles(ChromaLayout(32, width, height), size) <==>
              ((height + 1) / 2 + 31) / 32 * (((width + 1) / 2 * 2 + 31) / 32) * 1024 <= size
    ensures HasTiles(ChromaLayout(16, width, height), size) <==>
              ((height + 1) / 2 * 2 + 31) / 32 * (((width + 1) / 2 * 2 + 31) / 32) * 1024 <= size
  {
    var w2, h2 := Half(width), Half(height);
    TilesAcross(width);
    TilesAcross(height);
    TilesAcross(2 * w2);
    TilesAcross(h2);
    TilesAcross(2 * h2);
    assert w2 == (width + 1) / 2 && h2 == (height + 1) / 2;
    hide Align32, Align16, Half;
  }

  lemma TilesAcross(n: nat)
    ensures Align32(n) / 32 == (n + 31) / 32
  {
  }

  function Tiles(f: PixelFormat, width: nat, height: nat, data: seq<byte>, tiles: seq<byte>): View {
    View(f, width, height, Align16(width), data, tiles)
  }

  // 16 lines spread over a tile are every other of its 32.
  lemma EveryOtherLine(tilesPerRow: nat, y: nat, x: nat)
    ensures Tile(tilesPerRow, 16, y, x) == Tile(tilesPerRow, 32, 2 * y, x)
  {
    assert 2 * y / 32 == y / 16 && 2 * y % 32 == 2 * (y % 16);
  }

  lemma LumaFromTiles(v: View, v': View, before: seq<byte>)
    requires (v.format.Mb32_420? || v.format.Mb32_422?) && !v'.format.Mb32_420? && !v'.format.Mb32_422?
    requires v'.width == v.width && v'.height == v.height && v'.stride == Align16(v.width)
    requires HasLines(v'.stride, v.height, v.width, |v'.data|)
    requires Detiled(LumaLayout(v.width, v.height), v.data, before, v'.data, 0)
    ensures SameLuma(v, v')
  {
    var l := LumaLayout(v.width, v.height);
    hide Tile, At, Detiled, Align16, Align32, SizeY, SizeC;
    LumaFirst(v'.stride, v.height, v.width);
    forall y: nat, x: nat | y < v.height && x < v.width ensures Y(v', y, x) == Y(v, y, x) {
      DetiledAt(l, v.data, before, v'.data, 0, y, x);
    }
  }

  // Luma survives the writing of chroma behind it.
  lemma LumaKept(l: Layout, src: seq<byte>, before: seq<byte>, mid: seq<byte>, after: seq<byte>)
    requires Detiled(l, src, before, mid, 0) && |after| == |mid|
    requires l.height * l.stride <= |mid| && after[..l.height * l.stride] == mid[..l.height * l.stride]
    ensures Detiled(l, src, after, after, 0)
  {
    var n := l.height * l.stride;
    hide SourceOf;
    forall q | 0 <= q < |after|
      ensures if 0 <= q < n then SourceOf(l, q) < |src| && after[q] == src[SourceOf(l, q)] else after[q] == after[q]
    {
      if q < n {
        assert after[..n][q] == mid[..n][q];
      }
    }
  }

  lemma DetiledLength(l: Layout, src: seq<byte>, before: seq<byte>, after: seq<byte>, at: nat)
    requires Detiled(l, src, before, after, at)
    ensures |after| == |before|
  {
    hide SourceOf;
  }

  lemma DetiledBehind(l: Layout, src: seq<byte>, before: seq<byte>, after: seq<byte>, at: nat, n: nat)
    requires Detiled(l, src, before, after, at) && n <= at && n <= |before|
    ensures after[..n] == before[..n]
  {
    hide SourceOf;
  }

  lemma ChromaTileAt(v: View, y: nat, c: nat)
    requires v.format.Mb32_420? || v.format.Mb32_422?
    ensures ChromaTile(v, y, c) == ByteAt(v.tiles, Tile(Align32(2 * Half(v.width)) / 32, LinesOf(v.format), y, c))
  {
    EveryOtherLine(Align32(2 * Half(v.width)) / 32, y, c);
    hide Tile, Align32, Half;
  }

  lemma PairSample(l: Layout, src: seq<byte>, before: seq<byte>, after: seq<byte>, at: nat, y: nat, x: nat)
    requires l.sampling == Swapped && Detiled(l, src, before, after, at) && at + l.height * l.stride <= |after|
    requires y < l.height && 2 * x + 1 < l.stride
    ensures var p, q := at + At(l.stride, y, 2 * x), at + At(l.stride, y, 2 * x + 1);
      && p < |after| && after[p] == ByteAt(src, Tile(l.tilesPerRow, l.lines, y, 2 * x + 1))
      && q < |after| && after[q] == ByteAt(src, Tile(l.tilesPerRow, l.lines, y, 2 * x))
  {
    hide Tile, Detiled, At;
    DetiledAt(l, src, before, after, at, y, 2 * x);
    DetiledAt(l, src, before, after, at, y, 2 * x + 1);
  }

  lemma PairsFromTiles(v: View, v': View, before: seq<byte>)
    requires (v.format.Mb32_420? || v.format.Mb32_422?) && v'.format.NV21?
    requires v'.width == v.width && v'.height == v.height && v'.stride == Align16(v.width)
    requires HasLines(v'.stride, v.height, v.width, |v'.data|)
    requires Detiled(ChromaLayout(LinesOf(v.format), v.width, v.height), v.tiles, before, v'.data,
                     SizeY(v'.stride, v.height))
    ensures SameChroma(v, v')
  {
    var l := ChromaLayout(LinesOf(v.format), v.width, v.height);
    var at := SizeY(v'.stride, v.height);
    hide Tile, At, Detiled, Align16, Align8, Align32, SizeY, SizeC, ChromaTile, Half, Places, HasLines;
    ChromaFits(LinesOf(v.format), v.width, v.height, |v'.data|);
    AlignedStride(v.width);
    WholeHalves(v'.stride);
    forall y: nat, x: nat | y < Half(v.height) && x < Half(v.width)
      ensures V(v', y, x) == V(v, y, x) && U(v', y, x) == U(v, y, x)
    {
      PairSample(l, v.tiles, before, v'.data, at, y, x);
      ChromaTileAt(v, y, 2 * x);
      ChromaTileAt(v, y, 2 * x + 1);
    }
  }

  // The chroma strides of the converters are those of the picture.
  lemma ChromaFits(lines: Raster.Lines, width: nat, height: nat, size: int)
    requires HasLines(Align16(width), height, width, size)
    ensures var n := SizeY(Align16(width), height);
      && n + Half(height) * Align16(2 * Half(width)) <= size
      && Places(PlaneLayout(lines, width, height), size, n + SizeC(Align16(width), height), n)
      && height * Align16(width) <= n
      && Align16(2 * Half(width)) == Align16(width) && Align8(Half(width)) == Align16(width) / 2
      && 2 * Half(width) <= Align16(width)
  {
    hide Align16, Align8, Align32, SizeY, SizeC, Half;
    ChromaStrideIsLumaStride(width);
    AlignedStride(width);
    WholeHalves(Align16(width));
    WholePlanesFit(Align16(width), height, width, size, Half(height));
  }

  method ConvertTilesToNv21(src: array<byte>, tiles: array<byte>, dst: array<byte>,
                            f: PixelFormat, width: nat, height: nat)
    requires src != dst && tiles != dst && (f.Mb32_420? || f.Mb32_422?)
    requires HasTiles(LumaLayout(width, height), src.Length)
    requires HasTiles(ChromaLayout(LinesOf(f), width, height), tiles.Length)
    requires HasLines(Align16(width), height, width, dst.Length)
    modifies dst
    ensures SamePixels(Tiles(f, width, height, src[..], tiles[..]),
                       Shown(NV21, width, height, Align16(width), dst[..]))
  {
    hide Detiled, SizeY, SizeC, TileLine, TileRows, Align16, Align8, Align32, Half, SamePixels, HasLines, Places;
    ghost var before := dst[..];
    ChromaFits(LinesOf(f), width, height, dst.Length);
    ChromaCovers(LinesOf(f), width, height);
    var n := SizeY(Align16(width), height);
    ConvertMb32420ToNv21Y(src, dst, 0, width, height);
    ghost var mid := dst[..];
    ConvertMb32ToNv21C(tiles, dst, n, LinesOf(f), width, height);
    TilesToNv21Same(f, width, height, src[..], tiles[..], before, mid, dst[..]);
  }

  lemma TilesToNv21Same(f: PixelFormat, width: nat, height: nat, src: seq<byte>, tiles: seq<byte>,
                        before: seq<byte>, mid: seq<byte>, after: seq<byte>)
    requires (f.Mb32_420? || f.Mb32_422?) && HasLines(Align16(width), height, width, |after|)
    requires Detiled(LumaLayout(width, height), src, before, mid, 0)
    requires Detiled(ChromaLayout(LinesOf(f), width, height), tiles, mid, after, SizeY(Align16(width), height))
    ensures SamePixels(Tiles(f, width, height, src, tiles), Shown(NV21, width, height, Align16(width), after))
  {
    hide Detiled, SizeY, SizeC, Align16, Align8, Align32, Half, SameLuma, SameChroma, SamePixels, HasLines, Places;
    DetiledLength(ChromaLayout(LinesOf(f), width, height), tiles, mid, after, SizeY(Align16(width), height));
    var n := SizeY(Align16(width), height);
    ChromaFits(LinesOf(f), width, height, |after|);
    DetiledBehind(ChromaLayout(LinesOf(f), width, height), tiles, mid, after, n, height * Align16(width));
    LumaKept(LumaLayout(width, height), src, before, mid, after);
    var v, v' := Tiles(f, width, height, src, tiles), Shown(NV21, width, height, Align16(width), after);
    LumaFromTiles(v, v', after);
    PairsFromTiles(v, v', mid);
    PartsMakeSame(v, v');
  }

  lemma OnlyPlanesBehind(l: Layout, before: seq<byte>, after: seq<byte>, atU: nat, atV: nat, n: nat)
    requires OnlyPlanes(l, before, after, atU, atV) && n <= atU && n <= atV && n <= |before|
    ensures after[..n] == before[..n]
  {
  }

  lemma PlanesFromTiles(v: View, v': View, before: seq<byte>)
    requires (v.format.Mb32_420? || v.format.Mb32_422?) && v'.format.YV12?
    requires v'.width == v.width && v'.height == v.height && v'.stride == Align16(v.width)
    requires HasLines(v'.stride, v.height, v.width, |v'.data|) && |before| == |v'.data|
    requires var n, c := SizeY(v'.stride, v.height), SizeC(v'.stride, v.height);
      var l := PlaneLayout(LinesOf(v.format), v.width, v.height);
      Places(l, |before|, n + c, n) && PairDetiled(l, v.tiles, before, v'.data, n + c, n)
    ensures SameChroma(v, v')
  {
    var l := PlaneLayout(LinesOf(v.format), v.width, v.height);
    var n, c := SizeY(v'.stride, v.height), SizeC(v'.stride, v.height);
    hide Tile, At, PairDetiled, Align16, Align32, Align8, SizeY, SizeC, ChromaTile, Half, Places;
    ChromaFits(LinesOf(v.format), v.width, v.height, |v'.data|);
    forall y: nat, x: nat | y < Half(v.height) && x < Half(v.width)
      ensures V(v', y, x) == V(v, y, x) && U(v', y, x) == U(v, y, x)
    {
      PlanarSample(l, v.tiles, before, v'.data, n + c, n, y, x);
      ChromaTileAt(v, y, 2 * x);
      ChromaTileAt(v, y, 2 * x + 1);
    }
  }

  lemma PlanarSample(l: Layout, src: seq<byte>, before: seq<byte>, after: seq<byte>, atU: nat, atV: nat, y: nat, x: nat)
    requires Places(l, |before|, atU, atV) && PairDetiled(l, src, before, after, atU, atV)
    requires y < l.height && x < l.stride
    ensures var p := At(l.stride, y, x);
      && atU + p < |after| && atV + p < |after|
      && after[atU + p] == ByteAt(src, Tile(l.tilesPerRow, l.lines, y, 2 * x))
      && after[atV + p] == ByteAt(src, Tile(l.tilesPerRow, l.lines, y, 2 * x + 1))
  {
    hide Tile, Detiled, Row, Col;
    Offset(l.stride, l.height, y, x);
    DetiledAt(l, src, Plane(l, before, atU), Plane(l, after, atU), 0, y, x);
    DetiledAt(OddOf(l), src, Plane(l, before, atV), Plane(l, after, atV), 0, y, x);
    hide At;
  }

  method ConvertTilesToYv12(src: array<byte>, tiles: array<byte>, dst: array<byte>,
                            f: PixelFormat, width: nat, height: nat)
    requires src != dst && tiles != dst && (f.Mb32_420? || f.Mb32_422?)
    requires HasTiles(LumaLayout(width, height), src.Length)
    requires HasTiles(PlaneLayout(LinesOf(f), width, height), tiles.Length)
    requires HasLines(Align16(width), height, width, dst.Length)
    modifies dst
    ensures SamePixels(Tiles(f, width, height, src[..], tiles[..]),
                       Shown(YV12, width, height, Align16(width), dst[..]))
  {
    hide Detiled, PairDetiled, SizeY, SizeC, TileLine, TileRows, Align16, Align8, Align32, Half;
    hide SamePixels, HasLines, Places;
    ghost var before := dst[..];
    ChromaFits(LinesOf(f), width, height, dst.Length);
    var n, c := SizeY(Align16(width), height), SizeC(Align16(width), height);
    ConvertMb32420ToNv21Y(src, dst, 0, width, height);
    ghost var mid := dst[..];
    ConvertMb32ToYv12C(tiles, dst, n + c, n, LinesOf(f), width, height);
    TilesToYv12Same(f, width, height, src[..], tiles[..], before, mid, dst[..]);
  }

  lemma TilesToYv12Same(f: PixelFormat, width: nat, height: nat, src: seq<byte>, tiles: seq<byte>,
                        before: seq<byte>, mid: seq<byte>, after: seq<byte>)
    requires (f.Mb32_420? || f.Mb32_422?) && HasLines(Align16(width), height, width, |after|) && |mid| == |after|
    requires Detiled(LumaLayout(width, height), src, before, mid, 0)
    requires var n, c := SizeY(Align16(width), height), SizeC(Align16(width), height);
      && Places(PlaneLayout(LinesOf(f), width, height), |mid|, n + c, n)
      && PairDetiled(PlaneLayout(LinesOf(f), width, height), tiles, mid, after, n + c, n)
    ensures SamePixels(Tiles(f, width, height, src, tiles), Shown(YV12, width, height, Align16(width), after))
  {
    hide Detiled, PairDetiled, OnlyPlanes, SizeY, SizeC, Align16, Align8, Align32, Half;
    hide SameLuma, SameChroma, SamePixels, HasLines, Places;
    var n, c := SizeY(Align16(width), height), SizeC(Align16(width), height);
    var lp := PlaneLayout(LinesOf(f), width, height);
    ChromaFits(LinesOf(f), width, height, |after|);
    PairOnlyPlanes(lp, tiles, mid, after, n + c, n);
    OnlyPlanesBehind(lp, mid, after, n + c, n, height * Align16(width));
    LumaKept(LumaLayout(width, height), src, before, mid, after);
    var v, v' := Tiles(f, width, height, src, tiles), Shown(YV12, width, height, Align16(width), after);
    LumaFromTiles(v, v', after);
    PlanesFromTiles(v, v', mid);
    PartsMakeSame(v, v');
  }

  lemma PairOnlyPlanes(l: Layout, src: seq<byte>, before: seq<byte>, after: seq<byte>, atU: nat, atV: nat)
    requires Places(l, |before|, atU, atV) && PairDetiled(l, src, before, after, atU, atV)
    ensures OnlyPlanes(l, before, after, atU, atV)
  {
  }
}
