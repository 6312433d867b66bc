// nv_rotage90 in NEON.
module NeonRotate {
  import opened Bytes
  import opened Raster
  import opened Samples
  import opened Interleave
  import opened Rotation
  import opened NeonTiles
  import opened YuvRotate

  function Planes90(width: nat, height: nat): Planes {
    Planes(LumaFrom(width, height), LumaTo(width, height), ChromaFrom(width, height), ChromaTo(width, height))
  }

  lemma Turning90(width: nat, height: nat, src: nat, dst: nat)
    requires HasRoom(width, height, src, dst)
    ensures Turning(Planes90(width, height), By90, src, dst)
  {
    LumaBeforeChroma(width, height);
    hide Within, Apart;
  }

  method TileRow(width: nat, height: nat, src: array<byte>, dst: array<byte>, i: nat,
                 ys0: seq<nat>, uvs0: seq<nat>, yDst0: int, uvDst0: int, ghost before: seq<byte>)
      returns (ys: seq<nat>, uvs: seq<nat>)
    requires src != dst && HasRoom(width, height, src.Length, dst.Length) && |before| == dst.Length
    requires width % 8 == 0 && height % 8 == 0 && i % 8 == 0 && i + 8 <= height
    requires var p := Planes90(width, height);
      && SourceAt(ys0, uvs0, p, i, 0) && (width > 0 ==> StoresAt(yDst0, uvDst0, p, By90, i, 0, 0))
      && BothTilesTo(src[..], dst[..], p, By90, i, 0) && OnlyTwo(p.d, p.dc, before, dst[..])
    modifies dst
    ensures var p := Planes90(width, height);
      && SourceAt(ys, uvs, p, i, width)
      && BothTilesTo(src[..], dst[..], p, By90, i, width) && OnlyTwo(p.d, p.dc, before, dst[..])
  {
    ghost var p := Planes90(width, height);
    Turning90(width, height, src.Length, dst.Length);
    hide LinesAt, TilesTo, BothTilesTo, OnlyTwo, StoresAt, Turning, HasRoom;
    ys, uvs := ys0, uvs0;
    var yDst, uvDst := yDst0, uvDst0;
    var j := 0;
    while j < width
      invariant 0 <= j <= width && j % 8 == 0
      invariant SourceAt(ys, uvs, p, i, j) && (j < width ==> StoresAt(yDst, uvDst, p, By90, i, j, 0))
      invariant BothTilesTo(src[..], dst[..], p, By90, i, j) && OnlyTwo(p.d, p.dc, before, dst[..])
    {
      WholeTiles(j, width);
      yDst, uvDst := TilePair(src, dst, ys, uvs, yDst, uvDst, height, By90, p, i, j, before);
      ys := Advance(ys, p.s, 8, i, j);
      uvs := Advance(uvs, p.sc, 4, i / 2, j / 2);
      if j + 8 < width {
        WholeTiles(j + 8, width);
        NextStores(yDst, uvDst, p, By90, i, j);
      }
      j := j + 8;
    }
  }

  lemma RowStart(width: nat, height: nat, i: nat)
    requires width % 8 == 0 && height % 8 == 0 && i % 8 == 0 && i + 8 <= height && width > 0
    ensures StoresAt(height - 8 - i, width * height + height - 8 - i, Planes90(width, height), By90, i, 0, 0)
  {
    var a, b, c := height / 8, i / 8, width / 8;
    assert height == 8 * a && i == 8 * b && width == 8 * c;
    assert height / 2 == 4 * a && i / 2 == 4 * b && width / 2 == 4 * c && height % 2 == 0;
  }

  method NeonRotate90(width: nat, height: nat, src: array<byte>, dst: array<byte>)
    requires src != dst && HasRoom(width, height, src.Length, dst.Length)
    requires width % 8 == 0 && height % 8 == 0
    modifies dst
    ensures TurnedBy90(width, height, src[..], old(dst[..]), dst[..])
  {
    ghost var p, before := Planes90(width, height), dst[..];
    var ys := Pointers(0, width, 8);
    var uvs := Pointers(width * height, width, 4);
    var yDst := height - 8;
    var uvDst := width * height + height - 8;
    Even(width);
    FirstPointers(p.s, 8);
    FirstPointers(p.sc, 4);
    Turning90(width, height, src.Length, dst.Length);
    NothingTurned(p, By90, src[..], before);
    hide LinesAt, TilesTo, OnlyTwo, StoresAt, Turning, HasRoom, Pointers;
    var i := 0;
    while i < height
      invariant 0 <= i <= height && i % 8 == 0 && SourceAt(ys, uvs, p, i, 0)
      invariant yDst == height - 8 - i && uvDst == width * height + height - 8 - i
      invariant BothTilesTo(src[..], dst[..], p, By90, i, 0) && OnlyTwo(p.d, p.dc, before, dst[..])
    {
      WholeTiles(i, height);
      if width > 0 {
        RowStart(width, height, i);
      }
      ys, uvs := TileRow(width, height, src, dst, i, ys, uvs, yDst, uvDst, before);
      ys := StepDown(ys, width * 7, p.s, 8, i);
      uvs := StepDown(uvs, width * 3, p.sc, 4, i / 2);
      RowDone(src[..], p.s, dst[..], p.d, By90, 8, i);
      RowDone(src[..], p.sc, dst[..], p.dc, By90, 4, i / 2);
      yDst := height - 8 - i - 8;
      uvDst := width * height + height - 8 - i - 8;
      i := i + 8;
    }
    AllTurned(src[..], p.s, dst[..], p.d, By90, 8);
    AllTurned(src[..], p.sc, dst[..], p.dc, By90, 4);
    hide Rotated;
  }

  // The NEON code writes exactly the bytes the scalar loops write: for such a picture
  // what nv_rotage90 is for leaves no choice.
  lemma NeonIsScalar(width: nat, height: nat, src: seq<byte>, before: seq<byte>, neon: seq<byte>, scalar: seq<byte>)
    requires HasRoom(width, height, |src|, |before|) && width % 8 == 0 && height % 8 == 0
    requires TurnedBy90(width, height, src, before, neon) && TurnedBy90(width, height, src, before, scalar)
    ensures neon == scalar
  {
    var s, d := LumaFrom(width, height), LumaTo(width, height);
    var sc, dc := ChromaFrom(width, height), ChromaTo(width, height);
    EvenLines(width, height);
    hide Rotated, Within, End, LumaFrom, LumaTo, ChromaFrom, ChromaTo;
    forall q | 0 <= q < |before| ensures neon[q] == scalar[q] {
      if d.at <= q < End(d) {
        SameByte(src, s, neon, scalar, d, q);
      } else if dc.at <= q < End(dc) {
        SameByte(src, sc, neon, scalar, dc, q);
      }
    }
  }

  lemma EvenLines(width: nat, height: nat)
    requires height % 8 == 0
    ensures var d, dc := LumaTo(width, height), ChromaTo(width, height);
      && Receives(d, LumaFrom(width, height), By90) && Receives(dc, ChromaFrom(width, height), By90)
      && d.unit * d.cols == d.stride && dc.unit * dc.cols == dc.stride
  {
    Even(height);
  }

  // Without padding every byte of an area belongs to a sample.
  lemma PlaceOf(d: Area, q: nat) returns (r: nat, c: nat, k: nat)
    requires d.unit * d.cols == d.stride && d.at <= q < End(d)
    ensures r < d.rows && c < d.cols && k < d.unit && Pos(d, r, c, k) == q
  {
    var p := q - d.at;
    WholeLines(d, d.at + d.rows * d.stride);
    hide End;
    AtOfRowCol(d.stride, p);
    RowsBelow(d.stride, d.rows, p);
    hide Row, At;
    r, c, k := Row(d.stride, p), Col(d.stride, p) / d.unit, Col(d.stride, p) % d.unit;
  }

  lemma SameByte(src: seq<byte>, s: Area, a: seq<byte>, b: seq<byte>, d: Area, q: nat)
    requires Receives(d, s, By90) && Within(d, |a|) && |a| == |b| && d.unit * d.cols == d.stride
    requires Rotated(src, s, a, d, By90) && Rotated(src, s, b, d, By90)
    requires d.at <= q < End(d) && q < |a|
    ensures a[q] == b[q]
  {
    var r, c, k := PlaceOf(d, q);
    hide Rotated, Within, End;
    SampleOfRotated(src, s, a, d, By90, s.rows - 1 - c, r, k);
    SampleOfRotated(src, s, b, d, By90, s.rows - 1 - c, r, k);
  }
}
