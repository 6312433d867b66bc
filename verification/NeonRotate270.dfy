// nv_rotage270 in NEON.
module NeonRotate270 {
  import opened Bytes
  import opened Samples
  import opened Interleave
  import opened Rotation
  import opened NeonTiles
  import opened YuvRotate

  // The chroma starts two lines behind its place.
  function Planes270(width: nat, height: nat): Planes {
    Planes(LumaFrom(width, height), LumaTo(width, height),
           ChromaFrom(width, height), ChromaBehind(width, height, 2 * height))
  }

  lemma Turning270(width: nat, height: nat, src: nat, dst: nat)
    requires HasRoom270(width, height, 2 * height, src, dst)
    ensures Turning(Planes270(width, height), By270, src, dst)
  {
    ChromaBehindLuma(width, height, 2 * height);
    hide Within, Apart;
  }

  method TileRow(width: nat, height: nat, src: array<byte>, dst: array<byte>, i: nat,
                 ys0: seq<nat>, uvs0: seq<nat>, yDst0: int, uvDst0: int, ghost before: seq<byte>)
      returns (ys: seq<nat>, uvs: seq<nat>)
    requires src != dst && HasRoom270(width, height, 2 * height, src.Length, dst.Length) && |before| == dst.Length
    requires width % 8 == 0 && height % 8 == 0 && i % 8 == 0 && i + 8 <= height
    requires var p := Planes270(width, height);
      && SourceAt(ys0, uvs0, p, i, 0) && (width > 0 ==> StoresAt(yDst0, uvDst0, p, By270, i, 0, 0))
      && BothTilesTo(src[..], dst[..], p, By270, i, 0) && OnlyTwo(p.d, p.dc, before, dst[..])
    modifies dst
    ensures var p := Planes270(width, height);
      && SourceAt(ys, uvs, p, i, width)
      && BothTilesTo(src[..], dst[..], p, By270, i, width) && OnlyTwo(p.d, p.dc, before, dst[..])
  {
    ghost var p := Planes270(width, height);
    Turning270(width, height, src.Length, dst.Length);
    hide LinesAt, TilesTo, BothTilesTo, OnlyTwo, StoresAt, Turning, HasRoom270;
    ys, uvs := ys0, uvs0;
    var yDst, uvDst := yDst0, uvDst0;
    var j := 0;
    while j < width
      invariant 0 <= j <= width && j % 8 == 0
      invariant SourceAt(ys, uvs, p, i, j) && (j < width ==> StoresAt(yDst, uvDst, p, By270, i, j, 0))
      invariant BothTilesTo(src[..], dst[..], p, By270, i, j) && OnlyTwo(p.d, p.dc, before, dst[..])
    {
      WholeTiles(j, width);
      yDst, uvDst := TilePair(src, dst, ys, uvs, yDst, uvDst, height, By270, p, i, j, before);
      ys := Advance(ys, p.s, 8, i, j);
      uvs := Advance(uvs, p.sc, 4, i / 2, j / 2);
      if j + 8 < width {
        WholeTiles(j + 8, width);
        NextStores(yDst, uvDst, p, By270, i, j);
      }
      yDst := yDst - 16 * height;
      uvDst := uvDst - 8 * height;
      j := j + 8;
    }
  }

  lemma RowStart(width: nat, height: nat, i: nat)
    requires width % 8 == 0 && height % 8 == 0 && i % 8 == 0 && i + 8 <= height && width > 0
    ensures StoresAt(height * (width - 8) + i, width * height + height * (width - 4) / 2 + i,
                     Planes270(width, height), By270, i, 0, 0)
  {
    var b, c := i / 8, width / 8;
    WholeTiles(0, width);
    HalfWay(height, width, c);
    assert i / 2 == 4 * b && width / 2 == 4 * c && i + 8 <= height;
    assert i / 2 + 4 <= height / 2;
  }

  lemma HalfWay(height: nat, width: nat, c: nat)
    requires width == 8 * c && c > 0
    ensures height * (width - 4) / 2 == 2 * height + (4 * c - 4) * height
  {
    assert height * (8 * c - 4) == 2 * (2 * height + (4 * c - 4) * height);
    HalfOfDouble(2 * height + (4 * c - 4) * height);
  }

  // For width and height that are multiples of 8.
  method NeonRotate270(width: nat, height: nat, src: array<byte>, dst: array<byte>)
    requires src != dst && HasRoom270(width, height, 2 * height, src.Length, dst.Length)
    requires width % 8 == 0 && height % 8 == 0
    modifies dst
    ensures TurnedBy270(width, height, 2 * height, src[..], old(dst[..]), dst[..])
    ensures width == 0 || height == 0 ==> ChromaRight(width, height, src[..], dst[..])
    ensures width > 0 && height > 0 && OtherByte(width, height, 0, src[..], old(dst[..])) ==>
              !ChromaRight(width, height, src[..], dst[..])
  {
    ghost var before := dst[..];
    TileRows(width, height, src, dst);
    hide TurnedBy270, ChromaRight, OtherByte;
    ChromaRightIff(width, height, 2 * height, src[..], before, dst[..]);
  }

  method TileRows(width: nat, height: nat, src: array<byte>, dst: array<byte>)
    requires src != dst && HasRoom270(width, height, 2 * height, src.Length, dst.Length)
    requires width % 8 == 0 && height % 8 == 0
    modifies dst
    ensures TurnedBy270(width, height, 2 * height, src[..], old(dst[..]), dst[..])
  {
    ghost var p, before := Planes270(width, height), dst[..];
    var ys := Pointers(0, width, 8);
    var uvs := Pointers(width * height, width, 4);
    var yStart := height * (width - 8);
    var uvStart := width * height + height * (width - 4) / 2;
    var yDst, uvDst := yStart, uvStart;
    Even(width);
    FirstPointers(p.s, 8);
    FirstPointers(p.sc, 4);
    Turning270(width, height, src.Length, dst.Length);
    NothingTurned(p, By270, src[..], before);
    hide LinesAt, TilesTo, OnlyTwo, StoresAt, Turning, HasRoom270, Pointers;
    var i := 0;
    while i < height
      invariant 0 <= i <= height && i % 8 == 0 && SourceAt(ys, uvs, p, i, 0)
      invariant yDst == yStart + i && uvDst == uvStart + i
      invariant BothTilesTo(src[..], dst[..], p, By270, i, 0) && OnlyTwo(p.d, p.dc, before, dst[..])
    {
      WholeTiles(i, height);
      if width > 0 {
        RowStart(width, height, i);
      }
      ys, uvs := TileRow(width, height, src, dst, i, ys, uvs, yDst, uvDst, before);
      ys := StepDown(ys, width * 7, p.s, 8, i);
      uvs := StepDown(uvs, width * 3, p.sc, 4, i / 2);
      RowDone(src[..], p.s, dst[..], p.d, By270, 8, i);
      RowDone(src[..], p.sc, dst[..], p.dc, By270, 4, i / 2);
      yDst := yStart + i + 8;
      uvDst := uvStart + i + 8;
      i := i + 8;
    }
    AllTurned(src[..], p.s, dst[..], p.d, By270, 8);
    AllTurned(src[..], p.sc, dst[..], p.dc, By270, 4);
    hide Rotated;
  }

  // For every picture that has chroma there are bytes for which it is not right.
  method ChromaGoesWrong(width: nat, height: nat) returns (src: array<byte>, dst: array<byte>)
    requires width % 8 == 0 && height % 8 == 0 && width > 0 && height > 0
    ensures !ChromaRight(width, height, src[..], dst[..])
  {
    src, dst := ZerosAndOnes(width, height, 2 * height);
    NeonRotate270(width, height, src, dst);
  }

  // The NEON code and the scalar loops do not even agree on where the chroma goes.
  lemma NeonIsNotScalar(width: nat, height: nat, src: seq<byte>, before: seq<byte>, neon: seq<byte>, scalar: seq<byte>)
    requires width % 8 == 0 && height % 8 == 0 && width > 0 && height > 0
    requires HasRoom270(width, height, 2 * height, |src|, |before|)
    requires TurnedBy270(width, height, 2 * height, src, before, neon)
    requires TurnedBy270(width, height, Displacement(width, height), src, before, scalar)
    requires OtherByte(width, height, Displacement(width, height), src, before)
    ensures neon != scalar
  {
    ChromaMissed(width, height, Displacement(width, height), 2 * height, src, before, neon);
  }
}
