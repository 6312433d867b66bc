// The picture records the converters and rotators are called with.
module VideoPicture {
  import opened Bytes
  import opened Raster
  import opened Mb32
  import opened Mb32Planar
  import opened Samples
  import opened Rotation
  import opened Picture
  import opened PixelBytes
  import opened PixelLayout
  import opened RotatePicture
  import opened PixelConvert
  import opened TileConvert

  class VideoPicture {
    var width: nat
    var height: nat
    var lineStride: nat
    var format: PixelFormat
    const data0: array<byte>
    const tiles: array<byte> // what pData1 points to in a tiled picture
    var data1: int           // pData1 and pData2 of a picture in lines, from pData0
    var data2: int

    constructor (width: nat, height: nat, lineStride: nat, format: PixelFormat, data0: array<byte>, tiles: array<byte>)
      ensures this.width == width && this.height == height && this.lineStride == lineStride
      ensures this.format == format && this.data0 == data0 && this.tiles == tiles
    {
      this.width, this.height, this.lineStride, this.format := width, height, lineStride, format;
      this.data0, this.tiles := data0, tiles;
      data1, data2 := 0, 0;
    }

    // As the converters see it: in lines of the width rounded up to 16.
    ghost function Converted(): View
      reads this, data0, tiles
    {
      View(format, width, height, Align16(width), data0[..],
           if format.Mb32_420? || format.Mb32_422? then tiles[..] else [])
    }

    // As the rotators see it, in the format of the picture they write.
    ghost function As(f: PixelFormat): View
      reads this, data0
    {
      Shown(f, width, height, lineStride, data0[..])
    }

    // The buffers hold the picture.
    ghost predicate Complete()
      reads this
    {
      if format.Mb32_420? || format.Mb32_422? then
        && HasTiles(LumaLayout(width, height), data0.Length)
        && HasTiles(ChromaLayout(LinesOf(format), width, height), tiles.Length)
        && HasTiles(PlaneLayout(LinesOf(format), width, height), tiles.Length)
      else
        HasLines(Align16(width), height, width, data0.Length)
    }
  }

  // pData1 and pData2 point to the chroma.
  ghost predicate PointersSet(p: VideoPicture, f: PixelFormat)
    reads p
  {
    && p.data1 == SizeY(p.lineStride, p.height)
    && (f.YV12? ==> p.data2 == SizeY(p.lineStride, p.height) + SizeC(p.lineStride, p.height))
  }

  predicate CanConvert(from: PixelFormat, to: PixelFormat) {
    match to
    case YV12 => from.Mb32_420? || from.Mb32_422? || from.NV21? || from.Planar420?
    case NV21 => from.Mb32_420? || from.Mb32_422? || from.YV12? || from.Planar420?
    case _ => false
  }

  predicate CanTurn(f: PixelFormat) { f.YV12? || f.NV21? || f.NV12? }

  // Every conversion shows the same picture; for any other pair of formats no pixel
  // is written.
  method ConvertPixelFormat(pin: VideoPicture, pout: VideoPicture)
    requires pin != pout && pout.data0 != pin.data0 && pout.data0 != pin.tiles
    requires CanConvert(pin.format, pout.format) ==>
      pin.Complete() && HasLines(Align16(pin.width), pin.height, pin.width, pout.data0.Length)
    modifies pin`data1, pin`data2, pout`lineStride, pout`height, pout`width, pout`data1, pout`data2, pout.data0
    ensures pout.width == pin.width && pout.height == pin.height && pout.lineStride == Align16(pin.width)
    ensures CanConvert(pin.format, pout.format) ==> SamePixels(pin.Converted(), pout.Converted())
    ensures !CanConvert(pin.format, pout.format) ==> pout.data0[..] == old(pout.data0[..])
    ensures var sizeY, sizeC := SizeY(Align16(pin.width), pin.height), SizeC(Align16(pin.width), pin.height);
      if pin.format.NV21? && pout.format.YV12? then
        && pout.data1 == pin.data1 == sizeY && pout.data2 == sizeY + sizeC && pin.data2 == old(pin.data2)
      else if (pin.format.YV12? || pin.format.Planar420?) && pout.format.NV21? then
        && pout.data1 == pin.data1 == sizeY && pin.data2 == sizeY + sizeC && pout.data2 == old(pout.data2)
      else
        && pout.data1 == old(pout.data1) && pout.data2 == old(pout.data2)
        && pin.data1 == old(pin.data1) && pin.data2 == old(pin.data2)
  {
    var w, h := pin.width, pin.height;
    var sizeY, sizeC := SizeY(Align16(w), h), SizeC(Align16(w), h);
    pout.lineStride := Align16(w);
    pout.height := h;
    pout.width := w;
    hide SizeY, SizeC, SamePixels, HasTiles, HasLines, Align16;
    if pout.format == YV12 {
      if pin.format == Mb32_420 || pin.format == Mb32_422 {
        ConvertTilesToYv12(pin.data0, pin.tiles, pout.data0, pin.format, w, h);
      }
      if pin.format == NV21 {
        pout.data1, pout.data2, pin.data1 := sizeY, sizeY + sizeC, sizeY;
        ConvertNv21ToYv12(pin.data0, pout.data0, w, h);
      } else if pin.format == Planar420 {
        ConvertPlanar420ToYv12(pin.data0, pout.data0, w, h);
      }
    } else if pout.format == NV21 {
      if pin.format == Mb32_420 || pin.format == Mb32_422 {
        ConvertTilesToNv21(pin.data0, pin.tiles, pout.data0, pin.format, w, h);
      }
      if pin.format == YV12 || pin.format == Planar420 {
        pin.data1, pin.data2, pout.data1 := sizeY, sizeY + sizeC, sizeY;
        ConvertPlanesToNv21(pin.data0, pout.data0, pin.format, w, h);
      }
    }
  }

  method RotatePicture90Degree(pin: VideoPicture, pout: VideoPicture)
    requires pin != pout && pout.data0 != pin.data0
    requires CanTurn(pout.format) ==>
      && HasLines(pin.lineStride, pin.height, pin.width, pin.data0.Length)
      && HasLines(Align16(pin.height), pin.width, pin.height, pout.data0.Length)
    modifies pin`data1, pin`data2, pout`lineStride, pout`height, pout`width, pout`data1, pout`data2, pout.data0
    ensures pout.lineStride == Align16(pin.height) && pout.height == pin.width && pout.width == pin.height
    ensures CanTurn(pout.format) ==> Turned(pin.As(pout.format), pout.As(pout.format), By90)
    ensures !CanTurn(pout.format) ==> pout.data0[..] == old(pout.data0[..])
    ensures CanTurn(pout.format) ==> PointersSet(pin, pout.format) && PointersSet(pout, pout.format)
  {
    pout.lineStride := Align16(pin.height);
    pout.height := pin.width;
    pout.width := pin.height;
    hide Turned, HasLines, Align16;
    if CanTurn(pout.format) {
      pin.data1 := SizeY(pin.lineStride, pin.height);
      pout.data1 := SizeY(pout.lineStride, pout.height);
      if pout.format == YV12 {
        pin.data2 := pin.data1 + SizeC(pin.lineStride, pin.height);
        pout.data2 := pout.data1 + SizeC(pout.lineStride, pout.height);
      }
      TurnLines(pin.data0, pout.data0, pout.format, pin.lineStride, pout.lineStride, pin.height, pin.width, By90);
    }
  }

  method RotatePicture180Degree(pin: VideoPicture, pout: VideoPicture)
    requires pin != pout && pout.data0 != pin.data0
    requires CanTurn(pout.format) ==>
      && HasLines(pin.lineStride, pin.height, pin.width, pin.data0.Length)
      && HasLines(pin.lineStride, pin.height, pin.width, pout.data0.Length)
    modifies pin`data1, pin`data2, pout`lineStride, pout`height, pout`width, pout`data1, pout`data2, pout.data0
    ensures pout.lineStride == pin.lineStride && pout.height == pin.height && pout.width == pin.width
    ensures CanTurn(pout.format) ==> Turned(pin.As(pout.format), pout.As(pout.format), By180)
    ensures !CanTurn(pout.format) ==> pout.data0[..] == old(pout.data0[..])
    ensures CanTurn(pout.format) ==> PointersSet(pin, pout.format) && PointersSet(pout, pout.format)
  {
    pout.lineStride := pin.lineStride;
    hide Turned, HasLines;
    if CanTurn(pout.format) {
      pout.data1 := SizeY(pin.lineStride, pin.height);
      pin.data1 := SizeY(pin.lineStride, pin.height);
      if pout.format == YV12 {
        pin.data2 := pin.data1 + SizeC(pin.lineStride, pin.height);
        pout.data2 := pout.data1 + SizeC(pin.lineStride, pin.height);
      }
      TurnLines(pin.data0, pout.data0, pout.format, pin.lineStride, pout.lineStride, pin.height, pin.width, By180);
    }
    pout.height := pin.height;
    pout.width := pin.width;
  }

  predicate Paired(f: PixelFormat) { f.NV21? || f.NV12? }

  // Interleaved chroma goes where pData1 of the output points already; only the caller
  // sets it.  The picture is turned if it points to the place of the chroma or there is
  // no chroma; otherwise not, unless that place happens to hold the right bytes before.
  method RotatePicture270Degree(pin: VideoPicture, pout: VideoPicture)
    requires pin != pout && pout.data0 != pin.data0
    requires CanTurn(pout.format) ==>
      && HasLines(pin.lineStride, pin.height, pin.width, pin.data0.Length)
      && HasLines(Align16(pin.height), pin.width, pin.height, pout.data0.Length)
    requires Paired(pout.format) ==>
      && pout.data1 >= 0
      && Within(ChromaAt(pout.data1, Align16(pin.height), pin.height, pin.width, By270), pout.data0.Length)
    modifies pin`data1, pin`data2, pout`lineStride, pout`height, pout`width, pout`data1, pout`data2, pout.data0
    ensures pout.lineStride == Align16(pin.height) && pout.height == pin.width && pout.width == pin.height
    ensures pout.format.YV12? || (Paired(pout.format) && (PointersSet(pout, pout.format) || HasNoChroma(pin))) ==>
      Turned(pin.As(pout.format), pout.As(pout.format), By270)
    ensures Paired(pout.format) ==>
      Misses(old(pout.data1), pin.lineStride, Align16(pin.height), pin.height, pin.width, By270,
             pin.data0[..], old(pout.data0[..])) ==>
      !Turned(pin.As(pout.format), pout.As(pout.format), By270)
    ensures !CanTurn(pout.format) ==> pout.data0[..] == old(pout.data0[..])
    ensures CanTurn(pout.format) ==> PointersSet(pin, pout.format)
    ensures pout.format.YV12? ==> PointersSet(pout, pout.format)
    ensures !pout.format.YV12? ==> pout.data1 == old(pout.data1) && pout.data2 == old(pout.data2)
  {
    pout.lineStride := Align16(pin.height);
    pout.height := pin.width;
    pout.width := pin.height;
    hide Turned, HasLines, Align16, Misses, Within, ChromaAt;
    if CanTurn(pout.format) {
      pin.data1 := SizeY(pin.lineStride, pin.height);
      if pout.format == YV12 {
        pin.data2 := pin.data1 + SizeC(pin.lineStride, pin.height);
        pout.data1 := SizeY(pout.lineStride, pout.height);
        pout.data2 := pout.data1 + SizeC(pout.lineStride, pout.height);
        TurnPlanar(pin.data0, pout.data0, pin.lineStride, pout.lineStride, pin.height, pin.width, By270);
      } else {
        TurnPaired(pin.data0, pout.data0, pout.format, pin.lineStride, pout.lineStride, pin.height, pin.width, By270,
                   pout.data1);
      }
    }
  }

  // No whole block of two by two pixels.
  ghost predicate HasNoChroma(p: VideoPicture)
    reads p
  {
    p.width < 2 || p.height < 2
  }

  // For every other pointer there is a picture that is not turned: one of zeros, put
  // over one of ones.
  method WrongPointer(width: nat, height: nat, data1: nat) returns (pin: VideoPicture, pout: VideoPicture)
    requires width >= 2 && height >= 2 && data1 != SizeY(Align16(height), width)
    ensures pin.width == width && pin.height == height && pin.format.NV21? && pout.format.NV21?
    ensures pout.data1 == data1 && pout.width == height && pout.height == width
    ensures !Turned(pin.As(NV21), pout.As(NV21), By270)
  {
    var stride, stride' := Align16(width), Align16(height);
    var e := ChromaAt(data1, stride', height, width, By270);
    var size := SizeY(stride, height) + 2 * SizeC(stride, height);
    var size' := End(e) + SizeY(stride', width) + 2 * SizeC(stride', width);
    var a, b := new byte[size](_ => 0), new byte[size'](_ => 1);
    var none := new byte[0];
    AlignedStride(width);
    AlignedStride(height);
    WholeHalves(stride');
    WholeBlocks(height, width);
    WholeBlocks(width, height);
    PlaceFits(stride', height, width, By270, size');
    PlanesFit(stride, height, width, size, height / 2, width / 2);
    pin := new VideoPicture(width, height, stride, NV21, a, none);
    pout := new VideoPicture(0, 0, 0, NV21, b, none);
    pout.data1 := data1;
    ZerosOverOnes(data1, stride, stride', height, width, a[..], b[..]);
    hide Turned, HasLines, Align16, Misses, ChromaAt, SizeY, SizeC, End;
    RotatePicture270Degree(pin, pout);
  }

  lemma ZerosOverOnes(data1: nat, stride: nat, stride': nat, height: nat, width: nat, src: seq<byte>, before: seq<byte>)
    requires width >= 2 && height >= 2 && data1 != SizeY(stride', width)
    requires Within(ChromaAt(SizeY(stride', width), stride', height, width, By270), |before|)
    requires (forall q | 0 <= q < |src| :: src[q] == 0) && (forall q | 0 <= q < |before| :: before[q] == 1)
    ensures Misses(data1, stride, stride', height, width, By270, src, before)
  {
    var d := ChromaAt(SizeY(stride', width), stride', height, width, By270);
    var e := ChromaAt(data1, stride', height, width, By270);
    PosInside(d, SparedRow(d, e), SparedCol(d, e), SparedByte(d, e), |before|);
  }

  // ----- Several calls -----

  // Different pictures in different buffers.
  ghost predicate Unrelated(p: VideoPicture, q: VideoPicture) {
    p != q && p.data0 != q.data0 && p.tiles != q.data0 && q.tiles != p.data0
  }

  // The diagram commutes: from tiles to YV12 directly, or to NV21 and from there to
  // YV12, the samples are the same.
  method ConvertBothWays(tiled: VideoPicture, direct: VideoPicture, nv21: VideoPicture, twoSteps: VideoPicture)
    requires tiled.format.Mb32_420? || tiled.format.Mb32_422?
    requires direct.format.YV12? && nv21.format.NV21? && twoSteps.format.YV12? && tiled.Complete()
    requires Unrelated(tiled, direct) && Unrelated(tiled, nv21) && Unrelated(tiled, twoSteps)
    requires Unrelated(direct, nv21) && Unrelated(direct, twoSteps) && Unrelated(nv21, twoSteps)
    requires HasLines(Align16(tiled.width), tiled.height, tiled.width, direct.data0.Length)
    requires HasLines(Align16(tiled.width), tiled.height, tiled.width, nv21.data0.Length)
    requires HasLines(Align16(tiled.width), tiled.height, tiled.width, twoSteps.data0.Length)
    modifies tiled, direct, nv21, twoSteps, direct.data0, nv21.data0, twoSteps.data0
    ensures SamePixels(direct.Converted(), twoSteps.Converted())
    ensures SamePixels(tiled.Converted(), direct.Converted()) && tiled.Converted() == old(tiled.Converted())
  {
    hide SamePixels, HasLines, HasTiles;
    ghost var t := tiled.Converted();
    ConvertPixelFormat(tiled, direct);
    ghost var d := direct.Converted();
    ConvertPixelFormat(tiled, nv21);
    ConvertPixelFormat(nv21, twoSteps);
    assert tiled.Converted() == t && direct.Converted() == d;
    ConversionsAgree(t, nv21.Converted(), twoSteps.Converted());
    ConversionsAgree(t, d, twoSteps.Converted());
  }

  // A planar picture with U first: to YV12 directly, or by way of NV21.
  method ConvertPlanarBothWays(planar: VideoPicture, direct: VideoPicture, nv21: VideoPicture, twoSteps: VideoPicture)
    requires planar.format.Planar420? && direct.format.YV12? && nv21.format.NV21? && twoSteps.format.YV12?
    requires Unrelated(planar, direct) && Unrelated(planar, nv21) && Unrelated(planar, twoSteps)
    requires Unrelated(direct, nv21) && Unrelated(direct, twoSteps) && Unrelated(nv21, twoSteps)
    requires HasLines(Align16(planar.width), planar.height, planar.width, planar.data0.Length)
    requires HasLines(Align16(planar.width), planar.height, planar.width, direct.data0.Length)
    requires HasLines(Align16(planar.width), planar.height, planar.width, nv21.data0.Length)
    requires HasLines(Align16(planar.width), planar.height, planar.width, twoSteps.data0.Length)
    modifies planar, direct, nv21, twoSteps, direct.data0, nv21.data0, twoSteps.data0
    ensures SamePixels(direct.Converted(), twoSteps.Converted())
    ensures SamePixels(planar.Converted(), direct.Converted()) && SamePixels(planar.Converted(), nv21.Converted())
    ensures planar.Converted() == old(planar.Converted())
  {
    hide SamePixels, HasLines, HasTiles;
    ghost var p := planar.Converted();
    ConvertPixelFormat(planar, direct);
    ghost var d := direct.Converted();
    ConvertPixelFormat(planar, nv21);
    ghost var n := nv21.Converted();
    ConvertPixelFormat(nv21, twoSteps);
    assert planar.Converted() == p && direct.Converted() == d && nv21.Converted() == n;
    ConversionsAgree(p, n, twoSteps.Converted());
    ConversionsAgree(p, d, twoSteps.Converted());
  }

  // NV21 to YV12 and back.
  method ConvertThereAndBack(nv21: VideoPicture, yv12: VideoPicture, back: VideoPicture)
    requires nv21.format.NV21? && yv12.format.YV12? && back.format.NV21?
    requires Unrelated(nv21, yv12) && Unrelated(nv21, back) && Unrelated(yv12, back)
    requires HasLines(Align16(nv21.width), nv21.height, nv21.width, nv21.data0.Length)
    requires HasLines(Align16(nv21.width), nv21.height, nv21.width, yv12.data0.Length)
    requires HasLines(Align16(nv21.width), nv21.height, nv21.width, back.data0.Length)
    modifies nv21, yv12, back, yv12.data0, back.data0
    ensures SamePixels(nv21.Converted(), yv12.Converted()) && SamePixels(yv12.Converted(), back.Converted())
    ensures SamePixels(nv21.Converted(), back.Converted()) && nv21.Converted() == old(nv21.Converted())
    ensures var n := (nv21.width + 15) / 16 * 16 * ((nv21.height + 15) / 16 * 16);
      yv12.data1 == n && yv12.data2 == n + n / 4 && back.data1 == n
  {
    Sizes(Align16(nv21.width), nv21.height);
    assert Align16(nv21.width) == (nv21.width + 15) / 16 * 16;
    hide SamePixels, HasLines, HasTiles, Align16, SizeY, SizeC;
    ghost var v := nv21.Converted();
    ConvertPixelFormat(nv21, yv12);
    ghost var y := yv12.Converted();
    ConvertPixelFormat(yv12, back);
    assert nv21.Converted() == v && yv12.Converted() == y;
    ConversionsAgree(y, v, back.Converted());
    hide *;
    SamePixelsBack(v, y);
  }

  // For every other pair of formats nothing is written.
  method ConvertNothing(pin: VideoPicture, pout: VideoPicture)
    requires Unrelated(pin, pout)
    requires pout.format.NV12? || pout.format.Planar420? || pout.format.Mb32_420? || pout.format.Mb32_422?
             || pin.format.NV12? || (pin.format.YV12? && pout.format.YV12?) || (pin.format.NV21? && pout.format.NV21?)
    modifies pin, pout, pout.data0
    ensures pout.data0[..] == old(pout.data0[..])
  {
    hide SamePixels, HasLines, HasTiles, Align16, SizeY, SizeC;
    ConvertPixelFormat(pin, pout);
  }

  // A turn by 90 degrees and one by 270 give the picture back; of a picture of even
  // width and height every sample.
  method TurnAndTurnBack(p: VideoPicture, turned: VideoPicture, back: VideoPicture)
    requires p.format.YV12? || p.format.NV21? || p.format.NV12?
    requires turned.format == p.format && back.format == p.format
    requires Unrelated(p, turned) && Unrelated(p, back) && Unrelated(turned, back)
    requires p.format.YV12? || back.data1 == SizeY(Align16(p.width), p.height)
    requires HasLines(p.lineStride, p.height, p.width, p.data0.Length)
    requires HasLines(Align16(p.height), p.width, p.height, turned.data0.Length)
    requires HasLines(Align16(p.width), p.height, p.width, back.data0.Length)
    modifies p`data1, p`data2, turned, back, turned.data0, back.data0
    ensures Turned(p.As(p.format), turned.As(p.format), By90) && Turned(p.As(p.format), back.As(p.format), By0)
    ensures p.width % 2 == 0 && p.height % 2 == 0 ==> SamePixels(p.As(p.format), back.As(p.format))
  {
    PlaceFits(Align16(p.width), p.width, p.height, By270, back.data0.Length);
    hide Turned, SamePixels, HasLines, Align16, SizeY, SizeC, Within, ChromaAt;
    ghost var v := p.As(p.format);
    RotatePicture90Degree(p, turned);
    ghost var t := turned.As(p.format);
    RotatePicture270Degree(turned, back);
    assert p.As(p.format) == v && turned.As(p.format) == t;
    TurnsAdd(v, t, back.As(p.format), By90, By270);
    NoTurnIsSame(v, back.As(p.format));
  }

  // Two half turns as well.
  method HalfTurnTwice(p: VideoPicture, turned: VideoPicture, back: VideoPicture)
    requires p.format.YV12? || p.format.NV21? || p.format.NV12?
    requires turned.format == p.format && back.format == p.format
    requires Unrelated(p, turned) && Unrelated(p, back) && Unrelated(turned, back)
    requires HasLines(p.lineStride, p.height, p.width, p.data0.Length)
    requires HasLines(p.lineStride, p.height, p.width, turned.data0.Length)
    requires HasLines(p.lineStride, p.height, p.width, back.data0.Length)
    modifies p`data1, p`data2, turned, back, turned.data0, back.data0
    ensures Turned(p.As(p.format), turned.As(p.format), By180) && Turned(p.As(p.format), back.As(p.format), By0)
    ensures p.width % 2 == 0 && p.height % 2 == 0 ==> SamePixels(p.As(p.format), back.As(p.format))
  {
    hide Turned, SamePixels, HasLines, SizeY, SizeC;
    ghost var v := p.As(p.format);
    RotatePicture180Degree(p, turned);
    ghost var t := turned.As(p.format);
    RotatePicture180Degree(turned, back);
    assert p.As(p.format) == v && turned.As(p.format) == t;
    TurnsAdd(v, t, back.As(p.format), By180, By180);
    NoTurnIsSame(v, back.As(p.format));
  }

  // Turning an NV21 picture and converting it to YV12, or converting and turning it:
  // the results show the same.
  method TurnAndConvert(p: VideoPicture, turned: VideoPicture, turnedConverted: VideoPicture,
                        converted: VideoPicture, convertedTurned: VideoPicture)
    requires p.format.NV21? && turned.format.NV21? && turnedConverted.format.YV12?
    requires converted.format.YV12? && convertedTurned.format.YV12?
    requires Unrelated(p, turned) && Unrelated(p, turnedConverted) && Unrelated(p, converted)
    requires Unrelated(p, convertedTurned) && Unrelated(turned, turnedConverted) && Unrelated(turned, converted)
    requires Unrelated(turned, convertedTurned) && Unrelated(turnedConverted, converted)
    requires Unrelated(turnedConverted, convertedTurned) && Unrelated(converted, convertedTurned)
    requires p.lineStride == Align16(p.width)
    requires HasLines(Align16(p.width), p.height, p.width, p.data0.Length)
    requires HasLines(Align16(p.width), p.height, p.width, converted.data0.Length)
    requires HasLines(Align16(p.height), p.width, p.height, turned.data0.Length)
    requires HasLines(Align16(p.height), p.width, p.height, turnedConverted.data0.Length)
    requires HasLines(Align16(p.height), p.width, p.height, convertedTurned.data0.Length)
    modifies p, turned, turnedConverted, converted, convertedTurned
    modifies turned.data0, turnedConverted.data0, converted.data0, convertedTurned.data0
    ensures Turned(turnedConverted.Converted(), convertedTurned.As(YV12), By0)
  {
    hide Turned, SamePixels, HasLines, Align16, SizeY, SizeC;
    ghost var v := p.As(NV21);
    RotatePicture90Degree(p, turned);
    ghost var t := turned.As(NV21);
    ConvertPixelFormat(turned, turnedConverted);
    ghost var tc := turnedConverted.Converted();
    ConvertPixelFormat(p, converted);
    ghost var c := converted.As(YV12);
    RotatePicture90Degree(converted, convertedTurned);
    assert turnedConverted.Converted() == tc;
    TurnThenConvert(v, t, tc, c, convertedTurned.As(YV12), By90);
  }
}
