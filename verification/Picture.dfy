// Pictures in the decoder's pixel formats, by what is seen of them: one luma sample
// for every pixel and a pair of chroma samples for every two by two pixels.
module Picture {
  import opened Bytes
  import opened Raster
  import opened Samples
  import opened Mb32
  import opened Rotation

  datatype PixelFormat = YV12 | NV21 | NV12 | Planar420 | Mb32_420 | Mb32_422

  // `data` is what pData0 points to, `tiles` the chroma of a tiled picture.
  datatype View = View(format: PixelFormat, width: nat, height: nat, stride: nat, data: seq<byte>, tiles: seq<byte>)

  // ----- The layout of pictures stored in lines -----

  function SizeY(stride: nat, height: nat): nat { stride * Align16(height) }

  function SizeC(stride: nat, height: nat): nat { SizeY(stride, height) / 4 }

  function LumaArea(stride: nat, height: nat, width: nat): Area { Area(0, stride, 1, height, width) }

  // `rows` lines of `cols` chroma samples: both in pairs, or in two planes.  Either way
  // lines are counted in whole halves of the stride.
  function PairArea(stride: nat, height: nat, rows: nat, cols: nat): Area {
    PairsAt(SizeY(stride, height), stride, rows, cols)
  }

  function PairsAt(at: nat, stride: nat, rows: nat, cols: nat): Area { Area(at, 2 * (stride / 2), 2, rows, cols) }

  function FirstArea(stride: nat, height: nat, rows: nat, cols: nat): Area {
    Area(SizeY(stride, height), stride / 2, 1, rows, cols)
  }

  function SecondArea(stride: nat, height: nat, rows: nat, cols: nat): Area {
    Area(SizeY(stride, height) + SizeC(stride, height), stride / 2, 1, rows, cols)
  }

  // ----- What is seen -----

  function ByteAt(s: seq<byte>, p: nat): byte { if p < |s| then s[p] else 0 }

  function Y(v: View, y: nat, x: nat): byte {
    if v.format.Mb32_420? || v.format.Mb32_422? then ByteAt(v.data, Tile(Align32(v.width) / 32, 32, y, x))
    else Sample(v.data, LumaArea(v.stride, v.height, v.width), y, x, 0)
  }

  // The chroma bytes in memory order of pairs; a 4:2:2 picture has two lines of them
  // where only one is kept.
  function ChromaTile(v: View, y: nat, x: nat): byte {
    ByteAt(v.tiles, Tile(Align32(2 * Half(v.width)) / 32, 32, if v.format.Mb32_422? then 2 * y else y, x))
  }

  function V(v: View, y: nat, x: nat): byte {
    var rows, cols := Half(v.height), Half(v.width);
    match v.format
    case NV21 => Sample(v.data, PairArea(v.stride, v.height, rows, cols), y, x, 0)
    case NV12 => Sample(v.data, PairArea(v.stride, v.height, rows, cols), y, x, 1)
    case YV12 => Sample(v.data, FirstArea(v.stride, v.height, rows, cols), y, x, 0)
    case Planar420 => Sample(v.data, SecondArea(v.stride, v.height, rows, cols), y, x, 0)
    case _ => ChromaTile(v, y, 2 * x + 1)
  }

  function U(v: View, y: nat, x: nat): byte {
    var rows, cols := Half(v.height), Half(v.width);
    match v.format
    case NV21 => Sample(v.data, PairArea(v.stride, v.height, rows, cols), y, x, 1)
    case NV12 => Sample(v.data, PairArea(v.stride, v.height, rows, cols), y, x, 0)
    case YV12 => Sample(v.data, SecondArea(v.stride, v.height, rows, cols), y, x, 0)
    case Planar420 => Sample(v.data, FirstArea(v.stride, v.height, rows, cols), y, x, 0)
    case _ => ChromaTile(v, y, 2 * x)
  }

  // The same picture, sample by sample, whatever the formats.
  ghost predicate SamePixels(a: View, b: View) {
    && a.width == b.width && a.height == b.height
    && (forall y: nat, x: nat | y < a.height && x < a.width :: Y(b, y, x) == Y(a, y, x))
    && (forall y: nat, x: nat | y < Half(a.height) && x < Half(a.width) :: V(b, y, x) == V(a, y, x))
    && (forall y: nat, x: nat | y < Half(a.height) && x < Half(a.width) :: U(b, y, x) == U(a, y, x))
  }

  // b is a, turned by g.  Of a picture of odd width or height the last chroma samples
  // are not carried over.
  ghost predicate Turned(a: View, b: View, g: Angle) {
    var h, w := a.height, a.width;
    var h2, w2 := h / 2, w / 2;
    && (if g == By0 || g == By180 then b.height == h && b.width == w else b.height == w && b.width == h)
    && (forall y: nat, x: nat {:trigger Y(a, y, x)} | y < h && x < w ::
          Y(b, ToRow(g, h, w, y, x), ToCol(g, h, w, y, x)) == Y(a, y, x))
    && (forall y: nat, x: nat {:trigger V(a, y, x)} | y < h2 && x < w2 ::
          V(b, ToRow(g, h2, w2, y, x), ToCol(g, h2, w2, y, x)) == V(a, y, x))
    && (forall y: nat, x: nat {:trigger U(a, y, x)} | y < h2 && x < w2 ::
          U(b, ToRow(g, h2, w2, y, x), ToCol(g, h2, w2, y, x)) == U(a, y, x))
  }

  // ----- Laws -----

  function Sum(g: Angle, g': Angle): Angle {
    match g
    case By0 => g'
    case By90 => (match g' case By0 => By90 case By90 => By180 case By180 => By270 case By270 => By0)
    case By180 => (match g' case By0 => By180 case By90 => By270 case By180 => By0 case By270 => By90)
    case By270 => (match g' case By0 => By270 case By90 => By0 case By180 => By90 case By270 => By180)
  }

  lemma PlacesAdd(g: Angle, g': Angle, h: int, w: int, y: int, x: int)
    ensures var (h', w') := if g == By0 || g == By180 then (h, w) else (w, h);
      var r, c := ToRow(g, h, w, y, x), ToCol(g, h, w, y, x);
      && ToRow(g', h', w', r, c) == ToRow(Sum(g, g'), h, w, y, x)
      && ToCol(g', h', w', r, c) == ToCol(Sum(g, g'), h, w, y, x)
  {
  }

  // Two turns are one turn by the sum of the angles; 90 and 270 degrees, or 180 twice,
  // give the picture back.
  lemma TurnsAdd(a: View, b: View, c: View, g: Angle, g': Angle)
    requires Turned(a, b, g) && Turned(b, c, g')
    ensures Turned(a, c, Sum(g, g'))
  {
    hide Y, V, U;
    LumaTurnsAdd(a, b, c, g, g');
    ChromaTurnsAdd(a, b, c, g, g');
  }

  lemma LumaTurnsAdd(a: View, b: View, c: View, g: Angle, g': Angle)
    requires Turned(a, b, g) && Turned(b, c, g')
    ensures var h, w, t := a.height, a.width, Sum(g, g');
      forall y: nat, x: nat {:trigger Y(a, y, x)} | y < h && x < w ::
        Y(c, ToRow(t, h, w, y, x), ToCol(t, h, w, y, x)) == Y(a, y, x)
  {
    hide Y, V, U;
    var h, w, t := a.height, a.width, Sum(g, g');
    forall y: nat, x: nat | y < h && x < w
      ensures Y(c, ToRow(t, h, w, y, x), ToCol(t, h, w, y, x)) == Y(a, y, x)
    {
      PlacesAdd(g, g', h, w, y, x);
      assert Y(b, ToRow(g, h, w, y, x), ToCol(g, h, w, y, x)) == Y(a, y, x);
    }
  }

  lemma ChromaTurnsAdd(a: View, b: View, c: View, g: Angle, g': Angle)
    requires Turned(a, b, g) && Turned(b, c, g')
    ensures var h2, w2, t := a.height / 2, a.width / 2, Sum(g, g');
      && (forall y: nat, x: nat {:trigger V(a, y, x)} | y < h2 && x < w2 ::
            V(c, ToRow(t, h2, w2, y, x), ToCol(t, h2, w2, y, x)) == V(a, y, x))
      && (forall y: nat, x: nat {:trigger U(a, y, x)} | y < h2 && x < w2 ::
            U(c, ToRow(t, h2, w2, y, x), ToCol(t, h2, w2, y, x)) == U(a, y, x))
  {
    hide Y, V, U;
    var h2, w2, t := a.height / 2, a.width / 2, Sum(g, g');
    forall y: nat, x: nat | y < h2 && x < w2
      ensures V(c, ToRow(t, h2, w2, y, x), ToCol(t, h2, w2, y, x)) == V(a, y, x)
      ensures U(c, ToRow(t, h2, w2, y, x), ToCol(t, h2, w2, y, x)) == U(a, y, x)
    {
      PlacesAdd(g, g', h2, w2, y, x);
      assert V(b, ToRow(g, h2, w2, y, x), ToCol(g, h2, w2, y, x)) == V(a, y, x);
      assert U(b, ToRow(g, h2, w2, y, x), ToCol(g, h2, w2, y, x)) == U(a, y, x);
    }
  }

  // A picture whose width and height are even shows the same after no turn.
  lemma NoTurnIsSame(a: View, b: View)
    ensures SamePixels(a, b) ==> Turned(a, b, By0)
    ensures a.width % 2 == 0 && a.height % 2 == 0 ==> (Turned(a, b, By0) <==> SamePixels(a, b))
  {
    hide Y, V, U;
  }

  // Turning and converting can be done in either order.
  lemma TurnThenConvert(a: View, turned: View, turnedConverted: View, converted: View, convertedTurned: View, g: Angle)
    requires Turned(a, turned, g) && SamePixels(turned, turnedConverted)
    requires SamePixels(a, converted) && Turned(converted, convertedTurned, g)
    ensures Turned(turnedConverted, convertedTurned, By0)
  {
    hide Y, V, U, SamePixels, Turned;
    NoTurnIsSame(turned, turnedConverted);
    NoTurnIsSame(a, converted);
    TurnsAdd(a, turned, turnedConverted, g, By0);
    TurnsAdd(a, converted, convertedTurned, By0, g);
    TurnedIsUnique(a, turnedConverted, convertedTurned, g);
  }

  function Opposite(g: Angle): Angle {
    match g case By90 => By270 case By270 => By90 case _ => g
  }

  lemma TurnedIsUnique(a: View, b: View, c: View, g: Angle)
    requires Turned(a, b, g) && Turned(a, c, g)
    ensures Turned(b, c, By0)
  {
    TurnBack(a, b, g);
    TurnsAdd(b, a, c, Opposite(g), g);
  }

  lemma TurnBack(a: View, b: View, g: Angle)
    requires Turned(a, b, g)
    ensures Turned(b, a, Opposite(g))
  {
    hide Y, V, U;
    var h, w := b.height, b.width;
    var o := Opposite(g);
    forall y: nat, x: nat | y < h && x < w
      ensures Y(a, ToRow(o, h, w, y, x), ToCol(o, h, w, y, x)) == Y(b, y, x)
    {
      PlacesAdd(o, g, h, w, y, x);
    }
    var h2, w2 := h / 2, w / 2;
    forall y: nat, x: nat | y < h2 && x < w2
      ensures V(a, ToRow(o, h2, w2, y, x), ToCol(o, h2, w2, y, x)) == V(b, y, x)
      ensures U(a, ToRow(o, h2, w2, y, x), ToCol(o, h2, w2, y, x)) == U(b, y, x)
    {
      PlacesAdd(o, g, h2, w2, y, x);
    }
  }

  lemma SamePixelsBack(a: View, b: View)
    requires SamePixels(a, b)
    ensures SamePixels(b, a)
  {
    hide Y, V, U;
  }

  // Any two ways of converting a picture show the same.
  lemma ConversionsAgree(a: View, b: View, c: View)
    requires SamePixels(a, b)
    ensures SamePixels(a, c) <==> SamePixels(b, c)
  {
    hide Y, V, U;
  }
}
