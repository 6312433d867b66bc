// Turning whole pictures: luma, then chroma in pairs or in two planes.
module RotatePicture {
  import opened Bytes
  import opened Samples
  import opened Mb32
  import opened Rotation
  import opened Picture
  import opened PixelLayout

  // The view of line data.
  function Shown(f: PixelFormat, width: nat, height: nat, stride: nat, data: seq<byte>): View {
    View(f, width, height, stride, data, [])
  }

  function TurnedHeight(g: Angle, height: nat, width: nat): nat {
    if g == By0 || g == By180 then height else width
  }

  function TurnedWidth(g: Angle, height: nat, width: nat): nat {
    if g == By0 || g == By180 then width else height
  }

  // One of the parts that make a picture.
  ghost predicate LumaTurned(a: View, b: View, g: Angle) {
    var h, w := a.height, a.width;
    forall y: nat, x: nat {:trigger Y(a, y, x)} | y < h && x < w ::
      Y(b, ToRow(g, h, w, y, x), ToCol(g, h, w, y, x)) == Y(a, y, x)
  }

  ghost predicate ChromaTurned(a: View, b: View, g: Angle) {
    var h2, w2 := a.height / 2, a.width / 2;
    && (forall y: nat, x: nat {:trigger V(a, y, x)} | y < h2 && x < w2 ::
          V(b, ToRow(g, h2, w2, y, x), ToCol(g, h2, w2, y, x)) == V(a, y, x))
    && (forall y: nat, x: nat {:trigger U(a, y, x)} | y < h2 && x < w2 ::
          U(b, ToRow(g, h2, w2, y, x), ToCol(g, h2, w2, y, x)) == U(a, y, x))
  }

  lemma LumaFromArea(a: View, b: View, g: Angle)
    requires !a.format.Mb32_420? && !a.format.Mb32_422? && b.format == a.format
    requires b.height == TurnedHeight(g, a.height, a.width) && b.width == TurnedWidth(g, a.height, a.width)
    requires Rotated(a.data, LumaArea(a.stride, a.height, a.width), b.data, LumaArea(b.stride, b.height, b.width), g)
    ensures LumaTurned(a, b, g)
  {
    var s, d := LumaArea(a.stride, a.height, a.width), LumaArea(b.stride, b.height, b.width);
    forall y: nat, x: nat | y < a.height && x < a.width
      ensures Y(b, ToRow(g, a.height, a.width, y, x), ToCol(g, a.height, a.width, y, x)) == Y(a, y, x)
    {
      SampleOfRotated(a.data, s, b.data, d, g, y, x, 0);
    }
  }

  lemma PairsFromArea(a: View, b: View, g: Angle)
    requires (a.format.NV21? || a.format.NV12?) && b.format == a.format
    requires b.height == TurnedHeight(g, a.height, a.width) && b.width == TurnedWidth(g, a.height, a.width)
    requires Rotated(a.data, PairArea(a.stride, a.height, a.height / 2, a.width / 2),
                     b.data, PairArea(b.stride, b.height, b.height / 2, b.width / 2), g)
    ensures ChromaTurned(a, b, g)
  {
    var h2, w2 := a.height / 2, a.width / 2;
    var s, d := PairArea(a.stride, a.height, h2, w2), PairArea(b.stride, b.height, b.height / 2, b.width / 2);
    var s', d' := PairArea(a.stride, a.height, Half(a.height), Half(a.width)),
                  PairArea(b.stride, b.height, Half(b.height), Half(b.width));
    forall y: nat, x: nat | y < h2 && x < w2
      ensures V(b, ToRow(g, h2, w2, y, x), ToCol(g, h2, w2, y, x)) == V(a, y, x)
      ensures U(b, ToRow(g, h2, w2, y, x), ToCol(g, h2, w2, y, x)) == U(a, y, x)
    {
      var r, c := ToRow(g, h2, w2, y, x), ToCol(g, h2, w2, y, x);
      forall k: nat | k < 2 ensures Sample(b.data, d', r, c, k) == Sample(a.data, s', y, x, k) {
        SampleOfRotated(a.data, s, b.data, d, g, y, x, k);
        SameSample(a.data, s, s', y, x, k);
        SameSample(b.data, d, d', r, c, k);
      }
      hide Sample;
    }
  }

  lemma AreaFromPairs(a: View, b: View, g: Angle)
    requires (a.format.NV21? || a.format.NV12?) && b.format == a.format
    requires b.height == TurnedHeight(g, a.height, a.width) && b.width == TurnedWidth(g, a.height, a.width)
    requires Turned(a, b, g)
    ensures Rotated(a.data, PairArea(a.stride, a.height, a.height / 2, a.width / 2),
                    b.data, PairArea(b.stride, b.height, b.height / 2, b.width / 2), g)
  {
    var h2, w2 := a.height / 2, a.width / 2;
    var s, d := PairArea(a.stride, a.height, h2, w2), PairArea(b.stride, b.height, b.height / 2, b.width / 2);
    var s', d' := PairArea(a.stride, a.height, Half(a.height), Half(a.width)),
                  PairArea(b.stride, b.height, Half(b.height), Half(b.width));
    forall y: nat, x: nat, k: nat | y < h2 && x < w2 && k < 2
      ensures Sample(b.data, d, ToRow(g, h2, w2, y, x), ToCol(g, h2, w2, y, x), k) == Sample(a.data, s, y, x, k)
    {
      var r, c := ToRow(g, h2, w2, y, x), ToCol(g, h2, w2, y, x);
      SameSample(a.data, s, s', y, x, k);
      SameSample(b.data, d, d', r, c, k);
      assert V(b, r, c) == V(a, y, x) && U(b, r, c) == U(a, y, x);
      hide Sample;
    }
  }

  lemma PlanesFromAreas(a: View, b: View, g: Angle)
    requires a.format.YV12? && b.format == a.format
    requires b.height == TurnedHeight(g, a.height, a.width) && b.width == TurnedWidth(g, a.height, a.width)
    requires Rotated(a.data, FirstArea(a.stride, a.height, a.height / 2, a.width / 2),
                     b.data, FirstArea(b.stride, b.height, b.height / 2, b.width / 2), g)
    requires Rotated(a.data, SecondArea(a.stride, a.height, a.height / 2, a.width / 2),
                     b.data, SecondArea(b.stride, b.height, b.height / 2, b.width / 2), g)
    ensures ChromaTurned(a, b, g)
  {
    var h2, w2 := a.height / 2, a.width / 2;
    var p, q := FirstArea(a.stride, a.height, h2, w2), FirstArea(b.stride, b.height, b.height / 2, b.width / 2);
    var p', q' := SecondArea(a.stride, a.height, h2, w2), SecondArea(b.stride, b.height, b.height / 2, b.width / 2);
    forall y: nat, x: nat | y < h2 && x < w2
      ensures V(b, ToRow(g, h2, w2, y, x), ToCol(g, h2, w2, y, x)) == V(a, y, x)
      ensures U(b, ToRow(g, h2, w2, y, x), ToCol(g, h2, w2, y, x)) == U(a, y, x)
    {
      var r, c := ToRow(g, h2, w2, y, x), ToCol(g, h2, w2, y, x);
      SampleOfRotated(a.data, p, b.data, q, g, y, x, 0);
      SampleOfRotated(a.data, p', b.data, q', g, y, x, 0);
      SameSample(a.data, p, FirstArea(a.stride, a.height, Half(a.height), Half(a.width)), y, x, 0);
      SameSample(b.data, q, FirstArea(b.stride, b.height, Half(b.height), Half(b.width)), r, c, 0);
      SameSample(a.data, p', SecondArea(a.stride, a.height, Half(a.height), Half(a.width)), y, x, 0);
      SameSample(b.data, q', SecondArea(b.stride, b.height, Half(b.height), Half(b.width)), r, c, 0);
      hide Sample;
    }
  }

  // What has been turned stays turned while another part is written.
  lemma StaysRotated(src: seq<byte>, s: Area, before: seq<byte>, after: seq<byte>, d: Area, o: Area, g: Angle)
    requires Receives(d, s, g) && Rotated(src, s, before, d, g)
    requires Within(d, |before|) && Apart(o, d) && OnlyArea(o, before, after)
    ensures Rotated(src, s, after, d, g)
  {
    hide Sample;
    forall y: nat, x: nat, b: nat | y < s.rows && x < s.cols && b < s.unit
      ensures Sample(after, d, ToRow(g, s.rows, s.cols, y, x), ToCol(g, s.rows, s.cols, y, x), b)
           == Sample(src, s, y, x, b)
    {
      SampleOfRotated(src, s, before, d, g, y, x, b);
      OtherArea(o, d, before, after, ToRow(g, s.rows, s.cols, y, x), ToCol(g, s.rows, s.cols, y, x), b);
    }
  }

  // Everything from byte n on.
  function Behind(n: nat, size: nat): Area
    requires n <= size
  {
    Area(n, size - n, 1, 1, size - n)
  }

  lemma OnlyBehind(o: Area, n: nat, before: seq<byte>, mid: seq<byte>, after: seq<byte>)
    requires n <= |before| && OnlyArea(Behind(n, |before|), before, mid)
    requires n <= o.at && OnlyArea(o, mid, after)
    ensures OnlyArea(Behind(n, |before|), before, after)
  {
  }

  lemma NothingBehind(n: nat, before: seq<byte>)
    requires n <= |before|
    ensures OnlyArea(Behind(n, |before|), before, before)
  {
  }

  lemma WholeBlocks(height: nat, width: nat)
    ensures height / 2 <= Half(height) && 2 * (width / 2) <= width
  {
  }

  // Both planes of chroma.
  method TurnPlanes(src: array<byte>, dst: array<byte>, stride: nat, stride': nat, height: nat, width: nat, g: Angle)
    requires src != dst && HasLines(stride, height, width, src.Length)
    requires g != By0 && (g == By180 ==> stride' == stride)
    requires HasLines(stride', TurnedHeight(g, height, width), TurnedWidth(g, height, width), dst.Length)
    modifies dst
    ensures ChromaTurned(Shown(YV12, width, height, stride, src[..]),
                         Shown(YV12, TurnedWidth(g, height, width), TurnedHeight(g, height, width),
                               stride', dst[..]), g)
    ensures var n := SizeY(stride', TurnedHeight(g, height, width));
      n <= dst.Length && OnlyArea(Behind(n, dst.Length), old(dst[..]), dst[..])
  {
    var h, w := TurnedHeight(g, height, width), TurnedWidth(g, height, width);
    WholeBlocks(height, width);
    PlanesFit(stride, height, width, src.Length, height / 2, width / 2);
    WholeBlocks(h, w);
    PlanesFit(stride', h, w, dst.Length, h / 2, w / 2);
    ghost var before := dst[..];
    NothingBehind(SizeY(stride', h), before);
    var p, q := FirstArea(stride, height, height / 2, width / 2), FirstArea(stride', h, h / 2, w / 2);
    var p', q' := SecondArea(stride, height, height / 2, width / 2), SecondArea(stride', h, h / 2, w / 2);
    hide Within, Apart, SizeY, SizeC, Rotated, OnlyArea, ChromaTurned;
    RotateArea(src, p, dst, q, g);
    ghost var mid := dst[..];
    OnlyBehind(q, SizeY(stride', h), before, before, mid);
    RotateArea(src, p', dst, q', g);
    OnlyBehind(q', SizeY(stride', h), before, mid, dst[..]);
    StaysRotated(src[..], p, mid, dst[..], q, q', g);
    PlanesFromAreas(Shown(YV12, width, height, stride, src[..]), Shown(YV12, w, h, stride', dst[..]), g);
  }

  lemma LumaStays(src: seq<byte>, mid: seq<byte>, dst: seq<byte>, f: PixelFormat, stride: nat, stride': nat,
                  height: nat, width: nat, g: Angle)
    requires !f.Mb32_420? && !f.Mb32_422?
    requires HasLines(stride', TurnedHeight(g, height, width), TurnedWidth(g, height, width), |dst|)
    requires var h, w := TurnedHeight(g, height, width), TurnedWidth(g, height, width);
      && Rotated(src, LumaArea(stride, height, width), mid, LumaArea(stride', h, w), g)
      && |mid| == |dst| && SizeY(stride', h) <= |dst|
      && OnlyArea(Behind(SizeY(stride', h), |dst|), mid, dst)
    ensures LumaTurned(Shown(f, width, height, stride, src),
                       Shown(f, TurnedWidth(g, height, width), TurnedHeight(g, height, width), stride', dst), g)
  {
    var h, w := TurnedHeight(g, height, width), TurnedWidth(g, height, width);
    WholeBlocks(h, w);
    PlanesFit(stride', h, w, |dst|, h / 2, w / 2);
    var s, d, n := LumaArea(stride, height, width), LumaArea(stride', h, w), SizeY(stride', h);
    LumaFirst(stride', h, w);
    WholeLines(d, n);
    assert Apart(Behind(n, |dst|), d);
    hide Within, End, Apart, SizeY, SizeC, Rotated, OnlyArea, LumaTurned, HasLines;
    StaysRotated(src, s, mid, dst, d, Behind(n, |dst|), g);
    LumaFromArea(Shown(f, width, height, stride, src), Shown(f, w, h, stride', dst), g);
  }

  lemma LumaFirst(stride: nat, height: nat, width: nat)
    ensures height * stride <= SizeY(stride, height)
  {
    var p := AlignedHeight(stride, height);
    Extents(stride, p, 0, height);
  }

  lemma PairsTurn(at: nat, stride: nat, stride': nat, height: nat, width: nat, g: Angle)
    requires g != By0 && (g == By180 ==> stride' == stride)
    ensures Turns(PairArea(stride, height, height / 2, width / 2), ChromaAt(at, stride', height, width, g), g)
  {
    WholeHalves(stride);
    WholeHalves(stride');
  }

  // Luma, and chroma in pairs, which goes where pData1 of the output points.
  method TurnPaired(src: array<byte>, dst: array<byte>, f: PixelFormat, stride: nat, stride': nat,
                    height: nat, width: nat, g: Angle, data1: nat)
    requires src != dst && (f.NV21? || f.NV12?) && HasLines(stride, height, width, src.Length)
    requires g != By0 && (g == By180 ==> stride' == stride)
    requires HasLines(stride', TurnedHeight(g, height, width), TurnedWidth(g, height, width), dst.Length)
    requires Within(ChromaAt(data1, stride', height, width, g), dst.Length)
    modifies dst
    ensures data1 == SizeY(stride', TurnedHeight(g, height, width)) || height < 2 || width < 2 ==>
      Turned(Shown(f, width, height, stride, src[..]),
             Shown(f, TurnedWidth(g, height, width), TurnedHeight(g, height, width), stride', dst[..]), g)
    ensures Misses(data1, stride, stride', height, width, g, src[..], old(dst[..])) ==>
      !Turned(Shown(f, width, height, stride, src[..]),
              Shown(f, TurnedWidth(g, height, width), TurnedHeight(g, height, width), stride', dst[..]), g)
  {
    var h, w := TurnedHeight(g, height, width), TurnedWidth(g, height, width);
    WholeBlocks(height, width);
    PlanesFit(stride, height, width, src.Length, height / 2, width / 2);
    WholeBlocks(h, w);
    PlanesFit(stride', h, w, dst.Length, h / 2, w / 2);
    var p, q := PairArea(stride, height, height / 2, width / 2), ChromaAt(data1, stride', height, width, g);
    PairsTurn(data1, stride, stride', height, width, g);
    ghost var before := dst[..];
    hide Turns, Within, Apart, SizeY, Rotated, OnlyArea, HasLines, Turned, Misses;
    RotateArea(src, LumaArea(stride, height, width), dst, LumaArea(stride', h, w), g);
    ghost var lumaDone := dst[..];
    RotateArea(src, p, dst, q, g);
    if data1 == SizeY(stride', h) || height < 2 || width < 2 {
      if height < 2 || width < 2 {
        NoChroma(data1, stride, stride', height, width, g, src[..], lumaDone, dst[..]);
      }
      PairedTurned(f, stride, stride', height, width, g, src[..], lumaDone, dst[..]);
    }
    if Misses(data1, stride, stride', height, width, g, src[..], before) {
      PairedMissed(f, data1, stride, stride', height, width, g, src[..], before, lumaDone, dst[..]);
    }
  }

  function ChromaAt(at: nat, stride: nat, height: nat, width: nat, g: Angle): Area {
    PairsAt(at, stride, TurnedHeight(g, height, width) / 2, TurnedWidth(g, height, width) / 2)
  }

  // pData1 points elsewhere, and there is chroma whose place does not happen to hold it
  // already.
  ghost predicate Misses(data1: nat, stride: nat, stride': nat, height: nat, width: nat, g: Angle,
                         src: seq<byte>, before: seq<byte>)
  {
    var n := SizeY(stride', TurnedHeight(g, height, width));
    && data1 != n && height / 2 > 0 && width / 2 > 0
    && WrongBefore(src, PairArea(stride, height, height / 2, width / 2), before,
                   ChromaAt(n, stride', height, width, g), ChromaAt(data1, stride', height, width, g), g)
  }

  lemma NoChroma(data1: nat, stride: nat, stride': nat, height: nat, width: nat, g: Angle,
                 src: seq<byte>, lumaDone: seq<byte>, after: seq<byte>)
    requires height < 2 || width < 2
    requires OnlyArea(ChromaAt(data1, stride', height, width, g), lumaDone, after)
    ensures var q := ChromaAt(SizeY(stride', TurnedHeight(g, height, width)), stride', height, width, g);
      && Rotated(src, PairArea(stride, height, height / 2, width / 2), after, q, g)
      && OnlyArea(q, lumaDone, after)
  {
  }

  lemma PairedTurned(f: PixelFormat, stride: nat, stride': nat, height: nat, width: nat, g: Angle,
                     src: seq<byte>, lumaDone: seq<byte>, after: seq<byte>)
    requires (f.NV21? || f.NV12?)
    requires HasLines(stride', TurnedHeight(g, height, width), TurnedWidth(g, height, width), |after|)
    requires var h, w := TurnedHeight(g, height, width), TurnedWidth(g, height, width);
      var q := ChromaAt(SizeY(stride', h), stride', height, width, g);
      && Rotated(src, LumaArea(stride, height, width), lumaDone, LumaArea(stride', h, w), g)
      && Rotated(src, PairArea(stride, height, height / 2, width / 2), after, q, g)
      && |lumaDone| == |after| && OnlyArea(q, lumaDone, after)
    ensures Turned(Shown(f, width, height, stride, src),
                   Shown(f, TurnedWidth(g, height, width), TurnedHeight(g, height, width), stride', after), g)
  {
    var h, w := TurnedHeight(g, height, width), TurnedWidth(g, height, width);
    WholeBlocks(h, w);
    PlanesFit(stride', h, w, |after|, h / 2, w / 2);
    var v, v' := Shown(f, width, height, stride, src), Shown(f, w, h, stride', after);
    hide Within, Apart, SizeY, Rotated, OnlyArea, LumaTurned, ChromaTurned, HasLines, Turned;
    StaysRotated(src, LumaArea(stride, height, width), lumaDone, after, LumaArea(stride', h, w),
                 PairArea(stride', h, h / 2, w / 2), g);
    LumaFromArea(v, v', g);
    PairsFromArea(v, v', g);
    PartsMakeTurned(v, v', g);
  }

  lemma PairedMissed(f: PixelFormat, data1: nat, stride: nat, stride': nat, height: nat, width: nat, g: Angle,
                     src: seq<byte>, before: seq<byte>, lumaDone: seq<byte>, after: seq<byte>)
    requires (f.NV21? || f.NV12?) && Misses(data1, stride, stride', height, width, g, src, before)
    requires HasLines(stride', TurnedHeight(g, height, width), TurnedWidth(g, height, width), |after|)
    requires var h, w := TurnedHeight(g, height, width), TurnedWidth(g, height, width);
      && OnlyArea(LumaArea(stride', h, w), before, lumaDone)
      && OnlyArea(ChromaAt(data1, stride', height, width, g), lumaDone, after)
    ensures !Turned(Shown(f, width, height, stride, src),
                    Shown(f, TurnedWidth(g, height, width), TurnedHeight(g, height, width), stride', after), g)
  {
    var h, w := TurnedHeight(g, height, width), TurnedWidth(g, height, width);
    WholeBlocks(h, w);
    PlanesFit(stride', h, w, |after|, h / 2, w / 2);
    var p, q := PairArea(stride, height, height / 2, width / 2), PairArea(stride', h, h / 2, w / 2);
    var e := ChromaAt(data1, stride', height, width, g);
    hide SizeY, Within, HasLines, Turned, WrongBefore, Rotated;
    forall k | q.at <= k < End(q) && k < |after| && !(e.at <= k < End(e)) ensures after[k] == before[k] {
    }
    hide OnlyArea, End, Apart;
    Misplaced(src, p, before, after, q, e, g);
    if Turned(Shown(f, width, height, stride, src), Shown(f, w, h, stride', after), g) {
      AreaFromPairs(Shown(f, width, height, stride, src), Shown(f, w, h, stride', after), g);
    }
  }

  // Luma, and chroma in two planes.
  method TurnPlanar(src: array<byte>, dst: array<byte>, stride: nat, stride': nat, height: nat, width: nat, g: Angle)
    requires src != dst && HasLines(stride, height, width, src.Length)
    requires g != By0 && (g == By180 ==> stride' == stride)
    requires HasLines(stride', TurnedHeight(g, height, width), TurnedWidth(g, height, width), dst.Length)
    modifies dst
    ensures Turned(Shown(YV12, width, height, stride, src[..]),
                   Shown(YV12, TurnedWidth(g, height, width), TurnedHeight(g, height, width), stride', dst[..]), g)
  {
    var h, w := TurnedHeight(g, height, width), TurnedWidth(g, height, width);
    WholeBlocks(height, width);
    PlanesFit(stride, height, width, src.Length, height / 2, width / 2);
    WholeBlocks(h, w);
    PlanesFit(stride', h, w, dst.Length, h / 2, w / 2);
    hide Within, Apart, SizeY, SizeC, Rotated, OnlyArea, ChromaTurned, LumaTurned, HasLines, Turned;
    RotateArea(src, LumaArea(stride, height, width), dst, LumaArea(stride', h, w), g);
    ghost var lumaDone := dst[..];
    TurnPlanes(src, dst, stride, stride', height, width, g);
    LumaStays(src[..], lumaDone, dst[..], YV12, stride, stride', height, width, g);
    PartsMakeTurned(Shown(YV12, width, height, stride, src[..]), Shown(YV12, w, h, stride', dst[..]), g);
  }

  lemma PlaceFits(stride: nat, height: nat, width: nat, g: Angle, size: int)
    requires HasLines(stride, TurnedHeight(g, height, width), TurnedWidth(g, height, width), size)
    ensures Within(ChromaAt(SizeY(stride, TurnedHeight(g, height, width)), stride, height, width, g), size)
  {
    var h, w := TurnedHeight(g, height, width), TurnedWidth(g, height, width);
    WholeBlocks(h, w);
    PlanesFit(stride, h, w, size, h / 2, w / 2);
    hide Within, SizeY, HasLines;
  }

  // A picture of the given format.
  method TurnLines(src: array<byte>, dst: array<byte>, f: PixelFormat, stride: nat, stride': nat,
                   height: nat, width: nat, g: Angle)
    requires src != dst && (f.YV12? || f.NV21? || f.NV12?)
    requires g != By0 && (g == By180 ==> stride' == stride)
    requires HasLines(stride, height, width, src.Length)
    requires HasLines(stride', TurnedHeight(g, height, width), TurnedWidth(g, height, width), dst.Length)
    modifies dst
    ensures Turned(Shown(f, width, height, stride, src[..]),
                   Shown(f, TurnedWidth(g, height, width), TurnedHeight(g, height, width), stride', dst[..]), g)
  {
    var n := SizeY(stride', TurnedHeight(g, height, width));
    PlaceFits(stride', height, width, g, dst.Length);
    hide SizeY, HasLines, Turned, Misses, Within, ChromaAt;
    if f == YV12 {
      TurnPlanar(src, dst, stride, stride', height, width, g);
    } else {
      TurnPaired(src, dst, f, stride, stride', height, width, g, n);
    }
  }

  lemma PartsMakeTurned(a: View, b: View, g: Angle)
    requires b.height == TurnedHeight(g, a.height, a.width) && b.width == TurnedWidth(g, a.height, a.width)
    requires LumaTurned(a, b, g) && ChromaTurned(a, b, g)
    ensures Turned(a, b, g)
  {
    hide Y, V, U;
  }
}
