// Converting whole pictures to YV12 and NV21.
module PixelConvert {
  import opened Bytes
  import opened Raster
  import opened Samples
  import opened Mb32
  import opened Interleave
  import opened Picture
  import opened PixelLayout
  import opened RotatePicture

  ghost predicate SameLuma(a: View, b: View) {
    forall y: nat, x: nat | y < a.height && x < a.width :: Y(b, y, x) == Y(a, y, x)
  }

  ghost predicate SameChroma(a: View, b: View) {
    forall y: nat, x: nat {:trigger V(b, y, x)} {:trigger U(b, y, x)} | y < Half(a.height) && x < Half(a.width) ::
      V(b, y, x) == V(a, y, x) && U(b, y, x) == U(a, y, x)
  }

  lemma PartsMakeSame(a: View, b: View)
    requires a.width == b.width && a.height == b.height && SameLuma(a, b) && SameChroma(a, b)
    ensures SamePixels(a, b)
  {
    hide Y, V, U;
  }

  // memcpy
  method CopyBytes(src: array<byte>, from: nat, dst: array<byte>, to: nat, n: nat)
    requires src != dst && from + n <= src.Length && to + n <= dst.Length
    modifies dst
    ensures dst[..] == old(dst[..])[..to] + src[from..from + n] + old(dst[..])[to + n..]
  {
    forall k | 0 <= k < n {
      dst[to + k] := src[from + k];
    }
  }

  // ----- Between pictures in lines -----

  lemma LumaCopied(f: PixelFormat, f': PixelFormat, width: nat, height: nat, src: seq<byte>, dst: seq<byte>)
    requires !f.Mb32_420? && !f.Mb32_422? && !f'.Mb32_420? && !f'.Mb32_422?
    requires var n := SizeY(Align16(width), height); n <= |src| && n <= |dst| && dst[..n] == src[..n]
    ensures SameLuma(Shown(f, width, height, Align16(width), src), Shown(f', width, height, Align16(width), dst))
  {
    var stride := Align16(width);
    var l := LumaArea(stride, height, width);
    LumaFirst(stride, height, width);
    AlignedStride(width);
    WholeLines(l, SizeY(stride, height));
    hide SizeY, Align16, Within, End;
    forall y: nat, x: nat | y < height && x < width ensures Sample(dst, l, y, x, 0) == Sample(src, l, y, x, 0) {
      var p, n := Pos(l, y, x, 0), SizeY(stride, height);
      PosInside(l, y, x, 0, n);
      assert dst[..n][p] == src[..n][p];
    }
    hide Sample;
  }

  lemma OnlyTwoBehind(a: Area, b: Area, before: seq<byte>, after: seq<byte>, n: nat)
    requires OnlyTwo(a, b, before, after) && n <= a.at && n <= b.at && n <= |before|
    ensures after[..n] == before[..n]
  {
  }

  lemma OnlyAreaBehind(a: Area, before: seq<byte>, after: seq<byte>, n: nat)
    requires OnlyArea(a, before, after) && n <= a.at && n <= |before|
    ensures after[..n] == before[..n]
  {
  }

  lemma PlanesMatch(stride: nat, height: nat, rows: nat, cols: nat)
    ensures var nv := PairArea(stride, height, rows, cols);
      var a, b := FirstArea(stride, height, rows, cols), SecondArea(stride, height, rows, cols);
      && Matching(nv, a, b) && Matching(nv, b, a)
      && SizeY(stride, height) <= nv.at && SizeY(stride, height) <= a.at && SizeY(stride, height) <= b.at
  {
    WholeHalves(stride);
  }

  method ConvertNv21ToYv12(src: array<byte>, dst: array<byte>, width: nat, height: nat)
    requires src != dst
    requires HasLines(Align16(width), height, width, src.Length) && HasLines(Align16(width), height, width, dst.Length)
    modifies dst
    ensures SamePixels(Shown(NV21, width, height, Align16(width), src[..]),
                       Shown(YV12, width, height, Align16(width), dst[..]))
  {
    var stride := Align16(width);
    var h2, w2 := Half(height), Half(width);
    AlignedStride(width);
    PlanesFit(stride, height, width, src.Length, h2, w2);
    PlanesFit(stride, height, width, dst.Length, h2, w2);
    var nv := PairArea(stride, height, h2, w2);
    var a, b := FirstArea(stride, height, h2, w2), SecondArea(stride, height, h2, w2);
    var n := SizeY(stride, height);
    PlanesMatch(stride, height, h2, w2);
    hide Within, Apart, SizeY, SizeC, Matching, Pairs, OnlyTwo, SamePixels, SameLuma, SameChroma, Align16, Half;
    CopyBytes(src, 0, dst, 0, n);
    ghost var mid := dst[..];
    Split(src, nv, dst, a, b);
    OnlyTwoBehind(a, b, mid, dst[..], n);
    LumaCopied(NV21, YV12, width, height, src[..], dst[..]);
    ghost var v, v' := Shown(NV21, width, height, stride, src[..]), Shown(YV12, width, height, stride, dst[..]);
    Yv12FromPairs(v, v');
    PartsMakeSame(v, v');
  }

  lemma Yv12FromPairs(v: View, v': View)
    requires v.format.NV21? && v'.format.YV12? && v'.width == v.width && v'.height == v.height
    requires Pairs(v.data, PairArea(v.stride, v.height, Half(v.height), Half(v.width)), v'.data,
                   FirstArea(v'.stride, v.height, Half(v.height), Half(v.width)),
                   SecondArea(v'.stride, v.height, Half(v.height), Half(v.width)))
    ensures SameChroma(v, v')
  {
    var nv := PairArea(v.stride, v.height, Half(v.height), Half(v.width));
    hide Sample;
    forall y: nat, x: nat | y < Half(v.height) && x < Half(v.width)
      ensures V(v', y, x) == V(v, y, x) && U(v', y, x) == U(v, y, x)
    {
      var b := Sample(v.data, nv, y, x, 0);
    }
  }

  // From YV12, or from the planar format that has U first.
  method ConvertPlanesToNv21(src: array<byte>, dst: array<byte>, f: PixelFormat, width: nat, height: nat)
    requires src != dst && (f.YV12? || f.Planar420?)
    requires HasLines(Align16(width), height, width, src.Length) && HasLines(Align16(width), height, width, dst.Length)
    modifies dst
    ensures SamePixels(Shown(f, width, height, Align16(width), src[..]),
                       Shown(NV21, width, height, Align16(width), dst[..]))
  {
    var stride := Align16(width);
    var h2, w2 := Half(height), Half(width);
    AlignedStride(width);
    PlanesFit(stride, height, width, src.Length, h2, w2);
    PlanesFit(stride, height, width, dst.Length, h2, w2);
    var nv := PairArea(stride, height, h2, w2);
    var a, b := FirstArea(stride, height, h2, w2), SecondArea(stride, height, h2, w2);
    var n := SizeY(stride, height);
    PlanesMatch(stride, height, h2, w2);
    hide Within, Apart, SizeY, SizeC, Matching, Pairs, OnlyArea, SamePixels, SameLuma, SameChroma, Align16, Half;
    CopyBytes(src, 0, dst, 0, n);
    ghost var mid := dst[..];
    if f.YV12? {
      Join(src, a, b, dst, nv);
    } else {
      Join(src, b, a, dst, nv);
    }
    OnlyAreaBehind(nv, mid, dst[..], n);
    LumaCopied(f, NV21, width, height, src[..], dst[..]);
    ghost var v, v' := Shown(f, width, height, stride, src[..]), Shown(NV21, width, height, stride, dst[..]);
    PairsFromPlanes(v, v');
    PartsMakeSame(v, v');
  }

  lemma PairsFromPlanes(v: View, v': View)
    requires (v.format.YV12? || v.format.Planar420?) && v'.format.NV21? && v'.width == v.width && v'.height == v.height
    requires var a := FirstArea(v.stride, v.height, Half(v.height), Half(v.width));
      var b := SecondArea(v.stride, v.height, Half(v.height), Half(v.width));
      var nv := PairArea(v'.stride, v.height, Half(v.height), Half(v.width));
      if v.format.YV12? then Pairs(v'.data, nv, v.data, a, b) else Pairs(v'.data, nv, v.data, b, a)
    ensures SameChroma(v, v')
  {
    var nv := PairArea(v'.stride, v.height, Half(v.height), Half(v.width));
    hide Sample;
    forall y: nat, x: nat | y < Half(v.height) && x < Half(v.width)
      ensures V(v', y, x) == V(v, y, x) && U(v', y, x) == U(v, y, x)
    {
      var b := Sample(v'.data, nv, y, x, 0);
    }
  }

  // Luma, then the second plane, then the first.
  method CopyExchanged(src: array<byte>, dst: array<byte>, n: nat, c: nat)
    requires src != dst && n + 2 * c <= src.Length && n + 2 * c <= dst.Length
    modifies dst
    ensures dst[..n] == src[..n]
    ensures dst[n..n + c] == src[n + c..n + c + c] && dst[n + c..n + c + c] == src[n..n + c]
  {
    ghost var before := dst[..];
    CopyBytes(src, 0, dst, 0, n);
    CopyBytes(src, n + c, dst, n, c);
    CopyBytes(src, n, dst, n + c, c);
    ThreeCopies(src[..], before, n, c);
  }

  // The same planes the other way round.
  method ConvertPlanar420ToYv12(src: array<byte>, dst: array<byte>, width: nat, height: nat)
    requires src != dst
    requires HasLines(Align16(width), height, width, src.Length) && HasLines(Align16(width), height, width, dst.Length)
    modifies dst
    ensures SamePixels(Shown(Planar420, width, height, Align16(width), src[..]),
                       Shown(YV12, width, height, Align16(width), dst[..]))
  {
    var stride := Align16(width);
    hide SizeY, SizeC, SamePixels, SameLuma, SameChroma, Align16, Half;
    var n, c := SizeY(stride, height), SizeC(stride, height);
    CopyExchanged(src, dst, n, c);
    LumaCopied(Planar420, YV12, width, height, src[..], dst[..]);
    ghost var v, v' := Shown(Planar420, width, height, stride, src[..]), Shown(YV12, width, height, stride, dst[..]);
    AlignedStride(width);
    PlanesExchanged(v, v');
    PartsMakeSame(v, v');
  }

  lemma ThreeCopies(src: seq<byte>, before: seq<byte>, n: nat, c: nat)
    requires n + 2 * c <= |src| && n + 2 * c <= |before|
    ensures var d1 := before[..0] + src[0..0 + n] + before[0 + n..];
      var d2 := d1[..n] + src[n + c..n + c + c] + d1[n + c..];
      var d3 := d2[..n + c] + src[n..n + c] + d2[n + c + c..];
      d3[..n] == src[..n] && d3[n..n + c] == src[n + c..n + c + c] && d3[n + c..n + c + c] == src[n..n + c]
  {
  }

  lemma PlanesExchanged(v: View, v': View)
    requires v.format.Planar420? && v'.format.YV12?
    requires v'.width == v.width && v'.height == v.height && v'.stride == v.stride
    requires HasLines(v.stride, v.height, v.width, |v.data|) && HasLines(v.stride, v.height, v.width, |v'.data|)
    requires 2 * Half(v.width) <= v.stride
    requires var n, c := SizeY(v.stride, v.height), SizeC(v.stride, v.height);
      && v'.data[n..n + c] == v.data[n + c..n + c + c] && v'.data[n + c..n + c + c] == v.data[n..n + c]
    ensures SameChroma(v, v')
  {
    var n, c := SizeY(v.stride, v.height), SizeC(v.stride, v.height);
    var a := FirstArea(v.stride, v.height, Half(v.height), Half(v.width));
    var b := SecondArea(v.stride, v.height, Half(v.height), Half(v.width));
    forall y: nat, x: nat | y < Half(v.height) && x < Half(v.width)
      ensures Sample(v'.data, a, y, x, 0) == Sample(v.data, b, y, x, 0)
      ensures Sample(v'.data, b, y, x, 0) == Sample(v.data, a, y, x, 0)
    {
      PlaneOffset(v.stride, v.height, v.width, y, x);
      var p := Pos(a, y, x, 0) - n;
      assert v'.data[n..n + c][p] == v.data[n + c..n + c + c][p];
      assert v'.data[n + c..n + c + c][p] == v.data[n..n + c][p];
    }
    hide Sample;
  }

  // A sample lies at one offset in either plane.
  lemma PlaneOffset(stride: nat, height: nat, width: nat, y: nat, x: nat)
    requires width <= stride && 2 * Half(width) <= stride && y < Half(height) && x < Half(width)
    ensures var n, c := SizeY(stride, height), SizeC(stride, height);
      var a := FirstArea(stride, height, Half(height), Half(width));
      var b := SecondArea(stride, height, Half(height), Half(width));
      n <= Pos(a, y, x, 0) < n + c && Pos(b, y, x, 0) == Pos(a, y, x, 0) + c
  {
    var n, c := SizeY(stride, height), SizeC(stride, height);
    var a := FirstArea(stride, height, Half(height), Half(width));
    PlanesFit(stride, height, width, n + 2 * c, Half(height), Half(width));
    PosInside(a, y, x, 0, n + 2 * c);
    hide SizeY, SizeC, Half;
  }
}
