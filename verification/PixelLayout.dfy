// The planes of a picture stored in lines: where they are, and that they do not
// overlap.
module PixelLayout {
  import opened Bytes
  import opened Raster
  import opened Samples
  import opened Mb32
  import opened Picture

  // A buffer for a picture in lines with luma and chroma.
  ghost predicate HasLines(stride: nat, height: nat, width: nat, size: int) {
    width <= stride && SizeY(stride, height) + 2 * SizeC(stride, height) <= size
  }

  lemma MulLe(a: nat, b: nat, c: nat)
    requires a <= b
    ensures a * c <= b * c
  {
  }

  // A line as high as an aligned picture is deep, sixteen times over.
  lemma AlignedHeight(stride: nat, height: nat) returns (p: nat)
    ensures height <= 16 * p && Half(height) <= 8 * p
    ensures SizeY(stride, height) == 16 * (stride * p) && SizeC(stride, height) == 4 * (stride * p)
  {
    p := (height + 15) / 16;
    InUnits(height + 15);
    HalfBelow(height, p);
    assert Align16(height) == p * 16;
    SixteenTimes(stride, p);
    hide Align16;
  }

  lemma HalfBelow(n: nat, p: nat)
    requires n <= 16 * p
    ensures Half(n) <= 8 * p
  {
  }

  lemma SixteenTimes(stride: nat, p: nat)
    ensures stride * (p * 16) == 16 * (stride * p) && 16 * (stride * p) / 4 == 4 * (stride * p)
  {
    Quarter(stride * p);
    assert stride * (p * 16) == 16 * (stride * p);
  }

  lemma Quarter(u: nat)
    ensures 16 * u / 4 == 4 * u
  {
  }

  lemma Extents(stride: nat, p: nat, rows: nat, lines: nat)
    requires rows <= 8 * p && lines <= 16 * p
    ensures lines * stride <= 16 * (stride * p)
    ensures rows * (2 * (stride / 2)) <= 8 * (stride * p) && rows * (stride / 2) <= 4 * (stride * p)
  {
    MulLe(lines, 16 * p, stride);
    MulLe(rows, 8 * p, stride);
    assert 16 * p * stride == 16 * (stride * p) && 8 * p * stride == 8 * (stride * p);
    HalfLines(stride, rows);
  }

  lemma HalfLines(stride: nat, rows: nat)
    ensures 2 * (rows * (stride / 2)) == rows * (2 * (stride / 2)) <= rows * stride
  {
    MulLe(2 * (stride / 2), stride, rows);
    assert 2 * (stride / 2) * rows == 2 * (rows * (stride / 2));
  }

  // The padding of the last lines included.
  lemma WholePlanesFit(stride: nat, height: nat, width: nat, size: int, rows: nat)
    requires HasLines(stride, height, width, size) && rows <= Half(height)
    ensures var n, c := SizeY(stride, height), SizeC(stride, height);
      && height * stride <= n && n + rows * (2 * (stride / 2)) <= size
      && rows * (stride / 2) <= c && n + c + rows * (stride / 2) <= size
  {
    var p := AlignedHeight(stride, height);
    Extents(stride, p, rows, height);
    hide SizeY, SizeC, Align16, Half;
  }

  lemma PlanesFit(stride: nat, height: nat, width: nat, size: int, rows: nat, cols: nat)
    requires HasLines(stride, height, width, size) && rows <= Half(height) && 2 * cols <= stride
    ensures var l, nv := LumaArea(stride, height, width), PairArea(stride, height, rows, cols);
      var a, b := FirstArea(stride, height, rows, cols), SecondArea(stride, height, rows, cols);
      && Within(l, size) && Within(nv, size) && Within(a, size) && Within(b, size)
      && Apart(l, nv) && Apart(l, a) && Apart(l, b) && Apart(a, b)
  {
    var l, nv := LumaArea(stride, height, width), PairArea(stride, height, rows, cols);
    var a, b := FirstArea(stride, height, rows, cols), SecondArea(stride, height, rows, cols);
    WholePlanesFit(stride, height, width, size, rows);
    HalfCovers(stride, cols);
    hide SizeY, SizeC, Align16, Half, Within, End;
    WholeLines(l, size);
    WholeLines(nv, size);
    WholeLines(a, size);
    WholeLines(b, size);
  }

  lemma HalfCovers(stride: nat, cols: nat)
    requires 2 * cols <= stride
    ensures cols <= stride / 2
  {
  }

  lemma WholeHalves(stride: nat)
    ensures 2 * (stride / 2) / 2 == stride / 2 && 2 * (stride / 2) % 2 == 0
    ensures stride % 2 == 0 ==> 2 * (stride / 2) == stride
  {
  }

  // The stride of the converters is wide enough for whole pairs of chroma.
  lemma AlignedStride(width: nat)
    ensures Align16(width) % 2 == 0 && width <= Align16(width) && 2 * Half(width) <= Align16(width)
  {
    var q := (width + 15) / 16;
    InUnits(width + 15);
    Parity(q);
    HalfBelow(width, q);
  }

  // The value of a sample does not depend on how much of the plane is looked at.
  lemma SameSample(buf: seq<byte>, a: Area, a': Area, y: nat, x: nat, b: nat)
    requires a.at == a'.at && a.stride == a'.stride && a.unit == a'.unit
    ensures Sample(buf, a, y, x, b) == Sample(buf, a', y, x, b)
  {
  }
}
