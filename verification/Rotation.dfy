// Turning a plane by quarters of a full turn.
module Rotation {
  import opened Bytes
  import opened Raster
  import opened Samples

  datatype Angle = By0 | By90 | By180 | By270

  // Where the sample at (y, x) of h lines of w samples goes.
  function ToRow(g: Angle, h: int, w: int, y: int, x: int): int {
    match g
    case By0 => y
    case By90 => x
    case By180 => h - 1 - y
    case By270 => w - 1 - x
  }

  function ToCol(g: Angle, h: int, w: int, y: int, x: int): int {
    match g
    case By0 => x
    case By90 => h - 1 - y
    case By180 => w - 1 - x
    case By270 => y
  }

  // An area for the turned plane.
  ghost predicate Receives(d: Area, s: Area, g: Angle) {
    && d.unit == s.unit
    && if g == By0 || g == By180 then d.rows == s.rows && d.cols == s.cols else d.rows == s.cols && d.cols == s.rows
  }

  // Every sample has been put where it goes, up to sample i of line j.
  ghost predicate RotatedTo(src: seq<byte>, s: Area, dst: seq<byte>, d: Area, g: Angle, j: nat, i: nat)
    requires Receives(d, s, g)
  {
    forall y: nat, x: nat, b: nat {:trigger Sample(src, s, y, x, b)} |
      y < s.rows && x < s.cols && b < s.unit && (y < j || (y == j && x < i)) ::
      Sample(dst, d, ToRow(g, s.rows, s.cols, y, x), ToCol(g, s.rows, s.cols, y, x), b) == Sample(src, s, y, x, b)
  }

  ghost predicate Rotated(src: seq<byte>, s: Area, dst: seq<byte>, d: Area, g: Angle)
    requires Receives(d, s, g)
  {
    RotatedTo(src, s, dst, d, g, s.rows, 0)
  }

  lemma OneSample(src: seq<byte>, s: Area, mid: seq<byte>, after: seq<byte>, d: Area, g: Angle,
                  j: nat, i: nat, data: seq<byte>)
    requires Receives(d, s, g) && Within(s, |src|) && Within(d, |mid|) && j < s.rows && i < s.cols
    requires |data| == s.unit && forall b: nat | b < s.unit :: data[b] == Sample(src, s, j, i, b)
    requires RotatedTo(src, s, mid, d, g, j, i)
    requires SampleSet(mid, after, d, ToRow(g, s.rows, s.cols, j, i), ToCol(g, s.rows, s.cols, j, i), data)
    ensures RotatedTo(src, s, after, d, g, j, i + 1)
  {
    hide Sample, SampleSet;
    var r, c := ToRow(g, s.rows, s.cols, j, i), ToCol(g, s.rows, s.cols, j, i);
    forall y: nat, x: nat, b: nat | y < s.rows && x < s.cols && b < s.unit && (y < j || (y == j && x < i + 1))
      ensures Sample(after, d, ToRow(g, s.rows, s.cols, y, x), ToCol(g, s.rows, s.cols, y, x), b)
           == Sample(src, s, y, x, b)
    {
      SampleAfter(mid, after, d, r, c, data, ToRow(g, s.rows, s.cols, y, x), ToCol(g, s.rows, s.cols, y, x), b);
    }
  }

  // One byte of luma or of a plane of chroma.
  method CopyByte(src: array<byte>, s: Area, dst: array<byte>, d: Area, g: Angle, j: nat, i: nat)
      returns (ghost data: seq<byte>)
    requires src != dst && s.unit == 1 && Turns(s, d, g) && Within(s, src.Length) && Within(d, dst.Length)
    requires j < s.rows && i < s.cols
    modifies dst
    ensures |data| == s.unit && forall b: nat | b < s.unit :: data[b] == Sample(src[..], s, j, i, b)
    ensures SampleSet(old(dst[..]), dst[..], d, ToRow(g, s.rows, s.cols, j, i), ToCol(g, s.rows, s.cols, j, i), data)
  {
    var nHeight, nWidth, nLineStride, nRotateLineStride := s.rows, s.cols, s.stride, d.stride;
    PosInside(s, j, i, 0, src.Length);
    PosInside(d, ToRow(g, nHeight, nWidth, j, i), ToCol(g, nHeight, nWidth, j, i), 0, dst.Length);
    var from := j * nLineStride + i;
    var to;
    match g {
      case By90 => to := i * nRotateLineStride + nHeight - j - 1;
      case By180 => to := (nHeight - 1 - j) * nLineStride + (nWidth - 1 - i);
      case By270 => to := (nWidth - 1 - i) * nRotateLineStride + j;
    }
    assert s.at + from == Pos(s, j, i, 0);
    assert d.at + to == Pos(d, ToRow(g, nHeight, nWidth, j, i), ToCol(g, nHeight, nWidth, j, i), 0);
    hide At, ToRow, ToCol;
    data := [src[s.at + from]];
    dst[d.at + to] := src[s.at + from];
  }

  // Both bytes of a pair.
  method CopyPair(src: array<byte>, s: Area, dst: array<byte>, d: Area, g: Angle, j: nat, i: nat)
      returns (ghost data: seq<byte>)
    requires src != dst && s.unit == 2 && Turns(s, d, g) && Within(s, src.Length) && Within(d, dst.Length)
    requires j < s.rows && i < s.cols
    modifies dst
    ensures |data| == s.unit && forall b: nat | b < s.unit :: data[b] == Sample(src[..], s, j, i, b)
    ensures SampleSet(old(dst[..]), dst[..], d, ToRow(g, s.rows, s.cols, j, i), ToCol(g, s.rows, s.cols, j, i), data)
  {
    var nHeight, nWidth, nLineStride, nRotateLineStride := s.rows, s.cols, s.stride / 2, d.stride / 2;
    ghost var r, c := ToRow(g, nHeight, nWidth, j, i), ToCol(g, nHeight, nWidth, j, i);
    PairOffset(s.stride, j, i);
    PairOffset(d.stride, r, c);
    PosInside(s, j, i, 1, src.Length);
    PosInside(d, r, c, 1, dst.Length);
    var from0 := 2 * j * nLineStride + 2 * i;
    var from1 := 2 * j * nLineStride + 2 * i + 1;
    var to0, to1;
    match g {
      case By90 =>
        to0 := 2 * i * nRotateLineStride + 2 * nHeight - (2 * j + 1) - 1;
        to1 := 2 * i * nRotateLineStride + 2 * nHeight - 2 * j - 1;
      case By180 =>
        to0 := 2 * (nHeight - 1 - j) * nLineStride + 2 * (nWidth - 1 - i);
        to1 := 2 * (nHeight - 1 - j) * nLineStride + 2 * (nWidth - 1 - i) + 1;
      case By270 =>
        to0 := 2 * (nWidth - 1 - i) * nRotateLineStride + 2 * j;
        to1 := 2 * (nWidth - 1 - i) * nRotateLineStride + 2 * j + 1;
    }
    assert s.at + from0 == Pos(s, j, i, 0) && s.at + from1 == Pos(s, j, i, 1);
    assert d.at + to0 == Pos(d, r, c, 0) && d.at + to1 == Pos(d, r, c, 1);
    hide At, ToRow, ToCol;
    data := [src[s.at + from0], src[s.at + from1]];
    dst[d.at + to0] := src[s.at + from0];
    dst[d.at + to1] := src[s.at + from1];
  }

  // Lines of pairs are counted in half strides.
  lemma PairOffset(stride: nat, y: nat, x: nat)
    ensures stride % 2 == 0 ==> 2 * y * (stride / 2) + 2 * x == At(stride, y, 2 * x)
  {
    if stride % 2 == 0 {
      var q := stride / 2;
      assert stride == 2 * q;
      assert 2 * y * q == y * (2 * q);
    }
  }

  // The areas of a turn: half a stride must be a whole number for pairs, and a turn by
  // 180 degrees writes with the stride it reads with.
  ghost predicate Turns(s: Area, d: Area, g: Angle) {
    && g != By0 && Receives(d, s, g) && (g == By180 ==> d.stride == s.stride)
    && (s.unit == 2 ==> s.stride % 2 == 0 && d.stride % 2 == 0)
  }

  method RotateArea(src: array<byte>, s: Area, dst: array<byte>, d: Area, g: Angle)
    requires src != dst && Turns(s, d, g) && Within(s, src.Length) && Within(d, dst.Length)
    modifies dst
    ensures Rotated(src[..], s, dst[..], d, g) && OnlyArea(d, old(dst[..]), dst[..])
  {
    ghost var before := dst[..];
    hide Sample, SampleSet, OnlyArea, RotatedTo, Within;
    NothingRotated(src[..], s, before, d, g);
    for j := 0 to s.rows
      invariant RotatedTo(src[..], s, dst[..], d, g, j, 0) && OnlyArea(d, before, dst[..])
    {
      RotateLine(src, s, dst, d, g, j, before);
    }
  }

  method RotateLine(src: array<byte>, s: Area, dst: array<byte>, d: Area, g: Angle, j: nat, ghost before: seq<byte>)
    requires src != dst && Turns(s, d, g) && Within(s, src.Length) && Within(d, dst.Length) && j < s.rows
    requires RotatedTo(src[..], s, dst[..], d, g, j, 0) && OnlyArea(d, before, dst[..]) && |before| == dst.Length
    modifies dst
    ensures RotatedTo(src[..], s, dst[..], d, g, j + 1, 0) && OnlyArea(d, before, dst[..])
  {
    hide Sample, SampleSet, OnlyArea, RotatedTo, Within;
    for i := 0 to s.cols
      invariant RotatedTo(src[..], s, dst[..], d, g, j, i) && OnlyArea(d, before, dst[..])
    {
      ghost var mid := dst[..];
      ghost var r, c := ToRow(g, s.rows, s.cols, j, i), ToCol(g, s.rows, s.cols, j, i);
      ghost var data;
      if s.unit == 1 {
        data := CopyByte(src, s, dst, d, g, j, i);
      } else {
        data := CopyPair(src, s, dst, d, g, j, i);
      }
      OneSample(src[..], s, mid, dst[..], d, g, j, i, data);
      SampleSetOnlyArea(before, mid, dst[..], d, r, c, data);
    }
    NextLine(src[..], s, dst[..], d, g, j);
  }

  lemma NothingRotated(src: seq<byte>, s: Area, dst: seq<byte>, d: Area, g: Angle)
    requires Receives(d, s, g)
    ensures RotatedTo(src, s, dst, d, g, 0, 0) && OnlyArea(d, dst, dst)
  {
  }

  lemma NextLine(src: seq<byte>, s: Area, dst: seq<byte>, d: Area, g: Angle, j: nat)
    requires Receives(d, s, g) && RotatedTo(src, s, dst, d, g, j, s.cols)
    ensures RotatedTo(src, s, dst, d, g, j + 1, 0)
  {
  }

  lemma SampleOfRotated(src: seq<byte>, s: Area, dst: seq<byte>, d: Area, g: Angle, y: nat, x: nat, b: nat)
    requires Receives(d, s, g) && Rotated(src, s, dst, d, g) && y < s.rows && x < s.cols && b < s.unit
    ensures Sample(dst, d, ToRow(g, s.rows, s.cols, y, x), ToCol(g, s.rows, s.cols, y, x), b) == Sample(src, s, y, x, b)
  {
    hide Sample;
  }

  // ----- A turned plane put in the wrong place -----

  // Where the sample that goes to (r, c) comes from.
  function FromRow(g: Angle, h: int, w: int, r: int, c: int): int {
    match g
    case By0 => r
    case By90 => h - 1 - c
    case By180 => h - 1 - r
    case By270 => c
  }

  function FromCol(g: Angle, h: int, w: int, r: int, c: int): int {
    match g
    case By0 => c
    case By90 => r
    case By180 => w - 1 - c
    case By270 => w - 1 - r
  }

  // The corner of the place d that an area of its shape at e.at leaves alone: the first
  // byte, or the last.
  function SparedRow(d: Area, e: Area): int { if e.at > d.at then 0 else d.rows - 1 }

  function SparedCol(d: Area, e: Area): int { if e.at > d.at then 0 else d.cols - 1 }

  function SparedByte(d: Area, e: Area): nat { if e.at > d.at then 0 else d.unit - 1 }

  // What has been in that corner is not what belongs there.
  ghost predicate WrongBefore(src: seq<byte>, s: Area, before: seq<byte>, d: Area, e: Area, g: Angle)
    requires Receives(d, s, g) && d.rows > 0 && d.cols > 0
  {
    var r, c, b := SparedRow(d, e), SparedCol(d, e), SparedByte(d, e);
    Sample(before, d, r, c, b) != Sample(src, s, FromRow(g, s.rows, s.cols, r, c), FromCol(g, s.rows, s.cols, r, c), b)
  }

  // Turned into e, the plane is not where d is.
  lemma Misplaced(src: seq<byte>, s: Area, before: seq<byte>, after: seq<byte>, d: Area, e: Area, g: Angle)
    requires Receives(d, s, g) && d.rows > 0 && d.cols > 0 && Within(d, |after|)
    requires e == d.(at := e.at) && e.at != d.at && |before| == |after|
    requires forall q | d.at <= q < End(d) && q < |after| && !(e.at <= q < End(e)) :: after[q] == before[q]
    requires WrongBefore(src, s, before, d, e, g)
    ensures !Rotated(src, s, after, d, g)
  {
    var r, c, b := SparedRow(d, e), SparedCol(d, e), SparedByte(d, e);
    var q := Pos(d, r, c, b);
    PosInside(d, r, c, b, |after|);
    assert e.at > d.at ==> q == d.at;
    LastByte(d);
    assert e.at < d.at ==> q == End(d) - 1 && End(e) < End(d);
    assert after[q] == before[q];
    hide Pos, End;
    if Rotated(src, s, after, d, g) {
      SampleOfRotated(src, s, after, d, g, FromRow(g, s.rows, s.cols, r, c), FromCol(g, s.rows, s.cols, r, c), b);
    }
  }

  lemma LastByte(d: Area)
    requires d.rows > 0 && d.cols > 0
    ensures Pos(d, d.rows - 1, d.cols - 1, d.unit - 1) == End(d) - 1
  {
    assert d.unit == 2 ==> 2 * (d.cols - 1) + 1 == 2 * d.cols - 1;
  }
}
