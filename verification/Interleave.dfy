// Taking two-byte samples apart into two planes, and putting them together.
module Interleave {
  import opened Bytes
  import opened Raster
  import opened Samples

  // Three areas of one size: pairs, and their first and second bytes in lines half as
  // long.
  ghost predicate Matching(nv: Area, a: Area, b: Area) {
    && nv.unit == 2 && a.unit == b.unit == 1
    && nv.stride % 2 == 0 && a.stride == b.stride == nv.stride / 2
    && nv.rows == a.rows == b.rows && nv.cols == a.cols == b.cols
  }

  // The planes hold the bytes of the pairs, up to pair j of line i.
  ghost predicate PairsTo(nvBuf: seq<byte>, nv: Area, buf: seq<byte>, a: Area, b: Area, i: nat, j: nat) {
    forall y: nat, x: nat {:trigger Sample(nvBuf, nv, y, x, 0)} {:trigger Sample(buf, a, y, x, 0)} |
      y < nv.rows && x < nv.cols && (y < i || (y == i && x < j)) ::
      && Sample(buf, a, y, x, 0) == Sample(nvBuf, nv, y, x, 0)
      && Sample(buf, b, y, x, 0) == Sample(nvBuf, nv, y, x, 1)
  }

  ghost predicate Pairs(nvBuf: seq<byte>, nv: Area, buf: seq<byte>, a: Area, b: Area) {
    PairsTo(nvBuf, nv, buf, a, b, nv.rows, 0)
  }

  ghost predicate OnlyTwo(a: Area, b: Area, before: seq<byte>, after: seq<byte>) {
    && |after| == |before|
    && forall q | 0 <= q < |after| && !(a.at <= q < End(a))
                  && !(b.at <= q < End(b)) :: after[q] == before[q]
  }

  lemma OnePairApart(src: seq<byte>, nv: Area, mid: seq<byte>, mid': seq<byte>, after: seq<byte>, a: Area, b: Area,
                     i: nat, j: nat, u: byte, v: byte)
    requires Matching(nv, a, b) && Within(a, |mid|) && Within(b, |mid|) && Apart(a, b) && i < nv.rows && j < nv.cols
    requires PairsTo(src, nv, mid, a, b, i, j)
    requires SampleSet(mid, mid', a, i, j, [u]) && SampleSet(mid', after, b, i, j, [v])
    requires u == Sample(src, nv, i, j, 0) && v == Sample(src, nv, i, j, 1)
    ensures PairsTo(src, nv, after, a, b, i, j + 1)
  {
    SampleSetOnlyArea(mid, mid, mid', a, i, j, [u]);
    SampleSetOnlyArea(mid', mid', after, b, i, j, [v]);
    hide Sample, SampleSet, OnlyArea;
    forall y: nat, x: nat | y < nv.rows && x < nv.cols && (y < i || (y == i && x < j + 1))
      ensures Sample(after, a, y, x, 0) == Sample(src, nv, y, x, 0)
      ensures Sample(after, b, y, x, 0) == Sample(src, nv, y, x, 1)
    {
      SampleAfter(mid, mid', a, i, j, [u], y, x, 0);
      OtherArea(b, a, mid', after, y, x, 0);
      SampleAfter(mid', after, b, i, j, [v], y, x, 0);
      OtherArea(a, b, mid, mid', y, x, 0);
    }
  }

  lemma OneByteOnlyTwo(before: seq<byte>, mid: seq<byte>, after: seq<byte>, a: Area, b: Area,
                       second: bool, r: nat, c: nat, data: seq<byte>)
    requires Within(a, |before|) && Within(b, |before|) && OnlyTwo(a, b, before, mid)
    requires var d := if second then b else a;
      r < d.rows && c < d.cols && SampleSet(mid, after, d, r, c, data)
    ensures OnlyTwo(a, b, before, after)
  {
    var d := if second then b else a;
    SampleSetOnlyArea(mid, mid, after, d, r, c, data);
    hide SampleSet;
  }

  // Lines of the planes are counted in strides of the pairs, and halved.
  lemma HalfOffset(stride: nat, i: nat)
    requires stride % 2 == 0
    ensures i * stride / 2 == i * (stride / 2)
  {
    var q := stride / 2;
    assert stride == 2 * q;
    assert i * stride == 2 * (i * q);
  }

  method SplitPair(src: array<byte>, nv: Area, dst: array<byte>, a: Area, b: Area, i: nat, j: nat)
      returns (ghost mid: seq<byte>)
    requires src != dst && Matching(nv, a, b) && i < nv.rows && j < nv.cols
    requires Within(nv, src.Length) && Within(a, dst.Length) && Within(b, dst.Length)
    modifies dst
    ensures SampleSet(old(dst[..]), mid, a, i, j, [Sample(src[..], nv, i, j, 0)])
    ensures SampleSet(mid, dst[..], b, i, j, [Sample(src[..], nv, i, j, 1)])
  {
    var nLineStride := nv.stride;
    HalfOffset(nLineStride, i);
    PosInside(nv, i, j, 0, src.Length);
    PosInside(nv, i, j, 1, src.Length);
    PosInside(a, i, j, 0, dst.Length);
    PosInside(b, i, j, 0, dst.Length);
    var from := i * nLineStride + 2 * j;
    var to := i * nLineStride / 2 + j;
    assert nv.at + from == Pos(nv, i, j, 0) && nv.at + from + 1 == Pos(nv, i, j, 1);
    assert a.at + to == Pos(a, i, j, 0) && b.at + to == Pos(b, i, j, 0);
    hide At;
    dst[a.at + to] := src[nv.at + from];
    mid := dst[..];
    dst[b.at + to] := src[nv.at + from + 1];
  }

  method SplitLine(src: array<byte>, nv: Area, dst: array<byte>, a: Area, b: Area, i: nat, ghost before: seq<byte>)
    requires src != dst && Matching(nv, a, b) && Apart(a, b) && |before| == dst.Length && i < nv.rows
    requires Within(nv, src.Length) && Within(a, dst.Length) && Within(b, dst.Length)
    requires PairsTo(src[..], nv, dst[..], a, b, i, 0) && OnlyTwo(a, b, before, dst[..])
    modifies dst
    ensures PairsTo(src[..], nv, dst[..], a, b, i + 1, 0) && OnlyTwo(a, b, before, dst[..])
  {
    hide Sample, SampleSet, OnlyTwo, PairsTo, Within;
    for j := 0 to nv.cols
      invariant PairsTo(src[..], nv, dst[..], a, b, i, j) && OnlyTwo(a, b, before, dst[..])
    {
      ghost var mid := dst[..];
      ghost var mid' := SplitPair(src, nv, dst, a, b, i, j);
      ghost var u, v := Sample(src[..], nv, i, j, 0), Sample(src[..], nv, i, j, 1);
      OnePairApart(src[..], nv, mid, mid', dst[..], a, b, i, j, u, v);
      OneByteOnlyTwo(before, mid, mid', a, b, false, i, j, [u]);
      OneByteOnlyTwo(before, mid', dst[..], a, b, true, i, j, [v]);
    }
    NextPairLine(src[..], nv, dst[..], a, b, i);
  }

  method Split(src: array<byte>, nv: Area, dst: array<byte>, a: Area, b: Area)
    requires src != dst && Matching(nv, a, b) && Apart(a, b)
    requires Within(nv, src.Length) && Within(a, dst.Length) && Within(b, dst.Length)
    modifies dst
    ensures Pairs(src[..], nv, dst[..], a, b) && OnlyTwo(a, b, old(dst[..]), dst[..])
  {
    ghost var before := dst[..];
    NoPairs(src[..], nv, before, a, b);
    hide OnlyTwo, PairsTo, Within;
    for i := 0 to nv.rows
      invariant PairsTo(src[..], nv, dst[..], a, b, i, 0) && OnlyTwo(a, b, before, dst[..])
    {
      SplitLine(src, nv, dst, a, b, i, before);
    }
  }

  lemma NextPairLine(nvBuf: seq<byte>, nv: Area, buf: seq<byte>, a: Area, b: Area, i: nat)
    requires PairsTo(nvBuf, nv, buf, a, b, i, nv.cols)
    ensures PairsTo(nvBuf, nv, buf, a, b, i + 1, 0)
  {
  }

  lemma NoPairs(nvBuf: seq<byte>, nv: Area, buf: seq<byte>, a: Area, b: Area)
    ensures PairsTo(nvBuf, nv, buf, a, b, 0, 0) && OnlyTwo(a, b, buf, buf) && OnlyArea(nv, nvBuf, nvBuf)
  {
  }

  // ----- Putting pairs together -----

  lemma OnePairTogether(src: seq<byte>, a: Area, b: Area, mid: seq<byte>, after: seq<byte>, nv: Area,
                         i: nat, j: nat, data: seq<byte>)
    requires Matching(nv, a, b) && Within(nv, |mid|) && i < nv.rows && j < nv.cols
    requires PairsTo(mid, nv, src, a, b, i, j)
    requires SampleSet(mid, after, nv, i, j, data) && data == [Sample(src, a, i, j, 0), Sample(src, b, i, j, 0)]
    ensures PairsTo(after, nv, src, a, b, i, j + 1)
  {
    hide Sample, SampleSet;
    forall y: nat, x: nat | y < nv.rows && x < nv.cols && (y < i || (y == i && x < j + 1))
      ensures Sample(src, a, y, x, 0) == Sample(after, nv, y, x, 0)
      ensures Sample(src, b, y, x, 0) == Sample(after, nv, y, x, 1)
    {
      SampleAfter(mid, after, nv, i, j, data, y, x, 0);
      SampleAfter(mid, after, nv, i, j, data, y, x, 1);
    }
  }

  method PutPair(src: array<byte>, a: Area, b: Area, dst: array<byte>, nv: Area, i: nat, j: nat)
    requires src != dst && Matching(nv, a, b) && i < nv.rows && j < nv.cols
    requires Within(nv, dst.Length) && Within(a, src.Length) && Within(b, src.Length)
    modifies dst
    ensures SampleSet(old(dst[..]), dst[..], nv, i, j, [Sample(src[..], a, i, j, 0), Sample(src[..], b, i, j, 0)])
  {
    var nLineStride := nv.stride;
    HalfOffset(nLineStride, i);
    PosInside(a, i, j, 0, src.Length);
    PosInside(b, i, j, 0, src.Length);
    PosInside(nv, i, j, 0, dst.Length);
    PosInside(nv, i, j, 1, dst.Length);
    var from := i * nLineStride / 2 + j;
    var to := i * nLineStride + 2 * j;
    assert nv.at + to == Pos(nv, i, j, 0) && nv.at + to + 1 == Pos(nv, i, j, 1);
    assert a.at + from == Pos(a, i, j, 0) && b.at + from == Pos(b, i, j, 0);
    hide At;
    dst[nv.at + to] := src[a.at + from];
    dst[nv.at + to + 1] := src[b.at + from];
  }

  method JoinLine(src: array<byte>, a: Area, b: Area, dst: array<byte>, nv: Area, i: nat, ghost before: seq<byte>)
    requires src != dst && Matching(nv, a, b) && |before| == dst.Length && i < nv.rows
    requires Within(nv, dst.Length) && Within(a, src.Length) && Within(b, src.Length)
    requires PairsTo(dst[..], nv, src[..], a, b, i, 0) && OnlyArea(nv, before, dst[..])
    modifies dst
    ensures PairsTo(dst[..], nv, src[..], a, b, i + 1, 0) && OnlyArea(nv, before, dst[..])
  {
    hide Sample, SampleSet, OnlyArea, PairsTo, Within;
    for j := 0 to nv.cols
      invariant PairsTo(dst[..], nv, src[..], a, b, i, j) && OnlyArea(nv, before, dst[..])
    {
      ghost var mid := dst[..];
      PutPair(src, a, b, dst, nv, i, j);
      ghost var data := [Sample(src[..], a, i, j, 0), Sample(src[..], b, i, j, 0)];
      OnePairTogether(src[..], a, b, mid, dst[..], nv, i, j, data);
      SampleSetOnlyArea(before, mid, dst[..], nv, i, j, data);
    }
    NextPairLine(dst[..], nv, src[..], a, b, i);
  }

  method Join(src: array<byte>, a: Area, b: Area, dst: array<byte>, nv: Area)
    requires src != dst && Matching(nv, a, b)
    requires Within(nv, dst.Length) && Within(a, src.Length) && Within(b, src.Length)
    modifies dst
    ensures Pairs(dst[..], nv, src[..], a, b) && OnlyArea(nv, old(dst[..]), dst[..])
  {
    ghost var before := dst[..];
    NoPairs(before, nv, src[..], a, b);
    hide OnlyArea, PairsTo, Within;
    for i := 0 to nv.rows
      invariant PairsTo(dst[..], nv, src[..], a, b, i, 0) && OnlyArea(nv, before, dst[..])
    {
      JoinLine(src, a, b, dst, nv, i, before);
    }
  }
}
