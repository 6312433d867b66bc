// One- and two-byte samples of a plane stored line by line.
module Samples {
  import opened Bytes
  import opened Raster

  // Bytes per sample: 1, or 2 for interleaved chroma.
  type Unit = u | u == 1 || u == 2 witness 1

  // `rows` lines of `cols` samples at offset `at`.
  datatype Area = Area(at: nat, stride: nat, unit: Unit, rows: nat, cols: nat)

  // Behind its last byte; the padding of the last line does not belong to it.
  function End(a: Area): nat {
    if a.rows == 0 || a.cols == 0 then a.at else a.at + At(a.stride, a.rows - 1, a.unit * a.cols)
  }

  ghost predicate Within(a: Area, size: int) {
    a.unit * a.cols <= a.stride && (a.rows > 0 && a.cols > 0 ==> End(a) <= size)
  }

  lemma WholeLines(a: Area, size: int)
    requires a.unit * a.cols <= a.stride && a.at + a.rows * a.stride <= size
    ensures Within(a, size) && End(a) <= a.at + a.rows * a.stride
  {
    if a.rows > 0 {
      Farther(a.stride, a.rows - 1, a.rows);
    }
  }

  // Where byte b of the sample at (y, x) is.
  function Pos(a: Area, y: nat, x: nat, b: nat): nat {
    a.at + At(a.stride, y, a.unit * x + b)
  }

  lemma PosInside(a: Area, y: nat, x: nat, b: nat, size: int)
    requires Within(a, size) && y < a.rows && x < a.cols && b < a.unit
    ensures a.at <= Pos(a, y, x, b) < End(a) <= size
    ensures Pos(a, y, x, b) == Pos(a, y, x, 0) + b
  {
    if y < a.rows - 1 {
      Farther(a.stride, y, a.rows - 1);
    }
    UnitFits(a.unit, x, a.cols, b);
  }

  lemma UnitFits(unit: Unit, x: nat, cols: nat, b: nat)
    requires x < cols && b < unit
    ensures unit * x + b < unit * cols
  {
    if unit == 2 {
      assert 2 * x + b < 2 * cols;
    }
  }

  lemma PosIsInjective(a: Area, y: nat, x: nat, b: nat, y': nat, x': nat, b': nat, size: int)
    requires Within(a, size) && x < a.cols && x' < a.cols && b < a.unit && b' < a.unit
    requires Pos(a, y, x, b) == Pos(a, y', x', b')
    ensures y == y' && x == x' && b == b'
  {
    UnitFits(a.unit, x, a.cols, b);
    UnitFits(a.unit, x', a.cols, b');
    DivMod(a.stride, y, a.unit * x + b, y', a.unit * x' + b');
    if a.unit == 2 {
      assert 2 * x + b == 2 * x' + b';
    }
  }

  // A sample, if the plane is there.
  function Sample(buf: seq<byte>, a: Area, y: nat, x: nat, b: nat): byte {
    if Pos(a, y, x, b) < |buf| then buf[Pos(a, y, x, b)] else 0
  }

  // `after` is `before` with the sample at (r, c) replaced.
  ghost predicate SampleSet(before: seq<byte>, after: seq<byte>, a: Area, r: nat, c: nat, data: seq<byte>) {
    && |after| == |before| && |data| == a.unit
    && forall q | 0 <= q < |after| ::
      after[q] == if Pos(a, r, c, 0) <= q < Pos(a, r, c, 0) + a.unit then data[q - Pos(a, r, c, 0)] else before[q]
  }

  lemma SampleAfter(before: seq<byte>, after: seq<byte>, a: Area, r: nat, c: nat, data: seq<byte>,
                    y: nat, x: nat, b: nat)
    requires Within(a, |before|) && r < a.rows && c < a.cols && y < a.rows && x < a.cols && b < a.unit
    requires SampleSet(before, after, a, r, c, data)
    ensures Sample(after, a, y, x, b) == if (y, x) == (r, c) then data[b] else Sample(before, a, y, x, b)
  {
    PosInside(a, y, x, b, |before|);
    PosInside(a, r, c, b, |before|);
    var q := Pos(a, y, x, b);
    var t := q - Pos(a, r, c, 0);
    if 0 <= t < a.unit {
      PosInside(a, r, c, t, |before|);
      PosIsInjective(a, y, x, b, r, c, t, |before|);
    }
    hide Pos;
  }

  // Nothing outside the area changes.
  ghost predicate OnlyArea(a: Area, before: seq<byte>, after: seq<byte>) {
    && |after| == |before|
    && forall q | 0 <= q < |after| && !(a.at <= q < End(a)) :: after[q] == before[q]
  }

  lemma SampleSetOnlyArea(before: seq<byte>, mid: seq<byte>, after: seq<byte>, a: Area, r: nat, c: nat, data: seq<byte>)
    requires Within(a, |before|) && r < a.rows && c < a.cols
    requires OnlyArea(a, before, mid) && SampleSet(mid, after, a, r, c, data)
    ensures OnlyArea(a, before, after)
  {
    PosInside(a, r, c, 0, |before|);
    PosInside(a, r, c, a.unit - 1, |before|);
    hide Pos;
  }

  // Two areas, one behind the other.
  ghost predicate Apart(a: Area, b: Area) {
    End(a) <= b.at || End(b) <= a.at
  }

  lemma OtherArea(a: Area, o: Area, before: seq<byte>, after: seq<byte>, y: nat, x: nat, b: nat)
    requires Within(o, |before|) && Apart(a, o) && OnlyArea(a, before, after)
    requires y < o.rows && x < o.cols && b < o.unit
    ensures Sample(after, o, y, x, b) == Sample(before, o, y, x, b)
  {
    PosInside(o, y, x, b, |before|);
    hide Pos;
  }
}
