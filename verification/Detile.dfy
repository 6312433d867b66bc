// Turning the decoder's 32-byte wide tiles into lines.
module Detile {
  import opened Bytes
  import opened Raster

  // How a line of tile bytes becomes a line of picture bytes: as it is, with the two
  // bytes of each pair exchanged (U V to V U), or every other byte.
  datatype Sampling = Same | Swapped | Even | Odd

  // The tile column that picture column x comes from.
  function TileCol(s: Sampling, x: nat): nat {
    match s
    case Same => x
    case Swapped => if x % 2 == 0 then x + 1 else x - 1
    case Even => 2 * x
    case Odd => 2 * x + 1
  }

  // The layout of one plane: tiles read and lines written.
  datatype Layout = Layout(tilesPerRow: nat, lines: Lines, sampling: Sampling, stride: nat, height: nat)

  // The tiles are wide enough for the lines.
  ghost predicate Covers(l: Layout) {
    l.stride > 0 && TileCol(l.sampling, l.stride - 1) / 32 < l.tilesPerRow
    && (l.sampling == Swapped ==> l.stride % 2 == 0)
  }

  // Where the byte at (y, x), or at offset p, comes from.
  function Source(l: Layout, y: nat, x: nat): nat {
    Tile(l.tilesPerRow, l.lines, y, TileCol(l.sampling, x))
  }

  function SourceOf(l: Layout, p: nat): nat {
    Source(l, Row(l.stride, p), Col(l.stride, p))
  }

  // The lines whose tile bytes lie before `ptr` have been written at `at`, and nothing
  // else has.
  ghost predicate DoneTo(l: Layout, src: seq<byte>, before: seq<byte>, after: seq<byte>, at: nat, ptr: nat) {
    && |after| == |before|
    && forall q | 0 <= q < |after| ::
      after[q] == if at <= q < at + l.height * l.stride && SourceOf(l, q - at) < ptr && SourceOf(l, q - at) < |src|
                  then src[SourceOf(l, q - at)] else before[q]
  }

  // The byte at offset p comes from line m of tile j in tile row i.
  ghost predicate InTileLine(l: Layout, p: nat, i: nat, j: nat, m: nat) {
    Row(l.stride, p) == i * l.lines + m && TileCol(l.sampling, Col(l.stride, p)) / 32 == j
  }

  lemma InTileLineIff(l: Layout, p: nat, i: nat, j: nat, m: nat)
    requires Covers(l) && j < l.tilesPerRow && m < l.lines
    ensures var ptr := TileLine(l.tilesPerRow, l.lines, i, j, m);
      && (InTileLine(l, p, i, j, m) <==> ptr <= SourceOf(l, p) < ptr + 1024 / l.lines)
      && (InTileLine(l, p, i, j, m) ==> SourceOf(l, p) == ptr + TileCol(l.sampling, Col(l.stride, p)) % 32)
  {
    AtOfRowCol(l.stride, p);
    hide At, Row, Col, Tile, TileLine;
    var y, x := Row(l.stride, p), TileCol(l.sampling, Col(l.stride, p));
    ColCovered(l, Col(l.stride, p));
    if y == i * l.lines + m && x / 32 == j {
      TileOf(l.tilesPerRow, l.lines, i, m, x);
    }
    var ptr := TileLine(l.tilesPerRow, l.lines, i, j, m);
    if ptr <= SourceOf(l, p) < ptr + 1024 / l.lines {
      TileIsInjective(l.tilesPerRow, l.lines, y, x, i, j, m);
    }
    assert x % 32 < 1024 / l.lines;
  }

  lemma ColCovered(l: Layout, c: nat)
    requires Covers(l) && c < l.stride
    ensures TileCol(l.sampling, c) / 32 < l.tilesPerRow
  {
    var last := TileCol(l.sampling, l.stride - 1);
    match l.sampling {
      case Same => assert c <= last;
      case Swapped =>
        assert c / 2 <= (l.stride - 1) / 2;
        assert TileCol(Swapped, c) / 2 == c / 2 && last / 2 == (l.stride - 1) / 2;
      case Even => assert 2 * c <= last;
      case Odd => assert 2 * c + 1 <= last;
    }
    TileOfPair(TileCol(l.sampling, c), last);
  }

  lemma TileOfPair(a: nat, b: nat)
    requires a / 2 <= b / 2
    ensures a / 32 <= b / 32
  {
    assert a / 32 == a / 2 / 16 && b / 32 == b / 2 / 16;
  }

  // A tile line more.
  lemma OneTileLine(l: Layout, src: seq<byte>, before: seq<byte>, mid: seq<byte>, after: seq<byte>,
                    at: nat, i: nat, j: nat, m: nat)
    requires Covers(l) && j < l.tilesPerRow && m < l.lines
    requires DoneTo(l, src, before, mid, at, TileLine(l.tilesPerRow, l.lines, i, j, m))
    requires |after| == |mid| && TileLine(l.tilesPerRow, l.lines, i, j, m) + 32 <= |src|
    requires forall q | 0 <= q < |after| ::
      after[q] == if at <= q < at + l.height * l.stride && InTileLine(l, q - at, i, j, m)
                  then src[TileLine(l.tilesPerRow, l.lines, i, j, m) + TileCol(l.sampling, Col(l.stride, q - at)) % 32]
                  else mid[q]
    ensures DoneTo(l, src, before, after, at, TileLine(l.tilesPerRow, l.lines, i, j, m) + 1024 / l.lines)
  {
    var ptr := TileLine(l.tilesPerRow, l.lines, i, j, m);
    forall q | 0 <= q < |after|
      ensures after[q] == if at <= q < at + l.height * l.stride && SourceOf(l, q - at) < ptr + 1024 / l.lines
                             && SourceOf(l, q - at) < |src|
                          then src[SourceOf(l, q - at)] else before[q]
    {
      if at <= q {
        InTileLineIff(l, q - at, i, j, m);
      }
    }
  }

  // Picture columns per tile.
  function Wide(s: Sampling): nat { if s == Even || s == Odd then 16 else 32 }

  function Min(a: int, b: int): int { if a < b then a else b }

  // In the picture a tile line is a stretch of one line, cut off at its end.
  lemma SpanIff(l: Layout, p: nat, i: nat, j: nat, m: nat)
    requires Covers(l) && j < l.tilesPerRow && m < l.lines
    ensures var y, x := i * l.lines + m, Wide(l.sampling) * j;
      var n := Min(Wide(l.sampling), l.stride - x);
      && (InTileLine(l, p, i, j, m) <==> At(l.stride, y, x) <= p < At(l.stride, y, x) + n)
      && (InTileLine(l, p, i, j, m) ==>
            TileCol(l.sampling, Col(l.stride, p)) % 32 == TileCol(l.sampling, p - At(l.stride, y, x)))
  {
    var g := Wide(l.sampling);
    var y, x := i * l.lines + m, g * j;
    var r, c := Row(l.stride, p), Col(l.stride, p);
    AtOfRowCol(l.stride, p);
    TileOfCol(l.sampling, c, j);
    var s := At(l.stride, y, x);
    if s <= p < s + Min(g, l.stride - x) {
      AtPlus(l.stride, y, x, p - s);
      RowColOfAt(l.stride, y, x + (p - s));
    }
    if x <= c < x + g && r == y {
      AtPlus(l.stride, y, x, c - x);
    }
    hide At, Row, Col, TileCol;
  }

  lemma TileOfCol(s: Sampling, c: nat, j: nat)
    ensures TileCol(s, c) / 32 == j <==> Wide(s) * j <= c < Wide(s) * j + Wide(s)
    ensures Wide(s) * j <= c < Wide(s) * j + Wide(s) ==> TileCol(s, c) % 32 == TileCol(s, c - Wide(s) * j)
  {
    match s {
      case Same =>
      case Swapped => InWhole(c, j);
      case Even =>
      case Odd =>
    }
  }

  lemma InWhole(c: nat, j: nat)
    ensures TileCol(Swapped, c) / 32 == j <==> 32 * j <= c < 32 * j + 32
    ensures 32 * j <= c < 32 * j + 32 ==> TileCol(Swapped, c) == 32 * j + TileCol(Swapped, c - 32 * j)
    ensures 32 * j <= c < 32 * j + 32 ==> TileCol(Swapped, c) % 32 == TileCol(Swapped, c - 32 * j)
  {
    var e, r := c / 32, c % 32;
    SameParity(e, r);
    assert c == 32 * e + r;
    var t := if r % 2 == 0 then r + 1 else r - 1;
    assert TileCol(Swapped, c) == 32 * e + t;
    Quotient(e, t);
  }

  lemma SameParity(e: nat, r: nat)
    ensures (32 * e + r) % 2 == r % 2
  {
  }

  lemma Quotient(e: nat, t: nat)
    requires t < 32
    ensures (32 * e + t) / 32 == e && (32 * e + t) % 32 == t
  {
  }

  // `after` is `mid` with n bytes of a tile line put at `start`.
  ghost predicate LinePut(l: Layout, src: seq<byte>, mid: seq<byte>, after: seq<byte>, start: nat, n: int, ptr: nat)
    requires ptr + 32 <= |src| && n <= Wide(l.sampling)
  {
    && |after| == |mid|
    && forall q | 0 <= q < |after| ::
      after[q] == if start <= q < start + n then src[ptr + TileCol(l.sampling, q - start)] else mid[q]
  }

  lemma LineDone(l: Layout, src: seq<byte>, before: seq<byte>, mid: seq<byte>, after: seq<byte>,
                 at: nat, i: nat, j: nat, m: nat)
    requires Covers(l) && j < l.tilesPerRow && m < l.lines
    requires TileLine(l.tilesPerRow, l.lines, i, j, m) + 32 <= |src|
    requires DoneTo(l, src, before, mid, at, TileLine(l.tilesPerRow, l.lines, i, j, m))
    requires var y, x := i * l.lines + m, Wide(l.sampling) * j;
      if y < l.height
      then LinePut(l, src, mid, after, at + At(l.stride, y, x), Min(Wide(l.sampling), l.stride - x),
                   TileLine(l.tilesPerRow, l.lines, i, j, m))
      else after == mid
    ensures DoneTo(l, src, before, after, at, TileLine(l.tilesPerRow, l.lines, i, j, m) + 1024 / l.lines)
  {
    var ptr := TileLine(l.tilesPerRow, l.lines, i, j, m);
    forall q | 0 <= q < |after|
      ensures after[q] == if at <= q < at + l.height * l.stride && InTileLine(l, q - at, i, j, m)
                          then src[ptr + TileCol(l.sampling, Col(l.stride, q - at)) % 32]
                          else mid[q]
    {
      if at <= q {
        SpanIff(l, q - at, i, j, m);
        RowsBelow(l.stride, l.height, q - at);
      }
    }
    OneTileLine(l, src, before, mid, after, at, i, j, m);
  }

  // The whole plane: every byte of the first `height` lines comes from its tile, and
  // everything else is as it was.
  ghost predicate Detiled(l: Layout, src: seq<byte>, before: seq<byte>, after: seq<byte>, at: nat) {
    && |after| == |before|
    && forall q | 0 <= q < |after| ::
      if at <= q < at + l.height * l.stride
      then SourceOf(l, q - at) < |src| && after[q] == src[SourceOf(l, q - at)]
      else after[q] == before[q]
  }

  lemma AllDone(l: Layout, src: seq<byte>, before: seq<byte>, after: seq<byte>, at: nat, tileRows: nat)
    requires l.stride > 0 ==> Covers(l)
    requires l.height <= l.lines * tileRows && TileLine(l.tilesPerRow, l.lines, tileRows, 0, 0) <= |src|
    requires DoneTo(l, src, before, after, at, TileLine(l.tilesPerRow, l.lines, tileRows, 0, 0))
    ensures Detiled(l, src, before, after, at)
  {
    hide SourceOf, TileLine, Covers;
    forall q | 0 <= q < |after|
      ensures if at <= q < at + l.height * l.stride
              then SourceOf(l, q - at) < |src| && after[q] == src[SourceOf(l, q - at)]
              else after[q] == before[q]
    {
      if at <= q < at + l.height * l.stride {
        SourceInside(l, q - at, tileRows);
      }
    }
  }

  lemma SourceInside(l: Layout, p: nat, tileRows: nat)
    requires l.stride > 0 ==> Covers(l)
    requires l.height <= l.lines * tileRows && p < l.height * l.stride
    ensures SourceOf(l, p) < TileLine(l.tilesPerRow, l.lines, tileRows, 0, 0)
  {
    assert l.stride > 0;
    RowsBelow(l.stride, l.height, p);
    AtOfRowCol(l.stride, p);
    ColCovered(l, Col(l.stride, p));
    hide Row, Col, At, TileCol, Tile, TileLine;
    TileInside(l.tilesPerRow, l.lines, Row(l.stride, p), TileCol(l.sampling, Col(l.stride, p)), tileRows);
  }

  // By line and column.
  lemma DetiledAt(l: Layout, src: seq<byte>, before: seq<byte>, after: seq<byte>, at: nat, y: nat, x: nat)
    requires Detiled(l, src, before, after, at) && at + l.height * l.stride <= |after|
    requires y < l.height && x < l.stride
    ensures at + At(l.stride, y, x) < |after| && Source(l, y, x) < |src|
    ensures after[at + At(l.stride, y, x)] == src[Source(l, y, x)]
  {
    RowColOfAt(l.stride, y, x);
    RowsBelow(l.stride, l.height, At(l.stride, y, x));
    var q := at + At(l.stride, y, x);
    assert SourceOf(l, q - at) == Source(l, y, x);
    hide At, Row, Col, Tile, SourceOf, Source;
    assert at <= q < at + l.height * l.stride;
    var b := after[q];
    assert SourceOf(l, q - at) < |src|;
  }
}
