// Where a pixel is: in a picture stored line by line with a padded stride, and in
// one stored as 32-byte wide tiles of 1024 bytes.
module Raster {
  // (n + 7) & ~7 and so on.
  function Align8(n: nat): nat { (n + 7) / 8 * 8 }

  function Align16(n: nat): nat { (n + 15) / 16 * 16 }

  function Align32(n: nat): nat { (n + 31) / 32 * 32 }

  // ----- Lines -----

  function At(stride: nat, y: nat, x: nat): nat { y * stride + x }

  function Row(stride: nat, p: nat): nat { if stride == 0 then 0 else p / stride }

  function Col(stride: nat, p: nat): nat { if stride == 0 then 0 else p % stride }

  lemma RowColOfAt(stride: nat, y: nat, x: nat)
    requires x < stride
    ensures Row(stride, At(stride, y, x)) == y && Col(stride, At(stride, y, x)) == x
  {
    DivMod(stride, y, x, At(stride, y, x) / stride, At(stride, y, x) % stride);
  }

  lemma DivMod(d: nat, q: nat, r: nat, q': nat, r': nat)
    requires q * d + r == q' * d + r' && r < d && r' < d
    ensures q == q' && r == r'
  {
    if q < q' {
      Farther(d, q, q');
    } else if q' < q {
      Farther(d, q', q);
    }
  }

  lemma Farther(d: nat, q: nat, q': nat)
    requires q < q'
    ensures q * d + d <= q' * d
  {
    var k := q' - q - 1;
    calc {
      q' * d;
      (q + (1 + k)) * d;
      q * d + (1 + k) * d;
      q * d + (d + k * d);
    }
    assert k * d >= 0;
  }

  lemma AtOfRowCol(stride: nat, p: nat)
    requires stride > 0
    ensures At(stride, Row(stride, p), Col(stride, p)) == p && Col(stride, p) < stride
  {
  }

  lemma AtPlus(stride: nat, y: nat, x: nat, k: nat)
    ensures At(stride, y, x) + k == At(stride, y, x + k)
  {
  }

  // The bytes of the first h lines.
  lemma RowsBelow(stride: nat, h: nat, p: nat)
    requires stride > 0
    ensures p < h * stride <==> Row(stride, p) < h
  {
    var y := Row(stride, p);
    AtOfRowCol(stride, p);
    if y < h {
      Farther(stride, y, h);
    } else if h < y {
      Farther(stride, h, y);
    }
  }

  // ----- Tiles -----

  // Lines per tile: 32, or 16 spread over twice the room.
  type Lines = n | n == 32 || n == 16 witness 32

  function Tile(tilesPerRow: nat, lines: Lines, y: nat, x: nat): nat {
    (y / lines * tilesPerRow + x / 32) * 1024 + y % lines * (1024 / lines) + x % 32
  }

  // Where line m of tile j in tile row i begins.
  function TileLine(tilesPerRow: nat, lines: Lines, i: nat, j: nat, m: nat): nat {
    (i * tilesPerRow + j) * 1024 + m * (1024 / lines)
  }

  // Only the pixels of one tile line are stored between it and the next.
  lemma TileIsInjective(tilesPerRow: nat, lines: Lines, y: nat, x: nat, i: nat, j: nat, m: nat)
    requires x / 32 < tilesPerRow && j < tilesPerRow && m < lines
    requires var p := TileLine(tilesPerRow, lines, i, j, m);
      p <= Tile(tilesPerRow, lines, y, x) < p + 1024 / lines
    ensures y == i * lines + m && x / 32 == j
    ensures Tile(tilesPerRow, lines, y, x) == TileLine(tilesPerRow, lines, i, j, m) + x % 32
  {
    var t, t' := y / lines * tilesPerRow + x / 32, i * tilesPerRow + j;
    if lines == 32 {
      assert 0 <= y % 32 * 32 + x % 32 < 1024 && 0 <= m * 32 <= 992;
      assert t == t' && y % 32 == m;
    } else {
      assert 0 <= y % 16 * 64 + x % 32 < 1024 && 0 <= m * 64 <= 960;
      assert t == t' && y % 16 == m;
    }
    DivMod(tilesPerRow, y / lines, x / 32, i, j);
  }

  lemma TileOf(tilesPerRow: nat, lines: Lines, i: nat, m: nat, x: nat)
    requires m < lines
    ensures Tile(tilesPerRow, lines, i * lines + m, x) == TileLine(tilesPerRow, lines, i, x / 32, m) + x % 32
  {
    if lines == 32 {
      assert (i * 32 + m) / 32 == i && (i * 32 + m) % 32 == m;
    } else {
      assert (i * 16 + m) / 16 == i && (i * 16 + m) % 16 == m;
    }
  }

  // The tile lines follow one another without a gap.
  lemma NextTileLine(tilesPerRow: nat, lines: Lines, i: nat, j: nat, m: nat)
    ensures TileLine(tilesPerRow, lines, i, j, m) + 1024 / lines == TileLine(tilesPerRow, lines, i, j, m + 1)
    ensures TileLine(tilesPerRow, lines, i, j, lines) == TileLine(tilesPerRow, lines, i, j + 1, 0)
    ensures TileLine(tilesPerRow, lines, i, tilesPerRow, 0) == TileLine(tilesPerRow, lines, i + 1, 0, 0)
    ensures TileLine(tilesPerRow, lines, 0, 0, 0) == 0
  {
    if lines == 32 {
      assert (m + 1) * 32 == m * 32 + 32;
    } else {
      assert (m + 1) * 64 == m * 64 + 64;
    }
    assert (i + 1) * tilesPerRow == i * tilesPerRow + tilesPerRow;
  }

  // A picture of that many tile rows holds the whole tile line.
  lemma TileLineInside(tilesPerRow: nat, lines: Lines, i: nat, j: nat, m: nat, tileRows: nat)
    requires i < tileRows && j < tilesPerRow && m < lines
    ensures TileLine(tilesPerRow, lines, i, j, m) + 1024 / lines <= TileLine(tilesPerRow, lines, tileRows, 0, 0)
  {
    Farther(tilesPerRow, i, tileRows);
    if lines == 32 {
      assert m * 32 + 32 <= 1024;
    } else {
      assert m * 64 + 64 <= 1024;
    }
  }

  lemma TileInside(tilesPerRow: nat, lines: Lines, y: nat, x: nat, tileRows: nat)
    requires y < lines * tileRows && x / 32 < tilesPerRow
    ensures Tile(tilesPerRow, lines, y, x) < TileLine(tilesPerRow, lines, tileRows, 0, 0)
  {
    var i, m := y / lines, y % lines;
    if lines == 32 {
      assert y == 32 * i + m && i < tileRows;
    } else {
      assert y == 16 * i + m && i < tileRows;
    }
    TileOf(tilesPerRow, lines, i, m, x);
    TileLineInside(tilesPerRow, lines, i, x / 32, m, tileRows);
    assert x % 32 < 1024 / lines;
  }
}
