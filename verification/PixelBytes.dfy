// The layouts of pictures byte by byte, in numbers: what the functions that place planes
// and samples come to.
module PixelBytes {
  import opened Raster
  import opened Mb32
  import opened Rotation
  import opened Picture

  // Rounded up to a multiple, and not further.
  lemma Alignments(n: nat)
    ensures Align8(n) % 8 == 0 && n <= Align8(n) < n + 8
    ensures Align16(n) % 16 == 0 && n <= Align16(n) < n + 16
    ensures Align32(n) % 32 == 0 && n <= Align32(n) < n + 32
    ensures 2 * Half(n) == n + n % 2
  {
    RoundedUp(n, 8);
    RoundedUp(n, 16);
    RoundedUp(n, 32);
    HalfUp(n);
    hide Half;
  }

  lemma RoundedUp(n: nat, d: nat)
    requires d > 0
    ensures var r := (n + (d - 1)) / d * d; r % d == 0 && n <= r < n + d
  {
    var q := (n + (d - 1)) / d;
    assert n + (d - 1) == q * d + (n + (d - 1)) % d;
    Multiple(q, d);
  }

  lemma Multiple(q: nat, d: nat)
    requires d > 0
    ensures q * d % d == 0
  {
    RowColOfAt(d, q, 0);
  }

  lemma HalfUp(n: nat)
    ensures 2 * Half(n) == n + n % 2
  {
  }

  // Luma takes a whole number of 16 lines; a plane of chroma a quarter of it.
  lemma Sizes(stride: nat, height: nat)
    ensures SizeY(stride, height) == stride * ((height + 15) / 16 * 16)
    ensures SizeC(stride, height) == stride * ((height + 15) / 16 * 16) / 4
  {
  }

  // Pictures in lines of `stride` bytes, chroma in lines of half of it or of two halves.
  lemma LumaByte(v: View, y: nat, x: nat)
    requires !v.format.Mb32_420? && !v.format.Mb32_422? && y * v.stride + x < |v.data|
    ensures v.data[y * v.stride + x] == Y(v, y, x)
  {
  }

  lemma Nv21Bytes(v: View, y: nat, x: nat)
    requires v.format.NV21?
    requires v.stride * ((v.height + 15) / 16 * 16) + y * (v.stride / 2 * 2) + 2 * x + 1 < |v.data|
    ensures var p := v.stride * ((v.height + 15) / 16 * 16) + y * (v.stride / 2 * 2) + 2 * x;
      v.data[p] == V(v, y, x) && v.data[p + 1] == U(v, y, x)
  {
    Sizes(v.stride, v.height);
    hide SizeY;
  }

  lemma Nv12Bytes(v: View, y: nat, x: nat)
    requires v.format.NV12?
    requires v.stride * ((v.height + 15) / 16 * 16) + y * (v.stride / 2 * 2) + 2 * x + 1 < |v.data|
    ensures var p := v.stride * ((v.height + 15) / 16 * 16) + y * (v.stride / 2 * 2) + 2 * x;
      v.data[p] == U(v, y, x) && v.data[p + 1] == V(v, y, x)
  {
    Sizes(v.stride, v.height);
    hide SizeY;
  }

  // V first in YV12, U first in the other planar format.
  lemma PlanarBytes(v: View, y: nat, x: nat)
    requires v.format.YV12? || v.format.Planar420?
    requires var n := v.stride * ((v.height + 15) / 16 * 16);
      n + n / 4 + y * (v.stride / 2) + x < |v.data|
    ensures var n := v.stride * ((v.height + 15) / 16 * 16);
      var first, second := v.data[n + y * (v.stride / 2) + x], v.data[n + n / 4 + y * (v.stride / 2) + x];
      if v.format.YV12? then first == V(v, y, x) && second == U(v, y, x)
      else first == U(v, y, x) && second == V(v, y, x)
  {
    Sizes(v.stride, v.height);
    hide SizeY, SizeC;
  }

  // Tiles of 32 lines of 32 bytes, side by side and row by row.
  function TiledAt(tilesPerRow: nat, y: nat, x: nat): nat {
    (y / 32 * tilesPerRow + x / 32) * 1024 + y % 32 * 32 + x % 32
  }

  lemma TileIs(tilesPerRow: nat, y: nat, x: nat)
    ensures Tile(tilesPerRow, 32, y, x) == TiledAt(tilesPerRow, y, x)
  {
  }

  lemma TiledLumaByte(v: View, y: nat, x: nat)
    requires v.format.Mb32_420? || v.format.Mb32_422?
    requires TiledAt((v.width + 31) / 32, y, x) < |v.data|
    ensures v.data[TiledAt((v.width + 31) / 32, y, x)] == Y(v, y, x)
  {
  }

  // U before V; a 4:2:2 picture shows every other of its lines of chroma.
  lemma TiledChromaBytes(v: View, y: nat, x: nat)
    requires v.format.Mb32_420? || v.format.Mb32_422?
    requires var t, line := ((v.width + 1) / 2 * 2 + 31) / 32, if v.format.Mb32_422? then 2 * y else y;
      TiledAt(t, line, 2 * x) < |v.tiles| && TiledAt(t, line, 2 * x + 1) < |v.tiles|
    ensures var t, line := ((v.width + 1) / 2 * 2 + 31) / 32, if v.format.Mb32_422? then 2 * y else y;
      v.tiles[TiledAt(t, line, 2 * x)] == U(v, y, x) && v.tiles[TiledAt(t, line, 2 * x + 1)] == V(v, y, x)
  {
    var t, line := ((v.width + 1) / 2 * 2 + 31) / 32, if v.format.Mb32_422? then 2 * y else y;
    ChromaTiles(v.width, t);
    TileIs(t, line, 2 * x);
    TileIs(t, line, 2 * x + 1);
    hide Tile, TiledAt, Half, Align32;
  }

  lemma ChromaTiles(width: nat, t: nat)
    requires t == ((width + 1) / 2 * 2 + 31) / 32
    ensures Align32(2 * Half(width)) / 32 == t
  {
  }

  // ----- Turned pictures -----

  // How far into the turned plane a sample of u bytes goes, of h lines of w.
  function Offset(g: Angle, u: nat, h: int, w: int, stride: nat, y: int, x: int): int {
    match g
    case By0 => y * stride + u * x
    case By90 => x * stride + u * (h - 1 - y)
    case By180 => (h - 1 - y) * stride + u * (w - 1 - x)
    case By270 => (w - 1 - x) * stride + u * y
  }

  lemma OffsetIs(g: Angle, u: nat, h: int, w: int, stride: nat, y: int, x: int)
    ensures Offset(g, u, h, w, stride, y, x) == ToRow(g, h, w, y, x) * stride + u * ToCol(g, h, w, y, x)
  {
  }

  lemma TurnedLumaByte(a: View, b: View, g: Angle, y: nat, x: nat)
    requires Turned(a, b, g) && y < a.height && x < a.width
    requires !a.format.Mb32_420? && !a.format.Mb32_422? && !b.format.Mb32_420? && !b.format.Mb32_422?
    requires y * a.stride + x < |a.data| && 0 <= Offset(g, 1, a.height, a.width, b.stride, y, x) < |b.data|
    ensures b.data[Offset(g, 1, a.height, a.width, b.stride, y, x)] == a.data[y * a.stride + x]
  {
    var r, c := ToRow(g, a.height, a.width, y, x), ToCol(g, a.height, a.width, y, x);
    OffsetIs(g, 1, a.height, a.width, b.stride, y, x);
    assert Y(b, r, c) == Y(a, y, x);
    hide Y, ToRow, ToCol, Offset, Turned;
    LumaByte(a, y, x);
    LumaByte(b, r, c);
  }

  // Where interleaved chroma begins, and how far apart its lines are.
  function PairsFrom(v: View): nat { v.stride * ((v.height + 15) / 16 * 16) }

  lemma TurnedPairBytes(a: View, b: View, g: Angle, y: nat, x: nat)
    requires Turned(a, b, g) && y < a.height / 2 && x < a.width / 2
    requires (a.format.NV21? && b.format.NV21?) || (a.format.NV12? && b.format.NV12?)
    requires PairsFrom(a) + y * (a.stride / 2 * 2) + 2 * x + 1 < |a.data|
    requires var to := Offset(g, 2, a.height / 2, a.width / 2, b.stride / 2 * 2, y, x);
      0 <= to && PairsFrom(b) + to + 1 < |b.data|
    ensures var from, to := PairsFrom(a) + y * (a.stride / 2 * 2) + 2 * x,
                            PairsFrom(b) + Offset(g, 2, a.height / 2, a.width / 2, b.stride / 2 * 2, y, x);
      b.data[to] == a.data[from] && b.data[to + 1] == a.data[from + 1]
  {
    var r, c := ToRow(g, a.height / 2, a.width / 2, y, x), ToCol(g, a.height / 2, a.width / 2, y, x);
    OffsetIs(g, 2, a.height / 2, a.width / 2, b.stride / 2 * 2, y, x);
    assert V(b, r, c) == V(a, y, x) && U(b, r, c) == U(a, y, x);
    hide V, U, ToRow, ToCol, Offset, Turned;
    if a.format.NV21? {
      Nv21Bytes(a, y, x);
      Nv21Bytes(b, r, c);
    } else {
      Nv12Bytes(a, y, x);
      Nv12Bytes(b, r, c);
    }
  }

  lemma TurnedPlaneBytes(a: View, b: View, g: Angle, y: nat, x: nat)
    requires Turned(a, b, g) && y < a.height / 2 && x < a.width / 2 && a.format.YV12? && b.format.YV12?
    requires var n := PairsFrom(a); n + n / 4 + y * (a.stride / 2) + x < |a.data|
    requires var n, to := PairsFrom(b), Offset(g, 1, a.height / 2, a.width / 2, b.stride / 2, y, x);
      0 <= to && n + n / 4 + to < |b.data|
    ensures var n, from := PairsFrom(a), y * (a.stride / 2) + x;
      var n', to := PairsFrom(b), Offset(g, 1, a.height / 2, a.width / 2, b.stride / 2, y, x);
      b.data[n' + to] == a.data[n + from] && b.data[n' + n' / 4 + to] == a.data[n + n / 4 + from]
  {
    var r, c := ToRow(g, a.height / 2, a.width / 2, y, x), ToCol(g, a.height / 2, a.width / 2, y, x);
    OffsetIs(g, 1, a.height / 2, a.width / 2, b.stride / 2, y, x);
    assert V(b, r, c) == V(a, y, x) && U(b, r, c) == U(a, y, x);
    hide V, U, ToRow, ToCol, Offset, Turned;
    PlanarBytes(a, y, x);
    PlanarBytes(b, r, c);
  }
}
