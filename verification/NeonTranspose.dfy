// The NEON register networks that turn a tile of bytes, or of byte pairs, by 90 and by
// 270 degrees.
module NeonTranspose {
  import opened Bytes

  // A 64-bit register as eight bytes, the one at the lowest address first.
  datatype Vec = Vec(b0: byte, b1: byte, b2: byte, b3: byte, b4: byte, b5: byte, b6: byte, b7: byte)

  // vtrn.8, vtrn.16 and vtrn.32 on registers d and m: elements 1, 3, ... of d change
  // places with elements 0, 2, ... of m.
  function Trn8(d: Vec, m: Vec): (Vec, Vec) {
    (Vec(d.b0, m.b0, d.b2, m.b2, d.b4, m.b4, d.b6, m.b6), Vec(d.b1, m.b1, d.b3, m.b3, d.b5, m.b5, d.b7, m.b7))
  }

  function Trn16(d: Vec, m: Vec): (Vec, Vec) {
    (Vec(d.b0, d.b1, m.b0, m.b1, d.b4, d.b5, m.b4, m.b5), Vec(d.b2, d.b3, m.b2, m.b3, d.b6, d.b7, m.b6, m.b7))
  }

  function Trn32(d: Vec, m: Vec): (Vec, Vec) {
    (Vec(d.b0, d.b1, d.b2, d.b3, m.b0, m.b1, m.b2, m.b3), Vec(d.b4, d.b5, d.b6, d.b7, m.b4, m.b5, m.b6, m.b7))
  }

  // The luma registers in the order they are stored, from the eight source lines.
  function LumaNetwork(d0: Vec, d1: Vec, d2: Vec, d3: Vec, d4: Vec, d5: Vec, d6: Vec, d7: Vec): seq<Vec> {
    var (d1, d0) := Trn8(d1, d0);
    var (d3, d2) := Trn8(d3, d2);
    var (d5, d4) := Trn8(d5, d4);
    var (d7, d6) := Trn8(d7, d6);
    var (d3, d1) := Trn16(d3, d1);
    var (d2, d0) := Trn16(d2, d0);
    var (d7, d5) := Trn16(d7, d5);
    var (d6, d4) := Trn16(d6, d4);
    var (d7, d3) := Trn32(d7, d3);
    var (d5, d1) := Trn32(d5, d1);
    var (d6, d2) := Trn32(d6, d2);
    var (d4, d0) := Trn32(d4, d0);
    [d7, d6, d5, d4, d3, d2, d1, d0]
  }

  // Register c holds byte c of every line, the last line first.
  lemma LumaNetworkTurns(d0: Vec, d1: Vec, d2: Vec, d3: Vec, d4: Vec, d5: Vec, d6: Vec, d7: Vec)
    ensures LumaNetwork(d0, d1, d2, d3, d4, d5, d6, d7) == [
      Vec(d7.b0, d6.b0, d5.b0, d4.b0, d3.b0, d2.b0, d1.b0, d0.b0),
      Vec(d7.b1, d6.b1, d5.b1, d4.b1, d3.b1, d2.b1, d1.b1, d0.b1),
      Vec(d7.b2, d6.b2, d5.b2, d4.b2, d3.b2, d2.b2, d1.b2, d0.b2),
      Vec(d7.b3, d6.b3, d5.b3, d4.b3, d3.b3, d2.b3, d1.b3, d0.b3),
      Vec(d7.b4, d6.b4, d5.b4, d4.b4, d3.b4, d2.b4, d1.b4, d0.b4),
      Vec(d7.b5, d6.b5, d5.b5, d4.b5, d3.b5, d2.b5, d1.b5, d0.b5),
      Vec(d7.b6, d6.b6, d5.b6, d4.b6, d3.b6, d2.b6, d1.b6, d0.b6),
      Vec(d7.b7, d6.b7, d5.b7, d4.b7, d3.b7, d2.b7, d1.b7, d0.b7)]
  {
  }

  // The same for chroma: four lines of four pairs.
  function ChromaNetwork(d8: Vec, d9: Vec, d10: Vec, d11: Vec): seq<Vec> {
    var (d9, d8) := Trn16(d9, d8);
    var (d11, d10) := Trn16(d11, d10);
    var (d11, d9) := Trn32(d11, d9);
    var (d10, d8) := Trn32(d10, d8);
    [d11, d10, d9, d8]
  }

  lemma ChromaNetworkTurns(d8: Vec, d9: Vec, d10: Vec, d11: Vec)
    ensures ChromaNetwork(d8, d9, d10, d11) == [
      Vec(d11.b0, d11.b1, d10.b0, d10.b1, d9.b0, d9.b1, d8.b0, d8.b1),
      Vec(d11.b2, d11.b3, d10.b2, d10.b3, d9.b2, d9.b3, d8.b2, d8.b3),
      Vec(d11.b4, d11.b5, d10.b4, d10.b5, d9.b4, d9.b5, d8.b4, d8.b5),
      Vec(d11.b6, d11.b7, d10.b6, d10.b7, d9.b6, d9.b7, d8.b6, d8.b7)]
  {
  }

  // The networks of the other rotation.
  function LumaNetwork270(d0: Vec, d1: Vec, d2: Vec, d3: Vec, d4: Vec, d5: Vec, d6: Vec, d7: Vec): seq<Vec> {
    var (d0, d1) := Trn8(d0, d1);
    var (d2, d3) := Trn8(d2, d3);
    var (d4, d5) := Trn8(d4, d5);
    var (d6, d7) := Trn8(d6, d7);
    var (d1, d3) := Trn16(d1, d3);
    var (d0, d2) := Trn16(d0, d2);
    var (d5, d7) := Trn16(d5, d7);
    var (d4, d6) := Trn16(d4, d6);
    var (d3, d7) := Trn32(d3, d7);
    var (d1, d5) := Trn32(d1, d5);
    var (d2, d6) := Trn32(d2, d6);
    var (d0, d4) := Trn32(d0, d4);
    [d7, d6, d5, d4, d3, d2, d1, d0]
  }

  // Register c holds byte 7 - c of every line, the first line first.
  lemma LumaNetwork270Turns(d0: Vec, d1: Vec, d2: Vec, d3: Vec, d4: Vec, d5: Vec, d6: Vec, d7: Vec)
    ensures LumaNetwork270(d0, d1, d2, d3, d4, d5, d6, d7) == [
      Vec(d0.b7, d1.b7, d2.b7, d3.b7, d4.b7, d5.b7, d6.b7, d7.b7),
      Vec(d0.b6, d1.b6, d2.b6, d3.b6, d4.b6, d5.b6, d6.b6, d7.b6),
      Vec(d0.b5, d1.b5, d2.b5, d3.b5, d4.b5, d5.b5, d6.b5, d7.b5),
      Vec(d0.b4, d1.b4, d2.b4, d3.b4, d4.b4, d5.b4, d6.b4, d7.b4),
      Vec(d0.b3, d1.b3, d2.b3, d3.b3, d4.b3, d5.b3, d6.b3, d7.b3),
      Vec(d0.b2, d1.b2, d2.b2, d3.b2, d4.b2, d5.b2, d6.b2, d7.b2),
      Vec(d0.b1, d1.b1, d2.b1, d3.b1, d4.b1, d5.b1, d6.b1, d7.b1),
      Vec(d0.b0, d1.b0, d2.b0, d3.b0, d4.b0, d5.b0, d6.b0, d7.b0)]
  {
  }

  function ChromaNetwork270(d8: Vec, d9: Vec, d10: Vec, d11: Vec): seq<Vec> {
    var (d8, d9) := Trn16(d8, d9);
    var (d10, d11) := Trn16(d10, d11);
    var (d9, d11) := Trn32(d9, d11);
    var (d8, d10) := Trn32(d8, d10);
    [d11, d10, d9, d8]
  }

  lemma ChromaNetwork270Turns(d8: Vec, d9: Vec, d10: Vec, d11: Vec)
    ensures ChromaNetwork270(d8, d9, d10, d11) == [
      Vec(d8.b6, d8.b7, d9.b6, d9.b7, d10.b6, d10.b7, d11.b6, d11.b7),
      Vec(d8.b4, d8.b5, d9.b4, d9.b5, d10.b4, d10.b5, d11.b4, d11.b5),
      Vec(d8.b2, d8.b3, d9.b2, d9.b3, d10.b2, d10.b3, d11.b2, d11.b3),
      Vec(d8.b0, d8.b1, d9.b0, d9.b1, d10.b0, d10.b1, d11.b0, d11.b1)]
  {
  }

  function Stored(v: Vec): (s: seq<byte>)
    ensures |s| == 8
  {
    [v.b0, v.b1, v.b2, v.b3, v.b4, v.b5, v.b6, v.b7]
  }

  function Load(s: seq<byte>): (v: Vec)
    requires |s| == 8
    ensures Stored(v) == s
  {
    Vec(s[0], s[1], s[2], s[3], s[4], s[5], s[6], s[7])
  }

  // Byte t of stored register c is byte c of line 7 - t.
  lemma LumaBytes(l: seq<seq<byte>>, c: nat, t: nat)
    requires |l| == 8 && (forall k | 0 <= k < 8 :: |l[k]| == 8) && c < 8 && t < 8
    ensures var out := LumaNetwork(Load(l[0]), Load(l[1]), Load(l[2]), Load(l[3]),
                                   Load(l[4]), Load(l[5]), Load(l[6]), Load(l[7]));
      |out| == 8 && Stored(out[c])[t] == l[7 - t][c]
  {
    LumaNetworkTurns(Load(l[0]), Load(l[1]), Load(l[2]), Load(l[3]), Load(l[4]), Load(l[5]), Load(l[6]), Load(l[7]));
    hide LumaNetwork;
  }

  // Byte b of pair t of stored register c is byte b of pair c of line 3 - t.
  lemma ChromaBytes(l: seq<seq<byte>>, c: nat, t: nat, b: nat)
    requires |l| == 4 && (forall k | 0 <= k < 4 :: |l[k]| == 8) && c < 4 && t < 4 && b < 2
    ensures var out := ChromaNetwork(Load(l[0]), Load(l[1]), Load(l[2]), Load(l[3]));
      |out| == 4 && Stored(out[c])[2 * t + b] == l[3 - t][2 * c + b]
  {
    ChromaNetworkTurns(Load(l[0]), Load(l[1]), Load(l[2]), Load(l[3]));
    hide ChromaNetwork;
  }

  // Byte t of stored register c is byte 7 - c of line t.
  lemma LumaBytes270(l: seq<seq<byte>>, c: nat, t: nat)
    requires |l| == 8 && (forall k | 0 <= k < 8 :: |l[k]| == 8) && c < 8 && t < 8
    ensures var out := LumaNetwork270(Load(l[0]), Load(l[1]), Load(l[2]), Load(l[3]),
                                      Load(l[4]), Load(l[5]), Load(l[6]), Load(l[7]));
      |out| == 8 && Stored(out[c])[t] == l[t][7 - c]
  {
    LumaNetwork270Turns(Load(l[0]), Load(l[1]), Load(l[2]), Load(l[3]),
                        Load(l[4]), Load(l[5]), Load(l[6]), Load(l[7]));
    hide LumaNetwork270;
  }

  // Byte b of pair t of stored register c is byte b of pair 3 - c of line t.
  lemma ChromaBytes270(l: seq<seq<byte>>, c: nat, t: nat, b: nat)
    requires |l| == 4 && (forall k | 0 <= k < 4 :: |l[k]| == 8) && c < 4 && t < 4 && b < 2
    ensures var out := ChromaNetwork270(Load(l[0]), Load(l[1]), Load(l[2]), Load(l[3]));
      |out| == 4 && Stored(out[c])[2 * t + b] == l[t][2 * (3 - c) + b]
  {
    ChromaNetwork270Turns(Load(l[0]), Load(l[1]), Load(l[2]), Load(l[3]));
    hide ChromaNetwork270;
  }
}
