// Turning an NV21 picture without padding by 90 and by 270 degrees, byte by byte and
// pair by pair.
module YuvRotate {
  import opened Bytes
  import opened Raster
  import opened Samples
  import opened Interleave
  import opened Rotation

  function LumaFrom(width: nat, height: nat): Area { Area(0, width, 1, height, width) }

  function LumaTo(width: nat, height: nat): Area { Area(0, height, 1, width, height) }

  // An odd byte at the end of a line is not skipped, so lines of chroma begin one
  // behind the other.
  function ChromaFrom(width: nat, height: nat): Area {
    Area(width * height, 2 * (width / 2), 2, height / 2, width / 2)
  }

  function ChromaTo(width: nat, height: nat): Area {
    Area(width * height + height % 2, height, 2, width / 2, height / 2)
  }

  // Room for the picture before and after.
  ghost predicate HasRoom(width: nat, height: nat, src: int, dst: int) {
    && Within(LumaFrom(width, height), src) && Within(ChromaFrom(width, height), src)
    && Within(LumaTo(width, height), dst) && Within(ChromaTo(width, height), dst)
  }

  // ----- The scalar loops -----

  // One line of luma becomes a column.
  method ScalarLumaLine(width: nat, height: nat, src: array<byte>, dst: array<byte>,
                        i: nat, ySrc0: nat, yDst0: int, ghost before: seq<byte>)
      returns (ySrc: nat)
    requires src != dst && HasRoom(width, height, src.Length, dst.Length) && |before| == dst.Length && i < height
    requires ySrc0 == At(width, i, 0) && yDst0 == height - 1 - i
    requires RotatedTo(src[..], LumaFrom(width, height), dst[..], LumaTo(width, height), By90, i, 0)
    requires OnlyArea(LumaTo(width, height), before, dst[..])
    modifies dst
    ensures ySrc == At(width, i + 1, 0)
    ensures RotatedTo(src[..], LumaFrom(width, height), dst[..], LumaTo(width, height), By90, i + 1, 0)
    ensures OnlyArea(LumaTo(width, height), before, dst[..])
  {
    ghost var s, d := LumaFrom(width, height), LumaTo(width, height);
    FirstColumn(height, i);
    hide Sample, OnlyArea, RotatedTo, HasRoom, At;
    ySrc := ySrc0;
    var yDst := yDst0;
    for j := 0 to width
      invariant ySrc == At(width, i, j) && yDst == At(height, j, height - 1 - i)
      invariant RotatedTo(src[..], s, dst[..], d, By90, i, j) && OnlyArea(d, before, dst[..])
    {
      TurnByte(src, ySrc, dst, yDst, s, d, By90, i, j, before);
      AtPlus(width, i, j, 1);
      AtNext(height, j, height - 1 - i);
      ySrc := ySrc + 1;
      yDst := yDst + height;
    }
    EndOfLumaLine(width, i);
    NextLine(src[..], s, dst[..], d, By90, i);
  }

  lemma FirstColumn(height: nat, i: nat)
    requires i < height
    ensures height - 1 - i == At(height, 0, height - 1 - i)
  {
  }

  // The byte at (i, j) to where it goes.
  method TurnByte(src: array<byte>, from: nat, dst: array<byte>, to: nat,
                  ghost s: Area, ghost d: Area, ghost g: Angle, ghost i: nat, ghost j: nat, ghost before: seq<byte>)
    requires src != dst && Receives(d, s, g) && s.unit == 1 && Within(s, src.Length) && Within(d, dst.Length)
    requires |before| == dst.Length && i < s.rows && j < s.cols
    requires from == Pos(s, i, j, 0)
    requires to == Pos(d, ToRow(g, s.rows, s.cols, i, j), ToCol(g, s.rows, s.cols, i, j), 0)
    requires RotatedTo(src[..], s, dst[..], d, g, i, j) && OnlyArea(d, before, dst[..])
    modifies dst
    ensures RotatedTo(src[..], s, dst[..], d, g, i, j + 1) && OnlyArea(d, before, dst[..])
  {
    ghost var r, c := ToRow(g, s.rows, s.cols, i, j), ToCol(g, s.rows, s.cols, i, j);
    hide OnlyArea, RotatedTo, Within, At;
    ghost var mid := dst[..];
    PosInside(s, i, j, 0, src.Length);
    PosInside(d, r, c, 0, dst.Length);
    dst[to] := src[from];
    ghost var data := [src[from]];
    SampleIs(src[..], s, i, j, 0, from);
    assert SampleSet(mid, dst[..], d, r, c, data);
    hide Sample, SampleSet, Pos, End;
    OneSample(src[..], s, mid, dst[..], d, g, i, j, data);
    SampleSetOnlyArea(before, mid, dst[..], d, r, c, data);
  }

  lemma SampleIs(buf: seq<byte>, a: Area, y: nat, x: nat, b: nat, p: nat)
    requires p == Pos(a, y, x, b) && p < |buf|
    ensures Sample(buf, a, y, x, b) == buf[p]
  {
  }

  method CopyTwo(src: array<byte>, from: nat, dst: array<byte>, to: nat,
                  ghost s: Area, ghost y: nat, ghost x: nat, ghost d: Area, ghost r: nat, ghost c: nat)
      returns (ghost data: seq<byte>)
    requires src != dst && s.unit == d.unit == 2 && Within(s, src.Length) && Within(d, dst.Length)
    requires y < s.rows && x < s.cols && r < d.rows && c < d.cols
    requires from == Pos(s, y, x, 0) && to == Pos(d, r, c, 0)
    modifies dst
    ensures |data| == 2 && forall b: nat | b < 2 :: data[b] == Sample(src[..], s, y, x, b)
    ensures SampleSet(old(dst[..]), dst[..], d, r, c, data)
  {
    PosInside(s, y, x, 1, src.Length);
    PosInside(d, r, c, 1, dst.Length);
    hide At;
    dst[to] := src[from];
    dst[to + 1] := src[from + 1];
    data := [src[from], src[from + 1]];
  }

  // The pair at (i, j) to where it goes.
  method TurnPair(src: array<byte>, from: nat, dst: array<byte>, to: nat,
                  ghost s: Area, ghost d: Area, ghost g: Angle, ghost i: nat, ghost j: nat, ghost before: seq<byte>)
    requires src != dst && Receives(d, s, g) && s.unit == 2 && Within(s, src.Length) && Within(d, dst.Length)
    requires |before| == dst.Length && i < s.rows && j < s.cols
    requires from == Pos(s, i, j, 0)
    requires to == Pos(d, ToRow(g, s.rows, s.cols, i, j), ToCol(g, s.rows, s.cols, i, j), 0)
    requires RotatedTo(src[..], s, dst[..], d, g, i, j) && OnlyArea(d, before, dst[..])
    modifies dst
    ensures RotatedTo(src[..], s, dst[..], d, g, i, j + 1) && OnlyArea(d, before, dst[..])
  {
    ghost var r, c := ToRow(g, s.rows, s.cols, i, j), ToCol(g, s.rows, s.cols, i, j);
    hide Sample, SampleSet, OnlyArea, RotatedTo, Within, At;
    ghost var mid := dst[..];
    ghost var data := CopyTwo(src, from, dst, to, s, i, j, d, r, c);
    OneSample(src[..], s, mid, dst[..], d, g, i, j, data);
    SampleSetOnlyArea(before, mid, dst[..], d, r, c, data);
  }

  method ScalarChromaLine(width: nat, height: nat, src: array<byte>, dst: array<byte>,
                          i: nat, uvSrc0: nat, uvDst0: int, ghost before: seq<byte>)
      returns (uvSrc: nat)
    requires src != dst && HasRoom(width, height, src.Length, dst.Length) && |before| == dst.Length && i < height / 2
    requires uvSrc0 == width * height + At(2 * (width / 2), i, 0) && uvDst0 == width * height + height - 2 - 2 * i
    requires RotatedTo(src[..], ChromaFrom(width, height), dst[..], ChromaTo(width, height), By90, i, 0)
    requires OnlyArea(ChromaTo(width, height), before, dst[..])
    modifies dst
    ensures uvSrc == width * height + At(2 * (width / 2), i + 1, 0)
    ensures RotatedTo(src[..], ChromaFrom(width, height), dst[..], ChromaTo(width, height), By90, i + 1, 0)
    ensures OnlyArea(ChromaTo(width, height), before, dst[..])
  {
    ghost var s, d := ChromaFrom(width, height), ChromaTo(width, height);
    ghost var w2, c := width / 2, height / 2 - 1 - i;
    FirstLine(width, height, i);
    hide Sample, OnlyArea, RotatedTo, Within, At, HasRoom;
    uvSrc := uvSrc0;
    var uvDst := uvDst0;
    for j := 0 to width / 2
      invariant uvSrc == s.at + At(2 * w2, i, 2 * j) && uvDst == d.at + At(height, j, 2 * c)
      invariant RotatedTo(src[..], s, dst[..], d, By90, i, j) && OnlyArea(d, before, dst[..])
    {
      TurnPair(src, uvSrc, dst, uvDst, s, d, By90, i, j, before);
      AtPlus(2 * w2, i, 2 * j, 2);
      AtNext(height, j, 2 * c);
      uvSrc := uvSrc + 2;
      uvDst := uvDst + height;
    }
    EndOfChromaLine(w2, i);
    NextLine(src[..], s, dst[..], d, By90, i);
  }

  lemma AtNext(stride: nat, y: nat, x: nat)
    ensures At(stride, y + 1, x) == At(stride, y, x) + stride
  {
  }

  lemma EndOfChromaLine(w2: nat, i: nat)
    ensures At(2 * w2, i, 2 * w2) == At(2 * w2, i + 1, 0)
  {
  }

  lemma FirstLine(width: nat, height: nat, i: nat)
    requires i < height / 2
    ensures width * height + height - 2 - 2 * i == ChromaTo(width, height).at + At(height, 0, 2 * (height / 2 - 1 - i))
  {
  }

  // What nv_rotage90 is for: luma and chroma are turned, and nothing else is written.
  ghost predicate TurnedBy90(width: nat, height: nat, src: seq<byte>, before: seq<byte>, after: seq<byte>) {
    && Rotated(src, LumaFrom(width, height), after, LumaTo(width, height), By90)
    && Rotated(src, ChromaFrom(width, height), after, ChromaTo(width, height), By90)
    && OnlyTwo(LumaTo(width, height), ChromaTo(width, height), before, after)
  }

  method ScalarRotate90(width: nat, height: nat, src: array<byte>, dst: array<byte>)
    requires src != dst && HasRoom(width, height, src.Length, dst.Length)
    modifies dst
    ensures TurnedBy90(width, height, src[..], old(dst[..]), dst[..])
  {
    ghost var before := dst[..];
    ScalarLuma(width, height, src, dst);
    ghost var mid := dst[..];
    ScalarChroma(width, height, src, dst);
    BothTurned(width, height, src[..], before, mid, dst[..]);
  }

  method ScalarLuma(width: nat, height: nat, src: array<byte>, dst: array<byte>)
    requires src != dst && HasRoom(width, height, src.Length, dst.Length)
    modifies dst
    ensures Rotated(src[..], LumaFrom(width, height), dst[..], LumaTo(width, height), By90)
    ensures OnlyArea(LumaTo(width, height), old(dst[..]), dst[..])
  {
    ghost var s, d, before := LumaFrom(width, height), LumaTo(width, height), dst[..];
    NothingRotated(src[..], s, before, d, By90);
    hide RotatedTo, OnlyArea, Within;
    var ySrc := 0;
    var yDst := height - 1;
    for i := 0 to height
      invariant ySrc == At(width, i, 0) && yDst == height - 1 - i
      invariant RotatedTo(src[..], s, dst[..], d, By90, i, 0) && OnlyArea(d, before, dst[..])
    {
      ySrc := ScalarLumaLine(width, height, src, dst, i, ySrc, yDst, before);
      yDst := (height - 1) - i - 1;
    }
  }

  method ScalarChroma(width: nat, height: nat, src: array<byte>, dst: array<byte>)
    requires src != dst && HasRoom(width, height, src.Length, dst.Length)
    modifies dst
    ensures Rotated(src[..], ChromaFrom(width, height), dst[..], ChromaTo(width, height), By90)
    ensures OnlyArea(ChromaTo(width, height), old(dst[..]), dst[..])
  {
    ghost var s, d, before := ChromaFrom(width, height), ChromaTo(width, height), dst[..];
    NothingRotated(src[..], s, before, d, By90);
    hide RotatedTo, OnlyArea, Within;
    var uvSrc := width * height;
    var uvDst := width * height + height - 2;
    for i := 0 to height / 2
      invariant uvSrc == width * height + At(2 * (width / 2), i, 0)
      invariant uvDst == width * height + height - 2 - 2 * i
      invariant RotatedTo(src[..], s, dst[..], d, By90, i, 0) && OnlyArea(d, before, dst[..])
    {
      uvSrc := ScalarChromaLine(width, height, src, dst, i, uvSrc, uvDst, before);
      uvDst := width * height + height - 2 - 2 * (i + 1);
    }
  }

  lemma LumaBeforeChroma(width: nat, height: nat)
    ensures Apart(LumaTo(width, height), ChromaTo(width, height))
    ensures Apart(ChromaTo(width, height), LumaTo(width, height))
  {
    WholeLines(LumaTo(width, height), width * height);
  }

  lemma OneThenTheOther(a: Area, b: Area, before: seq<byte>, mid: seq<byte>, after: seq<byte>)
    requires OnlyArea(a, before, mid) && OnlyArea(b, mid, after)
    ensures OnlyTwo(a, b, before, after)
  {
  }

  lemma BothTurned(width: nat, height: nat, src: seq<byte>, before: seq<byte>, mid: seq<byte>, after: seq<byte>)
    requires HasRoom(width, height, |src|, |before|)
    requires Rotated(src, LumaFrom(width, height), mid, LumaTo(width, height), By90)
    requires OnlyArea(LumaTo(width, height), before, mid)
    requires Rotated(src, ChromaFrom(width, height), after, ChromaTo(width, height), By90)
    requires OnlyArea(ChromaTo(width, height), mid, after)
    ensures TurnedBy90(width, height, src, before, after)
  {
    LumaBeforeChroma(width, height);
    OneThenTheOther(LumaTo(width, height), ChromaTo(width, height), before, mid, after);
    hide Rotated, Within, Apart, OnlyArea, OnlyTwo;
    LumaStays(src, LumaFrom(width, height), mid, after, LumaTo(width, height), ChromaTo(width, height), By90);
  }

  // What a luma area holds stays while another area is written.
  lemma LumaStays(src: seq<byte>, s: Area, before: seq<byte>, after: seq<byte>, d: Area, o: Area, g: Angle)
    requires Receives(d, s, g) && Within(d, |before|) && Apart(o, d) && OnlyArea(o, before, after)
    requires Rotated(src, s, before, d, g)
    ensures Rotated(src, s, after, d, g)
  {
    hide Sample;
    forall y: nat, x: nat, b: nat | y < s.rows && x < s.cols && b < s.unit
      ensures Sample(after, d, ToRow(g, s.rows, s.cols, y, x), ToCol(g, s.rows, s.cols, y, x), b)
           == Sample(src, s, y, x, b)
    {
      SampleOfRotated(src, s, before, d, g, y, x, b);
      OtherArea(o, d, before, after, ToRow(g, s.rows, s.cols, y, x), ToCol(g, s.rows, s.cols, y, x), b);
    }
  }

  // An area for the turned chroma, `gap` bytes behind its place.
  function ChromaBehind(width: nat, height: nat, gap: nat): Area {
    Area(width * height + gap, height, 2, width / 2, height / 2)
  }

  // What a rotation by 270 degrees does that puts the chroma there.
  ghost predicate TurnedBy270(width: nat, height: nat, gap: nat, src: seq<byte>, before: seq<byte>, after: seq<byte>) {
    && Rotated(src, LumaFrom(width, height), after, LumaTo(width, height), By270)
    && Rotated(src, ChromaFrom(width, height), after, ChromaBehind(width, height, gap), By270)
    && OnlyTwo(LumaTo(width, height), ChromaBehind(width, height, gap), before, after)
  }

  // The turned chroma is where it belongs.
  ghost predicate ChromaRight(width: nat, height: nat, src: seq<byte>, after: seq<byte>) {
    Rotated(src, ChromaFrom(width, height), after, ChromaBehind(width, height, 0), By270)
  }

  // The first byte there was not, by chance, the one to be put there.
  ghost predicate OtherByte(width: nat, height: nat, gap: nat, src: seq<byte>, before: seq<byte>)
    requires width >= 2
  {
    Sample(src, ChromaFrom(width, height), 0, width / 2 - 1, 0)
    != Sample(before, ChromaBehind(width, height, gap), 0, 0, 0)
  }

  lemma TurnedBehind(src: seq<byte>, s: Area, before: seq<byte>, after: seq<byte>, luma: Area, d: Area, e: Area)
    requires Receives(d, s, By270) && d.rows > 0 && d.cols > 0
    requires e == d.(at := e.at) && d.at < e.at && Within(e, |after|)
    requires End(luma) <= d.at && OnlyTwo(luma, e, before, after)
    requires WrongBefore(src, s, before, d, e, By270)
    ensures !Rotated(src, s, after, d, By270)
  {
    assert Within(d, |after|);
    hide Rotated, WrongBefore, End, Within;
    Misplaced(src, s, before, after, d, e, By270);
  }

  // Chroma turned into an area farther behind is not in the one in front of it.
  lemma ChromaMissed(width: nat, height: nat, gap: nat, gap': nat, src: seq<byte>, before: seq<byte>, after: seq<byte>)
    requires width >= 2 && height >= 2 && gap < gap' && Within(ChromaBehind(width, height, gap'), |after|)
    requires OnlyTwo(LumaTo(width, height), ChromaBehind(width, height, gap'), before, after)
    requires OtherByte(width, height, gap, src, before)
    ensures !Rotated(src, ChromaFrom(width, height), after, ChromaBehind(width, height, gap), By270)
  {
    var s, d, e := ChromaFrom(width, height), ChromaBehind(width, height, gap), ChromaBehind(width, height, gap');
    WholeLines(LumaTo(width, height), width * height);
    hide Rotated, Sample, Within, End, OnlyTwo;
    TurnedBehind(src, s, before, after, LumaTo(width, height), d, e);
  }

  // The chroma is where it belongs if there is no gap or no chroma; otherwise not, unless
  // the right bytes happen to be there before.
  lemma ChromaRightIff(width: nat, height: nat, gap: nat, src: seq<byte>, before: seq<byte>, after: seq<byte>)
    requires TurnedBy270(width, height, gap, src, before, after)
    requires Within(ChromaBehind(width, height, gap), |after|)
    ensures gap == 0 || width < 2 || height < 2 ==> ChromaRight(width, height, src, after)
    ensures gap > 0 && width >= 2 && height >= 2 && OtherByte(width, height, 0, src, before) ==>
              !ChromaRight(width, height, src, after)
  {
    if gap > 0 && width >= 2 && height >= 2 && OtherByte(width, height, 0, src, before) {
      ChromaMissed(width, height, 0, gap, src, before, after);
    }
    hide Sample;
  }

  // nv_rotage270 leaves a gap of half a line, or, for an odd width, of a whole line.
  function Displacement(width: nat, height: nat): nat { if width % 2 == 0 then height / 2 else height }

  function DisplacedChroma(width: nat, height: nat): Area { ChromaBehind(width, height, Displacement(width, height)) }

  ghost predicate HasRoom270(width: nat, height: nat, gap: nat, src: int, dst: int) {
    && Within(LumaFrom(width, height), src) && Within(ChromaFrom(width, height), src)
    && Within(LumaTo(width, height), dst) && Within(ChromaBehind(width, height, gap), dst)
  }

  method ScalarRotate270(width: nat, height: nat, src: array<byte>, dst: array<byte>)
    requires src != dst && HasRoom270(width, height, Displacement(width, height), src.Length, dst.Length)
    modifies dst
    ensures TurnedBy270(width, height, Displacement(width, height), src[..], old(dst[..]), dst[..])
    ensures width < 2 || height < 2 ==> ChromaRight(width, height, src[..], dst[..])
    ensures width >= 2 && height >= 2 && OtherByte(width, height, 0, src[..], old(dst[..])) ==>
              !ChromaRight(width, height, src[..], dst[..])
  {
    ghost var before, gap := dst[..], Displacement(width, height);
    ghost var d, dc := LumaTo(width, height), DisplacedChroma(width, height);
    ChromaBehindLuma(width, height, gap);
    assert Within(d, dst.Length) && Within(dc, dst.Length) && (height >= 2 ==> gap > 0);
    hide RotatedTo, Within, OnlyArea, OnlyTwo, Apart, Displacement, ChromaRight, OtherByte;
    ScalarRotate270Luma(width, height, src, dst);
    ghost var mid := dst[..];
    ScalarRotate270Chroma(width, height, src, dst);
    LumaStays(src[..], LumaFrom(width, height), mid, dst[..], d, dc, By270);
    OneThenTheOther(d, dc, before, mid, dst[..]);
    ChromaRightIff(width, height, gap, src[..], before, dst[..]);
  }

  lemma ChromaBehindLuma(width: nat, height: nat, gap: nat)
    ensures Apart(ChromaBehind(width, height, gap), LumaTo(width, height))
    ensures Apart(LumaTo(width, height), ChromaBehind(width, height, gap))
  {
    WholeLines(LumaTo(width, height), width * height);
  }

  // For every picture that has chroma there are bytes for which it is not right: zeros,
  // turned over ones.
  method ChromaGoesWrong(width: nat, height: nat) returns (src: array<byte>, dst: array<byte>)
    requires width >= 2 && height >= 2
    ensures !ChromaRight(width, height, src[..], dst[..])
  {
    var gap := Displacement(width, height);
    src, dst := ZerosAndOnes(width, height, gap);
    ScalarRotate270(width, height, src, dst);
  }

  lemma RoomFor270(width: nat, height: nat, gap: nat)
    requires width >= 2 && height >= 2
    ensures var s, d := ChromaFrom(width, height), ChromaBehind(width, height, gap);
      && HasRoom270(width, height, gap, End(s), End(d))
      && Pos(s, 0, width / 2 - 1, 0) < End(s) && Pos(ChromaBehind(width, height, 0), 0, 0, 0) < End(d)
  {
    var s, d := ChromaFrom(width, height), ChromaBehind(width, height, gap);
    WholeLines(LumaFrom(width, height), width * height);
    WholeLines(LumaTo(width, height), width * height);
    PosInside(s, 0, width / 2 - 1, 0, End(s));
    PosInside(d, 0, 0, 0, End(d));
  }

  method ZerosAndOnes(width: nat, height: nat, gap: nat) returns (src: array<byte>, dst: array<byte>)
    requires width >= 2 && height >= 2
    ensures fresh(dst) && src != dst && HasRoom270(width, height, gap, src.Length, dst.Length)
    ensures OtherByte(width, height, 0, src[..], dst[..])
  {
    var s, d := ChromaFrom(width, height), ChromaBehind(width, height, gap);
    RoomFor270(width, height, gap);
    hide End, HasRoom270, Pos;
    src := new byte[End(s)](_ => 0);
    dst := new byte[End(d)](_ => 1);
  }

  lemma ChromaStart(width: nat, height: nat, i: nat)
    requires width >= 2
    ensures width * height + height * (width - 1) / 2 + 2 * i
         == DisplacedChroma(width, height).at + At(height, width / 2 - 1, 2 * i)
  {
    var w2 := width / 2;
    if width % 2 == 0 {
      assert width == 2 * w2;
      assert height * (2 * w2 - 1) == 2 * ((w2 - 1) * height) + height;
      HalfOfSum((w2 - 1) * height, height);
    } else {
      assert width == 2 * w2 + 1;
      assert height * (2 * w2) == 2 * ((w2 - 1) * height + height);
      HalfOfSum((w2 - 1) * height + height, 0);
    }
  }

  lemma HalfOfSum(a: nat, b: nat)
    ensures (2 * a + b) / 2 == a + b / 2
  {
  }

  method ScalarRotate270Chroma(width: nat, height: nat, src: array<byte>, dst: array<byte>)
    requires src != dst && HasRoom270(width, height, Displacement(width, height), src.Length, dst.Length)
    modifies dst
    ensures Rotated(src[..], ChromaFrom(width, height), dst[..], DisplacedChroma(width, height), By270)
    ensures OnlyArea(DisplacedChroma(width, height), old(dst[..]), dst[..])
  {
    ghost var s, d, before := ChromaFrom(width, height), DisplacedChroma(width, height), dst[..];
    NothingRotated(src[..], s, before, d, By270);
    hide RotatedTo, OnlyArea, Within;
    var uvSrc := width * height;
    var uvStart := width * height + height * (width - 1) / 2;
    var uvDst := uvStart;
    for i := 0 to height / 2
      invariant uvSrc == width * height + At(2 * (width / 2), i, 0) && uvDst == uvStart + 2 * i
      invariant RotatedTo(src[..], s, dst[..], d, By270, i, 0) && OnlyArea(d, before, dst[..])
    {
      if width >= 2 {
        ChromaStart(width, height, i);
      }
      uvSrc := ScalarChromaLine270(width / 2, height, src, dst, uvSrc, uvDst, s, d, i, before);
      EndOfChromaLine(width / 2, i);
      uvDst := uvStart + 2 * (i + 1);
    }
  }

  // One line of n pairs, from the last line of the turned chroma upwards.
  method ScalarChromaLine270(n: nat, height: nat, src: array<byte>, dst: array<byte>, uvSrc0: nat, uvDst0: int,
                             ghost s: Area, ghost d: Area, ghost i: nat, ghost before: seq<byte>)
      returns (uvSrc: nat)
    requires src != dst && Within(s, src.Length) && Within(d, dst.Length) && |before| == dst.Length
    requires s.unit == 2 && s.cols == n && i < s.rows && Receives(d, s, By270) && d.stride == height
    requires uvSrc0 == Pos(s, i, 0, 0) && (n > 0 ==> uvDst0 == Pos(d, n - 1, i, 0))
    requires RotatedTo(src[..], s, dst[..], d, By270, i, 0) && OnlyArea(d, before, dst[..])
    modifies dst
    ensures uvSrc == Pos(s, i, n, 0)
    ensures RotatedTo(src[..], s, dst[..], d, By270, i + 1, 0) && OnlyArea(d, before, dst[..])
  {
    hide Sample, OnlyArea, RotatedTo, Within, At;
    uvSrc := uvSrc0;
    var uvDst := uvDst0;
    for j := 0 to n
      invariant uvSrc == Pos(s, i, j, 0) && (j < n ==> uvDst == Pos(d, n - 1 - j, i, 0))
      invariant RotatedTo(src[..], s, dst[..], d, By270, i, j) && OnlyArea(d, before, dst[..])
    {
      TurnPair(src, uvSrc, dst, uvDst, s, d, By270, i, j, before);
      AtPlus(s.stride, i, 2 * j, 2);
      if j + 1 < n {
        AtNext(height, n - 2 - j, 2 * i);
      }
      uvSrc := uvSrc + 2;
      uvDst := uvDst - height;
    }
    NextLine(src[..], s, dst[..], d, By270, i);
  }

  // The luma of nv_rotage270.
  method ScalarRotate270Luma(width: nat, height: nat, src: array<byte>, dst: array<byte>)
    requires src != dst && Within(LumaFrom(width, height), src.Length) && Within(LumaTo(width, height), dst.Length)
    modifies dst
    ensures Rotated(src[..], LumaFrom(width, height), dst[..], LumaTo(width, height), By270)
    ensures OnlyArea(LumaTo(width, height), old(dst[..]), dst[..])
  {
    ghost var s, d, before := LumaFrom(width, height), LumaTo(width, height), dst[..];
    NothingRotated(src[..], s, before, d, By270);
    hide RotatedTo, OnlyArea, Within;
    var ySrc := 0;
    var yDst := height * (width - 1);
    for i := 0 to height
      invariant ySrc == At(width, i, 0) && yDst == height * (width - 1) + i
      invariant RotatedTo(src[..], s, dst[..], d, By270, i, 0) && OnlyArea(d, before, dst[..])
    {
      ySrc := ScalarLumaLine270(width, height, src, dst, i, ySrc, yDst, before);
      yDst := height * (width - 1) + i + 1;
    }
  }

  method ScalarLumaLine270(width: nat, height: nat, src: array<byte>, dst: array<byte>,
                           i: nat, ySrc0: nat, yDst0: int, ghost before: seq<byte>)
      returns (ySrc: nat)
    requires src != dst && Within(LumaFrom(width, height), src.Length) && Within(LumaTo(width, height), dst.Length)
    requires |before| == dst.Length && i < height
    requires ySrc0 == At(width, i, 0) && yDst0 == height * (width - 1) + i
    requires RotatedTo(src[..], LumaFrom(width, height), dst[..], LumaTo(width, height), By270, i, 0)
    requires OnlyArea(LumaTo(width, height), before, dst[..])
    modifies dst
    ensures ySrc == At(width, i + 1, 0)
    ensures RotatedTo(src[..], LumaFrom(width, height), dst[..], LumaTo(width, height), By270, i + 1, 0)
    ensures OnlyArea(LumaTo(width, height), before, dst[..])
  {
    ghost var s, d := LumaFrom(width, height), LumaTo(width, height);
    if width > 0 {
      LastLine(width, height, i);
    }
    hide Sample, OnlyArea, RotatedTo, Within, At;
    ySrc := ySrc0;
    var yDst := yDst0;
    for j := 0 to width
      invariant ySrc == At(width, i, j) && (j < width ==> yDst == At(height, width - 1 - j, i))
      invariant RotatedTo(src[..], s, dst[..], d, By270, i, j) && OnlyArea(d, before, dst[..])
    {
      TurnByte(src, ySrc, dst, yDst, s, d, By270, i, j, before);
      AtPlus(width, i, j, 1);
      if j + 1 < width {
        AtNext(height, width - 2 - j, i);
      }
      ySrc := ySrc + 1;
      yDst := yDst - height;
    }
    EndOfLumaLine(width, i);
    NextLine(src[..], s, dst[..], d, By270, i);
  }

  lemma LastLine(width: nat, height: nat, i: nat)
    requires width > 0
    ensures height * (width - 1) + i == At(height, width - 1, i)
  {
  }

  lemma EndOfLumaLine(width: nat, i: nat)
    ensures At(width, i, width) == At(width, i + 1, 0)
  {
  }

  // ----- The same byte by byte -----

  lemma ByteOfRotated(src: seq<byte>, s: Area, dst: seq<byte>, d: Area, g: Angle,
                      y: nat, x: nat, b: nat, p: nat, q: nat)
    requires Receives(d, s, g) && Rotated(src, s, dst, d, g) && y < s.rows && x < s.cols && b < s.unit
    requires p == Pos(s, y, x, b) && p < |src|
    requires q == Pos(d, ToRow(g, s.rows, s.cols, y, x), ToCol(g, s.rows, s.cols, y, x), b) && q < |dst|
    ensures dst[q] == src[p]
  {
    SampleOfRotated(src, s, dst, d, g, y, x, b);
    hide Rotated, Pos;
  }

  lemma LumaBytesOf90(width: nat, height: nat, src: seq<byte>, before: seq<byte>, after: seq<byte>,
                      y: nat, x: nat, from: nat, to: nat)
    requires TurnedBy90(width, height, src, before, after) && y < height && x < width
    requires from == y * width + x && from < |src|
    requires to == x * height + (height - 1 - y) && to < |after|
    ensures after[to] == src[from]
  {
    hide Rotated, OnlyTwo;
    ByteOfRotated(src, LumaFrom(width, height), after, LumaTo(width, height), By90, y, x, 0, from, to);
  }

  lemma ChromaBytesOf90(width: nat, height: nat, src: seq<byte>, before: seq<byte>, after: seq<byte>,
                        y: nat, x: nat, b: nat, from: nat, to: nat)
    requires TurnedBy90(width, height, src, before, after) && y < height / 2 && x < width / 2 && b < 2
    requires from == width * height + (y * (width / 2 * 2) + 2 * x + b) && from < |src|
    requires to == width * height + height % 2 + (x * height + 2 * (height / 2 - 1 - y) + b) && to < |after|
    ensures after[to] == src[from]
  {
    hide Rotated, OnlyTwo;
    ByteOfRotated(src, ChromaFrom(width, height), after, ChromaTo(width, height), By90, y, x, b, from, to);
  }

  lemma LumaBytesOf270(width: nat, height: nat, gap: nat, src: seq<byte>, before: seq<byte>, after: seq<byte>,
                       y: nat, x: nat, from: nat, to: nat)
    requires TurnedBy270(width, height, gap, src, before, after) && y < height && x < width
    requires from == y * width + x && from < |src|
    requires to == (width - 1 - x) * height + y && to < |after|
    ensures after[to] == src[from]
  {
    hide Rotated, OnlyTwo;
    ByteOfRotated(src, LumaFrom(width, height), after, LumaTo(width, height), By270, y, x, 0, from, to);
  }

  lemma ChromaBytesOf270(width: nat, height: nat, gap: nat, src: seq<byte>, before: seq<byte>, after: seq<byte>,
                         y: nat, x: nat, b: nat, from: nat, to: nat)
    requires TurnedBy270(width, height, gap, src, before, after) && y < height / 2 && x < width / 2 && b < 2
    requires from == width * height + (y * (width / 2 * 2) + 2 * x + b) && from < |src|
    requires to == width * height + gap + ((width / 2 - 1 - x) * height + 2 * y + b) && to < |after|
    ensures after[to] == src[from]
  {
    hide Rotated, OnlyTwo;
    ByteOfRotated(src, ChromaFrom(width, height), after, ChromaBehind(width, height, gap), By270, y, x, b, from, to);
  }
}
