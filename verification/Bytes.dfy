// Raw bytes and the little-endian 32-bit words that the wire packets and the
// configuration file are made of.
module Bytes {

  type byte = b: int | 0 <= b < 256
  type int32 = v: int | -0x8000_0000 <= v < 0x8000_0000

  const TWO_32 := 0x1_0000_0000

  function Unsigned(s: seq<byte>): int
    requires |s| == 4
  {
    var b := (i: int) requires 0 <= i < 4 => s[i] as int;
    b(0) + 0x100 * b(1) + 0x1_0000 * b(2) + 0x100_0000 * b(3)
  }

  // The value of a C `int` stored in four bytes, least significant byte first.
  function Word(s: seq<byte>): (v: int32)
    requires |s| == 4
  {
    var u := Unsigned(s);
    if u < 0x8000_0000 then u else u - TWO_32
  }

  function WordBytes(v: int32): (s: seq<byte>)
    ensures |s| == 4
  {
    var u := if v < 0 then v + TWO_32 else v;
    [u % 0x100, u / 0x100 % 0x100, u / 0x1_0000 % 0x100, u / 0x100_0000]
  }

  lemma WordOfWordBytes(v: int32)
    ensures Word(WordBytes(v)) == v
  {
    var u := if v < 0 then v + TWO_32 else v;
    assert u / 0x1_0000 == u / 0x100 / 0x100;
    assert u / 0x100_0000 == u / 0x1_0000 / 0x100;
  }

  lemma WordBytesOfWord(s: seq<byte>)
    requires |s| == 4
    ensures WordBytes(Word(s)) == s
  {
    var u, b, c, d := Unsigned(s), s[1] as int, s[2] as int, s[3] as int;
    assert u / 0x100 == b + 0x100 * c + 0x1_0000 * d;
    assert u / 0x1_0000 == c + 0x100 * d;
  }

  // The bytes of a size, the lowest first.
  lemma LowByteFirst(n: int32)
    requires n >= 0
    ensures Word([n % 256, n / 256 % 256, n / 65536 % 256, n / 16777216]) == n
  {
    assert n / 65536 == n / 256 / 256 && n / 16777216 == n / 65536 / 256;
    assert n == 256 * (n / 256) + n % 256;
  }

  // Words are equal exactly when their bytes are.
  lemma WordIsInjective(s: seq<byte>, t: seq<byte>)
    requires |s| == |t| == 4
    ensures Word(s) == Word(t) <==> s == t
  {
    WordBytesOfWord(s);
    WordBytesOfWord(t);
  }
}
