/** Bytes and little-endian 16 and 32 bit fields of byte strings. */
module LittleEndian {
  type byte = b: int | 0 <= b < 0x100

  type bytes = seq<byte>


  function U16(s: bytes, off: nat): (v: nat)
    requires off + 2 <= |s|
    ensures v < 0x1_0000
  {
    var lo: int, hi: int := s[off], s[off + 1];
    lo + 0x100 * hi
  }

  function U32(s: bytes, off: nat): (v: nat)
    requires off + 4 <= |s|
    ensures v < 0x1_0000_0000
  {
    U16(s, off) + 0x1_0000 * U16(s, off + 2)
  }

  /** The low 16 bits of v. */
  function Le16(v: nat): (s: bytes)
    ensures |s| == 2
  {
    [v % 0x100, v / 0x100 % 0x100]
  }

  /** The low 32 bits of v. */
  function Le32(v: nat): (s: bytes)
    ensures |s| == 4
  {
    Le16(v) + Le16(v / 0x1_0000)
  }

  function Zeros(n: nat): (s: bytes)
    ensures |s| == n
  {
    seq(n, _ => 0)
  }

  /** A field keeps what fits: reading it back gives the value modulo the field's range. */
  lemma Le16Reads(v: nat)
    ensures U16(Le16(v), 0) == v % 0x1_0000
  {
    assert v == 0x1_0000 * (v / 0x1_0000) + 0x100 * (v / 0x100 % 0x100) + v % 0x100 by {
      assert v / 0x100 / 0x100 == v / 0x1_0000;
    }
  }

  lemma Le32Reads(v: nat)
    ensures U32(Le32(v), 0) == v % 0x1_0000_0000
  {
    Le16Reads(v);
    Le16Reads(v / 0x1_0000);
    assert Le32(v)[..2] == Le16(v) && Le32(v)[2..] == Le16(v / 0x1_0000);
    assert v / 0x1_0000 / 0x1_0000 == v / 0x1_0000_0000;
  }

  /** Writing back a field that was read restores its bytes. */
  lemma Le16Restores(s: bytes, off: nat)
    requires off + 2 <= |s|
    ensures Le16(U16(s, off)) == s[off..off + 2]
  {
  }

  lemma Le32Restores(s: bytes, off: nat)
    requires off + 4 <= |s|
    ensures Le32(U32(s, off)) == s[off..off + 4]
  {
    Le16Restores(s, off);
    Le16Restores(s, off + 2);
    var v := U32(s, off);
    assert v / 0x1_0000 == U16(s, off + 2) && v % 0x1_0000 == U16(s, off);
    assert v % 0x100 == U16(s, off) % 0x100 && v / 0x100 % 0x100 == U16(s, off) / 0x100 % 0x100;
  }

  /** A field read from a part of a byte string is the field of the whole. */
  lemma FieldOfSlice(s: bytes, a: nat, b: nat, off: nat)
    requires a <= b <= |s|
    ensures a + off + 2 <= b ==> U16(s[a..b], off) == U16(s, a + off)
    ensures a + off + 4 <= b ==> U32(s[a..b], off) == U32(s, a + off)
  {
  }

  /** The field at a position whose bytes are those of v. */
  lemma FieldAt16(s: bytes, off: nat, v: nat)
    requires off + 2 <= |s| && s[off..off + 2] == Le16(v)
    ensures U16(s, off) == v % 0x1_0000
    ensures v < 0x1_0000 ==> U16(s, off) == v
  {
    Le16Reads(v);
    assert s[off..off + 2][0] == s[off] && s[off..off + 2][1] == s[off + 1];
  }

  lemma FieldAt32(s: bytes, off: nat, v: nat)
    requires off + 4 <= |s| && s[off..off + 4] == Le32(v)
    ensures U32(s, off) == v % 0x1_0000_0000
    ensures v < 0x1_0000_0000 ==> U32(s, off) == v
  {
    Le32Reads(v);
    FieldOfSlice(s, off, off + 4, 0);
  }

  lemma SubSlice(s: bytes, a: nat, b: nat, x: nat, y: nat)
    requires a <= b <= |s| && x <= y <= b - a
    ensures s[a..b][x..y] == s[a + x..a + y]
  {
    forall i | 0 <= i < y - x ensures s[a..b][x..y][i] == s[a + x..a + y][i] {
    }
  }

  /** A field of a part that is known to stand at a. */
  lemma PartField16(s: bytes, a: nat, part: bytes, x: nat, v: nat)
    requires a + |part| <= |s| && s[a..a + |part|] == part
    requires x + 2 <= |part| && part[x..x + 2] == Le16(v)
    ensures v < 0x1_0000 ==> U16(s, a + x) == v
  {
    hide U16, Le16;
    SubSlice(s, a, a + |part|, x, x + 2);
    FieldAt16(s, a + x, v);
  }

  lemma PartField32(s: bytes, a: nat, part: bytes, x: nat, v: nat)
    requires a + |part| <= |s| && s[a..a + |part|] == part
    requires x + 4 <= |part| && part[x..x + 4] == Le32(v)
    ensures v < 0x1_0000_0000 ==> U32(s, a + x) == v
  {
    hide U32, Le32;
    SubSlice(s, a, a + |part|, x, x + 4);
    FieldAt32(s, a + x, v);
  }
}
